/** Container image references: printing a scan artifact, parsing a pod's image
    and deciding whether the scan describes it. */
module ImageRef {
  import opened Text

  datatype Artifact = Artifact(registry: string, repository: string, tag: string, digest: string) {
    /** The artifact as a pod spec would write it. */
    function Render(): string {
      var ref := if registry != "" then registry + "/" + repository else repository;
      if tag != "" then ref + ":" + tag
      else if digest != "" then ref + "@" + digest
      else ref
    }
  }

  /** A first path segment that names a registry. */
  predicate HostLike(head: string) {
    head == "localhost" || !Free(head, '.') || !Free(head, ':')
  }

  /** `[registry/]repository`, registry only when the first segment looks like a host. */
  function ParsePath(rest: string): (string, string) {
    var slash := Index(rest, '/');
    if slash >= 0 && HostLike(rest[..slash]) then (rest[..slash], rest[slash + 1..]) else ("", rest)
  }

  /** `path[:tag]`, where a colon followed by a slash belongs to a registry port. */
  function ParseTag(rest: string): (string, string) {
    var colon := LastIndex(rest, ':');
    if colon >= 0 && Free(rest[colon + 1..], '/') then (rest[..colon], rest[colon + 1..]) else (rest, "")
  }

  function ParseDigest(rest: string): (string, string) {
    var at := LastIndex(rest, '@');
    if at >= 0 then (rest[..at], rest[at + 1..]) else (rest, "")
  }

  function ParseImage(image: string): Artifact {
    var (named, digest) := ParseDigest(TrimSpace(image));
    var (path, tag) := ParseTag(named);
    var (registry, repository) := ParsePath(path);
    Artifact(registry, repository, tag, digest)
  }

  predicate MatchesImage(a: Artifact, want: string) {
    want != "" &&
    var w := ParseImage(want);
    if w.digest != "" then a.digest != "" && EqualFold(a.digest, w.digest)
    else
      && w.repository != "" && EqualFold(a.repository, w.repository)
      && (w.registry != "" ==> EqualFold(a.registry, w.registry))
      && (w.tag != "" ==> a.tag == w.tag)
  }

  /** What a scanner records: no separator inside the wrong part, no white space
      at the ends, and a registry that looks like one. */
  predicate WellFormed(a: Artifact) {
    && Separable(a)
    && (if a.registry != "" then HostLike(a.registry) else RegistryFree(a.repository))
  }

  predicate Separable(a: Artifact) {
    && Trimmed(a.registry) && Trimmed(a.repository) && Trimmed(a.tag) && Trimmed(a.digest)
    && a.repository != "" && Free(a.repository, ':') && Free(a.repository, '@')
    && Free(a.registry, '/') && Free(a.registry, '@')
    && Free(a.tag, '/') && Free(a.tag, ':') && Free(a.tag, '@')
    && Free(a.digest, '@')
  }

  /** The repository's own first segment would not be taken for a registry. */
  predicate RegistryFree(repository: string) {
    var slash := Index(repository, '/');
    slash < 0 || !HostLike(repository[..slash])
  }

  function Path(a: Artifact): string {
    if a.registry != "" then a.registry + ['/'] + a.repository else a.repository
  }

  lemma PathFacts(a: Artifact)
    requires Separable(a)
    ensures Path(a) != "" && Free(Path(a), '@') && Trimmed(Path(a))
    ensures var colon := LastIndex(Path(a), ':'); colon < 0 || !Free(Path(a)[colon + 1..], '/')
  {
    var p := Path(a);
    if a.registry != "" {
      var n := |a.registry|;
      assert p[n] == '/' && p[0] == a.registry[0] && p[|p| - 1] == a.repository[|a.repository| - 1];
      assert forall k | n < k < |p| :: p[k] == a.repository[k - n - 1];
      var colon := LastIndex(p, ':');
      if colon >= 0 {
        assert colon < n;
        assert p[colon + 1..][n - colon - 1] == '/';
      }
    }
  }

  lemma PathParses(a: Artifact)
    requires WellFormed(a)
    ensures ParsePath(Path(a)) == (a.registry, a.repository)
  {
    var p := Path(a);
    if a.registry != "" {
      var n := |a.registry|;
      assert p[n] == '/' && forall k | 0 <= k < n :: p[k] == a.registry[k];
      assert Index(p, '/') == n;
      assert p[..n] == a.registry && p[n + 1..] == a.repository;
    }
  }

  /** The last separator of `left sep right` when `right` has none. */
  lemma CutLast(left: string, sep: char, right: string)
    requires Free(right, sep)
    ensures var s := left + [sep] + right;
      LastIndex(s, sep) == |left| && s[..|left|] == left && s[|left| + 1..] == right
  {
    var s := left + [sep] + right;
    assert s[|left|] == sep;
    assert forall k | |left| < k < |s| :: s[k] == right[k - |left| - 1];
  }

  lemma TrimmedEnds(left: string, mid: string, right: string)
    requires left != "" && right != "" && Trimmed(left) && Trimmed(right)
    ensures Trimmed(left + mid + right)
  {
    var s := left + mid + right;
    assert s[0] == left[0] && s[|s| - 1] == right[|right| - 1];
  }

  lemma FreeConcat(a: string, b: string, c: char)
    ensures Free(a + b, c) <==> Free(a, c) && Free(b, c)
  {
    var s := a + b;
    assert forall k | 0 <= k < |a| :: s[k] == a[k];
    assert forall k | 0 <= k < |b| :: s[|a| + k] == b[k];
  }

  lemma TagParses(path: string, tag: string)
    requires Free(tag, ':') && Free(tag, '/')
    ensures ParseTag(path + [':'] + tag) == (path, tag)
  {
    CutLast(path, ':', tag);
  }

  lemma DigestParses(path: string, digest: string)
    requires Free(digest, '@')
    ensures ParseDigest(path + ['@'] + digest) == (path, digest)
  {
    CutLast(path, '@', digest);
  }

  /** Which digest a rendering shows: the tag hides it. */
  function Shown(a: Artifact): string {
    if a.tag == "" then a.digest else ""
  }

  lemma RenderParts(a: Artifact)
    requires Separable(a)
    ensures var (registry, repository) := ParsePath(Path(a));
      ParseImage(a.Render()) == Artifact(registry, repository, a.tag, Shown(a))
  {
    hide ParsePath, ParseTag, ParseDigest;
    PathFacts(a);
    var p := Path(a);
    PlainParses(p);
    if a.tag != "" {
      var s := p + [':'] + a.tag;
      assert a.Render() == s;
      TrimmedEnds(p, [':'], a.tag);
      TagParses(p, a.tag);
      FreeConcat(p, [':'], '@');
      FreeConcat(p + [':'], a.tag, '@');
      NoDigest(s);
    } else if a.digest != "" {
      assert a.Render() == p + ['@'] + a.digest;
      TrimmedEnds(p, ['@'], a.digest);
      DigestParses(p, a.digest);
    } else {
      NoDigest(p);
    }
  }

  lemma NoDigest(s: string)
    requires Free(s, '@')
    ensures ParseDigest(s) == (s, "")
  {
  }

  lemma PlainParses(path: string)
    requires var colon := LastIndex(path, ':'); colon < 0 || !Free(path[colon + 1..], '/')
    ensures ParseTag(path) == (path, "")
  {
  }

  /** Parsing undoes rendering; the digest survives exactly when there is no tag,
      because the rendering shows only one of the two. */
  lemma ParseOfRender(a: Artifact)
    requires WellFormed(a)
    ensures ParseImage(a.Render()) == a.(digest := if a.tag == "" then a.digest else "")
  {
    hide ParseImage, ParsePath;
    PathParses(a);
    RenderParts(a);
  }

  /** What "about this image" means, for every reference a pod spec would write: a scan is
      about an image pinned by digest when it carries that digest, whatever else it says,
      and about any other when repository, registry where one is given, and tag where one is
      given all agree. */
  lemma MatchesExactly(a: Artifact, want: Artifact)
    requires WellFormed(want)
    ensures MatchesImage(a, want.Render()) <==>
      if want.tag == "" && want.digest != "" then a.digest != "" && SameFold(a.digest, want.digest)
      else
        && SameFold(a.repository, want.repository)
        && (want.registry != "" ==> SameFold(a.registry, want.registry))
        && (want.tag != "" ==> a.tag == want.tag)
  {
    hide ParseImage, SameFold;
    ParseOfRender(want);
    PathFacts(want);
    FoldExactly(a.digest, want.digest);
    FoldExactly(a.repository, want.repository);
    FoldExactly(a.registry, want.registry);
  }

  /** The reference with both tag and digest in it. */
  function InFull(a: Artifact): string {
    var tagged := if a.tag != "" then Path(a) + [':'] + a.tag else Path(a);
    if a.digest != "" then tagged + ['@'] + a.digest else tagged
  }

  /** Nothing of a full reference is lost in parsing. */
  lemma ParseInFull(a: Artifact)
    requires WellFormed(a)
    ensures ParseImage(InFull(a)) == a
  {
    hide ParsePath, ParseTag, ParseDigest;
    PathFacts(a);
    PathParses(a);
    var p := Path(a);
    PlainParses(p);
    var tagged := if a.tag != "" then p + [':'] + a.tag else p;
    if a.tag != "" {
      TrimmedEnds(p, [':'], a.tag);
      TagParses(p, a.tag);
      FreeConcat(p, [':'], '@');
      FreeConcat(p + [':'], a.tag, '@');
    }
    if a.digest != "" {
      TrimmedEnds(tagged, ['@'], a.digest);
      DigestParses(tagged, a.digest);
    } else {
      NoDigest(tagged);
    }
  }

  /** A digest makes the tag beside it decoration. */
  lemma DigestBeatsTag(a: Artifact, want: Artifact)
    requires WellFormed(want) && want.digest != ""
    ensures MatchesImage(a, InFull(want)) <==> a.digest != "" && SameFold(a.digest, want.digest)
  {
    hide ParseImage, SameFold;
    ParseInFull(want);
    FoldExactly(a.digest, want.digest);
    assert InFull(want)[|InFull(want)| - 1] == want.digest[|want.digest| - 1];
  }

  /** The first segment of a path is a registry exactly when it could be a host. */
  lemma RegistryExactly(head: string, rest: string)
    requires Free(head, '/')
    ensures ParsePath(head + ['/'] + rest) ==
      if head == "localhost" || '.' in head || ':' in head then (head, rest) else ("", head + ['/'] + rest)
  {
    var s := head + ['/'] + rest;
    assert s[|head|] == '/' && forall k | 0 <= k < |head| :: s[k] == head[k];
    assert Index(s, '/') == |head|;
    assert s[..|head|] == head && s[|head| + 1..] == rest;
  }

  /** A scan artifact matches its own rendering. */
  lemma MatchesOwnRendering(a: Artifact)
    requires WellFormed(a)
    ensures MatchesImage(a, a.Render())
  {
    MatchesExactly(a, a);
  }

  /** Leaving the registry off a matching reference keeps the match exactly when the
      reference is pinned by digest, or the rest does not itself start with
      something that looks like a registry. */
  lemma RegistryMayBeDropped(a: Artifact, want: Artifact)
    requires WellFormed(want) && MatchesImage(a, want.Render())
    ensures MatchesImage(a, want.(registry := "").Render())
       <==> Shown(want) != "" || RegistryFree(want.repository)
  {
    hide ParseImage, ToUpper;
    var bare := want.(registry := "");
    ParseOfRender(want);
    RenderParts(bare);
    PathFacts(bare);
    FoldLength(a.repository, want.repository);
    FoldLength(a.repository, ParseImage(bare.Render()).repository);
  }

  lemma FoldLength(a: string, b: string)
    ensures EqualFold(a, b) ==> |a| == |b|
  {
    assert |ToUpper(a)| == |a| && |ToUpper(b)| == |b|;
  }

  /** A scan that matches anything at all has a non-empty rendering, so the check's
      "nothing matched yet" test on the empty string never hides a match. */
  lemma MatchIsVisible(a: Artifact, want: string)
    requires MatchesImage(a, want)
    ensures a.Render() != ""
  {
    var w := ParseImage(want);
    if w.digest == "" {
      assert |ToUpper(a.repository)| == |a.repository| && |ToUpper(w.repository)| == |w.repository|;
    }
  }
}
