/** Dotted paths written into nested Helm values: in place on the live release, and into
    an empty tree that a kustomize patch later merges. */
module HelmValues {
  import opened Text

  /** A value: a string, something else that is no map, or a map. */
  datatype Tree = Str(text: string) | Other(id: int) | Node(children: Values)

  type Values = map<string, Tree>

  /** The map under a key, empty when there is none. */
  function Below(t: Values, key: string): Values {
    if key in t && t[key].Node? then t[key].children else map[]
  }

  function SetIn(t: Values, path: seq<string>, value: string): Values
    requires path != []
    decreases |path|
  {
    if |path| == 1 then t[path[0] := Str(value)]
    else t[path[0] := Node(SetIn(Below(t, path[0]), path[1..], value))]
  }

  function Get(t: Values, path: seq<string>): Option<Tree>
    requires path != []
    decreases |path|
  {
    if path[0] !in t then None
    else if |path| == 1 then Some(t[path[0]])
    else if t[path[0]].Node? then Get(t[path[0]].children, path[1..])
    else None
  }

  predicate Agrees(t: Values, path: seq<string>, value: string)
    requires path != []
  {
    Get(t, path) == Some(Str(value))
  }

  /** Writing a path changes nothing exactly when the value is already there. */
  lemma {:induction false} SetChangesExactly(t: Values, path: seq<string>, value: string)
    requires path != []
    ensures SetIn(t, path, value) == t <==> Agrees(t, path, value)
    decreases |path|
  {
    if |path| > 1 {
      SetChangesExactly(Below(t, path[0]), path[1..], value);
    }
  }

  lemma {:induction false} GetAfterSet(t: Values, path: seq<string>, value: string)
    requires path != []
    ensures Agrees(SetIn(t, path, value), path, value)
    decreases |path|
  {
    if |path| > 1 { GetAfterSet(Below(t, path[0]), path[1..], value); }
  }

  /** Neither path leads through the other. */
  predicate Apart(p: seq<string>, q: seq<string>) { !(p <= q) && !(q <= p) }

  lemma ApartBelow(p: seq<string>, q: seq<string>)
    requires Apart(p, q) && p != [] && q != [] && p[0] == q[0]
    ensures |p| > 1 && |q| > 1 && Apart(p[1..], q[1..])
  {
    assert p == [p[0]] + p[1..] && q == [q[0]] + q[1..];
  }

  lemma {:induction false} SetElsewhere(t: Values, p: seq<string>, value: string, q: seq<string>)
    requires p != [] && q != [] && Apart(p, q)
    ensures Get(SetIn(t, p, value), q) == Get(t, q)
    decreases |p|
  {
    if p[0] == q[0] {
      ApartBelow(p, q);
      SetElsewhere(Below(t, p[0]), p[1..], value, q[1..]);
      EmptyHasNothing(q[1..]);
    }
  }

  lemma EmptyHasNothing(q: seq<string>)
    requires q != []
    ensures Get(map[], q) == None
  {
  }

  /** Writes to paths that lead apart commute. */
  lemma {:induction false} SetsCommute(t: Values, p: seq<string>, v: string, q: seq<string>, w: string)
    requires p != [] && q != [] && Apart(p, q)
    ensures SetIn(SetIn(t, p, v), q, w) == SetIn(SetIn(t, q, w), p, v)
    decreases |p|
  {
    if p[0] == q[0] {
      ApartBelow(p, q);
      SetsCommute(Below(t, p[0]), p[1..], v, q[1..], w);
    }
  }

  // ---- Merging ----

  /** Two maps are merged key by key; anything else of `b` replaces what it meets. */
  function Overlay(a: Tree, b: Tree): (r: Tree)
    ensures b.Node? ==> r.Node?
    decreases b
  {
    if a.Node? && b.Node? then
      Node(map k | k in a.children.Keys + b.children.Keys ::
        if k !in b.children then a.children[k]
        else if k in a.children then Overlay(a.children[k], b.children[k])
        else b.children[k])
    else b
  }

  function Merge(t: Values, u: Values): Values { Overlay(Node(t), Node(u)).children }

  lemma MergeEmpty(t: Values)
    ensures Merge(t, map[]) == t
  {
  }

  /** No string of `u` stands where the path leads on. */
  predicate LeadsThrough(u: Values, path: seq<string>)
    requires path != []
    decreases |path|
  {
    |path| == 1 || path[0] !in u || (u[path[0]].Node? && LeadsThrough(u[path[0]].children, path[1..]))
  }

  lemma MergeOntoEmpty(u: Values)
    ensures Merge(map[], u) == u
  {
  }

  /** Merging and stepping down commute wherever the overlay holds no string. */
  lemma BelowMerge(t: Values, u: Values, k: string)
    requires k in u ==> u[k].Node?
    ensures Below(Merge(t, u), k) == Merge(Below(t, k), Below(u, k))
    ensures k in u ==> Merge(t, u)[k] == Node(Merge(Below(t, k), Below(u, k)))
  {
    MergeEmpty(Below(t, k));
    MergeOntoEmpty(Below(u, k));
    MergeAt(t, u, k);
    if k in u {
      assert u[k] == Node(Below(u, k));
      if k in t && t[k].Node? { assert t[k] == Node(Below(t, k)); }
    }
  }

  lemma MergeAt(t: Values, u: Values, k: string)
    ensures k in Merge(t, u) <==> k in t || k in u
    ensures k in u && k in t ==> Merge(t, u)[k] == Overlay(t[k], u[k])
    ensures k in u && k !in t ==> Merge(t, u)[k] == u[k]
    ensures k !in u && k in t ==> Merge(t, u)[k] == t[k]
  {
  }

  /** A write into the merged tree is a write into the overlay. */
  lemma {:induction false} SetOfMerge(t: Values, u: Values, path: seq<string>, value: string)
    requires path != [] && LeadsThrough(u, path)
    ensures SetIn(Merge(t, u), path, value) == Merge(t, SetIn(u, path, value))
    decreases |path|
  {
    if |path| > 1 {
      var k, rest := path[0], path[1..];
      BelowMerge(t, u, k);
      LeadsBelow(u, path);
      SetOfMerge(Below(t, k), Below(u, k), rest, value);
      var wrote := SetIn(u, path, value);
      BelowMerge(t, wrote, k);
      assert wrote == u[k := Node(SetIn(Below(u, k), rest, value))];
      var left, right := SetIn(Merge(t, u), path, value), Merge(t, wrote);
      forall j ensures j in left <==> j in right
               ensures j in left && j != k ==> left[j] == right[j]
      {
        MergeAt(t, u, j);
        MergeAt(t, wrote, j);
      }
    } else {
      var k, wrote := path[0], SetIn(u, path, value);
      var left, right := SetIn(Merge(t, u), path, value), Merge(t, wrote);
      forall j ensures (j in left <==> j in right) && (j in left ==> left[j] == right[j]) {
        MergeAt(t, u, j);
        MergeAt(t, wrote, j);
      }
    }
  }

  lemma LeadsBelow(u: Values, path: seq<string>)
    requires |path| > 1 && LeadsThrough(u, path)
    ensures LeadsThrough(Below(u, path[0]), path[1..])
    ensures path[0] in u ==> u[path[0]].Node?
  {
  }

  // ---- All patches, in some order ----

  type Patches = map<string, string>

  function PathOf(key: string): (r: seq<string>)
    ensures r != []
  {
    Split(key, '.')
  }

  /** The dots of a key, and nothing else, lead down the tree. */
  lemma PathExactly(key: string, rest: string)
    requires Free(key, '.')
    ensures PathOf(key) == [key] && PathOf(key + ['.'] + rest) == [key] + PathOf(rest)
  {
    SplitFirst(key, '.', rest);
  }

  /** The tree after the patches named by `order`, one after the other. */
  function Apply(t: Values, order: seq<string>, patches: Patches): Values
    requires forall k | k in order :: k in patches
  {
    if order == [] then t
    else
      var n := |order| - 1;
      SetIn(Apply(t, order[..n], patches), PathOf(order[n]), patches[order[n]])
  }

  /** Whether some write on the way changed the tree. */
  predicate Modified(t: Values, order: seq<string>, patches: Patches)
    requires forall k | k in order :: k in patches
  {
    if order == [] then false
    else
      var n := |order| - 1;
      Modified(t, order[..n], patches) || Apply(t, order, patches) != Apply(t, order[..n], patches)
  }

  /** The tree a kustomize patch is rendered from: built from nothing, array paths skipped. */
  function Rendered(order: seq<string>, patches: Patches): Values
    requires forall k | k in order :: k in patches
  {
    if order == [] then map[]
    else
      var n := |order| - 1;
      var before := Rendered(order[..n], patches);
      if Free(order[n], '[') then SetIn(before, PathOf(order[n]), patches[order[n]]) else before
  }

  ghost predicate Distinct(keys: seq<string>) {
    forall i, j | 0 <= i < j < |keys| :: keys[i] != keys[j]
  }

  /** Every patch once, in whatever order the map was walked. */
  ghost predicate Orders(order: seq<string>, patches: Patches) {
    && (forall k :: k in order <==> k in patches)
    && Distinct(order)
  }

  ghost predicate PrefixFree(patches: Patches) {
    forall p, q | p in patches && q in patches && p != q :: Apart(PathOf(p), PathOf(q))
  }

  ghost predicate BracketFree(patches: Patches) {
    forall p | p in patches :: Free(p, '[')
  }

  ghost predicate AllAgree(t: Values, order: seq<string>, patches: Patches) {
    forall k | k in order && k in patches :: Agrees(t, PathOf(k), patches[k])
  }

  /** A walk reports no modification exactly when every value was there already. */
  lemma {:induction false} ModifiedExactly(t: Values, order: seq<string>, patches: Patches)
    requires forall k | k in order :: k in patches
    ensures !Modified(t, order, patches) <==> AllAgree(t, order, patches)
    ensures !Modified(t, order, patches) ==> Apply(t, order, patches) == t
  {
    hide PathOf;
    if order != [] {
      var n := |order| - 1;
      assert order == order[..n] + [order[n]];
      ModifiedExactly(t, order[..n], patches);
      SetChangesExactly(t, PathOf(order[n]), patches[order[n]]);
      if AllAgree(t, order, patches) {
        assert order[n] in order && forall k | k in order[..n] :: k in order;
      }
    }
  }

  lemma {:induction false} AgreesAfterApply(t: Values, order: seq<string>, patches: Patches)
    requires forall k | k in order :: k in patches
    requires PrefixFree(patches) && Distinct(order)
    ensures AllAgree(Apply(t, order, patches), order, patches)
  {
    if order != [] {
      var n := |order| - 1;
      var before, last := Apply(t, order[..n], patches), order[n];
      AgreesAfterApply(t, order[..n], patches);
      GetAfterSet(before, PathOf(last), patches[last]);
      forall k | k in order ensures Agrees(Apply(t, order, patches), PathOf(k), patches[k]) {
        if k != last {
          var i :| 0 <= i < |order| && order[i] == k;
          assert order[..n][i] == k;
          SetElsewhere(before, PathOf(last), patches[last], PathOf(k));
        }
      }
    }
  }

  /** Two paths at which one tree holds strings lead apart. */
  lemma {:induction false} StringsLieApart(t: Values, p: seq<string>, v: string, q: seq<string>, w: string)
    requires p != [] && q != [] && p != q && Agrees(t, p, v) && Agrees(t, q, w)
    ensures Apart(p, q)
    decreases |p|
  {
    assert p == [p[0]] + p[1..] && q == [q[0]] + q[1..];
    if p[0] == q[0] && |p| > 1 && |q| > 1 { StringsLieApart(t[p[0]].children, p[1..], v, q[1..], w); }
  }

  lemma KeysByPath(p: string, q: string)
    ensures PathOf(p) == PathOf(q) <==> p == q
  {
    JoinSplit(p, '.');
    JoinSplit(q, '.');
  }

  /** A second walk over the patched values finds nothing to do, in whatever order either
      walk went, exactly when no path leads through another; otherwise the release is
      rewritten at every pass for ever. */
  lemma {:induction false} SecondPassQuiet(t: Values, first: seq<string>, second: seq<string>, patches: Patches)
    requires Orders(first, patches) && Orders(second, patches)
    ensures !Modified(Apply(t, first, patches), second, patches) <==> PrefixFree(patches)
  {
    hide PathOf, Agrees;
    var u := Apply(t, first, patches);
    ModifiedExactly(u, second, patches);
    if PrefixFree(patches) { AgreesAfterApply(t, first, patches); }
    if AllAgree(u, second, patches) {
      forall p, q | p in patches && q in patches && p != q ensures Apart(PathOf(p), PathOf(q)) {
        KeysByPath(p, q);
        StringsLieApart(u, PathOf(p), patches[p], PathOf(q), patches[q]);
      }
    }
  }

  /** With paths that lead apart the reported flag says exactly whether the values changed. */
  lemma {:induction false} ModifiedMeansChanged(t: Values, order: seq<string>, patches: Patches)
    requires Orders(order, patches) && PrefixFree(patches)
    ensures Modified(t, order, patches) <==> Apply(t, order, patches) != t
  {
    ModifiedExactly(t, order, patches);
    AgreesAfterApply(t, order, patches);
  }

  // ---- Order does not matter ----

  lemma {:induction false} MoveLast(t: Values, a: seq<string>, x: string, b: seq<string>, patches: Patches)
    requires (forall k | k in a + [x] + b :: k in patches) && PrefixFree(patches) && x !in b
    ensures forall k | k in a + b :: k in a + [x] + b
    ensures Apply(t, a + [x] + b, patches) == SetIn(Apply(t, a + b, patches), PathOf(x), patches[x])
  {
    hide PathOf, PrefixFree, Apply, SetIn, Apart;
    if b == [] {
      assert a + [x] + b == a + [x] && a + b == a;
      ApplyPush(t, a, x, patches);
    } else {
      var n := |b| - 1;
      var y := b[n];
      assert b == b[..n] + [y];
      assert a + [x] + b == (a + [x] + b[..n]) + [y] && a + b == (a + b[..n]) + [y];
      MoveLast(t, a, x, b[..n], patches);
      ApplyPush(t, a + [x] + b[..n], y, patches);
      ApplyPush(t, a + b[..n], y, patches);
      PatchesApart(patches, x, y);
      SetsCommute(Apply(t, a + b[..n], patches), PathOf(x), patches[x], PathOf(y), patches[y]);
    }
  }

  lemma {:induction false} ApplyPush(t: Values, order: seq<string>, key: string, patches: Patches)
    requires key in patches && forall k | k in order :: k in patches
    ensures forall k | k in order + [key] :: k in patches
    ensures Apply(t, order + [key], patches) == SetIn(Apply(t, order, patches), PathOf(key), patches[key])
  {
    assert (order + [key])[..|order|] == order;
  }

  lemma PatchesApart(patches: Patches, p: string, q: string)
    requires PrefixFree(patches) && p in patches && q in patches && p != q
    ensures Apart(PathOf(p), PathOf(q))
  {
  }

  /** Whatever order the map of patches is walked in, the values come out the same. */
  lemma {:induction false} OrderIndependent(t: Values, first: seq<string>, second: seq<string>, patches: Patches)
    requires PrefixFree(patches) && (forall k | k in first :: k in patches) && forall k :: k in first <==> k in second
    requires Distinct(first)
    requires Distinct(second)
    ensures Apply(t, first, patches) == Apply(t, second, patches)
    decreases |second|
  {
    hide PathOf, PrefixFree;
    if second == [] {
      HeadIsIn(first);
    } else {
      var n := |second| - 1;
      var x := second[n];
      assert x in first;
      var i :| 0 <= i < |first| && first[i] == x;
      var a, b := first[..i], first[i + 1..];
      assert first == a + [x] + b;
      MoveLast(t, a, x, b, patches);
      SameElements(first, second, i);
      DistinctWithout(first, i);
      OrderIndependent(t, a + b, second[..n], patches);
    }
  }

  lemma HeadIsIn(s: seq<string>)
    ensures s != [] ==> s[0] in s
  {
  }

  ghost predicate SameKeys(a: seq<string>, b: seq<string>) { forall k :: k in a <==> k in b }

  lemma {:induction false} DistinctWithout(s: seq<string>, i: nat)
    requires i < |s| && Distinct(s)
    ensures Distinct(s[..i] + s[i + 1..])
  {
  }

  lemma {:induction false} SameElements(first: seq<string>, second: seq<string>, i: nat)
    requires second != [] && i < |first| && first[i] == second[|second| - 1]
    requires forall k :: k in first <==> k in second
    requires Distinct(first)
    requires Distinct(second)
    ensures SameKeys(first[..i] + first[i + 1..], second[..|second| - 1])
  {
    var x, n := first[i], |second| - 1;
    var rest := first[..i] + first[i + 1..];
    assert first == first[..i] + [x] + first[i + 1..];
    assert second == second[..n] + [x];
    assert x !in rest && x !in second[..n];
    forall k ensures k in rest <==> k in second[..n] {
      assert k in first <==> k in rest || k == x;
      assert k in second <==> k in second[..n] || k == x;
    }
  }

  /** Two patches may be swapped exactly when neither path leads through the other. */
  lemma {:induction false} OrderMattersExactly(t: Values, rest: seq<string>, p: string, q: string, patches: Patches)
    requires (forall k | k in rest :: k in patches) && p in patches && q in patches && p != q
    ensures Apply(t, rest + [p, q], patches) == Apply(t, rest + [q, p], patches) <==> Apart(PathOf(p), PathOf(q))
  {
    var u := Apply(t, rest, patches);
    ApplyTwo(t, rest, p, q, patches);
    ApplyTwo(t, rest, q, p, patches);
    hide PathOf, Agrees;
    var v, w := SetIn(u, PathOf(p), patches[p]), SetIn(u, PathOf(q), patches[q]);
    GetAfterSet(v, PathOf(q), patches[q]);
    GetAfterSet(w, PathOf(p), patches[p]);
    KeysByPath(p, q);
    if Apart(PathOf(p), PathOf(q)) {
      SetsCommute(u, PathOf(p), patches[p], PathOf(q), patches[q]);
    } else if SetIn(v, PathOf(q), patches[q]) == SetIn(w, PathOf(p), patches[p]) {
      StringsLieApart(SetIn(v, PathOf(q), patches[q]), PathOf(p), patches[p], PathOf(q), patches[q]);
    }
  }

  lemma ApplyTwo(t: Values, rest: seq<string>, p: string, q: string, patches: Patches)
    requires (forall k | k in rest :: k in patches) && p in patches && q in patches
    ensures Apply(t, rest + [p, q], patches)
         == SetIn(SetIn(Apply(t, rest, patches), PathOf(p), patches[p]), PathOf(q), patches[q])
  {
    var all := rest + [p, q];
    assert all[..|all| - 1] == rest + [p] && (rest + [p])[..|rest|] == rest;
  }

  // ---- The two ways of patching agree ----

  lemma {:induction false} SetKeepsLeading(u: Values, p: seq<string>, value: string, q: seq<string>)
    requires p != [] && q != [] && Apart(p, q) && LeadsThrough(u, q)
    ensures LeadsThrough(SetIn(u, p, value), q)
    decreases |p|
  {
    if p[0] == q[0] {
      ApartBelow(p, q);
      LeadsBelow(u, q);
      SetKeepsLeading(Below(u, p[0]), p[1..], value, q[1..]);
    }
  }

  lemma {:induction false} ApplyLeadsThrough(order: seq<string>, patches: Patches, key: string)
    requires (forall k | k in order :: k in patches) && PrefixFree(patches) && key in patches && key !in order
    ensures LeadsThrough(Apply(map[], order, patches), PathOf(key))
  {
    if order != [] {
      var n := |order| - 1;
      assert order[n] in order;
      ApplyLeadsThrough(order[..n], patches, key);
      SetKeepsLeading(Apply(map[], order[..n], patches), PathOf(order[n]), patches[order[n]], PathOf(key));
    }
  }

  lemma {:induction false} ApplyIsMerge(t: Values, order: seq<string>, patches: Patches)
    requires (forall k | k in order :: k in patches) && PrefixFree(patches)
    requires Distinct(order)
    ensures Apply(t, order, patches) == Merge(t, Apply(map[], order, patches))
  {
    hide PathOf, Merge;
    if order == [] {
      MergeEmpty(t);
    } else {
      var n := |order| - 1;
      ApplyIsMerge(t, order[..n], patches);
      ApplyLeadsThrough(order[..n], patches, order[n]);
      SetOfMerge(t, Apply(map[], order[..n], patches), PathOf(order[n]), patches[order[n]]);
    }
  }

  /** The patches of one kind, array paths or not, in the order given. */
  function Kept(order: seq<string>, brackets: bool): (r: seq<string>)
    ensures forall k :: k in r <==> k in order && (!Free(k, '[') <==> brackets)
  {
    if order == [] then []
    else
      var n := |order| - 1;
      assert order == order[..n] + [order[n]];
      Kept(order[..n], brackets) + if !Free(order[n], '[') == brackets then [order[n]] else []
  }

  lemma DistinctPush(keys: seq<string>, key: string)
    requires Distinct(keys) && key !in keys
    ensures Distinct(keys + [key])
  {
  }

  lemma {:induction false} KeptDistinct(order: seq<string>, brackets: bool)
    requires Distinct(order)
    ensures Distinct(Kept(order, brackets))
  {
    if order != [] {
      var n := |order| - 1;
      KeptDistinct(order[..n], brackets);
      var before := Kept(order[..n], brackets);
      assert order[n] !in order[..n];
      if !Free(order[n], '[') == brackets {
        DistinctPush(before, order[n]);
      } else {
        assert Kept(order, brackets) == before;
      }
    }
  }

  /** What is rendered is what the patches without array paths make of nothing. */
  lemma {:induction false} RenderedIsApply(order: seq<string>, patches: Patches)
    requires forall k | k in order :: k in patches
    ensures Rendered(order, patches) == Apply(map[], Kept(order, false), patches)
  {
    if order != [] {
      var n := |order| - 1;
      var before := Kept(order[..n], false);
      assert order[n] in order && forall k | k in order[..n] :: k in order;
      RenderedIsApply(order[..n], patches);
      assert Kept(order, false) == if Free(order[n], '[') then before + [order[n]] else before;
      if Free(order[n], '[') { ApplyPush(map[], before, order[n], patches); }
    }
  }

  lemma {:induction false} ApplyAppend(t: Values, a: seq<string>, b: seq<string>, patches: Patches)
    requires forall k | k in a + b :: k in patches
    ensures (forall k | k in a :: k in patches) && forall k | k in b :: k in patches
    ensures Apply(t, a + b, patches) == Apply(Apply(t, a, patches), b, patches)
  {
    if b == [] {
      assert a + b == a;
    } else {
      var n := |b| - 1;
      assert (a + b)[..|a| + n] == a + b[..n];
      ApplyAppend(t, a, b[..n], patches);
    }
  }

  /** Patches whose paths lead elsewhere do not decide whether a value is in place. */
  lemma {:induction false} AgreesThrough(t: Values, order: seq<string>, patches: Patches, key: string)
    requires (forall k | k in order :: k in patches) && PrefixFree(patches) && key in patches && key !in order
    ensures Agrees(Apply(t, order, patches), PathOf(key), patches[key]) <==> Agrees(t, PathOf(key), patches[key])
  {
    if order != [] {
      var n := |order| - 1;
      assert order[n] in order;
      AgreesThrough(t, order[..n], patches, key);
      SetElsewhere(Apply(t, order[..n], patches), PathOf(order[n]), patches[order[n]], PathOf(key));
    }
  }

  /** The rendered patch leaves array paths out; the direct one writes them as they are
      spelled.  Over any values the two agree exactly when every array path is in place
      there already, spelled that way. */
  lemma {:induction false} BracketsDivergeExactly(
      t: Values, direct: seq<string>, rendered: seq<string>, patches: Patches)
    requires Orders(direct, patches) && Orders(rendered, patches) && PrefixFree(patches)
    ensures Apply(t, direct, patches) == Merge(t, Rendered(rendered, patches)) <==>
              forall k | k in patches && !Free(k, '[') :: Agrees(t, PathOf(k), patches[k])
  {
    var plain, arrays := Kept(rendered, false), Kept(rendered, true);
    KeptApart(rendered);
    OrderIndependent(t, direct, plain + arrays, patches);
    ApplyAppend(t, plain, arrays, patches);
    RenderedIsApply(rendered, patches);
    ApplyIsMerge(t, plain, patches);
    hide Merge, PathOf, PrefixFree, Agrees, Apply;
    var u := Apply(t, plain, patches);
    ModifiedExactly(u, arrays, patches);
    AgreesAfterApply(u, arrays, patches);
    forall k | k in patches && !Free(k, '[')
      ensures k in arrays && (Agrees(u, PathOf(k), patches[k]) <==> Agrees(t, PathOf(k), patches[k]))
    {
      AgreesThrough(t, plain, patches, k);
    }
  }

  /** Patching the live release in place gives what Flux gets by merging the rendered
      patch into the same values, in whatever order either of them walked the patches. */
  lemma {:induction false} DirectIsRendered(t: Values, direct: seq<string>, rendered: seq<string>, patches: Patches)
    requires Orders(direct, patches) && Orders(rendered, patches) && PrefixFree(patches) && BracketFree(patches)
    ensures Apply(t, direct, patches) == Merge(t, Rendered(rendered, patches))
  {
    BracketsDivergeExactly(t, direct, rendered, patches);
  }

  lemma {:induction false} KeptApart(order: seq<string>)
    requires Distinct(order)
    ensures var plain, arrays := Kept(order, false), Kept(order, true);
      Distinct(plain) && Distinct(arrays) && Distinct(plain + arrays) && SameKeys(order, plain + arrays)
  {
    var plain, arrays := Kept(order, false), Kept(order, true);
    KeptDistinct(order, false);
    KeptDistinct(order, true);
    forall i, j | 0 <= i < |plain| && 0 <= j < |arrays| ensures plain[i] != arrays[j] {
      assert plain[i] in plain && arrays[j] in arrays;
    }
  }
}
