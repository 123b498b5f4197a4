/** Strings as the operator handles them: trimming, searching, splitting, ordering.
    A string is a sequence of characters; where the operator counts bytes, one
    character stands for one byte.  White space and letter case are ASCII. */
module Text {

  datatype Option<+T> = None | Some(value: T)

  predicate IsSpace(c: char) {
    c == ' ' || '\t' <= c <= '\r'
  }

  /** Tab, line feed, vertical tab, form feed, carriage return and blank. */
  lemma SpaceExactly(c: char)
    ensures IsSpace(c) <==> c as int in {9, 10, 11, 12, 13, 32}
  {
    assert '\t' as int == 9 && '\r' as int == 13 && ' ' as int == 32;
  }

  /** The first position at or after `i` that holds no white space. */
  function SkipSpace(s: string, i: nat): (r: nat)
    requires i <= |s|
    ensures i <= r <= |s|
    ensures r < |s| ==> !IsSpace(s[r])
    ensures i < |s| && !IsSpace(s[i]) ==> r == i
    decreases |s| - i
  {
    if i < |s| && IsSpace(s[i]) then SkipSpace(s, i + 1) else i
  }

  /** The end of the text in s[lo..hi] once trailing white space is dropped. */
  function DropSpace(s: string, lo: nat, hi: nat): (r: nat)
    requires lo <= hi <= |s|
    ensures lo <= r <= hi
    ensures lo < r ==> !IsSpace(s[r - 1])
    ensures lo < hi && !IsSpace(s[hi - 1]) ==> r == hi
    decreases hi
  {
    if lo < hi && IsSpace(s[hi - 1]) then DropSpace(s, lo, hi - 1) else hi
  }

  /** Neither end is white space. */
  predicate Trimmed(s: string) {
    s == "" || (!IsSpace(s[0]) && !IsSpace(s[|s| - 1]))
  }

  function TrimSpace(s: string): (r: string)
    ensures Trimmed(r)
    ensures |r| <= |s|
    ensures Trimmed(s) ==> r == s
  {
    var lo := SkipSpace(s, 0);
    s[lo..DropSpace(s, lo, |s|)]
  }

  /** `c` does not occur in `s`. */
  predicate Free(s: string, c: char) {
    forall k | 0 <= k < |s| :: s[k] != c
  }

  function IndexFrom(s: string, c: char, i: nat): (r: int)
    requires i <= |s|
    ensures r == -1 || i <= r < |s|
    ensures r >= 0 ==> s[r] == c && forall k | i <= k < r :: s[k] != c
    ensures r < 0 ==> forall k | i <= k < |s| :: s[k] != c
    decreases |s| - i
  {
    if i == |s| then -1 else if s[i] == c then i else IndexFrom(s, c, i + 1)
  }

  /** Position of the first `c`, or -1. */
  function Index(s: string, c: char): (i: int)
    ensures -1 <= i < |s|
    ensures i >= 0 ==> s[i] == c && forall k | 0 <= k < i :: s[k] != c
    ensures i < 0 <==> Free(s, c)
  {
    IndexFrom(s, c, 0)
  }

  function LastIndexBefore(s: string, c: char, i: nat): (r: int)
    requires i <= |s|
    ensures -1 <= r < i
    ensures r >= 0 ==> s[r] == c
    ensures forall k | r < k < i :: s[k] != c
  {
    if i == 0 then -1 else if s[i - 1] == c then i - 1 else LastIndexBefore(s, c, i - 1)
  }

  /** Position of the last `c`, or -1. */
  function LastIndex(s: string, c: char): (i: int)
    ensures -1 <= i < |s|
    ensures i >= 0 ==> s[i] == c
    ensures forall k | i < k < |s| :: s[k] != c
    ensures i < 0 <==> Free(s, c)
  {
    LastIndexBefore(s, c, |s|)
  }

  predicate HasSuffix(s: string, suffix: string) {
    |suffix| <= |s| && s[|s| - |suffix|..] == suffix
  }

  predicate HasPrefix(s: string, prefix: string) {
    |prefix| <= |s| && s[..|prefix|] == prefix
  }

  function UpperChar(c: char): char {
    if 'a' <= c <= 'z' then 'A' + (c - 'a') else c
  }

  function ToUpper(s: string): (r: string)
    ensures |r| == |s|
  {
    seq(|s|, i requires 0 <= i < |s| => UpperChar(s[i]))
  }

  /** Equality up to letter case (strings.EqualFold). */
  predicate EqualFold(a: string, b: string) {
    ToUpper(a) == ToUpper(b)
  }

  /** The same character, or the two cases of one letter. */
  predicate SameLetter(c: char, d: char) {
    || c == d
    || ('a' <= c <= 'z' && d as int == c as int - 32)
    || ('a' <= d <= 'z' && c as int == d as int - 32)
  }

  /** Two strings that differ in letter case at most. */
  predicate SameFold(a: string, b: string) {
    |a| == |b| && forall i | 0 <= i < |a| :: SameLetter(a[i], b[i])
  }

  lemma FoldExactly(a: string, b: string)
    ensures EqualFold(a, b) <==> SameFold(a, b)
  {
    if |a| == |b| {
      forall i | 0 <= i < |a| ensures ToUpper(a)[i] == ToUpper(b)[i] <==> SameLetter(a[i], b[i]) {}
      if EqualFold(a, b) {
        forall i | 0 <= i < |a| ensures SameLetter(a[i], b[i]) { assert ToUpper(a)[i] == ToUpper(b)[i]; }
      }
    }
  }

  predicate Blank(s: string) {
    forall i | 0 <= i < |s| :: IsSpace(s[i])
  }

  lemma {:induction false} SkipsBlank(s: string, i: nat, j: nat)
    requires i <= j <= |s| && (forall k | i <= k < j :: IsSpace(s[k])) && (j < |s| ==> !IsSpace(s[j]))
    ensures SkipSpace(s, i) == j
    decreases j - i
  {
    if i < j { SkipsBlank(s, i + 1, j); }
  }

  lemma {:induction false} DropsBlank(s: string, lo: nat, m: nat, hi: nat)
    requires lo <= m <= hi <= |s| && (forall k | m <= k < hi :: IsSpace(s[k])) && (lo < m ==> !IsSpace(s[m - 1]))
    ensures DropSpace(s, lo, hi) == m
    decreases hi - m
  {
    if m < hi { DropsBlank(s, lo, m, hi - 1); }
  }

  /** Trimming removes the white space at both ends, and nothing else. */
  lemma TrimExactly(before: string, text: string, after: string)
    requires Blank(before) && Blank(after) && Trimmed(text)
    ensures TrimSpace(before + text + after) == text
  {
    var s := before + text + after;
    var lo := if text == "" then |s| else |before|;
    assert forall k | 0 <= k < |before| :: s[k] == before[k];
    assert forall k | 0 <= k < |text| :: s[|before| + k] == text[k];
    assert forall k | 0 <= k < |after| :: s[|before| + |text| + k] == after[k];
    assert forall k | |before| + |text| <= k < |s| :: s[k] == after[k - |before| - |text|];
    if text != "" {
      assert s[|before|] == text[0] && s[|before| + |text| - 1] == text[|text| - 1];
    }
    SkipsBlank(s, 0, lo);
    DropsBlank(s, lo, lo + |text|, |s|);
  }

  lemma SuffixExactly(s: string, suffix: string)
    ensures HasSuffix(s, suffix) <==> exists head :: s == head + suffix
  {
    if HasSuffix(s, suffix) { assert s == s[..|s| - |suffix|] + suffix; }
  }

  function Decimal(n: int): (r: string)
    ensures r != ""
    decreases if n < 0 then 1 - n else n
  {
    if n < 0 then "-" + Decimal(-n)
    else if n < 10 then ["0123456789"[n]]
    else Decimal(n / 10) + ["0123456789"[n % 10]]
  }

  /** The number a string of digits stands for. */
  ghost function Value(digits: string): int {
    if digits == "" then 0
    else 10 * Value(digits[..|digits| - 1]) + (digits[|digits| - 1] as int - '0' as int)
  }

  /** Printing a number loses nothing: its digits still say what it was. */
  lemma {:induction false} ValueOfDecimal(n: nat)
    ensures Value(Decimal(n)) == n
    ensures forall i | 0 <= i < |Decimal(n)| :: '0' <= Decimal(n)[i] <= '9'
    decreases n
  {
    DigitValue(n % 10);
    if n >= 10 {
      ValueOfDecimal(n / 10);
      ValuePush(Decimal(n / 10), "0123456789"[n % 10]);
    } else {
      ValuePush("", "0123456789"[n]);
      assert "" + ["0123456789"[n]] == Decimal(n);
    }
    hide Value;
  }

  lemma DigitValue(d: nat)
    requires d < 10
    ensures "0123456789"[d] as int == '0' as int + d
  {
  }

  lemma ValuePush(head: string, last: char)
    ensures Value(head + [last]) == 10 * Value(head) + (last as int - '0' as int)
  {
    assert (head + [last])[..|head|] == head;
  }

  // ---- Split and Join ----

  function Split(s: string, sep: char): (r: seq<string>)
    ensures r != []
    decreases |s|
  {
    var i := Index(s, sep);
    if i < 0 then [s] else [s[..i]] + Split(s[i + 1..], sep)
  }

  function Join(parts: seq<string>, sep: char): string {
    if parts == [] then ""
    else if |parts| == 1 then parts[0]
    else parts[0] + [sep] + Join(parts[1..], sep)
  }

  /** How Split reads a string with a known first field. */
  lemma SplitFirst(a: string, sep: char, b: string)
    requires Free(a, sep)
    ensures Split(a + [sep] + b, sep) == [a] + Split(b, sep)
  {
    var s := a + [sep] + b;
    assert s[|a|] == sep;
    assert forall k | 0 <= k < |a| :: s[k] == a[k];
    assert Index(s, sep) == |a|;
    assert s[..|a|] == a && s[|a| + 1..] == b;
  }

  lemma {:induction false} JoinSplit(s: string, sep: char)
    ensures Join(Split(s, sep), sep) == s
    decreases |s|
  {
    var i := Index(s, sep);
    if i >= 0 {
      var a, b := s[..i], s[i + 1..];
      assert s == a + [sep] + b;
      SplitFirst(a, sep, b);
      JoinSplit(b, sep);
      assert ([a] + Split(b, sep))[1..] == Split(b, sep);
    }
  }

  /** The separator-free pieces of a whole list of strings. */
  function Pieces(parts: seq<string>, sep: char): seq<string> {
    if parts == [] then [] else Split(parts[0], sep) + Pieces(parts[1..], sep)
  }

  lemma Regroup<T>(x: seq<T>, y: seq<T>, z: seq<T>, u: seq<T>, v: seq<T>)
    ensures x + y + z + u + v == x + y + (z + u + v)
    ensures x + (y + z) == x + y + z
  {
  }

  lemma {:induction false} SplitConcat(a: string, sep: char, b: string)
    ensures Split(a + [sep] + b, sep) == Split(a, sep) + Split(b, sep)
    decreases |a|
  {
    var i := Index(a, sep);
    if i < 0 {
      SplitFirst(a, sep, b);
    } else {
      var a1, a2 := a[..i], a[i + 1..];
      assert a == a1 + [sep] + a2;
      SplitFirst(a1, sep, a2);
      SplitFirst(a1, sep, a2 + [sep] + b);
      Regroup(a1, [sep], a2, [sep], b);
      SplitConcat(a2, sep, b);
      Regroup([a1], Split(a2, sep), Split(b, sep), [], []);
    }
  }

  lemma {:induction false} SplitJoin(parts: seq<string>, sep: char)
    requires parts != []
    ensures Split(Join(parts, sep), sep) == Pieces(parts, sep)
  {
    if |parts| == 1 {
      assert Pieces(parts[1..], sep) == [];
      assert Pieces(parts, sep) == Split(parts[0], sep) + [];
    } else {
      SplitConcat(parts[0], sep, Join(parts[1..], sep));
      SplitJoin(parts[1..], sep);
    }
  }

  /** Two joined lists coincide exactly when their separator-free pieces do. */
  lemma {:induction false} JoinEqual(a: seq<string>, b: seq<string>, sep: char)
    requires a != [] && b != []
    ensures Join(a, sep) == Join(b, sep) <==> Pieces(a, sep) == Pieces(b, sep)
  {
    SplitJoin(a, sep);
    SplitJoin(b, sep);
    JoinSplit(Join(a, sep), sep);
    JoinSplit(Join(b, sep), sep);
  }

  lemma {:induction false} PiecesOfAtoms(parts: seq<string>, sep: char)
    requires forall p | p in parts :: Free(p, sep)
    ensures Pieces(parts, sep) == parts
  {
    if parts != [] {
      PiecesOfAtoms(parts[1..], sep);
      assert Split(parts[0], sep) == [parts[0]];
    }
  }

  // ---- Lexicographic order and sorting (sort.Strings) ----

  predicate LexLe(a: string, b: string) {
    a == "" || (b != "" && (a[0] < b[0] || (a[0] == b[0] && LexLe(a[1..], b[1..]))))
  }

  /** What the order goes by: the first character in which two strings differ, and a string
      before every longer one that begins with it. */
  lemma {:induction false} LexExactly(common: string, c: char, a: string, d: char, b: string)
    requires c != d
    ensures LexLe(common + [c] + a, common + [d] + b) <==> c < d
    ensures LexLe(common, common + [c] + a) && !LexLe(common + [c] + a, common)
  {
    var s, t := common + [c] + a, common + [d] + b;
    if common != "" {
      LexExactly(common[1..], c, a, d, b);
      assert s[0] == t[0] == common[0];
      assert s[1..] == common[1..] + [c] + a && t[1..] == common[1..] + [d] + b;
    }
  }

  lemma {:induction false} LexTotal(a: string, b: string)
    ensures LexLe(a, b) || LexLe(b, a)
  {
    if a != "" && b != "" && a[0] == b[0] { LexTotal(a[1..], b[1..]); }
  }

  lemma {:induction false} LexAntisymmetric(a: string, b: string)
    requires LexLe(a, b) && LexLe(b, a)
    ensures a == b
  {
    if a != "" {
      LexAntisymmetric(a[1..], b[1..]);
      assert a == [a[0]] + a[1..] && b == [b[0]] + b[1..];
    }
  }

  lemma {:induction false} LexTransitive(a: string, b: string, c: string)
    requires LexLe(a, b) && LexLe(b, c)
    ensures LexLe(a, c)
  {
    if a != "" && a[0] == b[0] && b[0] == c[0] { LexTransitive(a[1..], b[1..], c[1..]); }
  }

  ghost predicate Sorted(s: seq<string>) {
    forall i, j | 0 <= i < j < |s| :: LexLe(s[i], s[j])
  }

  function Insert(x: string, s: seq<string>): (r: seq<string>)
    ensures multiset(r) == multiset([x]) + multiset(s)
  {
    if s == [] then [x]
    else if LexLe(x, s[0]) then [x] + s
    else
      assert s == [s[0]] + s[1..];
      [s[0]] + Insert(x, s[1..])
  }

  function Sort(s: seq<string>): (r: seq<string>)
    ensures multiset(r) == multiset(s)
  {
    if s == [] then [] else
      assert s == [s[0]] + s[1..];
      Insert(s[0], Sort(s[1..]))
  }

  lemma {:induction false} InsertSorted(x: string, s: seq<string>)
    requires Sorted(s)
    ensures Sorted(Insert(x, s))
  {
    if s == [] {
    } else if LexLe(x, s[0]) {
      forall j | 0 <= j < |s| ensures LexLe(x, s[j]) {
        if j > 0 { LexTransitive(x, s[0], s[j]); }
      }
    } else {
      LexTotal(x, s[0]);
      var rest := Insert(x, s[1..]);
      InsertSorted(x, s[1..]);
      forall j | 0 <= j < |rest| ensures LexLe(s[0], rest[j]) {
        assert rest[j] in multiset([x]) + multiset(s[1..]);
        if rest[j] != x { assert rest[j] in s[1..]; }
      }
    }
  }

  lemma {:induction false} SortSorted(s: seq<string>)
    ensures Sorted(Sort(s))
  {
    if s != [] {
      SortSorted(s[1..]);
      InsertSorted(s[0], Sort(s[1..]));
    }
  }

  lemma SortedHead(a: seq<string>, b: seq<string>)
    requires a != [] && Sorted(a) && b != [] && b[0] in a
    ensures LexLe(a[0], b[0]) || a[0] == b[0]
  {
  }

  /** A multiset of strings has one sorted arrangement. */
  lemma {:induction false} SortedUnique(a: seq<string>, b: seq<string>)
    requires Sorted(a) && Sorted(b) && multiset(a) == multiset(b)
    ensures a == b
  {
    assert |a| == |multiset(a)| == |multiset(b)| == |b|;
    if a != [] {
      assert a[0] in multiset(b) && b[0] in multiset(a);
      SortedHead(a, b);
      SortedHead(b, a);
      if a[0] != b[0] { LexAntisymmetric(a[0], b[0]); }
      SameTails(a, b);
      SortedUnique(a[1..], b[1..]);
      assert a == [a[0]] + a[1..] && b == [b[0]] + b[1..];
    }
  }

  lemma SameTails(a: seq<string>, b: seq<string>)
    requires a != [] && b != [] && a[0] == b[0] && multiset(a) == multiset(b)
    ensures multiset(a[1..]) == multiset(b[1..])
  {
    assert a == [a[0]] + a[1..] && b == [b[0]] + b[1..];
    assert multiset(a) == multiset([a[0]]) + multiset(a[1..]);
    assert multiset(b) == multiset([a[0]]) + multiset(b[1..]);
    assert multiset(a[1..]) == multiset(a) - multiset([a[0]]);
    assert multiset(b[1..]) == multiset(b) - multiset([a[0]]);
  }

  /** Sorting canonicalises: equal results exactly for equal multisets. */
  lemma {:induction false} SortCanonical(a: seq<string>, b: seq<string>)
    ensures Sort(a) == Sort(b) <==> multiset(a) == multiset(b)
    ensures Sorted(a) ==> Sort(a) == a
  {
    SortSorted(a);
    SortSorted(b);
    if multiset(a) == multiset(b) { SortedUnique(Sort(a), Sort(b)); }
    if Sorted(a) { SortedUnique(Sort(a), a); }
  }
}
