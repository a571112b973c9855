/** Small value-level helpers shared by the models of the backend and the frontend:
    an Option type (Python's None / JavaScript's null), sequence filtering in the
    style of a queryset `.filter(...)` or `Array.prototype.filter`, distinctness,
    and the few string operations the source relies on (ASCII case mapping,
    substring search, and stripping whitespace as JavaScript's `trim` and
    Python's `strip` do). */
module Util {

  datatype Option<+T> = None | Some(value: T)

  /** An optional number read with Python or JavaScript truthiness: a missing value
      (None, null) and 0 are both false. */
  predicate Truthy(v: Option<int>) {
    v.Some? && v.value != 0
  }

  // ---------------------------------------------------------------------------
  // Sequences

  predicate Distinct<T(==)>(s: seq<T>) {
    forall i, j :: 0 <= i < j < |s| ==> s[i] != s[j]
  }

  function Elements<T>(s: seq<T>): set<T> {
    set x | x in s
  }

  /** A sequence without repetitions has as many elements as its set. */
  lemma {:induction false} DistinctCard<T>(s: seq<T>)
    requires Distinct(s)
    ensures |Elements(s)| == |s|
  {
    if s != [] {
      var init := s[..|s| - 1];
      var last := s[|s| - 1];
      assert Distinct(init);
      DistinctCard(init);
      assert s == init + [last];
      assert Elements(s) == Elements(init) + {last};
      assert last !in Elements(init);
    }
  }

  lemma SubsetCard<T>(a: set<T>, b: set<T>)
    requires a <= b
    ensures |a| <= |b|
  {
    assert b == a + (b - a);
  }

  /** Keeps, in their original order, the elements that satisfy `p`. */
  function Filter<T>(s: seq<T>, p: T -> bool): (r: seq<T>)
    ensures |r| <= |s|
    ensures forall i | 0 <= i < |r| :: r[i] in s && p(r[i])
    ensures forall i | 0 <= i < |s| && p(s[i]) :: s[i] in r
    decreases |s|
  {
    if s == [] then [] else (if p(s[0]) then [s[0]] else []) + Filter(s[1..], p)
  }

  /** `r` can be obtained from `s` by deleting elements (greedy matching). */
  predicate IsSubsequence<T(==)>(r: seq<T>, s: seq<T>)
    decreases |s|
  {
    if r == [] then true
    else if s == [] then false
    else if r[0] == s[0] then IsSubsequence(r[1..], s[1..])
    else IsSubsequence(r, s[1..])
  }

  lemma {:induction false} SubsequenceRefl<T>(s: seq<T>)
    ensures IsSubsequence(s, s)
    decreases |s|
  {
    if s != [] {
      SubsequenceRefl(s[1..]);
    }
  }

  lemma {:induction false} FilterIsSubsequence<T>(s: seq<T>, p: T -> bool)
    ensures IsSubsequence(Filter(s, p), s)
    decreases |s|
  {
    if s != [] {
      var r := Filter(s, p);
      FilterIsSubsequence(s[1..], p);
      if p(s[0]) {
        assert r == [s[0]] + Filter(s[1..], p);
        assert r[1..] == Filter(s[1..], p);
      } else {
        assert r == Filter(s[1..], p);
        if r != [] {
          assert r[0] in r;
          assert p(r[0]);
        }
      }
    }
  }

  /** Filtering an already filtered sequence by the same test changes nothing. */
  lemma {:induction false} FilterIdempotent<T>(s: seq<T>, p: T -> bool)
    ensures Filter(Filter(s, p), p) == Filter(s, p)
    decreases |s|
  {
    if s != [] {
      FilterIdempotent(s[1..], p);
      if p(s[0]) {
        var f := Filter(s, p);
        assert f == [s[0]] + Filter(s[1..], p);
        assert f[0] == s[0] && f[1..] == Filter(s[1..], p);
        assert Filter(f, p) == [f[0]] + Filter(f[1..], p);
      } else {
        assert Filter(s, p) == Filter(s[1..], p);
      }
    }
  }

  /** An element is kept exactly when it occurs in `s` and passes the test. */
  lemma FilterMembers<T>(s: seq<T>, p: T -> bool)
    ensures forall x :: x in Filter(s, p) <==> x in s && p(x)
  {
    var r := Filter(s, p);
    forall x | x in r ensures x in s && p(x) {
      var i :| 0 <= i < |r| && r[i] == x;
    }
    forall x | x in s && p(x) ensures x in r {
      var i :| 0 <= i < |s| && s[i] == x;
    }
  }

  /** Filters by tests that agree on every element give the same result. */
  lemma {:induction false} FilterSameTest<T>(s: seq<T>, p: T -> bool, q: T -> bool)
    requires forall x :: p(x) == q(x)
    ensures Filter(s, p) == Filter(s, q)
    decreases |s|
  {
    if s != [] {
      FilterSameTest(s[1..], p, q);
    }
  }

  /** Filtering twice is filtering once by the conjunction of the two tests. */
  lemma {:induction false} FilterFilter<T>(s: seq<T>, p: T -> bool, q: T -> bool, both: T -> bool)
    requires forall x :: both(x) == (p(x) && q(x))
    ensures Filter(Filter(s, p), q) == Filter(s, both)
    decreases |s|
  {
    if s != [] {
      FilterFilter(s[1..], p, q, both);
      if p(s[0]) {
        var f := Filter(s, p);
        assert f == [s[0]] + Filter(s[1..], p);
        assert f[0] == s[0] && f[1..] == Filter(s[1..], p);
        assert Filter(f, q) == (if q(f[0]) then [f[0]] else []) + Filter(f[1..], q);
      } else {
        assert Filter(s, p) == Filter(s[1..], p);
      }
    }
  }

  /** A filter whose test holds of every element keeps the whole sequence. */
  lemma {:induction false} FilterAll<T>(s: seq<T>, p: T -> bool)
    requires forall i | 0 <= i < |s| :: p(s[i])
    ensures Filter(s, p) == s
    decreases |s|
  {
    if s != [] {
      FilterAll(s[1..], p);
    }
  }

  /** A filter whose test holds of no element keeps nothing. */
  lemma {:induction false} FilterNone<T>(s: seq<T>, p: T -> bool)
    requires forall i | 0 <= i < |s| :: !p(s[i])
    ensures Filter(s, p) == []
    decreases |s|
  {
    if s != [] {
      FilterNone(s[1..], p);
    }
  }

  // ---------------------------------------------------------------------------
  // Strings

  predicate IsAsciiLower(c: char) { 'a' <= c <= 'z' }
  predicate IsAsciiUpper(c: char) { 'A' <= c <= 'Z' }
  predicate IsAsciiDigit(c: char) { '0' <= c <= '9' }

  function UpperChar(c: char): char {
    if IsAsciiLower(c) then (c as int - 32) as char else c
  }

  function LowerChar(c: char): char {
    if IsAsciiUpper(c) then (c as int + 32) as char else c
  }

  /** ASCII upper-casing, character by character (Python's `str.upper` on ASCII text). */
  function Upper(s: string): (r: string)
    ensures |r| == |s|
  {
    seq(|s|, i requires 0 <= i < |s| => UpperChar(s[i]))
  }

  /** ASCII lower-casing, the folding used for case-insensitive matching. */
  function Lower(s: string): (r: string)
    ensures |r| == |s|
  {
    seq(|s|, i requires 0 <= i < |s| => LowerChar(s[i]))
  }

  predicate ContainsSubstring(hay: string, needle: string) {
    exists i :: 0 <= i <= |hay| && needle <= hay[i..]
  }

  /** Django's `__icontains` lookup: substring match after case folding. */
  predicate ContainsIgnoringCase(hay: string, needle: string) {
    ContainsSubstring(Lower(hay), Lower(needle))
  }

  /** ECMAScript WhiteSpace and LineTerminator code points, the set `String.prototype.trim` strips. */
  predicate IsJsWhitespace(c: char) {
    c == '\t' || c == '\U{000B}' || c == '\U{000C}' || c == ' ' || c == '\U{00A0}' || c == '\U{FEFF}'
    || c == '\U{1680}' || ('\U{2000}' <= c <= '\U{200A}') || c == '\U{202F}' || c == '\U{205F}' || c == '\U{3000}'
    || c == '\n' || c == '\r' || c == '\U{2028}' || c == '\U{2029}'
  }

  /** The characters Python's `str.strip()` removes when called without arguments. */
  predicate IsPyWhitespace(c: char) {
    c == '\t' || c == '\n' || c == '\U{000B}' || c == '\U{000C}' || c == '\r'
    || ('\U{001C}' <= c <= '\U{001F}') || c == ' ' || c == '\U{0085}' || c == '\U{00A0}'
    || c == '\U{1680}' || ('\U{2000}' <= c <= '\U{200A}') || c == '\U{2028}' || c == '\U{2029}'
    || c == '\U{202F}' || c == '\U{205F}' || c == '\U{3000}'
  }

  /** `s` without its leading characters of the class `ws`. */
  function TrimStart(s: string, ws: char -> bool): (r: string)
    ensures |r| <= |s| && r == s[|s| - |r|..]
    ensures r == [] || !ws(r[0])
    ensures r == [] <==> forall i | 0 <= i < |s| :: ws(s[i])
    decreases |s|
  {
    if s != [] && ws(s[0]) then TrimStart(s[1..], ws) else s
  }

  /** `s` without its trailing characters of the class `ws`. */
  function TrimEnd(s: string, ws: char -> bool): (r: string)
    ensures |r| <= |s| && r == s[..|r|]
    ensures r == [] || !ws(r[|r| - 1])
    ensures r == [] <==> forall i | 0 <= i < |s| :: ws(s[i])
    decreases |s|
  {
    if s != [] && ws(s[|s| - 1]) then TrimEnd(s[..|s| - 1], ws) else s
  }

  /** Stripping both ends: JavaScript's `trim` with `IsJsWhitespace`, Python's `strip` with
      `IsPyWhitespace`. The result is empty exactly when `s` is blank; `TrimIsSlice` shows it
      is what remains of `s` once the whitespace run at each end is removed. */
  function Trim(s: string, ws: char -> bool): (r: string)
    ensures |r| <= |s|
    ensures r == [] || (!ws(r[0]) && !ws(r[|r| - 1]))
    ensures r == [] <==> forall i | 0 <= i < |s| :: ws(s[i])
  {
    var t := TrimStart(s, ws);
    assert t != [] ==> !ws(t[0]);
    TrimEnd(t, ws)
  }

  /** What `TrimStart` drops is whitespace. */
  lemma {:induction false} TrimStartDropsOnlyWs(s: string, ws: char -> bool)
    ensures forall i | 0 <= i < |s| - |TrimStart(s, ws)| :: ws(s[i])
    decreases |s|
  {
    if s != [] && ws(s[0]) {
      TrimStartDropsOnlyWs(s[1..], ws);
      forall i | 1 <= i < |s| - |TrimStart(s, ws)| ensures ws(s[i]) {
        assert s[i] == s[1..][i - 1];
      }
    }
  }

  /** What `TrimEnd` drops is whitespace. */
  lemma {:induction false} TrimEndDropsOnlyWs(s: string, ws: char -> bool)
    ensures forall i | |TrimEnd(s, ws)| <= i < |s| :: ws(s[i])
    decreases |s|
  {
    if s != [] && ws(s[|s| - 1]) {
      TrimEndDropsOnlyWs(s[..|s| - 1], ws);
      forall i | |TrimEnd(s, ws)| <= i < |s| - 1 ensures ws(s[i]) {
        assert s[i] == s[..|s| - 1][i];
      }
    }
  }

  /** The stripped string is the slice of `s` between a leading and a trailing run of `ws`
      characters, the leading run being the one `TrimStart` removes. */
  lemma {:induction false} TrimIsSlice(s: string, ws: char -> bool)
    ensures var r, k := Trim(s, ws), |s| - |TrimStart(s, ws)|;
      && k + |r| <= |s|
      && r == s[k..k + |r|]
      && (forall i | 0 <= i < k :: ws(s[i]))
      && (forall i | k + |r| <= i < |s| :: ws(s[i]))
  {
    var t := TrimStart(s, ws);
    var r := TrimEnd(t, ws);
    var k := |s| - |t|;
    assert Trim(s, ws) == r;
    TrimStartDropsOnlyWs(s, ws);
    TrimEndDropsOnlyWs(t, ws);
    PrefixOfSuffix(s, t, r, ws);
  }

  /** A prefix `r` of a suffix `t` of `s`, where `t` goes on past `r` with `ws` characters
      only, is a slice of `s` followed by `ws` characters only. */
  lemma {:induction false} PrefixOfSuffix(s: string, t: string, r: string, ws: char -> bool)
    requires |t| <= |s| && t == s[|s| - |t|..]
    requires |r| <= |t| && r == t[..|r|]
    requires forall i | |r| <= i < |t| :: ws(t[i])
    ensures var k := |s| - |t|; r == s[k..k + |r|] && forall i | k + |r| <= i < |s| :: ws(s[i])
  {
    var k := |s| - |t|;
    forall i | k + |r| <= i < |s| ensures ws(s[i]) {
      assert s[i] == t[i - k];
    }
  }

  /** A string that already starts and ends outside `ws` is left as it is. */
  lemma {:induction false} TrimKeepsTrimmed(s: string, ws: char -> bool)
    requires s == [] || (!ws(s[0]) && !ws(s[|s| - 1]))
    ensures Trim(s, ws) == s
  {
  }

  /** Stripping twice strips no more than stripping once. */
  lemma {:induction false} TrimIdempotent(s: string, ws: char -> bool)
    ensures Trim(Trim(s, ws), ws) == Trim(s, ws)
  {
    TrimKeepsTrimmed(Trim(s, ws), ws);
  }

  /** A stripped non-empty string starts and ends outside Python's whitespace class. */
  lemma CleanEnds(s: string)
    ensures var c := Clean(s); c == [] || (!IsPyWhitespace(c[0]) && !IsPyWhitespace(c[|c| - 1]))
  {
    var c := Trim(s, IsPyWhitespace);
    assert c == [] || (!IsPyWhitespace(c[0]) && !IsPyWhitespace(c[|c| - 1]));
  }

  /** Case folding twice folds no more than once. */
  lemma {:induction false} LowerIdempotent(s: string)
    ensures Lower(Lower(s)) == Lower(s)
  {
    assert forall i | 0 <= i < |s| :: LowerChar(LowerChar(s[i])) == LowerChar(s[i]);
  }

  lemma {:induction false} UpperIdempotent(s: string)
    ensures Upper(Upper(s)) == Upper(s)
  {
    assert forall i | 0 <= i < |s| :: UpperChar(UpperChar(s[i])) == UpperChar(s[i]);
  }

  /** A character field's value as the server validates it: surrounding whitespace is
      stripped first, as the framework's character fields do by default. */
  function Clean(s: string): string {
    Trim(s, IsPyWhitespace)
  }
}
