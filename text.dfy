/** Operations on strings and lists that the crawler borrows from Python:
    `str.strip`, `w in s`, `s.count(c)`, `list(set(xs))` and `filter`. */
module Text {

  /** Python's `str.isspace` for one character: the characters `str.strip()`
      removes when called without arguments. */
  predicate IsSpace(c: char)
  {
    || ('\t' <= c <= '\r')                 // \t \n \v \f \r
    || ('\U{1c}' <= c <= '\U{1f}')         // file, group, record and unit separators
    || c == ' ' || c == '\U{85}' || c == '\U{a0}' || c == '\U{1680}'
    || ('\U{2000}' <= c <= '\U{200a}')
    || c == '\U{2028}' || c == '\U{2029}' || c == '\U{202f}' || c == '\U{205f}' || c == '\U{3000}'
  }

  /** Number of whitespace characters at the start of s. */
  function Lead(s: string): (n: nat)
    ensures n <= |s|
    ensures forall i | 0 <= i < n :: IsSpace(s[i])
    ensures n < |s| ==> !IsSpace(s[n])
  {
    if s != [] && IsSpace(s[0]) then 1 + Lead(s[1..]) else 0
  }

  /** Number of whitespace characters at the end of s. */
  function Trail(s: string): (n: nat)
    ensures n <= |s|
    ensures forall i | |s| - n <= i < |s| :: IsSpace(s[i])
    ensures n < |s| ==> !IsSpace(s[|s| - n - 1])
  {
    if s != [] && IsSpace(s[|s| - 1]) then 1 + Trail(s[..|s| - 1]) else 0
  }

  /** `s.strip()`: s without its leading and trailing whitespace. The result is
      the slice of s that starts at its first non-whitespace character, and
      only whitespace follows it in s. */
  function Strip(s: string): (r: string)
    ensures |r| <= |s|
    ensures r == [] || (!IsSpace(r[0]) && !IsSpace(r[|r| - 1]))
    ensures Lead(s) + |r| <= |s| && r == s[Lead(s)..Lead(s) + |r|]
    ensures forall i | Lead(s) + |r| <= i < |s| :: IsSpace(s[i])
  {
    RStrip(s[Lead(s)..])
  }

  /** `s.rstrip()`: s without its trailing whitespace. */
  function RStrip(s: string): (r: string)
    ensures |r| <= |s| && r == s[..|r|]
    ensures r == [] || !IsSpace(r[|r| - 1])
    ensures forall i | |r| <= i < |s| :: IsSpace(s[i])
  {
    s[..|s| - Trail(s)]
  }

  /** Trailing whitespace after a non-whitespace character is all in the
      second part of a concatenation. */
  lemma {:induction false} TrailConcat(a: string, b: string)
    requires a != [] && !IsSpace(a[|a| - 1])
    ensures Trail(a + b) == Trail(b)
  {
    var ab := a + b;
    if b == [] {
      assert ab == a;
    } else {
      assert ab[|ab| - 1] == b[|b| - 1];
      if IsSpace(b[|b| - 1]) {
        assert ab[..|ab| - 1] == a + b[..|b| - 1];
        TrailConcat(a, b[..|b| - 1]);
      }
    }
  }

  /** Stripping the right end of a concatenation only touches its second
      part when the first ends in a non-whitespace character. */
  lemma RStripConcat(a: string, b: string)
    requires a != [] && !IsSpace(a[|a| - 1])
    ensures RStrip(a + b) == a + RStrip(b)
  {
    TrailConcat(a, b);
    assert (a + b)[..|a| + |b| - Trail(b)] == a + b[..|b| - Trail(b)];
  }

  /** A string without whitespace at either end is its own strip. */
  lemma StripTrimmed(s: string)
    requires s == [] || (!IsSpace(s[0]) && !IsSpace(s[|s| - 1]))
    ensures Strip(s) == s
  {
    assert Lead(s) == 0;
    assert s[Lead(s)..] == s;
  }

  lemma StripIdempotent(s: string)
    ensures Strip(Strip(s)) == Strip(s)
  {
    StripTrimmed(Strip(s));
  }

  /** p is an initial segment of s. */
  predicate IsPrefix(p: string, s: string)
  {
    |p| <= |s| && s[..|p|] == p
  }

  /** The occurrence of w at position i of s. */
  predicate OccursAt(s: string, w: string, i: nat)
  {
    i + |w| <= |s| && s[i..i + |w|] == w
  }

  /** Python's substring test `w in s`. */
  predicate Contains(s: string, w: string)
  {
    exists i: nat | i <= |s| :: OccursAt(s, w, i)
  }

  /** Every string contains the empty string. */
  lemma ContainsEmpty(s: string)
    ensures Contains(s, "")
  {
    assert OccursAt(s, "", 0);
  }

  /** An occurrence of w made of non-whitespace characters survives `strip`. */
  lemma {:induction false} StripKeepsWord(s: string, w: string)
    requires w != [] && forall k | 0 <= k < |w| :: !IsSpace(w[k])
    requires Contains(s, w)
    ensures Contains(Strip(s), w)
  {
    var i: nat :| i <= |s| && OccursAt(s, w, i);
    var r := Strip(s);
    var a := Lead(s);
    assert s[i] == w[0];
    assert a <= i;
    assert s[i + |w| - 1] == w[|w| - 1];
    assert i + |w| <= a + |r|;
    assert r[i - a..i - a + |w|] == s[i..i + |w|];
    assert OccursAt(r, w, i - a);
  }

  /** A character occurring in w but nowhere in s rules out `w in s`. */
  lemma AbsentCharNotContained(s: string, w: string, c: char)
    requires c in w && c !in s
    ensures !Contains(s, w)
  {
  }

  /** Python's `s.count(c)` for a single character. */
  function CountChar(s: string, c: char): (n: nat)
    ensures n <= |s|
    ensures n == 0 <==> c !in s
    ensures n == multiset(s)[c]
  {
    if s == [] then 0
    else
      assert s == s[..|s| - 1] + [s[|s| - 1]];
      CountChar(s[..|s| - 1], c) + (if s[|s| - 1] == c then 1 else 0)
  }

  /** No element occurs twice. */
  predicate NoDup<T(==)>(s: seq<T>)
  {
    forall i, j | 0 <= i < j < |s| :: s[i] != s[j]
  }

  lemma NoDupConcat<T>(a: seq<T>, b: seq<T>)
    requires NoDup(a) && NoDup(b)
    requires forall x | x in b :: x !in a
    ensures NoDup(a + b)
  {
    forall i, j | 0 <= i < j < |a + b|
      ensures (a + b)[i] != (a + b)[j]
    {
      if j >= |a| && i < |a| {
        assert (a + b)[j] in b;
      }
    }
  }

  /** `list(set(s))`: the distinct elements of s, each kept at its first
      occurrence (Python leaves the order unspecified). */
  function Dedup<T(==,!new)>(s: seq<T>): (r: seq<T>)
    ensures NoDup(r)
    ensures forall x :: x in r <==> x in s
    ensures |r| <= |s|
  {
    if s == [] then []
    else
      var r := Dedup(s[..|s| - 1]);
      if s[|s| - 1] in r then r else r + [s[|s| - 1]]
  }

  /** `[x for x in s if p(x)]`: the elements of s that satisfy p, in order. */
  function Filter<T(!new)>(s: seq<T>, p: T -> bool): (r: seq<T>)
    ensures forall x :: x in r <==> x in s && p(x)
    ensures |r| <= |s|
    ensures NoDup(s) ==> NoDup(r)
  {
    if s == [] then []
    else
      var r := Filter(s[..|s| - 1], p);
      if p(s[|s| - 1]) then r + [s[|s| - 1]] else r
  }

  /** The elements of s as a set. */
  function Elems<T(!new)>(s: seq<T>): (e: set<T>)
    ensures forall x :: x in e <==> x in s
  {
    set x | x in s
  }

  /** A list without repetitions has as many elements as its set. */
  lemma {:induction false} NoDupCard<T(!new)>(s: seq<T>)
    requires NoDup(s)
    ensures |Elems(s)| == |s|
  {
    if s != [] {
      var init := s[..|s| - 1];
      NoDupCard(init);
      assert Elems(s) == Elems(init) + {s[|s| - 1]};
      assert s[|s| - 1] !in init;
    }
  }

  lemma {:induction false} SubsetCard<T>(a: set<T>, b: set<T>)
    requires a <= b
    ensures |a| <= |b|
    decreases a
  {
    if a != {} {
      var x :| x in a;
      SubsetCard(a - {x}, b - {x});
    }
  }

  lemma StrictSubsetCard<T>(a: set<T>, b: set<T>)
    requires a < b
    ensures |a| < |b|
  {
    assert b - a != {};
    var x :| x in b - a;
    SubsetCard(a, b - {x});
  }
}
