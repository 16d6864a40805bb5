/** The link extractor `gather_links`: the `re.findall` scan of a page for
    the pattern `http[s]?://(?:[a-zA-Z]|[0-9]|[$-_@.&+]|[!*\(\), ]|%XX)+`,
    written out as a left-to-right scanner, followed by the `checker` filter
    and deduplication. */
module Links {
  import opened Wrappers
  import opened Text

  /** The characters the pattern's repeated group accepts one at a time. The
      range `$-_` spans 0x24..0x5F, so it holds `/ : ; < = > ? [ \ ] ^ ' %`,
      upper-case letters and digits too. The `%XX` alternative is implied by
      the single characters (`%` and hex digits are all members), so a run of
      the group is exactly a run of members. */
  predicate InClass(c: char)
    ensures InClass(c) <==> ' ' <= c <= 'z' && c != '"' && c != '#' && c != '`'
  {
    || ('a' <= c <= 'z') || ('A' <= c <= 'Z')
    || ('0' <= c <= '9')
    || ('$' <= c <= '_') || c == '@' || c == '.' || c == '&' || c == '+'
    || c == '!' || c == '*' || c == '(' || c == ')' || c == ',' || c == ' '
  }

  predicate AllInClass(t: string)
  {
    forall i | 0 <= i < |t| :: InClass(t[i])
  }

  const Http: string := "http://"
  const Https: string := "https://"

  /** A string the pattern matches as a whole: the lower-case scheme
      `http://` or `https://` followed by one or more class characters. */
  predicate IsToken(t: string)
  {
    || (IsPrefix(Http, t) && |t| > |Http| && AllInClass(t[|Http|..]))
    || (IsPrefix(Https, t) && |t| > |Https| && AllInClass(t[|Https|..]))
  }

  /** The scheme is matched case-sensitively: every token starts with the
      lower-case letters `http`, so `HTTP://...` never matches. */
  lemma TokenSchemeIsLowerCase(t: string)
    requires IsToken(t)
    ensures |t| > 4 && t[..4] == "http"
  {
    if IsPrefix(Http, t) {
      assert t[..4] == t[..|Http|][..4];
    } else {
      assert t[..4] == t[..|Https|][..4];
    }
  }

  /** Length of the `http[s]?://` part when it matches at p, otherwise 0. */
  function SchemeLength(s: string, p: nat): nat
    requires p <= |s|
  {
    if IsPrefix(Https, s[p..]) then |Https|
    else if IsPrefix(Http, s[p..]) then |Http|
    else 0
  }

  lemma SchemesExclusive(t: string)
    ensures !(IsPrefix(Http, t) && IsPrefix(Https, t))
  {
    if IsPrefix(Http, t) {
      assert t[4] == Http[4];
    }
  }

  /** The slice s[p..e] is a token exactly when the scheme matches at p and
      the characters from its end up to e, at least one, are class members. */
  predicate TokenShapeAt(s: string, p: nat, e: nat)
    requires p <= e <= |s|
  {
    var h := SchemeLength(s, p);
    h > 0 && p + h < e && forall k | p + h <= k < e :: InClass(s[k])
  }

  /** A prefix no longer than the slice s[p..e] is a prefix of it exactly
      when it is one of s[p..]. */
  lemma PrefixOfSlice(s: string, p: nat, e: nat, w: string)
    requires p <= e <= |s| && |w| <= e - p
    ensures IsPrefix(w, s[p..e]) <==> IsPrefix(w, s[p..])
  {
    assert s[p..e][..|w|] == s[p..p + |w|] == s[p..][..|w|];
  }

  /** The part of s[p..e] after its first h characters is all class
      characters exactly when s is from p + h up to e. */
  lemma ClassOfSlice(s: string, p: nat, e: nat, h: nat)
    requires p + h <= e <= |s|
    ensures AllInClass(s[p..e][h..]) <==> forall k | p + h <= k < e :: InClass(s[k])
  {
    assert s[p..e][h..] == s[p + h..e];
    assert forall k | p + h <= k < e :: s[k] == s[p + h..e][k - p - h];
  }

  lemma TokenAtEnd(s: string, p: nat, e: nat)
    requires p <= e <= |s|
    ensures IsToken(s[p..e]) <==> TokenShapeAt(s, p, e)
  {
    var t := s[p..e];
    SchemesExclusive(t);
    SchemesExclusive(s[p..]);
    if |Http| <= e - p {
      PrefixOfSlice(s, p, e, Http);
      ClassOfSlice(s, p, e, |Http|);
    }
    if |Https| <= e - p {
      PrefixOfSlice(s, p, e, Https);
      ClassOfSlice(s, p, e, |Https|);
    }
  }

  lemma TokenAt(s: string, p: nat)
    requires p <= |s|
    ensures forall e | p <= e <= |s| :: IsToken(s[p..e]) <==> TokenShapeAt(s, p, e)
  {
    forall e | p <= e <= |s|
      ensures IsToken(s[p..e]) <==> TokenShapeAt(s, p, e)
    {
      TokenAtEnd(s, p, e);
    }
  }

  /** End of the maximal run of class characters that starts at j. */
  function RunEnd(s: string, j: nat): (e: nat)
    requires j <= |s|
    ensures j <= e <= |s|
    ensures forall k | j <= k < e :: InClass(s[k])
    ensures e < |s| ==> !InClass(s[e])
    decreases |s| - j
  {
    if j < |s| && InClass(s[j]) then RunEnd(s, j + 1) else j
  }

  /** The end of the pattern's match that starts at position p, if any: the
      scheme, then the longest run of pattern characters, which must not be
      empty. */
  function MatchAt(s: string, p: nat): (m: Option<nat>)
    requires p <= |s|
    ensures m.Some? ==> p < m.value <= |s|
  {
    var h := SchemeLength(s, p);
    if h == 0 then None
    else
      var e := RunEnd(s, p + h);
      if e == p + h then None else Some(e)
  }

  /** What a match is: a token that cannot be extended (the `+` is greedy);
      when there is none, no token starts at p at all. */
  lemma MatchAtSpec(s: string, p: nat)
    requires p <= |s|
    ensures var m := MatchAt(s, p);
      && (m.Some? ==> IsToken(s[p..m.value]) && (m.value == |s| || !InClass(s[m.value])))
      && (m.None? ==> forall e | p < e <= |s| :: !IsToken(s[p..e]))
  {
    TokenAt(s, p);
  }

  /** The position range [start, end) of one match in the scanned text. */
  datatype Span = Span(start: nat, end: nat)

  /** The spans `re.findall` reports from position p on: the match at p if
      there is one, scanning resumes at its end; otherwise it resumes one
      character later. */
  function Spans(s: string, p: nat): (r: seq<Span>)
    requires p <= |s|
    ensures forall k | 0 <= k < |r| :: p <= r[k].start < r[k].end <= |s|
    ensures forall k | 0 <= k < |r| :: MatchAt(s, r[k].start) == Some(r[k].end)
    decreases |s| - p
  {
    if p == |s| then []
    else
      match MatchAt(s, p)
      case Some(e) => [Span(p, e)] + Spans(s, e)
      case None => Spans(s, p + 1)
  }

  /** One step of the scan: a match at p is reported and scanning resumes at
      its end; otherwise scanning resumes one character later. */
  lemma SpansStep(s: string, p: nat)
    requires p < |s|
    ensures MatchAt(s, p).Some? ==>
      Spans(s, p) == [Span(p, MatchAt(s, p).value)] + Spans(s, MatchAt(s, p).value)
    ensures MatchAt(s, p).None? ==> Spans(s, p) == Spans(s, p + 1)
  {
  }

  /** Every reported span is a token of the text that cannot be extended. */
  lemma SpansAreTokens(s: string, p: nat)
    requires p <= |s|
    ensures var r := Spans(s, p);
      forall k | 0 <= k < |r| ::
        IsToken(s[r[k].start..r[k].end]) && (r[k].end == |s| || !InClass(s[r[k].end]))
  {
    var r := Spans(s, p);
    forall k | 0 <= k < |r|
      ensures IsToken(s[r[k].start..r[k].end]) && (r[k].end == |s| || !InClass(s[r[k].end]))
    {
      MatchAtSpec(s, r[k].start);
    }
  }

  /** Position q lies inside one of the spans. */
  predicate Covered(r: seq<Span>, q: nat)
  {
    exists k | 0 <= k < |r| :: r[k].start <= q < r[k].end
  }

  /** Each span ends no later than any later one starts. */
  predicate Ordered(r: seq<Span>)
  {
    forall j, k | 0 <= j < k < |r| :: r[j].end <= r[k].start
  }

  /** A span that ends before every span of an ordered list starts extends
      it in order. */
  lemma OrderedCons(r: seq<Span>, head: Span, rest: seq<Span>)
    requires r == [head] + rest
    requires Ordered(rest)
    requires forall k | 0 <= k < |rest| :: head.end <= rest[k].start
    ensures Ordered(r)
  {
    forall j, k | 0 <= j < k < |r|
      ensures r[j].end <= r[k].start
    {
      assert r[k] == rest[k - 1];
      if j > 0 {
        assert r[j] == rest[j - 1];
      }
    }
  }

  /** A match at p keeps the spans ordered: it ends where the rest begin. */
  lemma OrderedAfterMatch(s: string, p: nat, e: nat)
    requires p < |s| && MatchAt(s, p) == Some(e)
    requires Ordered(Spans(s, e))
    ensures Ordered(Spans(s, p))
  {
    SpansStep(s, p);
    OrderedCons(Spans(s, p), Span(p, e), Spans(s, e));
  }

  /** No match at p: the spans are those found from p + 1. */
  lemma OrderedAfterMiss(s: string, p: nat)
    requires p < |s| && MatchAt(s, p).None?
    requires Ordered(Spans(s, p + 1))
    ensures Ordered(Spans(s, p))
  {
    SpansStep(s, p);
  }

  /** Matches are reported left to right and do not overlap. */
  lemma {:induction false} SpansOrdered(s: string, p: nat)
    requires p <= |s|
    ensures Ordered(Spans(s, p))
    decreases |s| - p
  {
    if p < |s| {
      match MatchAt(s, p)
      case Some(e) =>
        SpansOrdered(s, e);
        OrderedAfterMatch(s, p, e);
      case None =>
        SpansOrdered(s, p + 1);
        OrderedAfterMiss(s, p);
    } else {
      assert Spans(s, p) == [];
    }
  }

  /** A position inside the first span, or covered by the later ones, is
      covered by the whole list. */
  lemma CoveredCons(r: seq<Span>, head: Span, rest: seq<Span>, q: nat)
    requires r == [head] + rest
    requires head.start <= q < head.end || Covered(rest, q)
    ensures Covered(r, q)
  {
    if head.start <= q < head.end {
      assert r[0] == head;
    } else {
      var k :| 0 <= k < |rest| && rest[k].start <= q < rest[k].end;
      assert r[k + 1] == rest[k];
    }
  }

  /** No match is missed: every position from p on where a token could start
      lies inside a reported span (a position inside an earlier match is
      consumed by it). */
  lemma {:induction false} SpansComplete(s: string, p: nat)
    requires p <= |s|
    ensures forall q | p <= q < |s| && MatchAt(s, q).Some? :: Covered(Spans(s, p), q)
    decreases |s| - p
  {
    if p < |s| {
      match MatchAt(s, p)
      case Some(e) =>
        SpansComplete(s, e);
        SpansStep(s, p);
        var r, rest := Spans(s, p), Spans(s, e);
        forall q | p <= q < |s| && MatchAt(s, q).Some?
          ensures Covered(r, q)
        {
          CoveredCons(r, Span(p, e), rest, q);
        }
      case None =>
        SpansComplete(s, p + 1);
        SpansStep(s, p);
        forall q | p <= q < |s| && MatchAt(s, q).Some?
          ensures Covered(Spans(s, p), q)
        {
          assert q != p;
        }
    }
  }

  /** The strings `re.findall` returns: the text of every span. */
  function Tokens(s: string): (r: seq<string>)
    ensures |r| == |Spans(s, 0)|
    ensures forall k | 0 <= k < |r| :: IsToken(r[k])
  {
    var spans := Spans(s, 0);
    SpansAreTokens(s, 0);
    seq(|spans|, k requires 0 <= k < |spans| => s[spans[k].start..spans[k].end])
  }

  /** `gather_links`: the tokens of the page that `checker` accepts, each once
      (`list(set(urls))`). The acceptance test, `rfc3987.parse` not raising,
      is the parameter `valid`. */
  function GatherLinks(html: string, valid: string -> bool): (r: seq<string>)
    ensures NoDup(r)
    ensures forall u :: u in r <==> u in Tokens(html) && valid(u)
  {
    Dedup(Filter(Tokens(html), valid))
  }
}
