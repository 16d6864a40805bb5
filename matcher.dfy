/** `parser`: the post-pass that reports which discovered links point at a
    cloud-storage host. */
module Matcher {
  import opened Wrappers
  import opened Text

  /** `cloud_domains` when neither `-k` nor `--keywords-file` is given. */
  const DefaultDomains: seq<string> :=
    ["amazonaws.com", "digitaloceanspaces.com", "windows.net", "storage.googleapis.com", "aliyuncs.com"]

  /** Some keyword of domains occurs in link. */
  predicate MatchesAny(link: string, domains: seq<string>)
  {
    exists d | d in domains :: Contains(link, d)
  }

  /** The list the nested comprehension appends to: for each keyword in
      turn, every link that contains it. */
  function Hits(links: seq<string>, domains: seq<string>): (r: seq<string>)
    ensures forall x :: x in r <==> x in links && MatchesAny(x, domains)
  {
    if domains == [] then []
    else
      var d := domains[|domains| - 1];
      var earlier := domains[..|domains| - 1];
      assert forall x :: MatchesAny(x, domains) <==> MatchesAny(x, earlier) || Contains(x, d);
      Hits(links, earlier) + Filter(links, l => Contains(l, d))
  }

  /** `matches`: the links that contain at least one keyword, each once. */
  function Matches(links: seq<string>, domains: seq<string>): (r: seq<string>)
    ensures NoDup(r)
    ensures forall x :: x in r <==> x in links && MatchesAny(x, domains)
  {
    Dedup(Hits(links, domains))
  }

  lemma NoDomainsNoMatches(links: seq<string>)
    ensures Matches(links, []) == []
  {
  }

  /** An empty keyword is a substring of every link, so everything matches. */
  lemma EmptyKeywordMatchesAll(links: seq<string>, domains: seq<string>)
    requires "" in domains
    ensures forall l | l in links :: l in Matches(links, domains)
  {
    forall l | l in links
      ensures MatchesAny(l, domains)
    {
      ContainsEmpty(l);
    }
  }

  /** The keyword list in effect: the stripped lines of the keywords file if
      one is given, else the `-k` keywords if any, else the defaults. */
  function SelectDomains(keywords: seq<string>, keywordFile: Option<seq<string>>): (r: seq<string>)
    ensures keywordFile.Some? ==> |r| == |keywordFile.value|
    ensures keywordFile.Some? ==> forall k | 0 <= k < |r| ::
      r[k] == Strip(keywordFile.value[k]) && (r[k] == [] || (!IsSpace(r[k][0]) && !IsSpace(r[k][|r[k]| - 1])))
    ensures keywordFile.None? ==> r != [] && (keywords != [] ==> r == keywords)
    ensures keywordFile.None? && keywords == [] ==> r == DefaultDomains
  {
    match keywordFile
    case Some(lines) => seq(|lines|, k requires 0 <= k < |lines| => Strip(lines[k]))
    case None => if keywords != [] then keywords else DefaultDomains
  }

  /** A blank line in the keywords file becomes the empty keyword, which
      every link matches. */
  lemma BlankKeywordLineMatchesAll(links: seq<string>, keywords: seq<string>, lines: seq<string>, k: nat)
    requires k < |lines| && forall i | 0 <= i < |lines[k]| :: IsSpace(lines[k][i])
    ensures forall l | l in links :: l in Matches(links, SelectDomains(keywords, Some(lines)))
  {
    var domains := SelectDomains(keywords, Some(lines));
    assert domains[k] == Strip(lines[k]) == "";
    EmptyKeywordMatchesAll(links, domains);
  }

  /** Of two links, exactly the one that contains a keyword is reported. */
  lemma OneOfTwoMatches(a: string, b: string, domains: seq<string>)
    requires MatchesAny(a, domains) && !MatchesAny(b, domains)
    ensures Matches([a, b], domains) == [a]
  {
    var r := Matches([a, b], domains);
    assert forall x | x in r :: x == a;
    assert Elems(r) == {a};
    NoDupCard(r);
    assert r[0] in r;
  }

  lemma ExampleLinkMatches(a: string)
    requires a == "https://a.amazonaws.com/x"
    ensures MatchesAny(a, DefaultDomains)
  {
    var d := DefaultDomains[0];
    assert d == "amazonaws.com";
    assert a[10..23] == d;
    assert OccursAt(a, d, 10);
    assert d in DefaultDomains && Contains(a, d);
  }

  /** The example link has none of the characters that tell the default
      keywords apart from it. */
  lemma ExampleLinkLacks(b: string)
    requires b == "https://b.example.com/y"
    ensures 'z' !in b && 'g' !in b && 'w' !in b && 'u' !in b
  {
  }

  lemma ExampleLinkMisses(b: string)
    requires b == "https://b.example.com/y"
    ensures !MatchesAny(b, DefaultDomains)
  {
    ExampleLinkLacks(b);
    assert 'z' in DefaultDomains[0];
    AbsentCharNotContained(b, DefaultDomains[0], 'z');
    assert 'g' in DefaultDomains[1];
    AbsentCharNotContained(b, DefaultDomains[1], 'g');
    assert 'w' in DefaultDomains[2];
    AbsentCharNotContained(b, DefaultDomains[2], 'w');
    assert 'g' in DefaultDomains[3];
    AbsentCharNotContained(b, DefaultDomains[3], 'g');
    assert 'u' in DefaultDomains[4];
    AbsentCharNotContained(b, DefaultDomains[4], 'u');
  }

  /** The two-link example with the default keywords: only the S3 link is
      reported. */
  lemma DefaultDomainsExample(links: seq<string>)
    requires links == ["https://a.amazonaws.com/x", "https://b.example.com/y"]
    ensures Matches(links, DefaultDomains) == ["https://a.amazonaws.com/x"]
  {
    ExampleLinkMatches(links[0]);
    ExampleLinkMisses(links[1]);
    OneOfTwoMatches(links[0], links[1], DefaultDomains);
  }
}
