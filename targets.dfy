/** `cleaner`: turns a command-line target or a line of the target list
    into the URL the crawl starts from. */
module Targets {
  import opened Text
  import opened Links

  /** A target without the substring `http` gets the `https://` scheme put in
      front; either way surrounding whitespace (the line's newline, say) is
      removed. */
  function Clean(url: string): (r: string)
    ensures r == [] || (!IsSpace(r[0]) && !IsSpace(r[|r| - 1]))
    ensures Contains(url, "http") ==> r == Strip(url) && Contains(r, "http")
    ensures !Contains(url, "http") ==> r == Strip(Https + url) && r == Https + RStrip(url)
  {
    if !Contains(url, "http") then
      var r := Strip(Https + url);
      assert Lead(Https + url) == 0;
      RStripConcat(Https, url);
      r
    else
      StripKeepsWord(url, "http");
      Strip(url)
  }

  /** A cleaned target is left as it is by a second cleaning. */
  lemma CleanIdempotent(url: string)
    ensures Clean(Clean(url)) == Clean(url)
  {
    var r := Clean(url);
    if !Contains(url, "http") {
      assert OccursAt(r, "http", 0);
    }
    assert Contains(r, "http");
    StripTrimmed(r);
  }
}
