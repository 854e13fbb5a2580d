/** The ad blocker: a request interceptor that blocks every request whose URL
    contains a block-list entry anywhere in its text. */
module ContentFilter {
  import opened Strings

  /** The known ad-serving domains the browser installs its interceptor with. */
  const AdBlockList: set<string> := {
    "doubleclick.net", "googleadservices.com", "googlesyndication.com",
    "adservice.google.com", "ads.youtube.com", "ad.doubleclick.net", "adform.net",
    "adnxs.com", "adsrvr.org", "advertising.com", "amazon-adsystem.com",
    "scorecardresearch.com", "2mdn.net", "adzerk.net", "taboola.com", "outbrain.com",
    "pubmatic.com", "rubiconproject.com", "openx.net", "criteo.com",
    "ads.pubmatic.com", "ads.linkedin.com", "ads.facebook.com", "ads.twitter.com"
  }

  /** The interceptor's decision: block when some entry is a substring of the URL,
      wherever it occurs (host, path or query alike). */
  predicate IsBlocked(blockList: set<string>, url: string) {
    exists entry :: entry in blockList && Contains(url, entry)
  }

  /** Blocking is exactly "some entry occurs at some offset of the URL". */
  lemma BlockedIffEntryOccurs(blockList: set<string>, url: string)
    ensures IsBlocked(blockList, url) <==>
            exists entry, i :: entry in blockList && OccursAt(url, entry, i)
  {
    if IsBlocked(blockList, url) {
      var entry :| entry in blockList && Contains(url, entry);
      ContainsIffOccurs(url, entry);
      var i :| OccursAt(url, entry, i);
      assert entry in blockList && OccursAt(url, entry, i);
    }
    if exists entry, i :: entry in blockList && OccursAt(url, entry, i) {
      var entry, i :| entry in blockList && OccursAt(url, entry, i);
      ContainsIffOccurs(url, entry);
    }
  }

  /** The match is not anchored: any URL that embeds a blocked URL anywhere
      (a redirect parameter, a path segment) is itself blocked. */
  lemma BlockedIsUpwardClosed(blockList: set<string>, url: string, larger: string)
    requires IsBlocked(blockList, url) && Contains(larger, url)
    ensures IsBlocked(blockList, larger)
  {
    var entry :| entry in blockList && Contains(url, entry);
    ContainsTransitive(larger, url, entry);
  }

  /** A tracker host is blocked. */
  lemma BlocksDoubleClick()
    ensures IsBlocked(AdBlockList, "https://ads.doubleclick.net/x")
  {
    assert OccursAt("https://ads.doubleclick.net/x", "doubleclick.net", 12);
    ContainsIffOccurs("https://ads.doubleclick.net/x", "doubleclick.net");
  }

  /** Every block-list entry has one of the characters d, g, z, r, 2, b, u, n. */
  predicate LacksAdLetters(url: string) {
    'd' !in url && 'g' !in url && 'z' !in url && 'r' !in url &&
    '2' !in url && 'b' !in url && 'u' !in url && 'n' !in url
  }

  lemma LacksAdLettersPart0(url: string)
    requires LacksAdLetters(url)
    ensures !Contains(url, "doubleclick.net")
    ensures !Contains(url, "googleadservices.com")
    ensures !Contains(url, "googlesyndication.com")
    ensures !Contains(url, "adservice.google.com")
    ensures !Contains(url, "ads.youtube.com")
    ensures !Contains(url, "ad.doubleclick.net")
    ensures !Contains(url, "adform.net")
    ensures !Contains(url, "adnxs.com")
  {
    MissingCharNotContained(url, "doubleclick.net", 'd');
    MissingCharNotContained(url, "googleadservices.com", 'g');
    MissingCharNotContained(url, "googlesyndication.com", 'g');
    MissingCharNotContained(url, "adservice.google.com", 'd');
    MissingCharNotContained(url, "ads.youtube.com", 'd');
    MissingCharNotContained(url, "ad.doubleclick.net", 'd');
    MissingCharNotContained(url, "adform.net", 'd');
    MissingCharNotContained(url, "adnxs.com", 'd');
  }

  lemma LacksAdLettersPart1(url: string)
    requires LacksAdLetters(url)
    ensures !Contains(url, "adsrvr.org")
    ensures !Contains(url, "advertising.com")
    ensures !Contains(url, "amazon-adsystem.com")
    ensures !Contains(url, "scorecardresearch.com")
    ensures !Contains(url, "2mdn.net")
    ensures !Contains(url, "adzerk.net")
    ensures !Contains(url, "taboola.com")
    ensures !Contains(url, "outbrain.com")
  {
    MissingCharNotContained(url, "adsrvr.org", 'd');
    MissingCharNotContained(url, "advertising.com", 'd');
    MissingCharNotContained(url, "amazon-adsystem.com", 'z');
    MissingCharNotContained(url, "scorecardresearch.com", 'r');
    MissingCharNotContained(url, "2mdn.net", '2');
    MissingCharNotContained(url, "adzerk.net", 'd');
    MissingCharNotContained(url, "taboola.com", 'b');
    MissingCharNotContained(url, "outbrain.com", 'u');
  }

  lemma LacksAdLettersPart2(url: string)
    requires LacksAdLetters(url)
    ensures !Contains(url, "pubmatic.com")
    ensures !Contains(url, "rubiconproject.com")
    ensures !Contains(url, "openx.net")
    ensures !Contains(url, "criteo.com")
    ensures !Contains(url, "ads.pubmatic.com")
    ensures !Contains(url, "ads.linkedin.com")
    ensures !Contains(url, "ads.facebook.com")
    ensures !Contains(url, "ads.twitter.com")
  {
    MissingCharNotContained(url, "pubmatic.com", 'u');
    MissingCharNotContained(url, "rubiconproject.com", 'r');
    MissingCharNotContained(url, "openx.net", 'n');
    MissingCharNotContained(url, "criteo.com", 'r');
    MissingCharNotContained(url, "ads.pubmatic.com", 'd');
    MissingCharNotContained(url, "ads.linkedin.com", 'd');
    MissingCharNotContained(url, "ads.facebook.com", 'd');
    MissingCharNotContained(url, "ads.twitter.com", 'd');
  }

  /** A URL without any of those characters is never blocked. */
  lemma AllowsUrlsWithoutAdLetters(url: string)
    requires LacksAdLetters(url)
    ensures !IsBlocked(AdBlockList, url)
  {
    LacksAdLettersPart0(url);
    LacksAdLettersPart1(url);
    LacksAdLettersPart2(url);
  }

  lemma ExampleLacksAdLettersLow(url: string)
    requires url == "https://example.com/x"
    ensures 'd' !in url && 'g' !in url && 'z' !in url && 'r' !in url
  {
  }

  lemma ExampleLacksAdLettersHigh(url: string)
    requires url == "https://example.com/x"
    ensures '2' !in url && 'b' !in url && 'u' !in url && 'n' !in url
  {
  }

  /** An ordinary site is let through. */
  lemma AllowsExample()
    ensures !IsBlocked(AdBlockList, "https://example.com/x")
  {
    ExampleLacksAdLettersLow("https://example.com/x");
    ExampleLacksAdLettersHigh("https://example.com/x");
    AllowsUrlsWithoutAdLetters("https://example.com/x");
  }

  /** The false positive of unanchored matching: an unrelated site whose query
      merely mentions a blocked domain is blocked too. */
  lemma BlocksMentionInQuery()
    ensures IsBlocked(AdBlockList, "https://example.com/?q=taboola.com")
  {
    assert OccursAt("https://example.com/?q=taboola.com", "taboola.com", 23);
    ContainsIffOccurs("https://example.com/?q=taboola.com", "taboola.com");
  }
}
