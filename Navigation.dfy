/** The address-bar rule: text typed into the URL bar is stripped, and unless
    it starts with an explicit http or https scheme it becomes a search query.
    The query text is appended as is, without URL escaping. */
module Navigation {
  import opened Strings

  const SearchPrefix: string := "https://www.google.com/search?q="

  predicate HasScheme(text: string) {
    StartsWith(text, "http://") || StartsWith(text, "https://")
  }

  /** The URL the current tab is sent to for the typed `text`. It is the stripped
      text itself exactly when that carries a scheme, and otherwise exactly the
      search prefix followed by the stripped text. */
  function RewriteAddress(text: string): (r: string)
    ensures HasScheme(r)
    ensures r == Strip(text) <==> HasScheme(Strip(text))
    ensures r == SearchPrefix + Strip(text) <==> !HasScheme(Strip(text))
  {
    var t := Strip(text);
    if HasScheme(t) then t
    else
      SearchUrlHasScheme(t);
      SearchPrefix + t
  }

  /** Every search URL starts with `https://`. */
  lemma SearchUrlHasScheme(t: string)
    ensures HasScheme(SearchPrefix + t) && |SearchPrefix + t| > |t|
  {
    assert (SearchPrefix + t)[..8] == SearchPrefix[..8] == "https://";
  }

  /** The query is the stripped text, character for character: nothing is escaped,
      so `&`, `#` or spaces inside it reach the search URL unchanged. */
  lemma QueryIsUnescaped(text: string)
    requires !HasScheme(Strip(text))
    ensures StartsWith(RewriteAddress(text), SearchPrefix)
    ensures RewriteAddress(text)[|SearchPrefix|..] == Strip(text)
  {
  }

  /** A search URL has no whitespace at either end, so `strip()` keeps it whole. */
  lemma SearchUrlIsTrimmed(t: string)
    requires t == [] || !IsSpace(t[|t| - 1])
    ensures Strip(SearchPrefix + t) == SearchPrefix + t
  {
    var r := SearchPrefix + t;
    assert r[0] == 'h';
    assert r[|r| - 1] == if t == [] then '=' else t[|t| - 1];
    StripTrimmed(r);
  }

  /** Rewriting is idempotent: feeding a rewritten address back through the
      address bar (as the history and bookmark lists do) loads the same URL. */
  lemma RewriteIdempotent(text: string)
    ensures RewriteAddress(RewriteAddress(text)) == RewriteAddress(text)
  {
    var t := Strip(text);
    var r := RewriteAddress(text);
    if HasScheme(t) {
      StripIdempotent(text);
      assert Strip(r) == r;
    } else {
      SearchUrlIsTrimmed(t);
      assert Strip(r) == r;
    }
  }

  /** Typed text without surrounding whitespace is taken as it is: an address
      with an explicit scheme passes through unchanged, and anything else, such
      as a bare host name like `openai.com`, becomes a search for exactly that text. */
  lemma TrimmedAddressRewrite(t: string)
    requires t == [] || (!IsSpace(t[0]) && !IsSpace(t[|t| - 1]))
    ensures HasScheme(t) ==> RewriteAddress(t) == t
    ensures !HasScheme(t) ==> RewriteAddress(t) == SearchPrefix + t
  {
    StripTrimmed(t);
  }

  /** Text that starts with neither `http://` nor `https://` is searched for,
      whatever else it looks like. */
  lemma NoSchemeIsSearched(t: string)
    requires t == [] || (!IsSpace(t[0]) && !IsSpace(t[|t| - 1]))
    requires |t| > 0 && t[0] != 'h'
    ensures RewriteAddress(t) == SearchPrefix + t
  {
    NotStartsWith(t, "http://", 0);
    NotStartsWith(t, "https://", 0);
    TrimmedAddressRewrite(t);
  }
}
