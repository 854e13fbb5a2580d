/** Properties of the controller that span several calls, each stated as a
    method that makes the calls and promises the combined outcome. */
module Scenarios {
  import opened Lists
  import opened ContentFilter
  import opened Browser

  /** Events from a tab that is not current (URL change, progress, load finished)
      leave the whole window state as it was. */
  method BackgroundEventsChangeNothing(b: OctoBrowse, id: nat, url: string, progress: int)
    requires b.Valid() && !b.IsCurrent(id)
    modifies b
    ensures b.Valid() && unchanged(b)
  {
    b.UpdateUrlBar(id, url);
    b.UpdateProgressBar(id, progress);
    b.OnLoadFinished(id);
  }

  /** Opening and closing tabs in any order never leaves the window without a
      tab: closing the only tab is refused. */
  method CloseOnlyTabRefused(b: OctoBrowse, index: int)
    requires b.Valid() && |b.tabs| == 1
    modifies b
    ensures b.Valid() && b.tabs == old(b.tabs) && |b.tabs| == 1
  {
    b.CloseTab(index);
  }

  /** A tab opened and then closed again leaves the other tabs as they were, and
      the tab that was current before is current again when it was the last one. */
  method OpenThenCloseRestoresTabs(b: OctoBrowse, url: string, title: string)
    requires b.Valid()
    modifies b
    ensures b.Valid() && b.tabs == old(b.tabs)
    ensures old(b.current) == old(|b.tabs|) - 1 ==> b.current == old(b.current)
  {
    var id := b.AddTab(url, title);
    b.CloseTab(|b.tabs| - 1);
  }

  /** The same URL reported twice by the current tab is recorded once. */
  method VisitTwiceRecordedOnce(b: OctoBrowse, url: string)
    requires b.Valid()
    modifies b
    ensures b.Valid() && b.history == AppendIfAbsent(old(b.history), url)
    ensures Count(b.history, url) == 1
  {
    b.UpdateUrlBar(b.CurrentId(), url);
    b.UpdateUrlBar(b.CurrentId(), url);
    AppendIfAbsentTwice(old(b.history), url);
    AppendIfAbsentStoresOnce(old(b.history), url);
  }

  /** Bookmarking the same page twice stores it once; the second attempt
      reports that the bookmark exists. */
  method BookmarkTwiceStoredOnce(b: OctoBrowse, pageUrl: string)
    returns (first: BookmarkOutcome, second: BookmarkOutcome)
    requires b.Valid()
    modifies b
    ensures b.Valid() && second == AlreadyExists
    ensures b.bookmarks == AppendIfAbsent(old(b.bookmarks), pageUrl)
    ensures Count(b.bookmarks, pageUrl) == 1
  {
    first := b.AddBookmark(pageUrl);
    second := b.AddBookmark(pageUrl);
    AppendIfAbsentTwice(old(b.bookmarks), pageUrl);
    AppendIfAbsentStoresOnce(old(b.bookmarks), pageUrl);
  }

  /** Toggling ad blocking twice restores the flag, the interceptor and the
      verdict on every request. */
  method ToggleAdBlockTwiceRestores(b: OctoBrowse)
    requires b.Valid()
    modifies b
    ensures b.Valid()
    ensures b.adBlockEnabled == old(b.adBlockEnabled)
    ensures b.interceptorInstalled == old(b.interceptorInstalled)
    ensures forall url :: b.RequestBlocked(url) == old(b.RequestBlocked(url))
  {
    b.ToggleAdBlock();
    b.ToggleAdBlock();
  }

  /** While ad blocking is on, a request to `https://ads.doubleclick.net/x` is
      refused; while it is off, nothing is. */
  method AdBlockDecides(b: OctoBrowse)
    requires b.Valid()
    modifies b
    ensures b.Valid() && b.adBlockEnabled == !old(b.adBlockEnabled)
    ensures b.adBlockEnabled ==> b.RequestBlocked("https://ads.doubleclick.net/x")
    ensures !b.adBlockEnabled ==> forall url :: !b.RequestBlocked(url)
  {
    b.ToggleAdBlock();
    BlocksDoubleClick();
  }

  /** Choosing the Dark theme twice turns dark mode back to what it was, and the
      last style applied to the current tab carries that original setting. */
  method DarkThemeTwiceRestores(b: OctoBrowse)
    requires b.Valid()
    modifies b
    ensures b.Valid() && b.darkMode == old(b.darkMode) && b.currentTheme == "dark"
    ensures b.engineCalls == old(b.engineCalls) + [ApplyDarkMode(b.CurrentId(), !old(b.darkMode)),
                                                   ApplyDarkMode(b.CurrentId(), old(b.darkMode))]
  {
    b.SetTheme("dark", None);
    b.SetTheme("dark", None);
  }

  /** Saving the settings dialog with both fields empty changes nothing. */
  method EmptySaveKeepsSettings(b: OctoBrowse)
    requires b.Valid()
    modifies b
    ensures unchanged(b)
  {
    b.SaveSettings("", "");
  }
}
