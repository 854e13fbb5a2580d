/** The session-state controller of the OctoBrowse main window: the open tabs and
    which one is current, the shared address bar and progress bar, the history,
    bookmark and note lists, the appearance, ad-block and incognito flags, and the
    settings. The page engine is not modelled; what the controller asks of it is
    recorded, in order, in `engineCalls`. */
module Browser {
  import opened Strings
  import opened Lists
  import opened ContentFilter
  import opened Navigation
  import opened Voice

  datatype Option<T> = None | Some(value: T)

  /** One open tab. `id` stands for the engine view object: no two tabs share it. */
  datatype Tab = Tab(id: nat, url: string, title: string)

  /** A note the user attached to the page shown in the current tab. */
  datatype Note = Note(url: string, text: string)

  /** What the controller asks of the page engine. */
  datatype EngineCall =
    | Load(tab: nat, url: string)
    | Reload(tab: nat)
    | GoBack(tab: nat)
    | GoForward(tab: nat)
    | ApplyDarkMode(tab: nat, dark: bool)      // the style-injecting script, with the flag it carries
    | SetInterceptor(installed: bool)          // the ad-block interceptor put on, or taken off, the profile
    | SetPersistentCookies(allowed: bool)

  /** The two notices `AddBookmark` ends with. */
  datatype BookmarkOutcome = Added(url: string) | AlreadyExists

  const DefaultHomepage: string := "https://www.google.com"
  const BlueStyle: string := "background-color: #e6f3ff;"

  class OctoBrowse {
    var tabs: seq<Tab>
    var current: nat
    var nextId: nat
    var urlBar: string
    var progressValue: int
    var progressVisible: bool
    var history: seq<string>
    var bookmarks: seq<string>
    var notes: seq<Note>
    var darkMode: bool
    var adBlockEnabled: bool
    var interceptorInstalled: bool
    var incognitoMode: bool
    var currentTheme: string
    var customTheme: Option<string>
    var styleSheet: string
    var customHomepage: string
    var apiKey: Option<string>
    var engineCalls: seq<EngineCall>

    /** At least one tab is open and the current one is among them; tab ids are
        distinct and below `nextId`; history and bookmarks hold no URL twice; the
        interceptor is installed exactly while ad blocking is on. */
    ghost predicate Valid()
      reads this
    {
      && 1 <= |tabs| && current < |tabs|
      && (forall i :: 0 <= i < |tabs| ==> tabs[i].id < nextId)
      && (forall i, j :: 0 <= i < j < |tabs| ==> tabs[i].id != tabs[j].id)
      && NoDuplicates(history)
      && NoDuplicates(bookmarks)
      && interceptorInstalled == adBlockEnabled
    }

    /** The engine view shown in the current tab. */
    function CurrentId(): nat
      reads this
      requires Valid()
    {
      tabs[current].id
    }

    /** `browser == self.tabs.currentWidget()`: is the event's view the current one? */
    predicate IsCurrent(id: nat)
      reads this
      requires Valid()
    {
      tabs[current].id == id
    }

    /** Whether `index` names a tab that `CloseTab` would remove. */
    predicate Removable(index: int)
      reads this
    {
      |tabs| > 1 && 0 <= index < |tabs|
    }

    /** The engine's verdict on an outgoing request: blocked exactly when ad blocking
        is on and some block-list entry occurs in the URL. */
    predicate RequestBlocked(url: string): (r: bool)
      reads this
      requires Valid()
      ensures r <==> adBlockEnabled && IsBlocked(AdBlockList, url)
    {
      interceptorInstalled && IsBlocked(AdBlockList, url)
    }

    /** The window as it starts: every flag off, the default theme, empty lists,
        and one "Home" tab loading the default homepage. */
    constructor ()
      ensures Valid()
      ensures tabs == [Tab(0, DefaultHomepage, "Home")] && current == 0 && nextId == 1
      ensures urlBar == "" && progressValue == -1 && !progressVisible
      ensures history == [] && bookmarks == [] && notes == []
      ensures !darkMode && !adBlockEnabled && !interceptorInstalled && !incognitoMode
      ensures currentTheme == "default" && customTheme == None && styleSheet == ""
      ensures customHomepage == DefaultHomepage && apiKey == None
      ensures engineCalls == [Load(0, DefaultHomepage)]
    {
      darkMode, adBlockEnabled, interceptorInstalled, incognitoMode := false, false, false, false;
      currentTheme, customTheme, styleSheet := "default", None, "";
      apiKey := None;
      history, notes, bookmarks := [], [], [];
      customHomepage := DefaultHomepage;
      urlBar := "";
      progressValue, progressVisible := -1, false;
      tabs, current, nextId := [Tab(0, DefaultHomepage, "Home")], 0, 1;
      engineCalls := [Load(0, DefaultHomepage)];
    }

    /** Open a tab on `url` behind every existing tab and make it current. */
    method AddTab(url: string, title: string) returns (id: nat)
      requires Valid()
      modifies this`tabs, this`current, this`nextId, this`engineCalls
      ensures Valid()
      ensures forall i :: 0 <= i < |old(tabs)| ==> old(tabs)[i].id != id
      ensures tabs == old(tabs) + [Tab(id, url, title)] && current == |tabs| - 1
      ensures engineCalls == old(engineCalls) + [Load(id, url)]
    {
      id := nextId;
      nextId := nextId + 1;
      tabs := tabs + [Tab(id, url, title)];
      current := |tabs| - 1;
      engineCalls := engineCalls + [Load(id, url)];
    }

    /** The "New Tab" button and Ctrl+T: a tab on the configured homepage. */
    method NewTab() returns (id: nat)
      requires Valid()
      modifies this`tabs, this`current, this`nextId, this`engineCalls
      ensures Valid()
      ensures forall i :: 0 <= i < |old(tabs)| ==> old(tabs)[i].id != id
      ensures tabs == old(tabs) + [Tab(id, customHomepage, "New Tab")] && current == |tabs| - 1
      ensures engineCalls == old(engineCalls) + [Load(id, customHomepage)]
    {
      id := AddTab(customHomepage, "New Tab");
    }

    /** Close the tab at `index`, unless it is the last one open (or `index` names
        no tab). A tab other than the closed one stays current; when the current
        tab is closed its right neighbour, or else its left one, takes over. */
    method CloseTab(index: int)
      requires Valid()
      modifies this`tabs, this`current
      ensures Valid()
      ensures old(Removable(index)) ==>
                tabs == old(tabs)[..index] + old(tabs)[index + 1..] && |tabs| == old(|tabs|) - 1
      ensures !old(Removable(index)) ==> tabs == old(tabs) && current == old(current)
      ensures index != old(current) ==> tabs[current] == old(tabs[current])
      ensures old(Removable(index)) && index == old(current) ==>
                current == if index < |tabs| then index else |tabs| - 1
    {
      if |tabs| > 1 && 0 <= index < |tabs| {
        ghost var before := tabs;
        tabs := tabs[..index] + tabs[index + 1..];
        assert forall i :: 0 <= i < |tabs| ==> tabs[i] == before[if i < index then i else i + 1];
        if index < current {
          current := current - 1;
        } else if index == current && current == |tabs| {
          current := current - 1;
        }
      }
    }

    /** The back button: the current tab steps back in its own history. */
    method NavigateBack()
      requires Valid()
      modifies this`engineCalls
      ensures Valid()
      ensures engineCalls == old(engineCalls) + [GoBack(CurrentId())]
    {
      engineCalls := engineCalls + [GoBack(CurrentId())];
    }

    /** The forward button. */
    method NavigateForward()
      requires Valid()
      modifies this`engineCalls
      ensures Valid()
      ensures engineCalls == old(engineCalls) + [GoForward(CurrentId())]
    {
      engineCalls := engineCalls + [GoForward(CurrentId())];
    }

    /** The refresh button. */
    method RefreshPage()
      requires Valid()
      modifies this`engineCalls
      ensures Valid()
      ensures engineCalls == old(engineCalls) + [Reload(CurrentId())]
    {
      engineCalls := engineCalls + [Reload(CurrentId())];
    }

    /** Return in the address bar: the current tab loads the rewritten text. The
        address bar itself is left for the tab's URL-change event to update. */
    method NavigateToUrl()
      requires Valid()
      modifies this`tabs, this`engineCalls
      ensures Valid() && |tabs| == old(|tabs|)
      ensures tabs == old(tabs)[current := old(tabs)[current].(url := RewriteAddress(urlBar))]
      ensures engineCalls == old(engineCalls) + [Load(CurrentId(), RewriteAddress(urlBar))]
    {
      var target := RewriteAddress(urlBar);
      ghost var before := tabs;
      tabs := tabs[current := tabs[current].(url := target)];
      assert forall i :: 0 <= i < |tabs| ==> tabs[i].id == before[i].id;
      engineCalls := engineCalls + [Load(CurrentId(), target)];
    }

    /** A tab's URL changed. Only the current tab's event reaches the address bar
        and the history; an event from any other tab changes nothing. */
    method UpdateUrlBar(id: nat, url: string)
      requires Valid()
      modifies this`urlBar, this`history
      ensures Valid()
      ensures IsCurrent(id) ==> urlBar == url && history == AppendIfAbsent(old(history), url)
      ensures !IsCurrent(id) ==> urlBar == old(urlBar) && history == old(history)
    {
      if IsCurrent(id) {
        urlBar := url;
        AddToHistory(url);
      }
    }

    /** Record a visited URL unless the history already holds it. */
    method AddToHistory(url: string)
      requires Valid()
      modifies this`history
      ensures Valid()
      ensures history == AppendIfAbsent(old(history), url)
    {
      if url !in history {
        history := history + [url];
      }
    }

    /** Forget every visited URL. */
    method ClearHistory()
      requires Valid()
      modifies this`history
      ensures Valid() && history == []
    {
      history := [];
    }

    /** Load progress of a tab. For the current tab the bar shows while loading is
        under 100 and hides at 100 or more; the bar's value moves only to values in
        its 0..100 range (the progress bar ignores any other). Other tabs' progress
        changes nothing. */
    method UpdateProgressBar(id: nat, progress: int)
      requires Valid()
      modifies this`progressValue, this`progressVisible
      ensures Valid()
      ensures IsCurrent(id) ==> progressVisible == (progress < 100)
      ensures IsCurrent(id) ==> progressValue == if 0 <= progress <= 100 then progress else old(progressValue)
      ensures !IsCurrent(id) ==> progressVisible == old(progressVisible) && progressValue == old(progressValue)
    {
      if IsCurrent(id) {
        if 0 <= progress <= 100 {
          progressValue := progress;
        }
        progressVisible := progress < 100;
      }
    }

    /** A tab finished loading. For the current tab the progress bar hides and,
        while dark mode is on, the dark style is applied to the new page again.
        Other tabs' events change nothing. */
    method OnLoadFinished(id: nat)
      requires Valid()
      modifies this`progressVisible, this`engineCalls
      ensures Valid()
      ensures IsCurrent(id) ==> !progressVisible
      ensures IsCurrent(id) ==>
                engineCalls == old(engineCalls) + if darkMode then [ApplyDarkMode(id, true)] else []
      ensures !IsCurrent(id) ==> progressVisible == old(progressVisible) && engineCalls == old(engineCalls)
    {
      if IsCurrent(id) {
        progressVisible := false;
        if darkMode {
          engineCalls := engineCalls + [ApplyDarkMode(id, true)];
        }
      }
    }

    /** Flip dark mode and apply the new setting to the current tab. */
    method ToggleDarkMode()
      requires Valid()
      modifies this`darkMode, this`engineCalls
      ensures Valid()
      ensures darkMode == !old(darkMode)
      ensures engineCalls == old(engineCalls) + [ApplyDarkMode(CurrentId(), darkMode)]
    {
      darkMode := !darkMode;
      engineCalls := engineCalls + [ApplyDarkMode(CurrentId(), darkMode)];
    }

    /** The theme menu. "dark" toggles dark mode (so choosing it twice turns dark
        mode back off), "blue" sets a flat window background, "custom" applies the
        colour picked in the colour dialog (`None` when it is cancelled), and any
        other name clears the window style. The name is remembered in every case. */
    method SetTheme(theme: string, pickedColor: Option<string>)
      requires Valid()
      modifies this`currentTheme, this`darkMode, this`engineCalls, this`styleSheet, this`customTheme
      ensures Valid()
      ensures currentTheme == theme
      ensures theme == "dark" ==> darkMode == !old(darkMode)
                                  && engineCalls == old(engineCalls) + [ApplyDarkMode(CurrentId(), darkMode)]
      ensures theme != "dark" ==> darkMode == old(darkMode) && engineCalls == old(engineCalls)
      ensures theme == "blue" ==> styleSheet == BlueStyle
      ensures theme == "custom" && pickedColor.Some? ==>
                customTheme == pickedColor && styleSheet == "background-color: " + pickedColor.value + ";"
      ensures theme != "custom" || pickedColor.None? ==> customTheme == old(customTheme)
      ensures theme == "dark" || (theme == "custom" && pickedColor.None?) ==> styleSheet == old(styleSheet)
      ensures theme != "dark" && theme != "blue" && theme != "custom" ==> styleSheet == ""
    {
      currentTheme := theme;
      if theme == "dark" {
        ToggleDarkMode();
      } else if theme == "blue" {
        styleSheet := BlueStyle;
      } else if theme == "custom" {
        if pickedColor.Some? {
          customTheme := pickedColor;
          styleSheet := "background-color: " + pickedColor.value + ";";
        }
      } else {
        styleSheet := "";
      }
    }

    /** Flip ad blocking; the interceptor is put on the profile when it turns on
        and taken off when it turns off. */
    method ToggleAdBlock()
      requires Valid()
      modifies this`adBlockEnabled, this`interceptorInstalled, this`engineCalls
      ensures Valid()
      ensures adBlockEnabled == !old(adBlockEnabled) && interceptorInstalled == adBlockEnabled
      ensures engineCalls == old(engineCalls) + [SetInterceptor(adBlockEnabled)]
    {
      adBlockEnabled := !adBlockEnabled;
      interceptorInstalled := adBlockEnabled;
      engineCalls := engineCalls + [SetInterceptor(adBlockEnabled)];
    }

    /** Flip incognito mode; persistent cookies are allowed exactly when it is off. */
    method ToggleIncognitoMode()
      requires Valid()
      modifies this`incognitoMode, this`engineCalls
      ensures Valid()
      ensures incognitoMode == !old(incognitoMode)
      ensures engineCalls == old(engineCalls) + [SetPersistentCookies(!incognitoMode)]
    {
      incognitoMode := !incognitoMode;
      engineCalls := engineCalls + [SetPersistentCookies(!incognitoMode)];
    }

    /** Act on a recognised phrase. "go to" puts its target in the address bar and
        navigates there; refresh, back and forward drive the current tab; zoom,
        read-aloud, summarize and unrecognised phrases change no modelled state. */
    method ProcessVoiceCommand(command: string) returns (action: VoiceCommand)
      requires Valid()
      modifies this`urlBar, this`tabs, this`engineCalls
      ensures Valid() && action == Classify(command)
      ensures action.GoTo? ==>
                && urlBar == action.target
                && tabs == old(tabs)[current := old(tabs)[current].(url := RewriteAddress(action.target))]
                && engineCalls == old(engineCalls) + [Load(CurrentId(), RewriteAddress(action.target))]
      ensures !action.GoTo? ==> urlBar == old(urlBar) && tabs == old(tabs)
      ensures action == Refresh ==> engineCalls == old(engineCalls) + [Reload(CurrentId())]
      ensures action == Back ==> engineCalls == old(engineCalls) + [GoBack(CurrentId())]
      ensures action == Forward ==> engineCalls == old(engineCalls) + [GoForward(CurrentId())]
      ensures !action.GoTo? && action != Refresh && action != Back && action != Forward ==>
                engineCalls == old(engineCalls)
    {
      action := Classify(command);
      PerformVoiceAction(action);
    }

    /** The dispatch half of `ProcessVoiceCommand`: carry out one classified action. */
    method PerformVoiceAction(action: VoiceCommand)
      requires Valid()
      modifies this`urlBar, this`tabs, this`engineCalls
      ensures Valid()
      ensures action.GoTo? ==>
                && urlBar == action.target
                && tabs == old(tabs)[current := old(tabs)[current].(url := RewriteAddress(action.target))]
                && engineCalls == old(engineCalls) + [Load(CurrentId(), RewriteAddress(action.target))]
      ensures !action.GoTo? ==> urlBar == old(urlBar) && tabs == old(tabs)
      ensures action == Refresh ==> engineCalls == old(engineCalls) + [Reload(CurrentId())]
      ensures action == Back ==> engineCalls == old(engineCalls) + [GoBack(CurrentId())]
      ensures action == Forward ==> engineCalls == old(engineCalls) + [GoForward(CurrentId())]
      ensures !action.GoTo? && action != Refresh && action != Back && action != Forward ==>
                engineCalls == old(engineCalls)
    {
      match action {
        case GoTo(target) =>
          urlBar := target;
          NavigateToUrl();
        case Refresh =>
          RefreshPage();
        case Back =>
          NavigateBack();
        case Forward =>
          NavigateForward();
        case _ =>
      }
    }

    /** Attach the note typed in the note dialog to the page the current tab
        shows; `pageUrl` is the URL the engine reports for that page. The note is
        kept only when the dialog was confirmed with some text; notes are never
        merged or deduplicated. */
    method AddNoteForPage(pageUrl: string, note: string, confirmed: bool)
      requires Valid()
      modifies this`notes
      ensures Valid()
      ensures notes == if confirmed && note != "" then old(notes) + [Note(pageUrl, note)]
                       else old(notes)
    {
      if confirmed && note != "" {
        notes := notes + [Note(pageUrl, note)];
      }
    }

    /** Bookmark the page the current tab shows unless it is bookmarked already;
        `pageUrl` is the URL the engine reports for that page. */
    method AddBookmark(pageUrl: string) returns (outcome: BookmarkOutcome)
      requires Valid()
      modifies this`bookmarks
      ensures Valid()
      ensures bookmarks == AppendIfAbsent(old(bookmarks), pageUrl)
      ensures outcome == if pageUrl in old(bookmarks) then AlreadyExists else Added(pageUrl)
    {
      if pageUrl !in bookmarks {
        bookmarks := bookmarks + [pageUrl];
        outcome := Added(pageUrl);
      } else {
        outcome := AlreadyExists;
      }
    }

    /** The settings dialog's Save: each field replaces its setting only when it
        was submitted non-empty. */
    method SaveSettings(homepageField: string, apiKeyField: string)
      requires Valid()
      modifies this`customHomepage, this`apiKey
      ensures Valid()
      ensures customHomepage == if homepageField != "" then homepageField else old(customHomepage)
      ensures apiKey == if apiKeyField != "" then Some(apiKeyField) else old(apiKey)
    {
      if homepageField != "" {
        customHomepage := homepageField;
      }
      if apiKeyField != "" {
        apiKey := Some(apiKeyField);
      }
    }
  }
}
