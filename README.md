# OctoBrowse session controller in Dafny

OctoBrowse is a PyQt desktop browser. This project models its session-state
controller: the part of the main window that keeps the tabs, the shared address
bar and progress bar, the history, bookmark and note lists, the dark-mode,
ad-block and incognito flags, the theme and the settings consistent as tabs
open, close, load and report events. It also models the two pure deciders the
controller uses: the ad blocker's request filter and the voice-command
classifier.

Layout:

- `Strings.dfy` holds the Python string operations the controller relies on:
  `startswith`, substring `in`, `strip()`, `lower()` and `replace(pat, "")`.
  It proves the sliding substring search equal to "occurs at some offset".
  It also proves what `strip()` removes and keeps.
- `Lists.dfy` holds the "append if absent" rule behind history and bookmarks.
  It proves the rule keeps a list free of duplicates and idempotent.
- `ContentFilter.dfy` holds the ad-block list and `interceptRequest`'s blocking rule.
  A request is blocked when any entry is a substring of its URL, anywhere in the text.
- `Navigation.dfy` holds the address-bar rewrite. Text without an `http://` or
  `https://` scheme becomes `https://www.google.com/search?q=` followed by the
  stripped text, unescaped.
- `Voice.dfy` holds the first-match-wins voice-command classifier.
- `Browser.dfy` holds the class `OctoBrowse`. Its fields are the window's state.
  Its methods are the controller's operations. Each method's `modifies` clause
  names only the fields the operation may change.
  - The page engine is not modelled. Each load, reload, back, forward,
    dark-style injection, interceptor change or cookie-policy change the
    controller asks for is appended to `engineCalls`.
  - A tab's engine view is represented by a distinct `id`.
  - The invariant `Valid()` holds four promises:
    - at least one tab is open, and the current index is valid;
    - tab ids are unique;
    - history and bookmarks hold no duplicates;
    - the interceptor is installed exactly while ad blocking is on.
- `Scenarios.dfy` states the properties that need several calls. Each is a
  method that makes the calls:
  - background-tab events change nothing;
  - the last tab cannot be closed;
  - adding the same URL twice stores it once;
  - toggling twice restores the previous state;
  - choosing the Dark theme twice turns dark mode off again;
  - an empty settings save keeps both settings.

Two behaviours of the code are worth spelling out:

- The progress value is not clamped. `update_progress_bar` passes it to
  `QProgressBar.setValue`, which ignores values outside 0..100. The bar is
  shown or hidden by `progress < 100` whatever the value.
- `process_voice_command` deletes every "go to" from the whole lower-cased
  phrase in one left-to-right pass and strips the result. The words said
  before "go to" therefore stay in the target. `Voice.GoToFirstOccurrence`
  and `Voice.GoToKeepsWordsBefore` state this.

## Model

| member | source | states |
|---|---|---|
| `Strings.StartsWith` | main.py:445 | Python's `s.startswith(prefix)`: the prefix is no longer than `s` and equals its first characters |
| `Strings.Contains` | main.py:102 | Python's `t in s` on strings, by sliding along `s`: a contained text is never longer than `s`, and the empty text is in every string |
| `Strings.ContainsIffOccurs` | main.py:102 | Python's substring test `t in s`, computed by sliding along `s`, holds exactly when `t` occurs at some offset of `s` |
| `Strings.ContainsTransitive` | main.py:102 | whatever contains a string contains every substring of it |
| `Strings.MissingCharNotContained` | main.py:102 | a string cannot contain a text with a character it lacks |
| `Strings.IsSpace` | main.py:444 | the whitespace set of `str.strip()` and `str.isspace()`, written out: space, tab, newline and return are in it, letters and digits are not |
| `Strings.TrimStart` | main.py:444 | `lstrip()` keeps a suffix of its input that does not start with whitespace |
| `Strings.TrimStartRemovesSpace` | main.py:444 | what `lstrip()` cuts off is all whitespace |
| `Strings.TrimEnd` | main.py:444 | `rstrip()` keeps a prefix of its input that does not end with whitespace |
| `Strings.TrimEndRemovesSpace` | main.py:444 | what `rstrip()` cuts off is all whitespace |
| `Strings.Strip` | main.py:444 | `strip()` never lengthens its input and leaves no whitespace at either end |
| `Strings.StripKeepsMiddle` | main.py:444 | `strip()` returns a contiguous part of its input with only whitespace cut at either side |
| `Strings.StripIdempotent` | main.py:444 | stripping twice is stripping once |
| `Strings.Lower` | main.py:638 | `lower()` keeps the length of the phrase, leaves no capital letter, and changes only capital letters |
| `Strings.LowerIdempotent` | main.py:638 | lower-casing twice is lower-casing once |
| `Strings.RemoveAll` | main.py:640 | `replace("go to", "")` never lengthens the phrase, and leaves a phrase without "go to" unchanged |
| `Strings.RemoveAllKeepsPrefix` | main.py:640 | text before an occurrence that cannot start the phrase is kept verbatim by the removal |
| `Strings.RemoveAllShortens` | main.py:640 | when the phrase occurs, the removal deletes at least one copy of it |
| `Strings.RemoveAllFirst` | main.py:640 | the removal deletes the leftmost occurrence, keeps everything before it and goes on after it |
| `Lists.AppendIfAbsent` | main.py:456-458 | the list keeps its old entries in order in front, gains only the added URL, is unchanged exactly when the URL was present, and stays duplicate-free |
| `Lists.NoDuplicatesCountOne` | main.py:456-458 | a duplicate-free list stores each of its members exactly once |
| `Lists.AppendIfAbsentTwice` | main.py:456-458 | adding the same URL twice is the same as adding it once |
| `Lists.AppendIfAbsentStoresOnce` | main.py:774-775 | after an add, the URL is stored exactly once in a duplicate-free list |
| `ContentFilter.IsBlocked` | main.py:66-103 | `interceptRequest`'s rule over the block set `AdBlockList` (the 24 domains of `AD_BLOCK_LIST`): some entry is a substring of the URL; its meaning is stated by `BlockedIffEntryOccurs` |
| `ContentFilter.BlockedIffEntryOccurs` | main.py:99-103 | a request is blocked if and only if some block-list entry occurs at some offset of its URL string |
| `ContentFilter.BlockedIsUpwardClosed` | main.py:102 | the match is not anchored: any URL embedding a blocked URL is blocked too |
| `ContentFilter.AllowsUrlsWithoutAdLetters` | main.py:66-91 | every entry of the block list has one of the characters d, g, z, r, 2, b, u, n, so a URL without them is never blocked |
| `ContentFilter.BlocksDoubleClick` | main.py:66-103 | `https://ads.doubleclick.net/x` is blocked |
| `ContentFilter.AllowsExample` | main.py:66-103 | `https://example.com/x` is not blocked |
| `ContentFilter.BlocksMentionInQuery` | main.py:102 | false positive: `https://example.com/?q=taboola.com` is blocked because its query names a blocked domain |
| `Navigation.HasScheme` | main.py:445 | the text starts with `http://` or `https://` |
| `Navigation.RewriteAddress` | main.py:443-446 | the loaded URL always has an explicit scheme; it is the stripped text exactly when that starts with `http://` or `https://`, and otherwise exactly the search prefix followed by the stripped text |
| `Navigation.QueryIsUnescaped` | main.py:446 | the search query is the stripped text character for character, with nothing escaped |
| `Navigation.RewriteIdempotent` | main.py:443-446 | sending a rewritten address through the address bar again loads the same URL |
| `Navigation.SearchUrlHasScheme` | main.py:446 | every search URL starts with `https://` and is longer than its query |
| `Navigation.TrimmedAddressRewrite` | main.py:443-446 | text without surrounding whitespace passes through unchanged when it has a scheme, and is otherwise searched for exactly as typed |
| `Navigation.NoSchemeIsSearched` | main.py:443-446 | trimmed text not starting with `h`, such as a bare host name like `openai.com`, becomes a search for exactly that text |
| `Voice.Rank` | main.py:639-658 | each action has a place in the fixed order of tests, with "unrecognized" last |
| `Voice.Classify` | main.py:637-658 | the if/elif chain over the lower-cased command; its meaning is stated by `ClassifyFirstMatch` and the lemmas after it |
| `Voice.ClassifyFirstMatch` | main.py:637-658 | the chosen action's phrase occurs in the lower-cased command and no earlier phrase does; a "go to" target is the lower-cased command with "go to" removed, then stripped |
| `Voice.UnrecognizedIffNoKeyword` | main.py:657-658 | a command is unrecognized if and only if it contains none of the eight phrases |
| `Voice.ClassifyIgnoresCase` | main.py:638 | classification ignores letter case |
| `Voice.GoToFirstOccurrence` | main.py:639-640 | for any words before the first "go to", the target is those words, a space, and the rest of the phrase with every later "go to" removed, lower-cased and stripped |
| `Voice.GoToTakesRest` | main.py:639-640 | "go to " followed by text without another "go to" navigates to that text, lower-cased and stripped |
| `Voice.GoToKeepsWordsBefore` | main.py:639-640 | "go to" anywhere wins, and the words said before it stay in the target |
| `Voice.GoToExample` | main.py:639-640 | "go to openai dot com" navigates to "openai dot com" |
| `Browser.OctoBrowse.RequestBlocked` | main.py:99-103 | a request is blocked exactly when ad blocking is on and a block-list entry occurs in its URL |
| `Browser.OctoBrowse.constructor` | main.py:155-242 | all flags off, default theme, empty lists, no API key, the default homepage, and one "Home" tab loading it |
| `Browser.OctoBrowse.AddTab` | main.py:415-422 | the new tab, with an id no open tab has, is appended and made current, and the engine loads its URL |
| `Browser.OctoBrowse.NewTab` | main.py:266 | the new-tab button opens a "New Tab" on the configured homepage |
| `Browser.OctoBrowse.CloseTab` | main.py:424-426 | the tab is removed only when more than one is open and the index is valid; the tab count never drops below one; a tab other than the closed one stays current |
| `Browser.OctoBrowse.NavigateBack` | main.py:428-431 | the current tab is sent back |
| `Browser.OctoBrowse.NavigateForward` | main.py:433-436 | the current tab is sent forward |
| `Browser.OctoBrowse.RefreshPage` | main.py:438-441 | the current tab is reloaded |
| `Browser.OctoBrowse.NavigateToUrl` | main.py:443-449 | the current tab, and only it, loads the rewritten address-bar text |
| `Browser.OctoBrowse.UpdateUrlBar` | main.py:451-454 | only the current tab's URL change sets the address bar and reaches the history; another tab's event changes neither |
| `Browser.OctoBrowse.AddToHistory` | main.py:456-459 | the URL is appended only when absent, so the history stays duplicate-free |
| `Browser.OctoBrowse.ClearHistory` | main.py:466-469 | the history becomes empty |
| `Browser.OctoBrowse.UpdateProgressBar` | main.py:471-477 | for the current tab the bar shows exactly while progress is below 100 and takes in-range values; other tabs change nothing |
| `Browser.OctoBrowse.OnLoadFinished` | main.py:479-483 | for the current tab the bar hides and the dark style is reapplied while dark mode is on; other tabs change nothing |
| `Browser.OctoBrowse.ToggleDarkMode` | main.py:487-491 | dark mode flips and the new setting is applied to the current tab |
| `Browser.OctoBrowse.SetTheme` | main.py:515-530 | the theme name is kept; "dark" toggles dark mode; "blue" sets the flat blue background; "custom" applies a picked colour or changes nothing when the picker is cancelled; any other name clears the style |
| `Browser.OctoBrowse.ToggleAdBlock` | main.py:584-591 | ad blocking flips and the interceptor is installed exactly when it is on |
| `Browser.OctoBrowse.ToggleIncognitoMode` | main.py:246-255 | incognito flips and persistent cookies are allowed exactly when it is off |
| `Browser.OctoBrowse.ProcessVoiceCommand` | main.py:637-658 | the action is the classifier's; "go to" fills the address bar and navigates; refresh, back and forward drive the current tab; the other actions change no modelled state |
| `Browser.OctoBrowse.PerformVoiceAction` | main.py:639-658 | each classified action has the effect its branch of the dispatch gives it and touches nothing else |
| `Browser.OctoBrowse.AddNoteForPage` | main.py:753-760 | a confirmed non-empty note is appended with the URL of the page the current tab shows, never merged or deduplicated |
| `Browser.OctoBrowse.AddBookmark` | main.py:770-779 | the URL of the page the current tab shows is appended only when absent, which is reported as added; otherwise the list is unchanged and "already exists" is reported |
| `Browser.OctoBrowse.SaveSettings` | main.py:142-149 | a non-empty field replaces its setting; an empty field keeps the old value |
| `Scenarios.BackgroundEventsChangeNothing` | main.py:451-483 | URL, progress and load-finished events from a tab that is not current leave the whole window state unchanged |
| `Scenarios.CloseOnlyTabRefused` | main.py:424-426 | closing the only open tab is refused |
| `Scenarios.OpenThenCloseRestoresTabs` | main.py:415-426 | opening a tab and closing it again restores the tab list |
| `Scenarios.VisitTwiceRecordedOnce` | main.py:451-459 | the same URL reported twice is stored in the history exactly once |
| `Scenarios.BookmarkTwiceStoredOnce` | main.py:770-779 | bookmarking a page twice stores it once, as a single add would, and the second attempt reports that it exists |
| `Scenarios.ToggleAdBlockTwiceRestores` | main.py:584-591 | toggling ad blocking twice restores the flag, the interceptor and the verdict on every request |
| `Scenarios.AdBlockDecides` | main.py:99-103 | with ad blocking on, `https://ads.doubleclick.net/x` is blocked; with it off, no request is |
| `Scenarios.DarkThemeTwiceRestores` | main.py:515-518 | choosing Dark twice restores dark mode, and the last style applied carries the original setting |
| `Scenarios.EmptySaveKeepsSettings` | main.py:142-149 | saving with both fields empty changes nothing |

## Left out

- `PasswordManager` (main.py:108-120) wraps the Fernet library's encryption. That is foreign cryptography with a random key, so it is not modelled.
- Zooming (`zoom_in`, `zoom_out`) is floating-point arithmetic on the engine's zoom factor, so it is not modelled. The classifier still recognises the zoom phrases, but `ProcessVoiceCommand` records nothing for them.
- The dark-mode CSS and the script that creates the style element only when absent run inside the page. They are not modelled. Applying dark mode is recorded as `ApplyDarkMode(tab, flag)`.
- Speech capture (`voice_command`) is microphone I/O and a network recogniser; `ProcessVoiceCommand` takes the recognised phrase as a parameter.
- Text-to-speech (`read_aloud`, `speak_text`) is I/O and is not modelled.
- AI summary (`summarize_page`, `generate_summary`) calls a network service and is not modelled.
- Browser.OctoBrowse.ProcessVoiceCommand: the "summarize" action can prompt for the OpenAI API key in a dialog when none is set (main.py:595-599) and store whatever was entered in `openai_api_key`. The model leaves `apiKey` unchanged for that action.
- Weather and news fetches (`update_weather`, `update_news`) are network I/O and are not modelled.
- `upscale_page` does image processing through temporary files and is not modelled.
- `save_page`, `write_html` and `view_page_source` are file and dialog I/O and are not modelled.
- `run_extension` runs arbitrary user code with `exec`, so it has no behaviour that can be stated.
- Qt widget plumbing is not modelled: toolbar construction, message boxes, sidebar visibility (`toggle_bookmarks`, `toggle_extensions`, `open_chatbot`), fullscreen, the context menu, and the `keyPressEvent` key wiring.
- `open_settings` only pre-fills the dialog with the current values, so it is not modelled.
- `load_history_url` and `load_bookmark` are not modelled as separate members. Each sets the address bar and calls `NavigateToUrl`.
- `change_user_agent` and the cookie-policy call are pass-throughs to the engine. Incognito is a flag plus the recorded cookie-policy call.
- Notice texts of message boxes are left out. The exception is the bookmark outcome, which is returned.
- Users can drag tabs into a new order (`setMovable`). That reordering is not modelled.
- Browser.OctoBrowse.CloseTab: when the current tab closes, Qt chooses the new current index. The model follows Qt's default, the right-hand neighbour or else the left one. The properties proved only need a valid current index.
- URLs are plain strings. `QUrl` parsing and normalisation are not modelled.
- Browser.OctoBrowse.UpdateUrlBar: a tab's own navigation does not update that tab's recorded URL. This covers link clicks, back and forward. `Tab.url` changes only on loads the controller issues. `AddBookmark` and `AddNoteForPage` take the page's live URL, which the engine reports, as a parameter.
- Strings.Lower: only ASCII letters are lower-cased. Python's full Unicode case mapping is not modelled.
- Strings.Strip: Python's whitespace set is written out character by character. It is not taken from the Unicode database.
