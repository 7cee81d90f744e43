# Document workspace controller, modelled in Dafny

This project models the controller of a single-page document workspace
(`AppComponent`). The controller keeps one workspace state and changes it in response to
user actions and to the backend's answers. The state holds the documents shown, the
selected document and file, the current page and page size, the `loading` and `uploading`
flags, the error message, and the last search's result count and time.

Each handler is a pure transition. It maps a `State` to a `Step`, which is the new state
plus the effects the handler requests, in order: backend calls (`List`, `Upload`, `Get`,
`Delete`, `Search`), notifications (`Notify`, with a tone, text and duration) and log lines
(`LogCause`). The response or failure of a backend call is a separate transition, applied
whenever it arrives.

The search box is modelled as a pure function over a finite sequence of timed keystrokes.
The function applies a 300 ms debounce, then drops consecutive repeats.

Modules, one per concern:

- `Types` (types.dfy) holds the entities: `Document`, `File`, `Call`, `Effect`, `State` and `Step`.
- `Text` (text.dfy) holds JavaScript's `trim`, lower-casing, and the last `.`-separated segment of a name.
- `UploadPolicy` (upload_policy.dfy) holds the upload validator: a file must be selected, and its extension must be `txt` or `pdf`.
- `Keystrokes` (keystrokes.dfy) holds `debounceTime(300)`, `distinctUntilChanged()` and their composition.
- `Workspace` (workspace.dfy) holds every handler and the shared helpers `setLoading`, `loadDocuments`, `clearSearch`, `handleSuccess` and `handleError`.
- `Session` (session.dfy) holds events and `Run`, plus what holds across any sequence of events: the page stays at least 1, list requests stay well formed, and page navigation behaves as a bounded counter.

Two consequences of the code are worth knowing:

- `handleError` sets `loading` to false every time, so an upload failure also ends the
  `loading` of a search or list request still in flight
  (`Workspace.UploadFailureClearsLoading`).
- `deleteDoc` raises no busy flag and leaves the error message as it was
  (`Workspace.DeleteDoc`), unlike an upload, which raises `uploading` and clears the error.

The code also accepts one kind of name you might not expect. A name with no `.` is its own
extension, so a file named exactly `txt` or `PDF` passes the upload check
(`UploadPolicy.UndottedNameIsItsOwnExtension`).

## Model

| member | source | states |
|---|---|---|
| `Text.TrimStart` | src/app/app.component.ts:156 | the result is a suffix of the input; everything it dropped is white space; it does not start with white space |
| `Text.TrimEnd` | src/app/app.component.ts:156 | the result is a prefix of the input; everything it dropped is white space; it does not end with white space |
| `Text.Trim` | src/app/app.component.ts:156 | `keyword.trim()` is never longer than the keyword, is empty exactly when the keyword is all white space, and otherwise starts and ends with a character that is not white space |
| `Text.BlankIffAllWhitespace` | src/app/app.component.ts:156 | `keyword.trim()` is empty exactly when every character of the keyword is white space |
| `Text.TrimKeepsMiddle` | src/app/app.component.ts:156 | trimming returns a contiguous middle slice with only white space cut off either side, and it is bounded by non-white characters |
| `Text.ToLower` | src/app/app.component.ts:111 | `toLowerCase()` keeps the length, leaves no ASCII upper-case letter, and leaves every character that is not one unchanged |
| `Text.ToLowerIdempotent` | src/app/app.component.ts:111 | lower-casing leaves no upper-case letter, so lower-casing again changes nothing |
| `Text.LastSegment` | src/app/app.component.ts:111 | `split('.').pop()` is the longest suffix of the name that has no `.`: either the whole name, or the text right after a `.` |
| `Text.LastSegmentOfUndotted` | src/app/app.component.ts:111 | a name without `.` is its own last segment |
| `Text.LastSegmentAfterDot` | src/app/app.component.ts:111 | for `base.ext` where `ext` has no `.`, the last segment is `ext` whatever `base` holds |
| `UploadPolicy.Rejection.Message` | src/app/app.component.ts:106-114 | a missing file is reported as "Please select a file first." and a wrong type as "Only TXT or PDF files are allowed.", and each text belongs to one refusal only |
| `UploadPolicy.Rejection.DurationMs` | src/app/app.component.ts:106-114 | the missing-file notice stays 3000 ms and the wrong-type notice 4000 ms |
| `UploadPolicy.ValidateUpload` | src/app/app.component.ts:104-116 | no file gives "no file selected"; a file is accepted exactly when its lower-cased last segment is `txt` or `pdf`; an accepted file is the selected one |
| `UploadPolicy.AcceptsDottedName` | src/app/app.component.ts:110-113 | for a dotted name, acceptance depends only on the text after the last `.`, in any letter case |
| `UploadPolicy.AcceptedNameShape` | src/app/app.component.ts:110-113 | an accepted name ends in three characters without `.` that are the whole name or follow a `.` |
| `UploadPolicy.UpperCaseExtensionAccepted` | src/app/app.component.ts:111-113 | `report.PDF` is accepted |
| `UploadPolicy.OtherExtensionRefused` | src/app/app.component.ts:113-115 | `image.png` is refused as a disallowed extension |
| `UploadPolicy.TrailingDotRefused` | src/app/app.component.ts:113-115 | `name.` has an empty extension and is refused |
| `UploadPolicy.InnerExtensionIgnored` | src/app/app.component.ts:111-115 | `archive.txt.zip` is refused: only the last segment counts |
| `UploadPolicy.UndottedNameIsItsOwnExtension` | src/app/app.component.ts:111-113 | a name with no `.` is accepted exactly when, lower-cased, it is `txt` or `pdf` |
| `Keystrokes.DebounceFrom` | src/app/app.component.ts:61 | the debounce emits no more keywords than keystrokes, and a non-empty stream's last keyword is always emitted last |
| `Keystrokes.DebounceFromSurvivors` | src/app/app.component.ts:61 | every emitted keyword belongs to a keystroke that was last or was followed by at least 300 ms of quiet |
| `Keystrokes.Debounce` | src/app/app.component.ts:61 | `debounceTime(300)` emits at most one keyword per keystroke, and the last keyword typed is always emitted last |
| `Keystrokes.BurstEmitsLast` | src/app/app.component.ts:61 | keystrokes each less than 300 ms after the previous one produce exactly one emission: the last keyword |
| `Keystrokes.DebounceSplit` | src/app/app.component.ts:61 | a quiet gap of at least 300 ms splits the stream into halves that are debounced independently, so the debounce emits one keyword per burst |
| `Keystrokes.DistinctFrom` | src/app/app.component.ts:62 | the output has no two equal neighbours and holds only input values; its first value differs from the last one emitted before; a first input that differs from it is emitted first; the final input value ends the output or equals the last emitted value |
| `Keystrokes.DistinctUntilChanged` | src/app/app.component.ts:62 | `distinctUntilChanged()` from a fresh subscription always emits the first value, never emits two equal neighbours, and ends with the last input value |
| `Keystrokes.DistinctAppend` | src/app/app.component.ts:62 | filtering `xs + ys` is filtering `xs`, then filtering `ys` against the last value seen in `xs` |
| `Keystrokes.DistinctSnoc` | src/app/app.component.ts:62 | one more input is emitted exactly when it differs from the value before it, so the filter's output is determined on every input |
| `Keystrokes.DistinctKeepsNoRepeats` | src/app/app.component.ts:62 | a sequence without neighbouring repeats passes through unchanged |
| `Keystrokes.DistinctIdempotent` | src/app/app.component.ts:62 | filtering twice equals filtering once |
| `Keystrokes.Dispatched` | src/app/app.component.ts:60-63 | the search handler never receives the same keyword twice in a row, receives at most one keyword per keystroke, and receives the last keyword typed last |
| `Keystrokes.DispatchedShape` | src/app/app.component.ts:60-63 | every dispatched keyword ends a burst (was last or was followed by 300 ms of quiet); no keyword is dispatched twice in a row; the last keyword typed is the last one dispatched |
| `Keystrokes.DispatchedSplit` | src/app/app.component.ts:60-63 | after a pause of at least 300 ms, the keywords are dispatched as if typed afresh, except that the first is compared with the keyword that settled before the pause |
| `Keystrokes.SettledKeywordDispatched` | src/app/app.component.ts:60-63 | a keyword that settles after a pause is searched exactly when it differs from the keyword that settled before the pause |
| `Keystrokes.ReturningKeywordSearchedAgain` | src/app/app.component.ts:60-63 | settling on `a`, then `b`, then `a` again, each after a pause, searches `a`, `b`, `a` |
| `Keystrokes.BurstDispatchesOnce` | src/app/app.component.ts:60-63 | a burst of keystrokes dispatches one search, for its last keyword |
| `Keystrokes.TypingInvoice` | src/app/app.component.ts:60-63 | typing `invoice` one letter every 100 ms dispatches only `invoice` |
| `Keystrokes.SameKeywordTwiceSearchesOnce` | src/app/app.component.ts:60-63 | settling on the same keyword twice in a row searches once |
| `Workspace.Initial` | src/app/app.component.ts:40-55 | the workspace starts with no documents, no selection, page 1 of size 5, both busy flags down, no error, and zero result count and search time |
| `Workspace.LoadDocuments` | src/app/app.component.ts:80-82 | raises `loading`, clears the error, changes nothing else, and issues one list request for the current page and limit |
| `Workspace.ClearSearch` | src/app/app.component.ts:179-184 | zeroes result count and search time, clears the selected document, raises `loading`, and requests the current page |
| `Workspace.HandleSuccess` | src/app/app.component.ts:186-191 | drops `uploading`; `loading` ends up raised again by the refresh; the only call is the current page's list; the last effect is the success notice |
| `Workspace.HandleError` | src/app/app.component.ts:193-199 | shows and stores the message, drops `loading`, drops `uploading` only for upload or delete failures, issues no call, logs the cause |
| `Workspace.Start` | src/app/app.component.ts:49-58 | start-up shows page 1 of size 5 with nothing loaded and `loading` raised, and asks for page 1 |
| `Workspace.NextPage` | src/app/app.component.ts:67-70 | the page goes up by exactly one; `loading` is raised and the error cleared; one list request for the new page and unchanged limit |
| `Workspace.PrevPage` | src/app/app.component.ts:72-77 | on page 1 nothing changes and nothing is requested; otherwise the page goes down by one and that page is requested |
| `Workspace.ListSucceeded` | src/app/app.component.ts:83-86 | the documents become the response and `loading` drops; nothing else changes |
| `Workspace.ListFailed` | src/app/app.component.ts:87 | a list failure stores its message, drops `loading`, keeps `uploading` and issues no call |
| `Workspace.SelectFile` | src/app/app.component.ts:92-101 | a picked file replaces the selection; an empty pick changes nothing |
| `Workspace.UploadSelectedFile` | src/app/app.component.ts:104-120 | a refused file leaves the state unchanged and issues no call, only the refusal notice; an accepted file raises `uploading`, clears the error and issues exactly one upload |
| `Workspace.UploadSucceeded` | src/app/app.component.ts:121-124 | an upload success drops `uploading`, forgets the selected file and requests the current page |
| `Workspace.UploadFailed` | src/app/app.component.ts:125 | an upload failure drops `uploading` and `loading`, stores its message and keeps the selected file |
| `Workspace.DeleteDoc` | src/app/app.component.ts:130-133 | an unconfirmed delete does nothing; a confirmed one issues the delete call; neither touches any state field |
| `Workspace.DeleteSucceeded` | src/app/app.component.ts:134 | a delete success drops `uploading` and requests the current page |
| `Workspace.DeleteFailed` | src/app/app.component.ts:135 | a delete failure drops `uploading` and `loading` and stores its message |
| `Workspace.ViewDoc` | src/app/app.component.ts:140-141 | viewing issues one get call and changes no state, `loading` included |
| `Workspace.ViewSucceeded` | src/app/app.component.ts:142 | the fetched document becomes the selected one; nothing else changes |
| `Workspace.ViewFailed` | src/app/app.component.ts:143 | a get failure stores its message, drops `loading` and keeps `uploading` |
| `Workspace.PerformSearch` | src/app/app.component.ts:152-161 | always ends with `loading` raised and no error; a blank keyword resets the search metrics and selection and requests the current page; otherwise one search for the untrimmed keyword |
| `Workspace.SearchSucceeded` | src/app/app.component.ts:162-168 | documents become the hits, the count is their number, the time is the elapsed time, `loading` drops, and the first hit (or none) is selected |
| `Workspace.SearchFailed` | src/app/app.component.ts:169 | a search failure stores its message, drops `loading` and keeps `uploading` |
| `Workspace.NextThenPrev` | src/app/app.component.ts:67-77 | from a page of at least 1, next then previous returns to the same page after requesting the next page and then this one |
| `Workspace.BlankKeywordResets` | src/app/app.component.ts:156-161 | an all-white-space keyword is handled exactly as a search reset; any other keyword issues exactly one search call |
| `Workspace.SearchRoundTrip` | src/app/app.component.ts:152-168 | searching a non-blank keyword issues exactly one search call, and its response leaves the workspace idle with no error, showing the hits with their count and time, the first hit selected, on the same page and with the same upload state |
| `Workspace.UploadRoundTrip` | src/app/app.component.ts:118-124 | a valid upload issues one upload call, and its success leaves no upload running, no file selected and a list request for the current page |
| `Workspace.UploadFailureClearsLoading` | src/app/app.component.ts:193-199 | an upload failure drops `loading` even when a search or list is still in flight |
| `Workspace.FetchFailureKeepsUpload` | src/app/app.component.ts:193-199 | list, search and get failures leave an upload in progress flagged |
| `Session.Apply` | src/app/app.component.ts:82-170 | every rejected call logs its cause first, stores a message, drops `loading` and asks for nothing; a returned list or search result replaces the documents and ends `loading`, and a returned document becomes the selected one, none of them with a further effect; a returned upload or delete drops `uploading` and asks for the current page again |
| `Session.ApplyKeepsValid` | src/app/app.component.ts:67-199 | any single event keeps page ≥ 1 and the fixed limit, asks for at most one call, and any list call is for the page shown afterwards |
| `Session.BusyWhileRequesting` | src/app/app.component.ts:174-177 | a list or search call only goes out with `loading` raised and no error; an upload only goes out with `uploading` raised and no error |
| `Session.UploadingRaisedOnlyByUpload` | src/app/app.component.ts:118 | only an upload click with a file that passes validation can raise `uploading` |
| `Session.RunKeepsValid` | src/app/app.component.ts:67-77 | over any sequence of events the page stays at least 1 and every list call asks for a page of at least 1 of size 5 |
| `Session.PageNeverBelowOne` | src/app/app.component.ts:49 | from start-up, whatever happens, the page is at least 1 and every list call issued is well formed |
| `Session.NoUploadClickNoUploading` | src/app/app.component.ts:118 | without an upload click, an idle `uploading` flag stays down |
| `Session.NextPages` | src/app/app.component.ts:67-70 | `n` presses of next move exactly `n` pages forward and request each page on the way, in order |
| `Session.PrevPagesAtFirst` | src/app/app.component.ts:72-77 | on page 1, any number of presses of previous change nothing and request nothing |
| `Session.PrevPages` | src/app/app.component.ts:72-77 | `n` presses of previous land on the current page minus `n`, or on page 1, requesting each page passed on the way down |
| `Session.StartUpScenario` | src/app/app.component.ts:57-58 | start-up requests page 1 of size 5; three returned documents are shown with `loading` down; an empty search result leaves count 0 and no selection; an unconfirmed delete does nothing |

## Left out

- `document.service.ts` is a thin HTTP wrapper. Its five operations are the `Call` values in the effect list. URL building, `encodeURIComponent` and `FormData` are not modelled.
- Snackbars are `Notify` effects that carry a tone, the text and the duration. The `✅`/`❌` prefix and the "Close" action are rendering details, so the tone stands for them.
- `console.error` is a `LogCause` effect whose cause is an opaque string.
- The browser's `confirm()` dialog is a boolean argument of `Workspace.DeleteDoc`.
- `performance.now()` is a wall-clock reading. The elapsed time arrives as a non-negative whole number of milliseconds with the search response, so fractional milliseconds are not modelled.
- Extracting a file from a drop or input event is an `Option<File>` argument of `Workspace.SelectFile`. `preventDefault` is not modelled. A `File` carries only its name, because nothing else about it is inspected.
- The `searchKeyword` field and `onSearchInput` are the two-way binding of the search box. The keystroke stream given to `Keystrokes.Dispatched` carries the keyword instead.
- The real rxjs scheduler is not modelled. For a keystroke followed by the next one exactly 300 ms later, the model emits the earlier one.
- Response ordering is not modelled: responses are applied in whatever order the event sequence gives. The model does not check that a response answers a request that was issued.
- `Text.ToLower`: lower-casing maps only the ASCII letters A to Z. JavaScript's full Unicode case mapping is not modelled. For the upload check this makes no difference: no character outside ASCII lower-cases to `t`, `x`, `p`, `d` or `f`, so a name is accepted by the model exactly when JavaScript's `toLowerCase` would accept it.
- `Text.ToLowerIdempotent`: holds for the ASCII-only mapping above; it is not claimed for Unicode case mapping.
- `Workspace.NextPage`: the page is an unbounded integer. The precision loss of a JavaScript number above 2^53 is not modelled.
- `setLoading` is the helper `Workspace.SetLoading`, which has no contract of its own. Its effect is stated by the contracts of its callers `Workspace.LoadDocuments` and `Workspace.PerformSearch`, and by `Session.BusyWhileRequesting`.
- Angular decorators, module imports, the template and styles are not modelled.
