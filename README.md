# hibi-timer: a Dafny model of the focus timer and its release manifest

hibi-timer is a desktop focus/rest timer. This project models its core:

- **The session controller** (`useTimer`). It holds the view (`select`, `focus`, `rest`), the day's total focus minutes, the running session's length and countdown, and the running flag. Its operations are `start`, `pause`, `resume`, `cancel`, `complete`, `_resetRunning`, `updateRemainingSeconds` and `reset`. It is a class, `Timer.TimerController`. Each method is proved equal to a pure step function on `Timer.TimerState`, and the properties are lemmas about those step functions. The `showWindow()` request issued by `complete` is recorded as a counter, `windowRequests`.
- **The countdown screen.** It has three parts:
  - The tick effect: not running → nothing; running at `<= 0` → `onComplete`; otherwise → `remainingSeconds - 1`. This is a method `TimerView.Tick` acting on the controller. `TimerView.Ticks` composes ticks.
  - The screen's own copy of `formatTime`.
  - The keyboard dispatch: Escape cancels, Space toggles pause, and Cmd+ArrowRight is recognised but does nothing.
- **Time formatting.** `formatTime` renders `HH:MM:SS`, zero-padded, with an hour field that grows and is never cut. `timeToStr` and `timeToLongStr` are modelled for their zero case.
- **The start menu.** It covers the total shown as hours and minutes, the Cmd+1..4 preset table with its meta-only key filter, and the four start buttons.
- **The update-manifest generator:**
  - slash trimming in `normaliseSegment`;
  - `buildBaseUrl`;
  - the three platform matchers;
  - `ensureFile`, `signaturePathFor` and `relativeUrlPath`, all over an in-memory listing of paths;
  - the collection loop. A missing darwin artifact aborts the run, a missing windows artifact is skipped, an empty listing aborts, and `notes` appears only for non-empty release notes.

The controller in `src/hooks/use-timer.ts` is a single timer. `src/App.tsx` reads `timers`, `onFinish`, `skipRest` and `setTimer` from `useTimer()`, which `src/hooks/use-timer.ts` does not return (its result object is at lines 80-93). The model follows `use-timer.ts`: one timer, no queue.

Files:

| file | module | contents |
|---|---|---|
| `wrappers.dfy` | `Wrappers` | `Option`, `Result` |
| `time.dfy` | `Time` | `src/lib/time.ts` |
| `timer.dfy` | `Timer` | `src/hooks/use-timer.ts` |
| `timer_view.dfy` | `TimerView` | `src/components/timer-view.tsx` |
| `main_view.dfy` | `MainView` | `src/components/main-view.tsx` |
| `release.dfy` | `Release` | `scripts/generate-latest-json.mjs` |

JavaScript's `Math.floor(a / b)` and `%` for a non-negative `a` and positive `b` agree with Dafny's `/` and `%`, so they are written as those.

`cancel` reads the `view` that was current when it was called, even though it calls `setView('select')` first: React setters do not change the captured value. The model therefore tests the view before resetting it.

## Model

| member | source | states |
|---|---|---|
| Timer.TimerController.constructor | src/hooks/use-timer.ts:16-21 | the controller starts in the menu view with a zero total, no session, and the timer stopped |
| Timer.InitialIsConsistent | src/hooks/use-timer.ts:16-21 | the initial state is idle, has a zero total, and satisfies the session invariant |
| Timer.TimerController.Start | src/hooks/use-timer.ts:24-31 | the new object state is the start step applied to the old one |
| Timer.StartSetsUpCountdown | src/hooks/use-timer.ts:24-31 | start sets: the view to the mode; running; the session length to `m`; the countdown to `m*60`. It keeps the total and the window requests, and keeps the invariant for `m >= 0` |
| Timer.TimerController.Pause | src/hooks/use-timer.ts:34-36 | the new object state is the pause step applied to the old one |
| Timer.TimerController.Resume | src/hooks/use-timer.ts:39-41 | the new object state is the resume step applied to the old one |
| Timer.PauseResumeInverse | src/hooks/use-timer.ts:34-41 | pause clears and resume sets only the running flag, and each undoes the other |
| Timer.TimerController.Cancel | src/hooks/use-timer.ts:44-52 | the new object state is the cancel step applied to the old one |
| Timer.CancelCreditsPartial | src/hooks/use-timer.ts:44-52 | after cancel the state is idle. In focus the total grows by `runningMinutes - floor(remainingSeconds/60)`, in rest it is unchanged, and no window request is issued |
| Timer.CancelCreditBounds | src/hooks/use-timer.ts:47-50 | the cancel credit equals the elapsed seconds divided by 60 and rounded up, and lies in `[0, runningMinutes]` |
| Timer.CancelAfterStartCreditsNothing | src/hooks/use-timer.ts:24-50 | cancelling straight after start credits 0 and leaves the total as it was |
| Timer.CancelKeepsConsistent | src/hooks/use-timer.ts:44-52 | cancel keeps the session invariant and never lowers the total |
| Timer.TimerController.Complete | src/hooks/use-timer.ts:54-63 | the new object state is the complete step applied to the old one, and `showWindow` is counted |
| Timer.CompleteCreditsSession | src/hooks/use-timer.ts:54-63 | after complete the state is idle. In focus the total grows by exactly `runningMinutes`, in rest it is unchanged, there is exactly one more window request, and the invariant holds |
| Timer.TimerController.ResetRunning | src/hooks/use-timer.ts:65-69 | the new object state is the reset-running step applied to the old one |
| Timer.TimerController.UpdateRemainingSeconds | src/hooks/use-timer.ts:71-73 | the new object state is the update step applied to the old one |
| Timer.TimerController.Reset | src/hooks/use-timer.ts:76-78 | the new object state is the reset step applied to the old one |
| Timer.ResetAndUpdateFrame | src/hooks/use-timer.ts:71-78 | reset zeroes the total and nothing else; update sets the countdown and nothing else |
| Timer.ApplyKeepsConsistent | src/hooks/use-timer.ts:24-78 | every admissible call keeps the invariant, and no call except reset lowers the total |
| Timer.RunKeepsConsistent | src/hooks/use-timer.ts:24-78 | a sequence of admissible calls keeps the invariant, and the total never decreases unless reset is among the calls |
| Time.FormatTime | src/lib/time.ts:7-13 | `formatTime`: floor-divided hours, minutes below the hour and seconds below the minute, each padded to two digits and joined by ':'. Its properties are stated by Time.FormatTimeSplit, Time.FormatTimeRoundTrip, Time.FormatTimeShape and Time.FormatTimeZero |
| Time.Pad2 | src/lib/time.ts:12 | `String(n).padStart(2, '0')`. Its properties are stated by Time.Pad2Field |
| Time.NatToStringValue | src/lib/time.ts:12 | `String(n)` is a non-empty digit string denoting `n` |
| Time.NatToStringLength | src/lib/time.ts:12 | `String(n)` has 1 digit below 10, 2 digits below 100, and at least 3 otherwise |
| Time.PadStart | src/lib/time.ts:12 | a string already `width` long is unchanged; otherwise fill characters are prepended up to `width`, ending in the original string |
| Time.Pad2Field | src/lib/time.ts:12 | the padded field is at least two digits, still denotes `n`, is exactly two characters iff `n < 100`, and is never truncated |
| Time.FormatTimeSplit | src/lib/time.ts:8-10 | `hours*3600 + minutes*60 + secs == seconds`, with minutes and secs in `[0, 59]` |
| Time.FormatTimeRoundTrip | src/lib/time.ts:7-13 | parsing the `H..H:MM:SS` output gives back the input, for every natural number of seconds (the source's doubles match this below 2^53; see Time.FormatTime under Left out) |
| Time.FormatTimeShape | src/lib/time.ts:12 | the output has three digit fields joined by ':', the hour field is the padded hours, and the length is 8 iff `seconds < 360000` |
| Time.FormatTimeZero | src/lib/time.ts:7-13 | `formatTime(0) == "00:00:00"` |
| Time.TimeToStr | src/lib/time.ts:15-18 | zero gives the literal `"0s"`; anything else is handed to `ms` as milliseconds in short form |
| Time.TimeToLongStr | src/lib/time.ts:20-23 | zero gives the literal `"0s"`; anything else is handed to `ms` as milliseconds in long form |
| TimerView.TickRule | src/components/timer-view.tsx:33-50 | not running → no action; running at `<= 0` → complete; otherwise → schedule `remainingSeconds - 1` |
| TimerView.TickStep | src/components/timer-view.tsx:33-50 | one tick with the props wired to the controller (`running`, `remainingSeconds`, `complete`, `updateRemainingSeconds`). Its cases are stated by TimerView.TickCases |
| TimerView.Ticks | src/components/timer-view.tsx:33-50 | the effect re-running after each update, `k` times. Its behaviour is stated by the TimerView.Ticks* lemmas and TimerView.StartedSessionCompletes |
| TimerView.Tick | src/components/timer-view.tsx:33-50 | the controller's new state is the tick step, which is the rule wired to complete and update, applied to its old state |
| TimerView.TickCases | src/components/timer-view.tsx:33-45 | a stopped timer is unchanged, a running one at zero completes, and a running one above zero loses exactly one second and nothing else |
| TimerView.TicksWhenStopped | src/components/timer-view.tsx:34-36 | any number of ticks on a stopped timer change nothing |
| TimerView.TicksCountDown | src/components/timer-view.tsx:43-45 | while seconds remain, `k` ticks lower the countdown by exactly `k` and change nothing else |
| TimerView.TicksStayNonNegative | src/components/timer-view.tsx:38-45 | ticks never drive a non-negative countdown below zero |
| TimerView.TickKeepsConsistent | src/components/timer-view.tsx:33-50 | one tick keeps the session invariant and never lowers the total |
| TimerView.TicksKeepConsistent | src/components/timer-view.tsx:33-50 | any number of ticks keep the session invariant and never lower the total |
| TimerView.StartedSessionCompletes | src/components/timer-view.tsx:33-50 | after start(m), the timer runs through exactly `m*60` decrements without completing. The next tick completes it, crediting `m` minutes in focus and issuing one window request, and later ticks change nothing |
| TimerView.FormatTime | src/components/timer-view.tsx:52-58 | the screen's own copy of `formatTime`, written out again. Its equality with the library is stated by TimerView.FormatTimeAgreesWithLibrary |
| TimerView.ClassifyTimerKey | src/components/timer-view.tsx:73-96 | the key handler's decision: the focus gate, then the Space/Escape/skip filter, then Escape before Space. Its cases are stated by TimerView.TimerKeyDispatch |
| TimerView.PauseToggle | src/components/timer-view.tsx:64-70 | `handlePause` with the current `isRunning`: pause if running, resume otherwise. Stated by TimerView.TimerKeyDispatch and TimerView.SpaceTwiceRestores |
| TimerView.PauseToggleAsWritten | src/components/timer-view.tsx:64-70 | `handlePause` as memoised with `[]`: the toggle of the mount-time `isRunning`. Stated by TimerView.StaleToggleNeverResumes |
| TimerView.ApplyTimerKey | src/components/timer-view.tsx:86-95 | the classified key's effect on the controller: cancel, toggle, or nothing. Stated by TimerView.TimerKeyDispatch |
| TimerView.FormatTimeAgreesWithLibrary | src/components/timer-view.tsx:52-58 | the screen's local formatter equals the library `formatTime` on every natural input |
| TimerView.HandleTimerKey | src/components/timer-view.tsx:72-96 | the controller's new state is the classified key's effect applied to its old state |
| TimerView.TimerKeyDispatch | src/components/timer-view.tsx:60-96 | Escape cancels into the idle state. Space flips only the running flag. Cmd+ArrowRight passes the filter and changes nothing. Any other key, or any key without document focus, is ignored |
| TimerView.SpaceTwiceRestores | src/components/timer-view.tsx:64-70 | with the current running flag, two Space presses restore the state |
| TimerView.StaleToggleNeverResumes | src/components/timer-view.tsx:64-70 | as written, the toggle memoised at mount always pauses, so a paused timer is never resumed; the intended toggle does resume it |
| MainView.TotalDisplay | src/components/main-view.tsx:46-49 | the footer's hours and minutes fields, each padded to two digits. Its properties are stated by MainView.TotalDisplaySplit |
| MainView.TotalDisplaySplit | src/components/main-view.tsx:46-49 | the two fields are digit strings of at least two characters (minutes exactly two) denoting hours and minutes with `h*60 + m == totalMinutes` and `m < 60` |
| MainView.PresetStart | src/components/main-view.tsx:86-93 | `presets[key]` and its first entry as the `onStart` arguments, or no call. Stated by MainView.PresetTable |
| MainView.MenuKeyStart | src/components/main-view.tsx:74-94 | the menu's key handler: the focus gate, the Cmd-only filter, then the preset lookup. Stated by MainView.MenuKeyFilter |
| MainView.PresetTable | src/components/main-view.tsx:52-72 | keys 1..4 start focus sessions of 5, 15, 30 and 60 minutes, and every other key starts nothing |
| MainView.MenuKeyFilter | src/components/main-view.tsx:74-94 | a key press starts a session iff the document has focus, Cmd is the only modifier and the key is a preset; it then starts that preset's first entry |
| MainView.MenuStartsFocusCountdown | src/components/main-view.tsx:86-93 | a menu start puts the controller in a running focus countdown of 5, 15, 30 or 60 minutes, in full |
| MainView.ButtonClick | src/components/main-view.tsx:134-158 | the `onStart` call of button `i`: `presets[key][0]` for its key. Stated by MainView.ButtonMatchesShortcut |
| MainView.ButtonMatchesShortcut | src/components/main-view.tsx:134-158 | clicking button `i` makes the same `onStart` call as Cmd plus its digit, in focus mode, with the minutes its label shows |
| Release.Lower | scripts/generate-latest-json.mjs:136 | each character is lower-cased and the length is kept |
| Release.TrimTrailingSpec | scripts/generate-latest-json.mjs:45 | trimming trailing slashes keeps a prefix that does not end in '/' and removes only slashes |
| Release.TrimLeadingSpec | scripts/generate-latest-json.mjs:45 | trimming leading slashes keeps a suffix that does not start with '/' and removes only slashes |
| Release.NormaliseSegment | scripts/generate-latest-json.mjs:43-46 | `normaliseSegment`: '' for an empty value; otherwise the trailing run of '/' removed, and for a non-host also the leading run. Stated by Release.NormaliseSegmentSpec and Release.NormaliseSegmentIdempotent |
| Release.NormaliseSegmentSpec | scripts/generate-latest-json.mjs:43-46 | an empty value gives ''. A host loses exactly its trailing run of '/'. Other segments become the slice between the leading and trailing runs of '/', so interior slashes stay |
| Release.NormaliseSegmentIdempotent | scripts/generate-latest-json.mjs:43-46 | normalising twice is the same as once, and a non-host result neither starts nor ends with '/' |
| Release.BuildBaseUrl | scripts/generate-latest-json.mjs:48-57 | `buildBaseUrl`: the normalised host, prefix and channel, empty parts dropped, joined by '/'. Stated by Release.BaseUrlShape |
| Release.BaseUrlShape | scripts/generate-latest-json.mjs:48-57 | the base URL is the normalised host, then "/prefix" and "/channel" for the parts that are non-empty after normalising; it never ends in '/' |
| Release.Basename | scripts/generate-latest-json.mjs:72 | `path.basename`: the part after the last '/' |
| Release.Dirname | scripts/generate-latest-json.mjs:71 | `path.dirname`: the part before the last '/', `.` without one, `/` for a root file |
| Release.JoinPath | scripts/generate-latest-json.mjs:73 | `path.join(dir, name)` for those directory forms |
| Release.Matches | scripts/generate-latest-json.mjs:122-140 | the three `matcher` predicates. Stated by Release.MatcherProperties |
| Release.MatcherProperties | scripts/generate-latest-json.mjs:122-140 | no matcher accepts a `.sig` file. Darwin needs `.app.tar.gz` plus its architecture tag. Windows needs a case-insensitive `.msi` and `x64`/`x86_64` in the base name. No file matches both a darwin matcher and the windows matcher |
| Release.FindFirst | scripts/generate-latest-json.mjs:60 | the index found is the first accepted file; none is found iff no file is accepted |
| Release.EnsureFile | scripts/generate-latest-json.mjs:59-65 | it returns the first file in list order that the platform's matcher accepts, succeeds iff one exists, and otherwise fails naming the platform |
| Release.SignaturePathFor | scripts/generate-latest-json.mjs:67-77 | a success is a member of the set ending in `.sig`. It succeeds iff the candidate or the rebuilt alternative is in the set. It returns the candidate when present, otherwise the alternative when present, and a failure names the file |
| Release.SignatureFallback | scripts/generate-latest-json.mjs:67-77 | the alternative equals the candidate unless the path starts with `./` or `//`; for `./a` it is `a.sig` |
| Release.ToUrlSeparators | scripts/generate-latest-json.mjs:91 | every separator becomes '/', every other character and the length are kept |
| Release.DirPrefix | scripts/generate-latest-json.mjs:90 | the directory followed by exactly one separator: the directory itself when it already ends in the separator (the root `/`), otherwise the directory with one separator appended |
| Release.RelativeUrlPath | scripts/generate-latest-json.mjs:89-92 | for a file inside the directory, it is the rest of the path after the directory and its separator, with every separator turned into '/'. No separator is left, and with '/' as separator the directory prefix plus the result is the file |
| Release.MakePlatformEntry | scripts/generate-latest-json.mjs:94-106 | `makePlatformEntry`: `ensureFile`, then `signaturePathFor`, then the URL. Stated by Release.MakePlatformEntrySpec |
| Release.MakePlatformEntrySpec | scripts/generate-latest-json.mjs:94-106 | an entry names the listing's first matching artifact, a `.sig` file of the listing (`filesSet` is `new Set(files)`) and `${baseUrl}/${relative path}`. It fails iff the artifact or its signature is missing, with that error |
| Release.Collect | scripts/generate-latest-json.mjs:142-160 | the loop as a left fold: a failure aborts for darwin and is skipped for windows. Stated by Release.CollectAbortSticks, Release.CollectOutcome and Release.CollectKeys |
| Release.CollectAbortSticks | scripts/generate-latest-json.mjs:144-160 | once the loop has aborted, visiting more platforms keeps the abort |
| Release.CollectOutcome | scripts/generate-latest-json.mjs:142-160 | a failed aarch64 or else x86_64 entry aborts with its error; otherwise both darwin entries are in the dictionary, and windows is present iff its entry succeeded |
| Release.CollectKeys | scripts/generate-latest-json.mjs:142-162 | collection succeeds iff both darwin entries succeed. The dictionary then holds both darwin labels and is non-empty, and holds windows iff its entry succeeded |
| Release.CollectPlatforms | scripts/generate-latest-json.mjs:142-160 | the loop over the matchers returns the collection fold's result, abort or dictionary |
| Release.LatestFrom | scripts/generate-latest-json.mjs:108-174 | `main` after the listing: the empty-listing abort, collection, the empty-result abort, and the manifest with notes for non-empty release notes. Stated by Release.LatestOutcome |
| Release.LatestOutcome | scripts/generate-latest-json.mjs:108-174 | an empty listing fails. Otherwise the run fails iff a darwin entry fails, with the first such error. A manifest lists both darwin entries, lists windows iff its entry succeeded, carries the version, and has notes iff the release notes are non-empty |
| Release.NoPlatformAbortUnreachable | scripts/generate-latest-json.mjs:162-164 | for a real listing, the "no platform artifacts" abort can never be the outcome |
| Release.GenerateLatest | scripts/generate-latest-json.mjs:108-174 | the result is the manifest or the error that the collection and abort rules give for the listing and the environment |

## Left out

- React rendering, JSX, tooltips, dialogs and styling are not modelled, because they are presentation.
- `src/components/complete-view.tsx` and `src/components/timer-layout.tsx` are not modelled, for the same reason.
- TimerView.Tick: models one firing of the tick effect. `setInterval`/`clearInterval` and the one-second delay are real time and are not modelled. Re-running the effect on every prop change is modelled as repeated ticks (`TimerView.Ticks`).
- TimerView.HandleTimerKey: `document.hasFocus()` is a parameter. `addEventListener`/`removeEventListener` and `preventDefault` are browser plumbing and are not modelled.
- There is no skip button: the only `onClick={handleSkip}` sits inside a JSX comment (src/components/timer-view.tsx:133-152). Skip's only trace is Cmd+ArrowRight passing the keyboard filter and doing nothing (lines 80-96).
- Timer.TimerController.Complete: `showWindow()` (src/lib/window.ts) is an async call into the window shell. It is counted as a request and not modelled further.
- `src/lib/tray.ts` and `src/lib/window.ts` are thin wrappers around shell commands and are not modelled. `src-tauri/src/lib.rs` is shell setup (tray, global shortcut, updater) and is not part of this model.
- `src/App.tsx` is not modelled: it destructures `timers`, `onFinish`, `skipRest` and `setTimer` from `useTimer()`, which `src/hooks/use-timer.ts` does not return. `eslint.config.js` is tooling.
- Time.TimeToStr: the non-zero result is the external `ms` library's rendering. The model records only the call (milliseconds and the long flag).
- Time.FormatTime: takes natural numbers, which are unbounded. The source works on IEEE doubles. Negative or fractional seconds are not modelled, and the countdown never produces them.
- Time.FormatTime: the range above 2^53 seconds is not modelled, where doubles are no longer exact integers. Nor is the range where the hour count reaches 1e21, which `String` renders in exponent form ("2.7777777777777778e+21"). Time.FormatTimeRoundTrip and Time.FormatTimeShape therefore state the source's behaviour only for seconds below 2^53.
- Timer.TimerController: the hook's setters read values captured at render time. Two calls within one render (two `cancel`s, say) would see stale values. The model applies calls sequentially, as the app issues them one event at a time.
- MainView.PresetStart: models the four keys of the preset record. Keys that look up an inherited property of a JavaScript object (`presets["constructor"]`) are not modelled. The rest entries of each preset are never read: main-view.tsx:93 and 138-157 read only `[0]`.
- Release.Lower: lower-cases ASCII letters only; JavaScript's full Unicode `toLowerCase` is not modelled.
- Release.RelativeUrlPath: models `path.relative` only for files inside the artifacts directory, which is where the listing's files come from. A directory ending in its separator (the root `/`) is taken as it is; any other directory gets one separator appended.
- Release.SignaturePathFor: models `path.join`'s normalisation only for the directory forms `.` and `/`. Other normalisation (`..`, `.` segments, repeated separators) is not modelled.
- Release.SignatureFallback: rests on the same simplified `path.join`. For `a//b` or `a/./b`, Node's `path.join(path.dirname(f), base + '.sig')` gives `a/b.sig`, which differs from the candidate; the lemma does not capture that.
- Release.Basename: agrees with POSIX `path.basename` only for paths without a trailing '/' (Node ignores a trailing separator, the model does not). It splits on '/' only; Windows separators are not modelled.
- Release.Dirname: agrees with POSIX `path.dirname` only for paths without a trailing '/' (Node ignores a trailing separator, the model does not). It splits on '/' only; Windows separators are not modelled.
- Release.MakePlatformEntrySpec: the signature file's trimmed contents and the artifact's SHA-256 are file reads and hashing, so the entry records the signature's path instead.
- Release.GenerateLatest: several steps are parameters or are not modelled:
  - the directory walk (`listFilesRecursive`), `stat`, `readFile` and `crypto`;
  - the `Date` stamp `pub_date`;
  - the JSON file write;
  - console output;
  - `process.exit`;
  - reading and trimming the environment variables and their defaults;
  - the missing-directory error.
- Release.GenerateLatest: the two start-up exits at scripts/generate-latest-json.mjs:17-25 are not modelled. The script exits when `APP_VERSION` or `RELEASE_HOST` is empty after trimming. Release.GenerateLatest and Release.LatestOutcome take the version and host as given and build a manifest even for an empty version, where the script exits before reading the listing.

## Findings

| source | as written | input that shows it | evidently intended | confidence | as-written member | corrected member |
|---|---|---|---|---|---|---|
| src/components/timer-view.tsx:64-70 | `handlePause` is memoised with an empty dependency list, so it keeps the `isRunning` of the first render. The screen mounts with a running timer, so the handler always calls `onPause` | start a session, press Space (pauses), press Space again: the timer pauses again instead of resuming | Space and the pause button toggle between pause and resume according to the current `isRunning` | not executed | TimerView.PauseToggleAsWritten, shown by TimerView.StaleToggleNeverResumes | TimerView.PauseToggle, used by TimerView.ApplyTimerKey and proved in TimerView.TimerKeyDispatch and TimerView.SpaceTwiceRestores |
