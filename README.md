# Course-registration login automation and download page, modelled in Dafny

This project models two parts of the *sugang* desktop helper.

The first part is the login automation of the Electron main process (`main.js`):
- the half-hour boundary arithmetic of the scheduler and its 30-minute repeat chain;
- the 5 ms timed clicker that fires just before each boundary;
- the selector-based field resolver that the injected prefill, login and click scripts share;
- the bounded readiness and fill retries;
- the stored-credential gate that decides whether scheduling starts;
- the login modal's validation;
- the choice among the three server-time sources.

The second part is the download page (`web/src/App.js`):
- the release-asset classifier and its fallback entry;
- the first-URL helper;
- user-agent platform detection;
- the one-asset-or-modal decision;
- the theme toggle.

Modules, one per concern:

- `Wrappers`: `Option` and `Result`.
- `Text`: the string operations the source relies on.
  - ASCII lower-casing is what a case-insensitive regular expression does with these ASCII patterns.
  - Also substring and suffix tests, and `String.prototype.trim` with its whitespace set.
- `Clock`: instants are integer epoch milliseconds.
  - Local time is the instant plus a fixed zone offset, so `getMinutes`/`getSeconds`/`getMilliseconds` are Euclidean divisions.
  - `NextBoundary` is the reference definition of "the next :00 or :30".
- `Schedule`: `scheduleAutoLogin`. Its targets are proved equal to `NextBoundary`, and its timer delays are ordered. It also holds the repeat chain as written and corrected (see Findings).
- `Clicker`: the fire window of `startTimedClicker`, proved equivalent to "100 to 200 ms before the next boundary". The class `TimedClicker` steps the interval tick by tick.
- `Dom`: documents are maps from selector to element.
  - `FirstMatch`/`QueryFirst` give first-match-wins; the search order is Main iframe, readable iframes in document order, then the top document.
  - The class `Page` holds element values and the clicks and submissions the scripts cause. Its methods are proved against the specification functions `PrefillTarget`, `LoginRun` and `FirstButton`.
- `Retry`: the probe and fill loops, with each script's outcome given as a function of the attempt number.
- `Credentials`: form validation, the `autoLogin !== false` rule, `setupAutoLogin`, and the credential IPC handlers, as the class `CredentialStore`.
- `ServerTime`: the source choice of `getServerTime`.
- `Releases`: `fetchLatestAssets` and `fetchLatestAssetUrl`, with the HTTP response as an `Option`.
- `Site`: `detectOS`, `showArchitectureSelector`, `handlePrimaryClick` and the theme toggle, as the class `ThemePage`.

Two behaviours of the code are worth stating up front:
- The timed clicker is started whatever is stored: the delayed `startTimedClicker` call does not read the store (main.js:704-706).
- Only the prefill refresh checks for credentials (main.js:713-714).

## Model

| member | source | states |
|---|---|---|
| Text.TrimEmptyIff | main.js:416-427 | a trimmed input is empty exactly when the raw input is all JavaScript whitespace |
| Text.TrimIdempotent | main.js:416-417 | trimming a trimmed value changes nothing |
| Text.Trim | main.js:416-417 | `trim`: its shape and emptiness are stated by `Text.TrimShape` (a slice of the input with no whitespace at either end) and `Text.TrimEmptyIff` |
| Clock.LocalFields | main.js:681-684 | the minute, second and millisecond fields read from a local instant lie in 0..59, 0..59 and 0..999 |
| Clock.NextBoundary | main.js:686-699 | the next :00 or :30 boundary is a boundary, lies strictly after the instant and at most half an hour later, and is the least such instant |
| Schedule.WaitSeconds | main.js:686-695 | the wait is 1 to 1800 s and lands on a multiple of 1800 s; it is a full 1800 s exactly at :00:00 or :30:00 |
| Schedule.FirstTargetIsNextBoundary | main.js:680-699 | `now + waitSeconds * 1000` with seconds and milliseconds cleared is the first boundary strictly after `now` |
| Schedule.CycleTargetIsNextBoundary | main.js:724-733 | the repeat callback's target (:30 of this hour or :00 of the next) is the first boundary strictly after the callback's instant |
| Schedule.SetSecondsZero | main.js:699-700 | `setSeconds(0, 0)`: used by both targets, whose meaning is stated by `Schedule.FirstTargetIsNextBoundary` and `Schedule.CycleTargetIsNextBoundary` |
| Schedule.FirstTarget | main.js:698-700 | the first target; `Schedule.FirstTargetIsNextBoundary` proves it is `Clock.NextBoundary` of the scheduling instant |
| Schedule.CycleTarget | main.js:724-732 | the repeat callback's target; `Schedule.CycleTargetIsNextBoundary` proves it is `Clock.NextBoundary` of the callback's instant |
| Schedule.TimerDelay | main.js:703-711 | a delay is never negative and the timer fires at `target - lead` or at once when that has passed |
| Schedule.PlanAutoLogin | main.js:680-752 | the target is the next boundary; 0 <= clicker delay <= prefill refresh delay <= repeat-start delay = target - now; the leads are 90000 and 1200 ms, clamped at 0 |
| Schedule.ArmedTargetsAsWritten | main.js:721-752 | the repeat chain as written arms the first target and then one target per interval callback |
| Schedule.CallbackArmsFollowingBoundary | main.js:723-733 | an interval callback that runs less than a period late after a boundary arms the boundary after it, not the one it runs at |
| Schedule.SecondBoundaryNeverArmed | main.js:721-752 | as written, the boundary half an hour after the first target is never armed by the chain |
| Schedule.MissedBoundaryExample | main.js:680-752 | scheduling at 12:17:45 UTC targets 12:30, and 13:00 is never armed |
| Schedule.ArmedTargets | main.js:721-752 | corrected chain: the first target, then the callback targets, with the repeat start also arming at once |
| Schedule.ArmedTargetsConsecutive | main.js:721-752 | the corrected chain arms every consecutive boundary from the first target on: entry i is `t + i * 30 min` |
| Clicker.ClickWindowBeforeBoundary | main.js:1155-1159 | the fire test (minute % 30 == 29, second 59, millisecond 800..899) holds exactly 200 to 100 ms before the next boundary |
| Clicker.InClickWindow | main.js:1158-1159 | the fire test; `Clicker.ClickWindowBeforeBoundary` proves it holds exactly 200 to 100 ms before the next boundary |
| Clicker.TimedClicker.constructor | main.js:1149-1151 | the clicker records its start, polls, and has launched nothing; the target argument is not used |
| Clicker.TimedClicker.Tick | main.js:1151-1166 | a tick launches a click exactly when still polling and inside the fire window; polling stops for good once more than 120000 ms have passed |
| Clicker.TimedClicker.Settle | main.js:1159-1161 | a settled click stops polling |
| Dom.FirstMatch | main.js:1079-1085 | the result is the element of the earliest matching selector in list order, and null exactly when no selector matches |
| Dom.QueryFirst | main.js:1079-1085 | the loop with early return computes `FirstMatch` |
| Dom.FilledTouchesOnlyFields | main.js:1087-1097 | filling writes the username and password elements and leaves every other value unchanged |
| Dom.FieldsIn | main.js:1088-1090 | both inputs of one document or none; `Dom.Page.TryPrefillInDoc` proves the fill succeeds exactly when it finds both |
| Dom.FirstFillable | main.js:1099-1117 | the result is the fields of the first document holding both inputs, and none exactly when no document holds both |
| Dom.AccessibleDocs | main.js:1105-1112 | only readable iframes contribute documents |
| Dom.ScopesAreReadable | main.js:1099-1117 | every searched document is the top document or a readable iframe |
| Dom.MainIframeFirst | main.js:1099-1103 | a readable Main iframe holding both inputs is the one filled |
| Dom.IframesInDocumentOrder | main.js:1105-1112 | otherwise the first readable iframe in document order holding both inputs is filled |
| Dom.TopDocumentLast | main.js:1114-1117 | the top document is filled only when no readable iframe holds both inputs |
| Dom.FirstButton | main.js:1127-1146 | the result is the login button of the first scope that has one, or none when no scope has one |
| Dom.SearchScopes | main.js:1099-1114 | Main iframe, readable iframes, top document; the order is stated by `Dom.MainIframeFirst`, `Dom.IframesInDocumentOrder` and `Dom.TopDocumentLast`, the readability by `Dom.ScopesAreReadable` |
| Dom.ClickScopes | main.js:1139-1143 | Main iframe then top document; `Dom.Page.ClickLoginButtonOnly` proves the click goes to the first of them with a button |
| Dom.SubmitAction | main.js:847-852 | button click, else the username's form, else the password's form; `Dom.Page.TryPrefillAndClick` proves the method records exactly this action |
| Dom.LoginRun | main.js:840-875 | the login script succeeds exactly when some scope holds both inputs and yields a click or a submission, and then it records exactly one action |
| Dom.LoginRunFirstSuccess | main.js:857-872 | when scope i is the first where both inputs and a button or form are found, the run succeeds with that scope's action alone, after filling scope i and every earlier scope holding both inputs |
| Dom.LoginRunNoSuccess | main.js:857-875 | when no scope yields an action, every scope holding both inputs is filled, no action is recorded, and the script reports failure |
| Dom.Page.TryPrefillInDoc | main.js:1087-1097 | the fill succeeds exactly when both inputs are found in the document, and then it writes exactly those two values |
| Dom.Page.ExecuteLoginPrefill | main.js:1099-1120 | the prefill succeeds exactly when some scope holds both inputs, and it fills the first such scope in search order and nothing else |
| Dom.Page.PrefillIframes | main.js:1105-1112 | the iframe loop fills the first readable iframe holding both inputs, or changes nothing |
| Dom.Page.TryPrefillAndClick | main.js:840-855 | both inputs found: fill them, then click the button, else submit the username's form, else the password's form; success exactly when an action happened |
| Dom.Page.ExecuteLogin | main.js:857-875 | the login script's values, actions and result are those of `LoginRun` over Main iframe, readable iframes, then top document |
| Dom.Page.ClickLoginButtonOnly | main.js:1127-1146 | the button script clicks the first login button of the Main iframe, then the top document, and reports success exactly when it clicked |
| Retry.WaitForIframeAndPrefill | main.js:997-1046 | 1 to 40 readiness probes, stopping at the first ready one; fills only after a ready probe, 1 to 40 of them, stopping at the first success; fewer than 40 probes means a probe said ready |
| Retry.WaitForIframeAndLogin | main.js:764-798 | 1 to 20 probes, stopping at the first ready one; the login script runs exactly when the last probe said ready |
| Credentials.ValidateLoginForm | main.js:413-432 | an empty trimmed username is reported first, then an empty trimmed password; otherwise the trimmed, non-empty values and both checkbox states are saved |
| Credentials.SavedValuesAreTrimmed | main.js:416-431 | a saved username or password has no whitespace at either end, and trimming it again changes nothing |
| Credentials.ModalRoundTrip | main.js:399-406 | reopening the modal after a save shows the saved checkbox states, and scheduling follows the auto-login checkbox |
| Credentials.ModalCheckboxes | main.js:399-406 | the checkbox states shown; `Credentials.ModalRoundTrip` proves a save shows its own states again |
| Credentials.SetupDecision | main.js:659-678 | no record opens the login modal; a record is prefilled at once and scheduled exactly when its auto-login flag is not `false`, a missing flag counting as enabled |
| Credentials.AutoLoginEnabled | main.js:673 | the `autoLogin !== false` rule; `Credentials.SetupDecision` states that a missing flag counts as enabled |
| Credentials.CredentialStore.SaveCredentials | main.js:950-957 | the payload is stored, and one more chain starts exactly when a record is present and its auto-login flag is not `false` |
| Credentials.CredentialStore.GetCredentials | main.js:959-961 | the stored record is returned unchanged |
| Credentials.CredentialStore.ClearCredentials | main.js:963-965 | the stored record is removed |
| Credentials.CredentialStore.SetupAutoLogin | main.js:659-678 | each run of `setupAutoLogin`, 500 ms after every load of the main window, acts as `SetupDecision` on the stored record and starts a chain only for a scheduled prefill |
| ServerTime.ChosenSource | main.js:885-947 | the Date header is used exactly when its value is present and non-zero; then the secondary service under the same test; otherwise the local clock |
| ServerTime.GetServerTime | main.js:885-947 | the sample carries the chosen source's value and the instant read before the requests; a local-clock value is not earlier than that instant when the clock did not step back between the two reads |
| ServerTime.SecondaryBeatsLocalClock | main.js:940-946 | a usable secondary value wins whenever the header was not usable |
| Releases.Label | web/src/App.js:20-58 | labels come from the first matching architecture test per platform and never equal the fallback's title |
| Releases.Included | web/src/App.js:19-47 | the platform filters; `Releases.ClassifiedMembers` and `Releases.PlatformsDisjoint` state what they admit |
| Releases.Entry | web/src/App.js:21-57 | the pushed object; `Releases.ClassifiedMembers` states that it carries the asset's url and name under `Releases.Label` |
| Releases.Classified | web/src/App.js:16-60 | the classified list is never longer than the asset list |
| Releases.CollectPlatformAssets | web/src/App.js:14-60 | the push loop builds exactly the classified list |
| Releases.LatestAssets | web/src/App.js:7-67 | the resolved list is never empty |
| Releases.FetchLatestAssets | web/src/App.js:7-67 | the method's result is `LatestAssets`: the classified list, or the fallback entry alone |
| Releases.LatestAssetUrl | web/src/App.js:69-72 | the url is the download url of the first asset the platform includes, or the releases page when that url is empty, nothing is included or the request failed; it is never empty |
| Releases.ClassifiedNoneIncluded | web/src/App.js:16-60 | nothing is classified exactly when no asset passes the platform's filter |
| Releases.ClassifiedHead | web/src/App.js:16-63 | the first entry is the one of the first included asset |
| Releases.ClassifiedAppend | web/src/App.js:18-30 | classification keeps input order: the output for a concatenation is the concatenation of the outputs |
| Releases.ClassifiedMembers | web/src/App.js:16-60 | an entry is in the output exactly when it is the labelled entry of an included asset, with that asset's url and name |
| Releases.ClassifiedKeepsAllIff | web/src/App.js:16-60 | one entry per asset exactly when every asset passes the platform's filter |
| Releases.FallbackExactlyWhenNothingMatched | web/src/App.js:61-65 | the result is the fallback alone exactly when the request failed or nothing matched; otherwise it is the classified list |
| Releases.UnknownPlatformFallsBack | web/src/App.js:16-63 | an unknown platform matches no asset and gets the fallback alone |
| Releases.PlatformsDisjoint | web/src/App.js:19-47 | no asset name passes the filters of two platforms |
| Site.DetectOS | web/src/App.js:74-80 | Windows exactly when "windows nt" occurs; macOS exactly when it does not and "mac os x" or "macintosh" does; Linux exactly when none of those occurs and "linux" does; all case-insensitive |
| Site.ShowArchitectureSelector | web/src/App.js:129-148 | one entry, the fallback included, is opened directly at its url; otherwise the modal opens with all entries and the platform |
| Site.DownloadClickOutcome | web/src/App.js:129-148 | nothing matched goes to the releases page, one match is downloaded directly, several open the modal with exactly the matches in input order |
| Site.PrimaryClick | web/src/App.js:163-173 | an unknown platform raises the alert; any other opens that platform's selector |
| Site.Toggled | web/src/App.js:97-105 | a toggle flips light and dark, and stores the new theme |
| Site.ToggleTwice | web/src/App.js:97-105 | two toggles restore the theme, and restore the attribute itself unless it held a value other than "light" |
| Site.ThemePage.constructor | web/src/App.js:85-95 | a non-empty stored theme is applied to the attribute on mount |
| Site.ThemePage.ToggleTheme | web/src/App.js:97-105 | the toggle flips light and dark, and attribute and storage become those of `Toggled` |

## Left out

- Timers and the event loop are left out. Each `setTimeout`/`setInterval` callback is a function or method applied to the instant it runs at, and the 300 ms, 250 ms and 500 ms retry spacings are not modelled.
- The clicker is not claimed to fire once. Several 5 ms ticks inside the 100 ms window can each launch a click before the first one settles; `TimedClicker` counts them.
- Overlapping schedule chains are only counted (`CredentialStore.chains`). `setupAutoLogin` runs 500 ms after every load of the main window (main.js:132-137), so every page load with auto-login enabled stacks one more chain; with nothing stored, every load reopens the login modal. Each save whose auto-login flag is not `false` also starts one. No earlier chain is cancelled, and the timers of the chains are not modelled.
- Schedule.PlanAutoLogin: the clock reads of one synchronous call (main.js:681, 704, 711 and 751) are taken as one instant `now`, and likewise those of a repeat callback (main.js:724, 737 and 743). The source reads the clock afresh for each delay; that is why its repeat-start delay is clamped at 0, while the model's repeat delay is exactly `target - now`.
- Daylight-saving changes are not modelled. Local time is the instant plus one fixed offset.
- `Clicker.TimedClicker.Tick` reads a single instant per tick. The source reads the clock twice, once for the fire test and once for the kill switch.
- `performAutoLogin` is not a member of its own. Nothing in main.js calls it, so `waitForIframeAndLogin` and `executeLogin` are unreachable there; they are modelled anyway (`Retry.WaitForIframeAndLogin`, `Dom.Page.ExecuteLogin`).
- The `onReady` callback of `waitForIframeAndPrefill` is left out. Every caller passes `null`.
- `btn.click()` is taken not to throw. That makes the form-submission fallback after a failed click unreachable, in both `tryPrefillAndClick` and `clickLoginButtonOnly`.
- Exceptions inside the injected scripts are left out. The scripts catch them and return `false`; a rejected script promise is the `Rejected` reply in `Retry`.
- Focus, the native value setter, and the `input`/`change`/`blur` events of `setValueWithNativeSetter` are left out. Filling is the update of the element's value.
- `querySelector` is given as the map each document provides. CSS selector matching, and the document-order choice within a comma-separated selector group, belong to the browser.
- The HTTPS requests of `getServerTime` are parameters, as is the `fetch` of the GitHub API in `fetchLatestAssets`. Their time-outs, `Date` header parsing and HTML scraping are left out. A failed request, a non-OK status, or a JSON error is `None`. A missing `assets` field is modelled as an empty list.
- Regular expressions are modelled only for the literal patterns used. They are lower-cased substring and suffix tests.
- `Releases.CollectPlatformAssets`: one loop, parameterised by platform, stands for the three per-platform `forEach` loops.
- `Site.ThemePage.ToggleTheme` does not model the footer badge image swap, which is display only.
- Site.ThemePage: the stored theme is applied only when the page is constructed. In the source, `storedTheme` is read from storage again on every render (web/src/App.js:85), and the effect at web/src/App.js:91-95 runs again whenever it has changed since the last render. Opening the download modal re-renders the page (web/src/App.js:145-147). So after a toggle to dark, a later render sets the attribute to `"dark"`, where the model keeps it absent; `Site.ToggleTwice` speaks only of toggles with no render between them. The attribute present before mount when nothing is stored comes from index.html, which is not part of this model; the model takes it to be absent.
- The login modal's markup, error messages, success overlay and close timer are left out. So are the server-time overlay, menus, window lifecycle, the `get-asset-path` handler and `electron-store` persistence. These are UI and library glue.

## Findings

| source | as written | input that shows it | evidently intended | confidence | as-written member | corrected member |
|---|---|---|---|---|---|---|
| main.js:721-752 | The repeat chain starts its 30-minute interval at the first target T. The first callback runs at T + 30 min (a few ms late) and computes the boundary after its own instant, T + 60 min. No clicker or prefill refresh is ever armed for T + 30 min. | Scheduling at 12:17:45 targets 12:30. The interval's first callback runs at 13:00 and arms 13:30, so 13:00 gets no clicker. | Every :00 and :30 boundary from the first target on gets its clicker, e.g. by arming the next boundary when the interval is installed. | high; not executed | Schedule.SecondBoundaryNeverArmed | Schedule.ArmedTargetsConsecutive |
