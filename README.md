# Live Call Translator — a Dafny model of its screen logic

Live Call Translator is a React single-page application that simulates
translating a phone call. Its logic is a handful of small state machines in
the event handlers of four components, and this project models each of them
and proves what they promise:

- **Overlay** (`overlay.dfy`, module `Overlay`): the floating transcript
  panel. A speech-recognition result event is reduced into the transcript:
  only a final result appends a line, and that line carries a fixed mock
  "translation" (the prefix `अनुवाद: ` before the recognized text). A browser
  without speech recognition shows one error line instead. A pause flag
  decides whether the recognizer handle is started or stopped. The reducer is
  pure (`AppendResult`, folded over event sequences by `ReduceEvents`); the
  component's mutable state (pause flag, transcript, the recognizer held in its
  ref) is the class `OverlayComponent`, and the recognizer is an abstract
  handle, the class `Recognizer`, that records every `start`/`stop` call made
  on it and goes through the browser's phases: idle, listening, and ending.
  A recognizer is ending after `stop` until its `end` event fires. A `start`
  while listening or ending raises "already started" and changes nothing,
  and the component swallows that error. So a quick pause and resume leaves
  the overlay unpaused, reading "Listening...", with nothing listening. Lines are
  keyed `${id}-${index}`; the ids are millisecond clock readings and are not
  unique, and the model proves that the keys are distinct anyway.
- **Permissions** (`permissions.dfy`): three flags (microphone,
  accessibility, display over apps), a toggle per row, the derived
  `allGranted`, and a Continue button that navigates to `/home` only when all
  are granted.
- **Onboarding** (`onboarding.dfy`): a carousel over three slides with a
  current index. Next advances, or on the last slide navigates to
  `/permissions`; Skip always navigates there. The lit dot and the button
  label are derived from the index.
- **Home** (`home.dfy`): the language direction and its swap, the switch that
  starts translation and shows the overlay, the close and end-call buttons
  that stop it, and the two option toggles.
- **Routing** (`routing.dfy`): the routes, and the `Option` type that a
  handler returns for "navigate there" (`Some(route)`) or "stay" (`None`).

Navigation is an output value, never a side effect. The clock (`Date.now()`)
is an input: each final event receives its reading as a parameter. The
browser's speech recognizer appears only as the `Recognizer` handle, and the
browser's support for it as the `speechSupported` parameter of `Mount`.

The code has no translation backend, no placeholder record, no update of a
record by id, and no guard against a stale recognizer handle. It translates
synchronously, with the fixed prefix, at the moment a final result arrives
(`src/components/Overlay.jsx:30`), and it never changes a record after
appending it. The model follows the code.

React's effect scheduling is modelled in one fixed way. `Mount` runs the
state initialisers, then the mount effect (create the handle, or record the
error), then the pause effect with the flag still false, which starts the
handle. That is the declaration order in which React runs a component's
effects after its first render. `TogglePause` is the click handler followed by
the pause effect, which re-runs after every toggle because the flag it
depends on always changes.

## Model

| member | source | states |
|---|---|---|
| `Overlay.MockTranslation` | src/components/Overlay.jsx:30 | the mock translation is the fixed prefix followed by exactly the recognized text |
| `Overlay.StripMockTranslation` | src/components/Overlay.jsx:30 | removing the prefix from a mock translation gives back the recognized text |
| `Overlay.MockTranslationInjective` | src/components/Overlay.jsx:30 | distinct transcripts never share a mock translation |
| `Overlay.FinalRecord` | src/components/Overlay.jsx:34-39 | the appended record has the given id, `original` equal to the transcript, a translation that is the prefix plus the transcript, and `isUser` set |
| `Overlay.AppendResult` | src/components/Overlay.jsx:25-40 | an interim result leaves the transcript unchanged; a final one appends exactly one record at the end and keeps every earlier record unchanged and in place |
| `Overlay.ReduceEvents` | src/components/Overlay.jsx:22-42 | handling a sequence of events never shortens the transcript and lengthens it by at most one record per event |
| `Overlay.ReduceEventsAppends` | src/components/Overlay.jsx:22-42 | after any sequence of events the transcript is the old one followed by the records of the final events, in event order |
| `Overlay.FinalRecordsCount` | src/components/Overlay.jsx:27-40 | the final events create one record each |
| `Overlay.FinalRecordsOriginals` | src/components/Overlay.jsx:27-40 | the records of the final events hold their transcripts in event order |
| `Overlay.FinalRecordsShape` | src/components/Overlay.jsx:30-39 | every record created by a final event is a user line whose translation is the mock translation of its original |
| `Overlay.ReduceEventsSpec` | src/components/Overlay.jsx:22-42 | after any sequence of events, the length is the old length plus the number of final events, the old records are a prefix, the originals are the old ones followed by the final transcripts in order, and every new record is a user line carrying the mock translation |
| `Overlay.InterimEventsChangeNothing` | src/components/Overlay.jsx:25-27 | a sequence of interim events leaves the transcript unchanged |
| `Overlay.ReduceEventsConcat` | src/components/Overlay.jsx:22-42 | handling events in two batches gives the same transcript as handling them all at once |
| `Overlay.Decimal` | src/components/Overlay.jsx:121 | the numeral printed into a key is non-empty and made of decimal digits only |
| `Overlay.DecimalInjective` | src/components/Overlay.jsx:121 | distinct numbers print as distinct numerals |
| `Overlay.RenderKey` | src/components/Overlay.jsx:121 | a line's key is its id numeral, a dash, and its index numeral, so the part after the last dash is the index |
| `Overlay.AfterLastDashOf` | src/components/Overlay.jsx:121 | in a key `x-y`, the part after the last dash is the index numeral |
| `Overlay.RenderKeyInjective` | src/components/Overlay.jsx:121 | a key `${id}-${index}` determines both the id and the index |
| `Overlay.RenderKeys` | src/components/Overlay.jsx:120-121 | one key per transcript line, built from that line's id and its position |
| `Overlay.RenderKeysDistinct` | src/components/Overlay.jsx:120-121 | the keys of any two lines differ, whatever their ids |
| `Overlay.SameClockReadingDuplicatesId` | src/components/Overlay.jsx:35 | two final results that read the same clock value give two records with equal ids, and their keys still differ |
| `Overlay.StatusLabel` | src/components/Overlay.jsx:99 | the header reads "Paused" exactly when paused and "Listening..." exactly when not |
| `Overlay.EmptyHint` | src/components/Overlay.jsx:115-118 | a hint is shown exactly when the transcript is empty, and it reads "Translation paused" exactly when paused and "Speak now..." exactly when not |
| `Overlay.Recognizer.constructor` | src/components/Overlay.jsx:17 | a new handle is idle and has had no calls |
| `Overlay.Recognizer.Start` | src/components/Overlay.jsx:69 | records one start call; an idle handle starts listening; a listening or ending handle raises "already started" and keeps its phase |
| `Overlay.Recognizer.Stop` | src/components/Overlay.jsx:66 | records one stop call; a listening handle is left ending, an idle or ending one is unchanged |
| `Overlay.Recognizer.End` | src/components/Overlay.jsx:66 | the `end` event that completes a stop, or ends a session on its own, leaves the handle idle and records no call |
| `Overlay.OverlayComponent.Mount` | src/components/Overlay.jsx:6-74 | starts unpaused; with speech support the transcript is empty and a fresh handle is listening after one start; without it the transcript is exactly the error record and there is no handle |
| `Overlay.OverlayComponent.SyncRecognizer` | src/components/Overlay.jsx:62-74 | without a handle nothing happens; when paused the handle is stopped, otherwise it is started; a start that raises leaves the phase unchanged and the error does not escape |
| `Overlay.OverlayComponent.TogglePause` | src/components/Overlay.jsx:62-102 | the pause flag flips and the transcript and handle reference are untouched; a pause stops the handle, so a paused overlay never has a listening handle; a resume starts the handle only if it is idle |
| `Overlay.OverlayComponent.OnResult` | src/components/Overlay.jsx:22-42 | the transcript becomes the reducer's result for the event and the clock reading; the pause flag and the handle are untouched |
| `Overlay.OverlayComponent.Unmount` | src/components/Overlay.jsx:54-58 | a held handle is stopped; without one nothing happens |
| `Overlay.PauseThenResume` | src/components/Overlay.jsx:62-102 | toggling pause twice with no `end` event between restores the flag, the transcript and the handle reference; a handle sees one stop and one start; from unpaused it is listening afterwards exactly when it was idle before, otherwise ending; from paused it is ending |
| `Overlay.QuickResumeAfterMount` | src/components/Overlay.jsx:62-102 | right after mounting, a pause and a resume leave the overlay unpaused and reading "Listening..." with the handle not listening, because the start raised and was swallowed |
| `Overlay.ResumeAfterEnd` | src/components/Overlay.jsx:62-102 | when the `end` event fires between the pause and the resume, the handle is listening again |
| `Routing.Path` | src/App.jsx:13-16 | every route's path is an absolute path starting with '/' |
| `Routing.PathInjective` | src/App.jsx:13-16 | distinct routes have distinct paths |
| `Permissions.Every` | src/pages/Permissions.jsx:21 | a list passes `every(Boolean)` exactly when all of its values are true |
| `Permissions.AllGranted` | src/pages/Permissions.jsx:21 | `allGranted` holds exactly when every value of the permission record is true |
| `Permissions.AllGrantedIffEach` | src/pages/Permissions.jsx:21 | `allGranted` holds exactly when microphone, accessibility and overlay are all granted |
| `Permissions.InitiallyBlocked` | src/pages/Permissions.jsx:8-27 | on first display nothing is granted, so Continue does not navigate |
| `Permissions.TogglePermission` | src/pages/Permissions.jsx:14-19 | the toggled key is negated and the other two keys are unchanged |
| `Permissions.ToggleTwice` | src/pages/Permissions.jsx:14-19 | toggling the same key twice restores the state |
| `Permissions.TogglesCommute` | src/pages/Permissions.jsx:14-19 | toggles of two keys give the same state in either order |
| `Permissions.ApplyTogglesParity` | src/pages/Permissions.jsx:14-19 | after any clicks, a flag is its old value flipped once per click on its row |
| `Permissions.HandleContinue` | src/pages/Permissions.jsx:23-27 | Continue navigates to the home page if and only if all are granted, and otherwise requests nothing |
| `Permissions.ContinueAfterClicks` | src/pages/Permissions.jsx:8-27 | from the opening state, Continue leads home exactly when each row was clicked an odd number of times |
| `Onboarding.LastSlide` | src/pages/Onboarding.jsx:6-25 | the slide list has three slides, so the last index is 2 |
| `Onboarding.ShownSlide` | src/pages/Onboarding.jsx:47-50 | the slide on screen is a slide of the list, the one with id `currentSlide + 1` |
| `Onboarding.HandleNext` | src/pages/Onboarding.jsx:31-37 | below the last slide Next advances by one without navigating; on the last it navigates to the permission page and keeps the index |
| `Onboarding.HandleSkip` | src/pages/Onboarding.jsx:39-41 | Skip always navigates to the permission page and keeps the index |
| `Onboarding.StepKeepsValid` | src/pages/Onboarding.jsx:31-41 | each press of Next or Skip keeps the index on an existing slide |
| `Onboarding.RunKeepsValid` | src/pages/Onboarding.jsx:31-41 | any sequence of presses keeps a valid index valid |
| `Onboarding.AlwaysOnASlide` | src/pages/Onboarding.jsx:28-41 | from the opening index 0, the index stays within 0..2 under any presses |
| `Onboarding.NextPressesFrom` | src/pages/Onboarding.jsx:31-37 | n presses of Next from a valid slide end on the slide n further on, capped at the last |
| `Onboarding.NextPresses` | src/pages/Onboarding.jsx:28-37 | n presses of Next from the opening slide end on slide min(n, 2) |
| `Onboarding.ThirdNextNavigates` | src/pages/Onboarding.jsx:28-37 | from the opening slide the first two presses of Next advance and the third navigates to the permission page |
| `Onboarding.Dots` | src/pages/Onboarding.jsx:55-60 | one dot per slide, lit exactly when its index is the current one |
| `Onboarding.CountLitOne` | src/pages/Onboarding.jsx:55-60 | a row of dots lit at exactly one position has one lit dot |
| `Onboarding.ExactlyOneDotLit` | src/pages/Onboarding.jsx:55-60 | on any valid slide exactly one dot is lit, the current one |
| `Onboarding.NextLabel` | src/pages/Onboarding.jsx:65 | the button reads "Get Started" exactly on the last slide and "Next" otherwise |
| `Onboarding.ShowsArrow` | src/pages/Onboarding.jsx:66 | the arrow is shown exactly when not on the last slide |
| `Onboarding.LabelMatchesNext` | src/pages/Onboarding.jsx:31-66 | the label says "Get Started" exactly when Next would navigate, and the arrow shows exactly when it would not |
| `Home.InitialHomeState` | src/pages/Home.jsx:9-12 | the page opens not translating, auto-detect on, voice translation off, Hindi to English, overlay hidden |
| `Home.HandleSwapLanguages` | src/pages/Home.jsx:14-16 | source and target exchange places and nothing else changes |
| `Home.SwapTwice` | src/pages/Home.jsx:12-16 | swapping twice is the identity, and the first swap gives English to Hindi |
| `Home.ToggleTranslation` | src/pages/Home.jsx:18-20 | the translation switch flips and the direction and options are unchanged |
| `Home.StopTranslating` | src/pages/Home.jsx:27-30 | closing the overlay or ending the call turns translation off and changes nothing else |
| `Home.StopTranslatingSpec` | src/pages/Home.jsx:25-35 | stopping is idempotent and hides the overlay (rendered only while translating); while translating it undoes Start Translator, otherwise it changes nothing |
| `Home.ToggleAutoDetect` | src/pages/Home.jsx:60 | the auto-detect switch flips its own flag only |
| `Home.ToggleVoiceTranslation` | src/pages/Home.jsx:70 | the voice-translation switch flips its own flag only |
| `Home.TogglesAreInvolutions` | src/pages/Home.jsx:18-70 | each of the three switches undoes itself when pressed twice |
| `Home.OverlayShown` | src/pages/Home.jsx:25-35 | the overlay and the end-call button are on screen exactly while translating |
| `Home.OverlayFollowsSwitch` | src/pages/Home.jsx:14-70 | only the translation switch changes whether the overlay is shown: Start Translator flips it, close and end-call hide it, and the swap and option switches leave it as it is |
| `Home.OpenSettings` | src/pages/Home.jsx:39 | the settings button navigates to the route whose path is `/settings` |

## Left out

- The browser's `SpeechRecognition` constructor lookup and its `continuous`, `interimResults` and `lang` settings: a foreign capability, reduced to the `speechSupported` flag and the `Recognizer` handle.
- When the browser fires a recognizer's `end` event: `Recognizer.End` is an operation that may be applied to any handle that is not idle, either after a `stop` or when a session ends on its own after silence or an error. When it fires relative to the user's clicks is not modelled.
- `console.error` and `console.warn` logging, including the recognizer's `onerror` handler, which only logs.
- The auto-scroll effect (src/components/Overlay.jsx:77-81), the expanded and minimised bubble, CSS classes other than the derived labels above, and icons.
- `Date.now()` as a clock: each final event's reading is a parameter. Readings are assumed below 10^21, where JavaScript prints integers as plain decimal numerals.
- React's effect scheduling beyond the fixed order described above, Strict Mode's double mounting, and the order of unmount cleanups. How the Home page mounts and unmounts the Overlay while `isTranslating` changes is not linked in the model: `Home.OverlayShown` says when it is on screen, and `Overlay.OverlayComponent.Unmount` says what its cleanup does.
- `ResultEvent` already holds the selected result: in the code `resultIndex` only selects which result's first transcript and `isFinal` flag are read (src/components/Overlay.jsx:23-25), so the model takes that transcript and flag directly and carries the index unused. The browser's whole result list is not modelled.
- `togglePermission` is called with the three keys only, so the model types the key as one of three; a call with another string, which would add a fourth property, cannot be expressed.
- `src/pages/Settings.jsx`, which is static markup, the redirect from `/` to `/onboarding` (src/App.jsx:12), and the wiring of each path to its page component: none of them holds state or makes a decision. The four paths themselves are modelled by `Routing.Path`.
- Any translation backend, placeholder state, update by id, or guard against stale handles: the code has none of them.
