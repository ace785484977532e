# Prayer Helper: audio-synchronised highlighting, in Dafny

The Prayer Helper page plays one recording of the Fajr prayer and, while it
plays, highlights the phrase being recited and, inside that phrase, the
segment (a word or clause) being spoken. Each phrase has a window
`[video_timestamp, video_timestamp + duration)` in the recording, four
`|`-separated text tracks (Arabic, transliteration, phonetics, translation)
and a `highlight_timing` string such as `0.0-2.4|2.4-4.0` that gives each
segment's range in seconds from the start of the phrase. A play/pause
button, a seek slider and a per-phrase preview button drive the audio
element. A preview plays one phrase and stops it with a timer.

`app/page.tsx` and `index.tsx` hold the same component logic. Lines 325-461
are the same in both files except line 325, the component's declaration. The
row rendering and its `|| ""` fallbacks are at lines 505-521 and 566-588 of
`app/page.tsx`, and at lines 492-508 and 545-570 of `index.tsx`. One model
covers both files.

The project is made of these modules:

- `JsText`: the JavaScript string operations the page uses. These are
  `split` (with its inverse `Join`), `toString` of integers, `padStart` and
  the `segs[i] || ""` fallback.
- `JsArray`: `findIndex` and `find`, both first-match.
- `JsNumbers`: a number is a finite value or NaN. The module has `Number()`
  of a decimal string, and comparisons that are false when NaN is involved.
  It also has `Math.floor` and JavaScript's `%`, which truncates toward zero.
- `Timing`: parsing `highlight_timing` into `{start, end}` ranges, and the
  segment index.
- `Activity`: the phrase record, the active phrase, the highlighted segment
  and the rendered rows.
- `Clock`: `formatTime`.
- `Playback`: the component's state and events, as a class `Player`. Its
  methods are the event handlers, the effects, the `play()` promise outcomes,
  the stop timer and unmounting.
- `PhraseTable` and `PhraseFacts`: five entries of the Fajr list (ids 1, 2,
  11, 12 and 13) and what the resolver does with them.
- `TimingLiterals`: lets those facts follow from general lemmas rather than
  from unfolding long strings.
- `PlaybackScenarios`: event sequences that show the stop-timer race (see
  Findings) and its correction.

Times are `real`s. A `Number` result is `JsNumber` (`Num(v)` or `NaN`). A
missing second bound (`undefined`) is `None`.

## Model

| member | source | states |
|---|---|---|
| `JsText.Split` | app/page.tsx:505-509 | `split` gives one more piece than there are separators, and no piece contains the separator |
| `JsText.JoinSplit` | app/page.tsx:509-510 | joining the pieces of a split with the separator gives back the original string |
| `JsText.SplitJoin` | app/page.tsx:509-510 | splitting a join of separator-free pieces gives back exactly those pieces, in order |
| `JsText.NatToString` | app/page.tsx:394 | `toString` of a non-negative integer is a non-empty run of digits that starts with `0` only for zero |
| `JsText.DigitsOfNatToString` | app/page.tsx:394 | reading the digits of `toString(n)` gives back `n` |
| `JsText.PadStart` | app/page.tsx:394 | `padStart(width, fill)` keeps the string as its suffix, fills only at the front, and has length `max(length, width)` |
| `JsArray.FindIndex` | app/page.tsx:517-519 | `findIndex` is -1 exactly when no element satisfies the callback; otherwise it is the first index that does |
| `JsArray.Find` | app/page.tsx:384-386 | `find` is `undefined` exactly when no element satisfies the callback; otherwise it is the first element that does |
| `JsNumbers.ParseNumber` | app/page.tsx:510 | `Number("")` is 0, and every number read from a digits-and-point string is non-negative |
| `JsNumbers.NumberOnlyFromDigitsAndPoint` | app/page.tsx:510 | a string with any character other than a digit or a point reads as NaN |
| `JsNumbers.NumberOfNatToString` | app/page.tsx:510 | `Number` reads an integer's digits back as that integer |
| `JsNumbers.NumberOfDecimal` | app/page.tsx:510 | `Number("ip.fp")` is the integer part plus the fraction scaled by its digit count |
| `JsNumbers.Floor` | app/page.tsx:392-393 | `Math.floor(x)` is the integer `f` with `f <= x < f + 1` |
| `JsNumbers.Trunc` | app/page.tsx:393 | truncation moves toward zero: for `x >= 0` it is the integer in `(x - 1, x]` and non-negative, for `x < 0` the integer in `[x, x + 1)` and non-positive |
| `JsNumbers.Rem` | app/page.tsx:393 | `x % m` differs from `x` by a whole multiple of `m`, and with `m > 0` lies in `[0, m)` for `x >= 0` and in `(-m, 0]` for `x < 0`: the remainder takes the dividend's sign, which fixes its value |
| `JsNumbers.RemTakesSignOfDividend` | app/page.tsx:393 | `-65 % 60` is `-5`, not the `55` a floored remainder gives |
| `Timing.ParseRange` | app/page.tsx:510-511 | a piece with no dash has an `undefined` end |
| `Timing.ParseTimings` | app/page.tsx:509-512 | parsing gives one range per bar-separated piece |
| `Timing.RangeOfBounds` | app/page.tsx:510-511 | a piece `a-b` parses to start `Number(a)` and end `Number(b)` |
| `Timing.LeadingMinusReadsAsZero` | app/page.tsx:510 | a piece `-b` parses to start 0 (from `Number("")`) and end `Number(b)` |
| `Timing.MalformedRangeCoversNothing` | app/page.tsx:510-519 | a range with no dash, or with a NaN bound, covers no time |
| `Timing.TimingsInInputOrder` | app/page.tsx:509-512 | parsing a bar-join of pieces gives each piece's range at that piece's position |
| `Timing.SegmentIndex` | app/page.tsx:517-519 | the segment index is -1 exactly when no range covers the relative time; otherwise it is the first range that does |
| `Timing.FirstCoveringRangeWins` | app/page.tsx:517-519 | the first covering range is the segment, whatever ranges follow it |
| `Timing.EarlierRangeWins` | app/page.tsx:517-519 | when two ranges both cover the time, the later one is never chosen |
| `Activity.ActivePhrase` | app/page.tsx:384-386 | no phrase is active exactly when no window holds the time; otherwise the active phrase is the first one in list order whose window holds it |
| `Activity.ActivePhraseId` | app/page.tsx:387 | the active id is null exactly when no window holds the time |
| `Activity.FirstWindowWins` | app/page.tsx:384-387 | the first phrase whose window holds the time is active, whatever phrases follow it |
| `Activity.WindowEndIsExclusive` | app/page.tsx:385 | in any list of phrases, a phrase is not active at the instant its own window ends |
| `Activity.DisjointWindowsResolveUniquely` | app/page.tsx:383-388 | when no two windows overlap at the time, the active phrase is the one whose window holds it |
| `Activity.ActiveSegmentIndex` | app/page.tsx:514-520 | the segment index is -1 unless the phrase is the active one; otherwise it is the first range covering `currentTime - video_timestamp`, or -1 when none does |
| `Activity.SegmentRows` | app/page.tsx:566-588 | one row per Arabic segment, carrying that segment; row `i` is highlighted exactly when `i` is the active segment index; the transliteration, phonetics and translation cells of row `i` are the `i`-th segment of their track, or `""` when that track has fewer segments |
| `Activity.AtMostOneHighlightedRow` | app/page.tsx:569-573 | no two rows of a phrase are highlighted, and none is when the phrase is not active |
| `Clock.FormatTime` | app/page.tsx:390-395 | NaN renders as `0:00`, and every readout has a colon |
| `Clock.FormatTimeOfNonNegative` | app/page.tsx:392-394 | for a time `>= 0`, the readout is the whole minutes, a colon, and exactly two digits for the whole seconds below 60 |
| `Clock.FormatSixtyFiveSeconds` | app/page.tsx:390-395 | 65 seconds renders as `1:05` |
| `Clock.FormatThreeSeconds` | app/page.tsx:390-395 | 3 seconds renders as `0:03` |
| `TimingLiterals.TimingsOfLiterals` | app/page.tsx:509-512 | a timing string written from decimal literals parses to exactly those literals' values, in order |
| `PhraseFacts.TakbirTimings` | app/page.tsx:31 | phrase 1's timing parses to the single range [0, 2.5) |
| `PhraseFacts.SubhanakaTimings` | app/page.tsx:48 | phrase 2's timing parses to the five ranges [0, 2.4), [2.4, 4), [4, 5.6), [5.6, 7.35), [7.35, 11) |
| `PhraseFacts.Quraysh3Timings` | app/page.tsx:193 | phrase 11's timing parses to five ranges, the third [2.2, 2.8) and the fourth [2.2, 3.5) |
| `PhraseFacts.TakbirToRukuTimings` | app/page.tsx:219 | phrase 13's timing parses to [69, 70) and [70, 71) |
| `PhraseFacts.TakbirActive` | app/page.tsx:383-388 | throughout [5, 7) the active phrase is id 1 |
| `PhraseFacts.TakbirSegment` | app/page.tsx:514-520 | throughout [5, 7), with the active id the table resolves, phrase 1's highlighted row is its single segment |
| `PhraseFacts.NothingActiveBeforeTakbir` | app/page.tsx:383-388 | before 5 s no phrase is active |
| `PhraseFacts.HandOverAtSeven` | app/page.tsx:385 | at 7 s phrase 1's window has ended and phrase 2 is active |
| `PhraseFacts.SubhanakaSecondSegment` | app/page.tsx:514-520 | from 9.4 s to 11 s, with the active id the table resolves, phrase 2's highlighted row is its second |
| `PhraseFacts.SubhanakaActive` | app/page.tsx:383-388 | throughout its window [7, 19) the active phrase is id 2 |
| `PhraseFacts.SubhanakaTailUnlit` | app/page.tsx:514-520 | in [18, 19) phrase 2 is active but past its last range, so none of its rows is highlighted |
| `PhraseFacts.Quraysh3Active` | app/page.tsx:383-388 | throughout [58, 61.4) the active phrase is id 11 |
| `PhraseFacts.Quraysh3OverlapPicksEarlier` | app/page.tsx:514-520 | from 60.2 s to 60.8 s, while both ranges starting at 2.2 cover the time, phrase 11's highlighted row is the earlier one, its third |
| `PhraseFacts.Quraysh4HoldsOverlap` | app/page.tsx:383-388 | in [69, 69.3) phrase 13's window has begun, but phrase 12, whose window ends at 69.3 and comes earlier in the list, is the active one |
| `PhraseFacts.TakbirToRukuActive` | app/page.tsx:383-388 | from 69.3 s to the end of its window at 71 s the active phrase is id 13 |
| `PhraseFacts.TakbirToRukuNeverLit` | app/page.tsx:514-520 | throughout [69, 71), with the active id the table resolves, no row of phrase 13 is highlighted: first phrase 12 is active, then its ranges, written in absolute seconds, never cover its relative time |
| `Playback.Player.constructor` | app/page.tsx:326-388 | the first render is idle at time 0 with duration 0, no timer and a paused element; the mount-time active-phrase effect makes the phrase whose window holds 0 s the active one |
| `Playback.Player.HandlePlayPause` | app/page.tsx:397-419 | the button toggles `isPlaying` and the element's paused state. Pausing leaves any stop timer armed. Playing clears the slot's timer, empties the slot and issues a full `play()`. Without an element nothing changes |
| `Playback.Player.HandleSeek` | app/page.tsx:421-427 | the element and `currentTime` take exactly the slider value; the active phrase is recomputed at that time when it changed; playback and timers are untouched |
| `Playback.Player.HandlePlayPhrase` | app/page.tsx:429-439 | the element jumps to the phrase's start and plays; `isPlaying` and the active id are set at once; the slot's timer is cleared but its id stays in the slot; no timer is armed yet |
| `Playback.Player.ResolvePlay` | app/page.tsx:441-451 | the earliest pending `play()` settles first; a resolved preview arms a timer for `duration * 1000` ms and overwrites the slot without clearing the previous timer; a resolved full play changes nothing |
| `Playback.Player.RejectPlay` | app/page.tsx:452-458 | the earliest pending `play()` settles first; an AbortError changes nothing; any other rejection leaves the element paused and clears `isPlaying`, and for a preview also the active id (lines 410-415 for the full play) |
| `Playback.Player.FireTimer` | app/page.tsx:443-450 | a firing stop timer pauses, clears `isPlaying` and the active id, and empties the slot, whichever preview armed it; after unmount it only disarms |
| `Playback.Player.Ended` | app/page.tsx:366-369 | `ended` clears `isPlaying` and the active id and leaves the timers alone |
| `Playback.Player.LoadedMetadata` | app/page.tsx:365 | `loadedmetadata` sets `duration` to the element's duration |
| `Playback.Player.Tick` | app/page.tsx:336-345 | a frame fires only while `isPlaying`; it copies the element's position into `currentTime`, stays scheduled, and recomputes the active phrase when the time moved |
| `Playback.Player.Unmount` | app/page.tsx:374-380 | unmounting cancels the frame (lines 353-358) and clears the slot's timer; React state is left unchanged; with the timer discipline kept, no timer is left armed |
| `Playback.Player.ResolvePlayFixed` | app/page.tsx:441-451 | the corrected `then` clears the slot's timer before arming the new one; with the discipline kept, the only armed timer afterwards is the one this preview request armed, and every request still pending was issued later, so a later preview's timer will replace it in turn |
| `PlaybackScenarios.TwoPreviews` | app/page.tsx:429-439 | two preview presses before either `play()` settles leave two pending previews and no timer |
| `PlaybackScenarios.PreviewRace` | app/page.tsx:441-451 | when both previews resolve, two timers are armed and the slot names only the second |
| `PlaybackScenarios.StaleTimerStopsPreview` | app/page.tsx:443-450 | phrase 1's timer stops phrase 2's preview and empties the slot, while phrase 2's timer stays armed |
| `PlaybackScenarios.FullPlayKeepsStrayTimer` | app/page.tsx:403-406 | a full play then clears nothing, so phrase 2's timer is still armed while the recording plays |
| `PlaybackScenarios.StrayTimerStopsFullPlay` | app/page.tsx:443-450 | that timer fires and pauses the full play |
| `PlaybackScenarios.FixedPreviewRace` | app/page.tsx:441-451 | with the corrected `then`, once both promises have settled the only armed timer is that of the latest preview request, phrase 2's |
| `PlaybackScenarios.FixedFullPlayRunsOn` | app/page.tsx:397-419 | with the corrected `then`, a full play after the preview has ended has no timer left to stop it |

## Left out

- Markup and styling, the image map and its fallback, the caption and title
  transforms, and the `ReactDOM.createRoot` bootstrap of `index.tsx` are
  presentation only.
- Only five entries of the phrase table (ids 1, 2, 11, 12 and 13) are
  written out. Facts about `PhraseTable.Table` hold for that five-entry list.
  The facts about ids 1, 2 and 11 hold in the full list as well, because no
  other window overlaps theirs. The ones about id 13 need id 12, whose window
  overlaps it. Phrase 11's timing is the one in `app/page.tsx`; `index.tsx`
  gives phrases 11 and 12 other timings, without the overlap.
- `JsNumbers.ParseNumber` covers the decimal strings the tables use: digits
  with at most one point. It does not model whitespace trimming, signs,
  exponents, hexadecimal or `Infinity`; the model reads these as NaN.
- IEEE-754 rounding is not modelled. Times are exact reals, so sums such as
  `58 + 3.4` and differences such as `currentTime - video_timestamp` are
  idealised.
- `handleSeek` reads the slider with `Number.parseFloat`. The model takes the
  parsed value as its argument, because a range input always yields a number.
- Timer ids are positive. The source's `if (stopTimeoutRef.current)` tests
  truthiness, which matches `Some` only because ids are never 0.
- The host is abstract. The audio element is reduced to a position and a
  paused flag. Timers and frames are explicit events, and the host picks
  when the earliest pending promise settles and which armed timer fires
  next. `AdvanceAudio` stands in
  for the element's clock. No notion of time orders the timers.
- Three HTML rules about the element are modelled. The element settles its
  pending `play()` promises in the order of the calls
  (`Playback.Player.SettlesNext`). A page-initiated `pause()`,
  the end of playback and removal from the document reject pending `play()`
  promises with an AbortError, and both handlers ignore that error. A
  non-AbortError rejection leaves the element paused.
- The branch where `play()` returns `undefined` (lines 409 and 440) is not
  modelled. Every `play()` returns a promise.
- `console.error` logging is not modelled.
- React's double mount under StrictMode is not modelled.
- The order in which React schedules renders and effects is not modelled.
  Each event method applies the handler's state updates together, then the
  effects whose dependencies changed.
- The listener effect's re-registration is not modelled, because its
  dependency list is empty.

## Findings

A preview's `then` arms a timer meant to stop that preview. The code does not
always do that: in the race below, the source's own stop timer cuts another
preview short and later pauses an unrelated full play.

| source | as written | input that shows it | evidently intended | confidence | as-written member | corrected member |
|---|---|---|---|---|---|---|
| app/page.tsx:431-450 | `handlePlayPhrase` clears the slot's timer when the button is pressed. The timer is armed later, in `then`, which overwrites the slot without clearing it. | Preview phrase 1 (2 s), then phrase 2 (12 s), before the first `play()` resolves. Both promises resolve and two timers are armed. Phrase 1's timer stops phrase 2 after 2 s and empties the slot. Phrase 2's timer is then out of reach of the play button and pauses the next full play. | At most one stop timer is armed, and it is the one the slot names. A new preview's timer replaces the previous one. | not executed | `PlaybackScenarios.StrayTimerStopsFullPlay` | `Playback.Player.ResolvePlayFixed` |
