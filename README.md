# PJTLauren: recognition pipeline and number field, modelled in Dafny

PJTLauren is an iOS app that reads numbers, either from the camera or typed
into a text field, and shows them spelled out in Korean. This project models
the two parts of the app that contain its own logic:

- **The recognition closure** in `CameraViewController.captureOutput`. One
  camera frame gives a list of recognised observations. The closure takes
  each observation's best candidate string and joins the strings with
  `", "`. It splits the result on `", "` again and keeps the pieces that
  match `^[0-9]+$`. Each kept piece is parsed with `Int(...) ?? 0` and spelled
  out with `numberToKorean`. The spellings are joined with `", "`. The
  overlay label shows that line only when at least one second has passed
  since the last refresh (`lastUpdateTime`, which starts at the epoch).
- **The `onChange(of: inputNumber)` handler** of `ContentView`. It keeps only
  the ASCII digits of the typed text. With 16 digits or fewer, it stores them
  and, when `Int(...)` accepts them, stores their Korean spelling in
  `koreanNumber`. With more than 16, it stores the first 16 and leaves
  `koreanNumber` alone.

`numberToKorean` (Foundation's spell-out formatter, `ko_KR` locale) is not
modelled. Every member that needs it takes it as a parameter
`toKorean: int -> string` (type `Numerals.Speller`). So every property below
holds whatever that formatter returns.

Modules, one file each:

- `Wrappers` (`wrappers.dfy`): `Option`, with `GetOr` for Swift's `??`.
- `Sequences` (`sequences.dfy`): the Swift collection operations used by both
  handlers, on generic sequences. They are `Filter`, `JoinWith`, and `Split`,
  which drops empty pieces as Swift's `split(separator:)` does by default.
  `Split` is built on `Pieces`, which cuts at the leftmost occurrence of the
  separator and keeps empty pieces.
- `Numerals` (`numerals.dfy`): digit strings and their values, `Int.max` for
  64-bit targets, the canonical decimal spelling `Decimal`, and `ParseInt`,
  the model of `Int(_: String)`.
- `Recognition` (`recognition.dfy`): the token pipeline as pure functions,
  plus class `CameraViewController`. The class has the fields `lastUpdateTime`
  and `overlayText` and the method `ProcessBatch`, which runs once per frame.
  Time is an integer count of milliseconds since the epoch, and the throttle
  threshold is 1000.
- `TextEntry` (`text_entry.dfy`): class `ContentView` with `inputNumber` and
  `koreanNumber`. `OnChange` is the handler. `Edit` is one user edit: the
  handler runs, then runs once more if its own assignment changed the field.

The main results:

- **Re-tokenisation.** Joining the observations with `", "` and splitting
  again gives each observation's own pieces, in order (`SplitOfJoin`). This
  works because `", "` starts with `,` and ends with a space, so no
  occurrence can straddle a join.
- **Tokens.** The surviving tokens are the digit-run pieces, in order
  (`Tokens`). When no observation contains `", "`, the tokens are exactly the
  digit-run observations (`TokensOfFreeTexts`).
- **Throttle.** The overlay refreshes exactly when
  `now - lastUpdateTime >= 1000`. A frame that fails the check changes
  nothing. A ghost history of refresh times keeps the class invariant that
  any two refreshes are at least one second apart.
- **Text field.** The field always ends up holding at most 16 digits, in
  their original order. Sanitising is idempotent. A non-empty string of at
  most 16 digits always parses, because 10^16 - 1 < `Int.max`.

Two consequences of the code as written:

- The closure splits the joined text, not each candidate, so one
  observation such as `"12, 34"` gives several tokens
  (`RetokenisesAcrossObservation`).
- The truncating branch of the handler stores 16 digits without converting
  them. Their spelling appears only when the handler runs again because it
  changed `inputNumber` (`Edit`).

## Model

| member | source | states |
|---|---|---|
| `Sequences.Filter` | PJTLauren/CameraViewController.swift:126 | every kept element satisfies the predicate, and no more elements come out than go in |
| `Sequences.FilterSubsequence` | PJTLauren/CameraViewController.swift:126 | the filtered sequence is a subsequence of its input, so the order of what is kept is the input order |
| `Sequences.FilterFrom` | PJTLauren/CameraViewController.swift:126 | every kept element occurs in the input: filtering invents nothing |
| `Sequences.FilterKeepsEvery` | PJTLauren/CameraViewController.swift:126 | every input element that satisfies the predicate is kept |
| `Sequences.FilterCount` | PJTLauren/CameraViewController.swift:126 | `filter` keeps every copy of an element that satisfies the predicate and no copy of one that does not: the multiset of the result is the input's restricted to the passing elements |
| `Sequences.FilterAppend` | PJTLauren/ContentView.swift:24 | filtering distributes over concatenation, so together with the one-element case it fixes exactly which elements are kept and in what order |
| `Sequences.FilterKeepsAll` | PJTLauren/ContentView.swift:24 | a filter that every element passes returns its input unchanged |
| `Sequences.JoinWith` | PJTLauren/CameraViewController.swift:124-129 | `joined(separator:)`; its meaning is fixed by `JoinPieces` (joining the cut pieces rebuilds the text), `SplitOfJoin` and `DisplayTextSplitsBack` (splitting the joined line gives the parts back) |
| `Sequences.FindFromLeftmost` | PJTLauren/CameraViewController.swift:126 | the position the search reports is an occurrence of the separator with none between the start and it; no position is reported only when the separator does not occur from the start on |
| `Sequences.FindFromIs` | PJTLauren/CameraViewController.swift:126 | conversely, an occurrence with none before it is the position the search reports |
| `Sequences.FindFromNone` | PJTLauren/CameraViewController.swift:126 | conversely, when the separator does not occur, the search reports nothing |
| `Sequences.PrefixBeforeFirstIsFree` | PJTLauren/CameraViewController.swift:126 | the text before the leftmost occurrence contains no occurrence |
| `Sequences.Pieces` | PJTLauren/CameraViewController.swift:126 | cutting at separators gives at least one piece |
| `Sequences.PiecesAreFree` | PJTLauren/CameraViewController.swift:126 | no piece contains the separator |
| `Sequences.Split` | PJTLauren/CameraViewController.swift:126 | every piece `split(separator:)` returns is non-empty |
| `Sequences.SplitPiecesAreFree` | PJTLauren/CameraViewController.swift:126 | no piece `split(separator:)` returns contains the separator |
| `Sequences.SplitFree` | PJTLauren/CameraViewController.swift:126 | a text without the separator splits into itself alone, or into nothing when it is empty |
| `Sequences.JoinPieces` | PJTLauren/CameraViewController.swift:124-126 | joining the cut pieces with the separator gives back the original string, so splitting loses nothing but the separators |
| `Numerals.Value` | PJTLauren/CameraViewController.swift:128 | the value of an n-digit string is below 10^n |
| `Numerals.IsAllDigits` | PJTLauren/CameraViewController.swift:126 | the regular expression `^[0-9]+$`: a non-empty string of ASCII digits only; `Tokens` and `MixedFrameDigitRuns` state what it keeps |
| `Numerals.Decimal` | PJTLauren/CameraViewController.swift:128 | the canonical spelling of a number is a non-empty digit run with no leading zero |
| `Numerals.ParseInt` | PJTLauren/CameraViewController.swift:128 | `Int(_:)` on a digit string, also used at PJTLauren/ContentView.swift:27; `ParseDecimal` (every n up to `Int.max` reads back), `ParseOverflows` (too many digits fail) and `ShortDigitsParse` (16 digits or fewer never fail) give it its meaning |
| `Numerals.ValueOfDecimal` | PJTLauren/CameraViewController.swift:128 | reading the decimal spelling of n gives n back |
| `Numerals.ParseDecimal` | PJTLauren/CameraViewController.swift:128 | `Int(_:)` parses the decimal spelling of every n from 0 to `Int.max` back to n |
| `Numerals.ValueLowerBound` | PJTLauren/CameraViewController.swift:128 | an n-digit string without a leading zero is worth at least 10^(n-1) |
| `Numerals.Pow10Monotone` | PJTLauren/CameraViewController.swift:128 | a power of ten with a larger exponent is no smaller |
| `Numerals.ParseOverflows` | PJTLauren/CameraViewController.swift:128 | `Int(_:)` fails on every digit run of 20 or more digits without a leading zero, because such a run exceeds `Int.max` |
| `Recognition.TopStrings` | PJTLauren/CameraViewController.swift:122-123 | `compactMap` gives no more strings than there are observations |
| `Recognition.TopStringsMembers` | PJTLauren/CameraViewController.swift:122-123 | a string is among the candidates exactly when some observation carries it as its best candidate: none is lost and none is invented |
| `Recognition.TopStringsAppend` | PJTLauren/CameraViewController.swift:122-123 | `compactMap` over two runs of observations gives the two results one after the other, so observation order is kept |
| `Recognition.Tokens` | PJTLauren/CameraViewController.swift:122-126 | every surviving token is a non-empty run of ASCII digits; the tokens are a subsequence of the pieces of the joined text, in their order; each digit-run piece survives as many times as it occurs among the pieces, and no other piece survives |
| `Recognition.ParseOrZero` | PJTLauren/CameraViewController.swift:128 | `Int(number) ?? 0` is the token's value when it fits in `Int` and 0 when it does not; the result never exceeds `Int.max` |
| `Wrappers.Option.GetOr` | PJTLauren/CameraViewController.swift:128 | Swift's `??`; `ParseOrZero` states its effect on `Int(number) ?? 0`: the value when the parse succeeds and 0 when it does not |
| `Recognition.Conversions` | PJTLauren/CameraViewController.swift:127-128 | one spelling per token, in token order; a digit token is spelled as its value if that fits in `Int`, otherwise as `toKorean(0)` |
| `Recognition.DisplayText` | PJTLauren/CameraViewController.swift:127-129 | when no token survives, the overlay line is the empty string |
| `Recognition.OccurrenceBeforeJoin` | PJTLauren/CameraViewController.swift:124-126 | before the end of `a`, `", "` occurs in `a + ", " + b` exactly where it occurs in `a`: no occurrence straddles the join |
| `Recognition.FirstCutOfJoin` | PJTLauren/CameraViewController.swift:124-126 | the first cut in `a + ", " + b` is the first cut in `a`, or the join itself when `a` has none |
| `Recognition.PiecesOfJoin` | PJTLauren/CameraViewController.swift:124-126 | cutting `a + ", " + b` gives the pieces of `a` followed by the pieces of `b` |
| `Recognition.SplitOfJoin` | PJTLauren/CameraViewController.swift:122-126 | splitting the joined candidates gives each candidate's own pieces, concatenated in observation order |
| `Recognition.SplitEachOfFree` | PJTLauren/CameraViewController.swift:122-126 | when no candidate contains `", "`, splitting each one only drops the empty candidates |
| `Recognition.TokensOfFreeTexts` | PJTLauren/CameraViewController.swift:122-126 | when no candidate contains `", "`, the tokens are exactly the candidates that are digit runs, in recognition order |
| `Recognition.FilterOfNonEmpty` | PJTLauren/CameraViewController.swift:126 | dropping empty pieces before the `^[0-9]+$` filter changes nothing, since the regex rejects the empty string |
| `Recognition.CommaFreeIsFree` | PJTLauren/CameraViewController.swift:126 | a string without a comma contains no `", "` |
| `Recognition.TwoRunsInOneObservation` | PJTLauren/CameraViewController.swift:122-126 | one observation holding two digit runs separated by `", "` yields both runs as separate tokens |
| `Recognition.RetokenisesAcrossObservation` | PJTLauren/CameraViewController.swift:122-126 | one observation reading `"12, 34"` yields the two tokens `"12"` and `"34"` |
| `Recognition.MixedFrameTexts` | PJTLauren/CameraViewController.swift:122-123 | the frame `12a`, `34`, empty, `5x6`, `7` gives those five candidate strings, the empty one included |
| `Recognition.MixedFrameDigitRuns` | PJTLauren/CameraViewController.swift:126 | of those five strings, exactly `34` and `7` match `^[0-9]+$` |
| `Recognition.MixedFrameSeparators` | PJTLauren/CameraViewController.swift:124-126 | none of that frame's strings holds `", "`, so its tokens are exactly its digit-run strings |
| `Recognition.MixedFrameTokens` | PJTLauren/CameraViewController.swift:122-126 | that frame keeps exactly the tokens `34` and `7`, in that order |
| `Recognition.MixedFrameConversions` | PJTLauren/CameraViewController.swift:127-128 | the tokens `34` and `7` become the line: the spelling of 34, `", "`, the spelling of 7 |
| `Recognition.MixedFrameDisplay` | PJTLauren/CameraViewController.swift:122-129 | that frame's overlay line is the spelling of 34, then `", "`, then the spelling of 7 |
| `Recognition.SplitEachOfPieces` | PJTLauren/CameraViewController.swift:127-129 | non-empty strings without `", "` are what splitting each of them gives back |
| `Recognition.DisplayTextSplitsBack` | PJTLauren/CameraViewController.swift:127-129 | if no spelling is empty or contains `", "`, splitting the overlay line on `", "` recovers the spellings one per token, in token order |
| `Recognition.SpacedAppend` | PJTLauren/CameraViewController.swift:132-136 | a refresh at least one second after the previous one keeps all refresh times one second apart |
| `Recognition.Gate` | PJTLauren/CameraViewController.swift:132 | the check `timeIntervalSince(lastUpdateTime) >= 1` in milliseconds; `ProcessBatch` states that the overlay refreshes exactly when it holds, and `RapidFrames` that 400 ms fails and exactly 1000 ms passes |
| `Recognition.CameraViewController.constructor` | PJTLauren/CameraViewController.swift:12-13 | the controller starts with `lastUpdateTime` at the epoch, an empty overlay and no refreshes |
| `Recognition.CameraViewController.ProcessBatch` | PJTLauren/CameraViewController.swift:131-137 | the overlay is refreshed exactly when `now - lastUpdateTime >= 1000`, boundary included; then it shows the frame's line and `lastUpdateTime` becomes `now`; otherwise both fields are unchanged; any two refreshes are at least a second apart; `lastUpdateTime` never decreases |
| `Recognition.RapidFrames` | PJTLauren/CameraViewController.swift:131-137 | on a fresh controller, a frame some time after the epoch is shown, a frame 400 ms later is dropped, and a frame exactly one second after the first is shown |
| `TextEntry.DigitsOnly` | PJTLauren/ContentView.swift:24 | the filtered text holds only ASCII digits and is a subsequence of the typed text (order kept); each digit occurs in it exactly as many times as it was typed |
| `TextEntry.Take16` | PJTLauren/ContentView.swift:32 | `prefix(16)` is a prefix of its input, 16 long or the whole input when shorter |
| `TextEntry.Sanitised` | PJTLauren/ContentView.swift:24-33 | what the handler stores is at most 16 digits and a prefix of the filtered text; with 16 or fewer digits typed it is exactly those digits in their order |
| `TextEntry.DigitsOnlyOfDigits` | PJTLauren/ContentView.swift:24 | filtering a digit string returns it unchanged |
| `TextEntry.DigitsOnlyAppend` | PJTLauren/ContentView.swift:24 | the digits of two joined strings are the digits of the first followed by the digits of the second |
| `TextEntry.SanitiseIdempotent` | PJTLauren/ContentView.swift:24-32 | running the handler again on the string it stored stores that same string |
| `TextEntry.ShortDigitsParse` | PJTLauren/ContentView.swift:25-27 | a non-empty run of at most 16 digits always parses with `Int(_:)`, to its value |
| `TextEntry.FilteredParse` | PJTLauren/ContentView.swift:25-28 | on the 16-or-fewer branch, `Int(filtered)` fails exactly when the filtered text is empty and otherwise gives its value |
| `TextEntry.ContentView.constructor` | PJTLauren/ContentView.swift:11-12 | both `inputNumber` and `koreanNumber` start empty |
| `TextEntry.ContentView.OnChange` | PJTLauren/ContentView.swift:22-34 | `inputNumber` becomes the sanitised text: only digits, at most 16, exactly the typed digits when there are 16 or fewer, otherwise the first 16; `koreanNumber` becomes the spelling of the digits' value when 1 to 16 digits were typed, and is otherwise unchanged (empty text, or truncation) |
| `TextEntry.ContentView.Edit` | PJTLauren/ContentView.swift:22-34 | an edit that changes the field leaves it sanitised; after the second handler run the field shows the spelling of the stored digits whenever they are not empty, after a truncation too; an edit that does not change the field changes nothing |

## Left out

- Camera and Vision plumbing is not modelled. This covers capture-session setup, the preview layer, the failure alert, `viewWillDisappear`, and the `VNRecognizeTextRequest` and `VNImageRequestHandler` calls (CameraViewController.swift:18-73, 98-108, 112-120, 140-141). A frame is just its list of observations, each with an optional best candidate string.
- Pinch zoom (CameraViewController.swift:80-96) is not modelled. It is floating-point arithmetic with `atan2` on device state.
- The Korean spelling itself (Utilities.swift:10-18) is not modelled. It comes entirely from Foundation's `NumberFormatter`. It is the parameter `toKorean`, so its `""` fallback when the formatter fails is covered but cannot be named.
- The main-queue hand-off is not modelled. `lastUpdateTime` is written inside `DispatchQueue.main.async` but read on the video queue, so several frames can pass the check before the write lands. That is concurrency. `ProcessBatch` models the sequential behaviour, where the write takes effect at once.
- The nil case of `self?` (object lifetime) is not modelled.
- The delegate protocol and CameraView.swift are not modelled. `didRecognizeText` is never called by the controller.
- SwiftUI layout, the sheet and the button (ContentView.swift:15-21, 37-58) are not modelled.
- Time is not modelled as `Date`. It is integer milliseconds since the epoch, so a wait shorter than a millisecond, measured with `Double` seconds, is not modelled.
- Strings are sequences of `char`, not Swift's grapheme clusters. For example, a `", "` whose space is followed by a combining mark would not count as a separator in Swift but does count here.
- The regular expression is modelled as "non-empty, ASCII digits only". ICU's `$` can also match before a final newline (`"34\n"`), and that case is not modelled.
- `Numerals.ParseInt`: does not model the optional `+` or `-` sign that `Int(_: String)` accepts, because both call sites pass only digit strings.
- `TextEntry.ContentView.Edit`: assumes that SwiftUI runs the `onChange` handler exactly once more when the handler's own assignment changes `inputNumber`, and that it does not coalesce or drop updates. The framework's scheduling of view updates is not modelled.
- `Int` is taken to be 64 bits wide, as on every device the app supports.
- `Recognition.CameraViewController.ProcessBatch` and `TextEntry.ContentView.Edit` require their object invariant `Valid()`. Every constructor establishes it and every method keeps it, so this adds no requirement the app's callers must meet.
