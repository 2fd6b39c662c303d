# Voting dApp front end: countdown panel and admin page

This project models two React components of a ballot dApp's front end in
Dafny, and proves properties of that model.

- **The countdown/resolution panel** (`components/VoteResolution.tsx`). It
  starts a local timer from the voting duration and shows the time left as
  `MM:SS`. When the time is up it calls the parent's `onTimeUp` callback and
  reads `winnerName()` from the contract. It then shows one of four texts:
  a tie, the decoded winner, a fetch error, or "contract not connected".
- **The admin page** (`app/admin/page.tsx`). It compares the contract's
  chairperson address with the signer's address, ignoring letter case. It
  shows a waiting message, a refusal, or the controls. Its start handler
  reads the duration in minutes with `parseInt(text, 10)`, refuses NaN and
  values that are not positive, calls `startVote` with the duration in
  seconds, and navigates to `/`.

Files:

- `decimal.dfy` (module `Decimal`): decimal numerals and their values.
- `js_builtins.dfy` (module `JsBuiltins`): the JavaScript built-ins the
  components use. These are `Number#toString` for integers, `Math.floor` of
  a quotient, the truncating `%`, `padStart`, `repeat`, `toLowerCase` on
  ASCII letters, `parseInt` with radix 10, and `error.reason || error.message`.
  Thrown errors are modelled by the `Outcome` datatype.
- `vote_resolution.dfy` (module `VoteResolution`): `formatTime`, the text
  shown once the winner read settles, and the panel's state. The state
  appears twice:
  - as pure transitions on `PanelState`, with a `Run` of many ticks that
    includes React re-running the time-up effect;
  - as the class `VoteResolutionPanel`. Its fields are updated in place and
    each method's postcondition ties the new state to the matching transition.
- `admin_page.dfy` (module `AdminPanel`): address comparison, `checkStatus`,
  the duration check, the render gating, and the class `AdminPage`. The
  `startVote` and `router.push` calls are recorded, in the order they are
  made, in one sequence of `Effect` values.

The awaits in the source are split into a synchronous part and a
continuation.
- `determineWinner` becomes `DetermineWinner`, which runs up to the await
  and issues the read, and `ReceiveWinner`, which covers the
  `try/catch/finally` once the read has settled.
- `checkStatus` becomes one step that takes the settled outcomes of both
  reads.

`ethers.decodeBytes32String` is a function parameter `decode` that may
throw. Calls to `onTimeUp` and `contract.winnerName()` are recorded, in the
order they are made, in the field `calls`, a sequence of `TimeUp` and
`ReadWinner` values.

Where the code and its documented intent differ, the model follows the code:

- The start handler uses `parseInt`, so it does not accept only positive
  integers. `"1.5"` starts a one-minute vote, `"2e1"` a two-minute vote, and
  `"0.9"` is refused.
- After a successful start, `isLoading` stays `true`. Only the refusal path
  clears it.
- The time-up effect depends on `[timeLeft, contract]`. If the contract
  changes after time is up, `onTimeUp` and the winner read run again. The
  "exactly once" of `SessionFiresOnce` holds for a mount whose contract does
  not change.

## Model

| member | source | states |
|---|---|---|
| JsBuiltins.NumberToString | components/VoteResolution.tsx:85 | `n.toString()` for an integer; its properties are stated by NumberToStringValue and ParseIntOfNumberToString |
| JsBuiltins.PadStart | components/VoteResolution.tsx:85 | `padStart(width, fill)`; its shape is stated by PadStartShape |
| JsBuiltins.RepeatString | components/VoteResolution.tsx:63 | `s.repeat(n)`; RepeatSingleZeros states that `"00".repeat(n)` is 2n zeros |
| JsBuiltins.ToLowerCase | app/admin/page.tsx:26 | `toLowerCase()` keeps the length; ToLowerCaseAt states each character |
| JsBuiltins.ParseInt | app/admin/page.tsx:38 | `parseInt(s, 10)`; ParseIntIgnoresSuffix and ParseIntOfNumberToString state what it reads |
| VoteResolution.FormatTime | components/VoteResolution.tsx:82-86 | formatTime; FormatTimeFields and FormatTimeRoundTrip state its MM:SS shape and that it can be read back |
| VoteResolution.Resolve | components/VoteResolution.tsx:56-78 | the result text once the read settles; ResolveTieIff, ResolveWinnerIff and ResolveErrorIff classify it |
| VoteResolution.AfterTick | components/VoteResolution.tsx:25-44 | one tick followed by the time-up effect that the change of timeLeft re-runs; used by RunCounting |
| VoteResolution.Run | components/VoteResolution.tsx:25-44 | n ticks with their effect re-runs; RunStopped and RunCounting give it in closed form |
| VoteResolution.Session | components/VoteResolution.tsx:18-44 | a mount followed by n ticks; SessionFiresOnce states its outcome |
| AdminPanel.SameAddress | app/admin/page.tsx:26 | the case-insensitive address comparison; SameAddressIffCaseVariant, SameAddressSymmetric and SameAddressIgnoresCase state its properties |
| AdminPanel.StatusAfter | app/admin/page.tsx:17-33 | isChairperson after a mount's checkStatus runs; StatusAfterVerifying and StatusAfterLastEffective state its outcome |
| Decimal.ValueOfDigits | components/VoteResolution.tsx:85 | the decimal numeral that toString writes for a non-negative integer denotes that integer |
| Decimal.ValueIgnoresLeadingZeros | components/VoteResolution.tsx:85 | zeros added on the left by padStart keep the numeral's value |
| JsBuiltins.NumberToStringValue | components/VoteResolution.tsx:85 | `n.toString()` is a numeral of n's value, with a leading minus sign exactly when n is negative |
| JsBuiltins.FloorDiv | components/VoteResolution.tsx:83 | `Math.floor(a / b)` is the q with q·b ≤ a < q·b + b |
| JsBuiltins.Remainder | components/VoteResolution.tsx:84 | JavaScript `%` takes the dividend's sign: for a ≥ 0 it lies in [0, b) and equals a − ⌊a/b⌋·b; for a < 0 it lies in (−b, 0] |
| JsBuiltins.PadStartShape | components/VoteResolution.tsx:85 | padStart makes the text at least the width long, puts only fill characters in front, and never truncates |
| JsBuiltins.RepeatSingleZeros | components/VoteResolution.tsx:63 | `"00".repeat(n)` is 2n zero characters |
| JsBuiltins.ErrorDetail | components/VoteResolution.tsx:75 | `error.reason \|\| error.message`: the reason when it is present and non-empty, the message otherwise |
| JsBuiltins.ToLowerCaseAt | app/admin/page.tsx:26 | toLowerCase changes each character on its own and keeps the length |
| JsBuiltins.TrimStart | app/admin/page.tsx:38 | parseInt's leading-whitespace skip removes a prefix made only of whitespace and stops at the end or at a character that is not whitespace |
| JsBuiltins.DigitPrefix | app/admin/page.tsx:38 | parseInt reads the longest run of digits: every character in it is a digit, and the character after it is not |
| JsBuiltins.ParseIntIgnoresSuffix | app/admin/page.tsx:38 | parseInt reads a leading numeral and ignores whatever non-digit text follows it |
| JsBuiltins.ParseIntOfNumberToString | app/admin/page.tsx:38 | parseInt reads back the numeral toString writes, for every integer including negative ones |
| VoteResolution.FormatTimeFields | components/VoteResolution.tsx:82-86 | for seconds ≥ 0 the text has at least two minute digits worth seconds/60, a colon, and exactly two digits worth seconds%60 < 60 |
| VoteResolution.FormatTimeRoundTrip | components/VoteResolution.tsx:82-86 | reading the MM:SS text back as minutes·60 + seconds recovers every non-negative input |
| VoteResolution.FiveMinutesDisplay | components/VoteResolution.tsx:82-86 | 300 seconds is shown as "05:00" |
| VoteResolution.EmptyBytes32Shape | components/VoteResolution.tsx:63 | the tie value is "0x" followed by 64 zero characters (66 characters in all) |
| VoteResolution.ResolveTieIff | components/VoteResolution.tsx:61-66 | the tie text appears exactly when the read returned the all-zero value |
| VoteResolution.ResolveWinnerIff | components/VoteResolution.tsx:67-71 | "Winner: name" appears exactly when the read returned a value other than the all-zero one and decoding it succeeded; name is the decoded string |
| VoteResolution.ResolveErrorIff | components/VoteResolution.tsx:69-75 | the error text appears exactly when the read or the decoding threw; it carries the reason or message of the read's error when the read failed, and of the decoding's error when decodeBytes32String threw |
| VoteResolution.Mounted | components/VoteResolution.tsx:18-22 | at mount timeLeft is the voting duration, there is no result, nothing is loading, and no call has been made |
| VoteResolution.TickStep | components/VoteResolution.tsx:25-36 | while time is left a tick removes one second; with no time left no interval exists and nothing changes; only timeLeft ever changes |
| VoteResolution.BeginDetermineWinner | components/VoteResolution.tsx:47-58 | without a contract the not-connected text is set and no call is made; with one, loading starts and exactly one winner read is appended to the calls |
| VoteResolution.ExpiryStep | components/VoteResolution.tsx:39-44 | the effect does nothing while time is left; with no time left it calls onTimeUp once and then, with a contract, reads the winner once, in that order; it never changes timeLeft |
| VoteResolution.ReceiveStep | components/VoteResolution.tsx:56-78 | once the read settles the result is the resolved text, and loading is cleared on every path (finally) |
| VoteResolution.Render | components/VoteResolution.tsx:91-100 | Render shows the clock exactly while time is left, "Declaring winner..." exactly when time is up and a read is in flight, and the result otherwise |
| VoteResolution.RunStopped | components/VoteResolution.tsx:27 | once time is up, further ticks and effect re-runs change nothing |
| VoteResolution.RunCounting | components/VoteResolution.tsx:25-44 | with time left, n ticks count down by n; the tick that reaches zero fires the time-up effect once, and the state stays fixed after that |
| VoteResolution.SessionFiresOnce | components/VoteResolution.tsx:18-44 | over a mount with a fixed contract, no call is made before the countdown reaches zero; after that the calls are exactly onTimeUp followed, with a contract, by one winner read; and the clock is shown exactly while ticks remain |
| VoteResolution.ShowsResolvedText | components/VoteResolution.tsx:96-99 | after the read settles with no time left the panel shows the resolved text |
| VoteResolution.VoteResolutionPanel.constructor | components/VoteResolution.tsx:18-22 | the fields start as the mounted state |
| VoteResolution.VoteResolutionPanel.Tick | components/VoteResolution.tsx:27-31 | a tick happens exactly when time is left, decrements timeLeft, and follows TickStep |
| VoteResolution.VoteResolutionPanel.TimeUpEffect | components/VoteResolution.tsx:39-44 | the effect fires exactly when no time is left, and the new state, call log included, is ExpiryStep of the old one: onTimeUp first, then the winner read |
| VoteResolution.VoteResolutionPanel.DetermineWinner | components/VoteResolution.tsx:47-54 | a read is started exactly when a contract is connected; otherwise the not-connected text is set; the new state is BeginDetermineWinner of the old one |
| VoteResolution.VoteResolutionPanel.ReceiveWinner | components/VoteResolution.tsx:56-78 | loading is cleared, the result is the resolved text, and the new state is ReceiveStep of the old one |
| AdminPanel.SameAddressIffCaseVariant | app/admin/page.tsx:26 | two addresses compare equal exactly when they have the same length and differ at most in the case of ASCII letters |
| AdminPanel.SameAddressSymmetric | app/admin/page.tsx:26 | the comparison is symmetric |
| AdminPanel.SameAddressIgnoresCase | app/admin/page.tsx:26 | changing the letter case of either address does not change the verdict |
| AdminPanel.CheckedStatus | app/admin/page.tsx:20-33 | nothing changes unless both the contract and the signer are present; then the page is never left verifying, it is authorized exactly when both reads succeeded with matching addresses, and any thrown read gives "not authorized" |
| AdminPanel.CheckedStatusIgnoresCase | app/admin/page.tsx:24-26 | the authorization verdict does not depend on the letter case of the two addresses |
| AdminPanel.StatusAfterVerifying | app/admin/page.tsx:17-33 | starting from null, the page keeps verifying exactly as long as no run of the effect has found both the contract and the signer |
| AdminPanel.StatusAfterLastEffective | app/admin/page.tsx:17-33 | the last run that found both decides the verdict: authorized exactly when its addresses matched |
| AdminPanel.StartSeconds | app/admin/page.tsx:38-45 | a duration is accepted exactly when parseInt gives a positive integer, and then the seconds are that integer times 60 |
| AdminPanel.StartSecondsWholeMinutes | app/admin/page.tsx:45 | every accepted duration is a positive whole number of minutes, at least 60 seconds |
| AdminPanel.StartSecondsOfNumeral | app/admin/page.tsx:38-45 | the numeral of m minutes starts an m·60-second vote when m > 0 and is refused otherwise |
| AdminPanel.InitialDurationIsFiveMinutes | app/admin/page.tsx:15 | the untouched input "5" starts a 300-second vote |
| AdminPanel.StartSecondsTruncatesFraction | app/admin/page.tsx:38 | "1.5" is accepted as 60 seconds, because parseInt stops at the point |
| AdminPanel.StartSecondsIgnoresExponent | app/admin/page.tsx:38 | "2e1" is accepted as 120 seconds, because parseInt does not read an exponent |
| AdminPanel.StartSecondsRefusesSubMinute | app/admin/page.tsx:38-43 | "0.9" reads as 0 and is refused |
| AdminPanel.StartSecondsOfLeadingDigit | app/admin/page.tsx:38-43 | one digit followed by a non-digit starts a vote of that many minutes, unless the digit is 0 |
| AdminPanel.StartSecondsRefusesNonNumbers | app/admin/page.tsx:38-43 | an input with no digit, the empty input included, is refused |
| AdminPanel.RenderAdmin | app/admin/page.tsx:50-86 | RenderAdmin shows the waiting message exactly while the check is unresolved, the refusal exactly for a non-chairperson, and the controls only for the chairperson; input and button are disabled while loading, and the label is "Starting..." or "Start Voting Period" |
| AdminPanel.AdminPage.constructor | app/admin/page.tsx:15-17 | the page starts with "5", not loading, verifying, and with no startVote or navigation made |
| AdminPanel.AdminPage.CheckStatus | app/admin/page.tsx:20-33 | the new isChairperson is CheckedStatus of the old one and the two read outcomes |
| AdminPanel.AdminPage.EditDuration | app/admin/page.tsx:65-73 | typing is accepted exactly when the input is rendered (chairperson) and enabled (not loading); then the text becomes the typed value, otherwise it is unchanged |
| AdminPanel.AdminPage.HandleStartClick | app/admin/page.tsx:36-48 | the handler starts a vote exactly when StartSeconds accepts the text. On a start, exactly two calls are made: startVote with the seconds, then a push of "/"; loading stays set. On a refusal no call is made and loading is cleared |
| AdminPanel.AdminPage.PressStart | app/admin/page.tsx:76-81 | a press starts a vote exactly when the user is the chairperson, nothing is loading, and the duration is accepted. A started press makes the startVote call and then the push of "/", and sets loading. Any other press makes no call and leaves loading as it was |

## Left out

- The wallet provider, the Web3 context, the voting-state machine, the
  give-rights page, the candidate list, the thank-you page, and the
  contracts are not part of this model.
- Timers and React scheduling are not modelled as real time. A tick is an
  explicit call of `Tick`, or one step of `Run`.
- SessionFiresOnce: assumes that the contract stays the same over the
  mount. A contract that changes after time is up re-runs the time-up
  effect, and `ExpiryStep` shows that each such re-run calls `onTimeUp`
  again.
- Concurrent completions are not modelled. Two overlapping `determineWinner`
  or `checkStatus` runs can settle in either order, but the model applies
  each continuation as one step.
- `console.log`, `console.error` and `alert` have no effect on the state and
  are left out. An `alert` shows only on the refusal path of
  `HandleStartClick`.
- `router.push` and `startVote` are recorded as entries in the `effects`
  sequence, not carried out. The page reads `startVote` from `Web3Context`
  (app/admin/page.tsx:13). providers/Web3Provider.tsx:61-62 provides only
  `ContractContext` and `SignerContext`, not `Web3Context`. Without a
  `Web3Context` provider, the call reaches the context's default, which only
  logs an error (contexts/Web3Context.tsx:19). The model records the call
  the page makes, not what the call does.
- ParseInt: JavaScript numbers are modelled as unbounded integers.
  Rounding of numerals beyond 2^53 is not modelled, and neither is
  `Infinity` in `duration * 60`.
- RunCounting: holds only for durations below 2^53 seconds. Above that,
  `prevTime - 1` (components/VoteResolution.tsx:31) rounds back to
  `prevTime` from just above 2^53 (for example at 2^53 + 4, where the
  tie rounds to even), so the real countdown stalls
  and never reaches zero. A duration of 15 decimal digits of minutes, times
  60, gets there.
- SessionFiresOnce: holds only for durations below 2^53 seconds, for the
  same reason. With a larger duration the real panel never calls
  `onTimeUp`.
- FormatTime: the model's numerals are exact. In JavaScript, a minute count
  from 10^21 on is written in exponent form ("1e+21"), and one from 2^53
  on is rounded.
- NumberToStringValue: states the numeral of an exact integer. JavaScript's
  `toString` writes exponent form from 10^21 on, and that is not modelled.
- FormatTime: negative and non-integer seconds are not modelled by the
  properties. Its definition handles negative input, but the countdown
  never shows it, because the clock is displayed only while
  `timeLeft > 0`.
- ToLowerCase: only the ASCII letters A–Z are folded. Addresses are
  hexadecimal ASCII, and Unicode case mapping is not modelled.
- `ethers.decodeBytes32String` is a parameter of the model. Its decoding of
  bytes32 values is not modelled.
- ErrorDetail: an error whose `message` is undefined is not modelled. The
  model takes `message` to be a string.
