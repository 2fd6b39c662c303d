/** The countdown and resolution panel: a local timer seeded with the voting
    duration, the time-up notification, the winner read and what is displayed. */
module VoteResolution {
  import opened Decimal
  import opened JsBuiltins

  // ---------------------------------------------------------------------------
  // formatTime: seconds as MM:SS
  // ---------------------------------------------------------------------------

  function FormatTime(seconds: int): string {
    var minutes := FloorDiv(seconds, 60);
    var remainingSeconds := Remainder(seconds, 60);
    PadStart(NumberToString(minutes), 2, '0') + ":" + PadStart(NumberToString(remainingSeconds), 2, '0')
  }

  /** Reads a clock text back: one or more minute digits, a colon, and exactly
      two seconds digits worth less than 60. */
  function ParseClock(t: string): Option<int> {
    if |t| < 4 || t[|t| - 3] != ':' then None
    else
      var mm, ss := t[..|t| - 3], t[|t| - 2..];
      if AllDigits(mm) && AllDigits(ss) && Value(ss) < 60
      then Some(Value(mm) * 60 + Value(ss))
      else None
  }

  lemma DigitsBelowHundred(n: nat)
    requires n < 100
    ensures |Digits(n)| <= 2
  {
  }

  /** A non-negative number padded with zeros still reads as that number. */
  lemma PaddedNumeral(n: nat, width: nat)
    ensures var r := PadStart(NumberToString(n), width, '0');
      |r| == (if |Digits(n)| >= width then |Digits(n)| else width) && AllDigits(r) && Value(r) == n
  {
    var s := NumberToString(n);
    ValueOfDigits(n);
    PadStartShape(s, width, '0');
    var z := Repeat('0', |PadStart(s, width, '0')| - |s|);
    assert AllZeros(z);
    ValueIgnoresLeadingZeros(z, s);
  }

  /** Math.floor and `%` agree with Dafny's division on a non-negative dividend. */
  lemma ClockParts(seconds: int)
    requires seconds >= 0
    ensures FloorDiv(seconds, 60) == seconds / 60
    ensures Remainder(seconds, 60) == seconds % 60 < 60
  {
  }

  /** The two fields of the clock text: the minutes padded to at least two
      digits, the seconds below 60 padded to exactly two. */
  lemma ClockFields(minutes: nat, secs: nat)
    requires secs < 60
    ensures var mm := PadStart(NumberToString(minutes), 2, '0');
      |mm| >= 2 && AllDigits(mm) && Value(mm) == minutes
    ensures var ss := PadStart(NumberToString(secs), 2, '0');
      |ss| == 2 && AllDigits(ss) && Value(ss) == secs
  {
    PaddedNumeral(minutes, 2);
    DigitsBelowHundred(secs);
    PaddedNumeral(secs, 2);
  }

  /** Where the fields sit in `mm + ":" + ss`. */
  lemma JoinedFields(mm: string, ss: string)
    requires |ss| == 2
    ensures var t := mm + ":" + ss;
      |t| == |mm| + 3 && t[..|t| - 3] == mm && t[|t| - 3] == ':' && t[|t| - 2..] == ss
  {
  }

  /** For a non-negative count of seconds the text is MM:SS: at least two minute
      digits worth seconds / 60, a colon, and two digits worth seconds % 60. */
  lemma FormatTimeFields(seconds: int)
    requires seconds >= 0
    ensures var t := FormatTime(seconds);
      |t| >= 5 && t[|t| - 3] == ':' &&
      AllDigits(t[..|t| - 3]) && Value(t[..|t| - 3]) == seconds / 60 &&
      AllDigits(t[|t| - 2..]) && Value(t[|t| - 2..]) == seconds % 60 &&
      Value(t[|t| - 2..]) < 60
  {
    ClockParts(seconds);
    var mm := PadStart(NumberToString(seconds / 60), 2, '0');
    var ss := PadStart(NumberToString(seconds % 60), 2, '0');
    ClockFields(seconds / 60, seconds % 60);
    JoinedFields(mm, ss);
    assert FormatTime(seconds) == mm + ":" + ss;
  }

  /** Reading the clock text back recovers the number of seconds. */
  lemma FormatTimeRoundTrip(seconds: int)
    requires seconds >= 0
    ensures ParseClock(FormatTime(seconds)) == Some(seconds)
  {
    ClockParts(seconds);
    var mm := PadStart(NumberToString(seconds / 60), 2, '0');
    var ss := PadStart(NumberToString(seconds % 60), 2, '0');
    ClockFields(seconds / 60, seconds % 60);
    JoinedFields(mm, ss);
    assert FormatTime(seconds) == mm + ":" + ss;
  }

  /** A full vote of five minutes starts its countdown at 05:00. */
  lemma FiveMinutesDisplay()
    ensures FormatTime(300) == "05:00"
  {
  }

  // ---------------------------------------------------------------------------
  // The winner read and its result text
  // ---------------------------------------------------------------------------

  const NOT_CONNECTED_TEXT: string := "Error: Contract not connected."
  const TIE_TEXT: string := "Result: It's a tie!"
  const WINNER_PREFIX: string := "Winner: "
  const FETCH_ERROR_PREFIX: string := "Error fetching winner: "

  /** `"0x" + "00".repeat(32)`: the all-zero 32-byte value the contract returns on a tie. */
  const EMPTY_BYTES32: string := "0x" + RepeatString("00", 32)

  lemma EmptyBytes32Shape()
    ensures |EMPTY_BYTES32| == 66 && EMPTY_BYTES32[..2] == "0x"
    ensures forall i :: 2 <= i < 66 ==> EMPTY_BYTES32[i] == '0'
  {
    RepeatSingleZeros(32);
  }

  /** The result text once `winnerName()` has settled. `decode` stands for
      `ethers.decodeBytes32String`, which may itself throw. */
  function Resolve(read: Outcome<string>, decode: string -> Outcome<string>): string {
    match read
    case Threw(e) => FETCH_ERROR_PREFIX + ErrorDetail(e)
    case Ok(raw) =>
      if raw == EMPTY_BYTES32 then TIE_TEXT
      else match decode(raw)
        case Ok(name) => WINNER_PREFIX + name
        case Threw(e) => FETCH_ERROR_PREFIX + ErrorDetail(e)
  }

  predicate StartsWith(s: string, prefix: string) {
    |prefix| <= |s| && s[..|prefix|] == prefix
  }

  /** The tie text appears exactly when the read returned the all-zero value. */
  lemma ResolveTieIff(read: Outcome<string>, decode: string -> Outcome<string>)
    ensures Resolve(read, decode) == TIE_TEXT <==> read == Ok(EMPTY_BYTES32)
  {
    var r := Resolve(read, decode);
    if read != Ok(EMPTY_BYTES32) {
      assert r[0] != TIE_TEXT[0];
    }
  }

  /** A winner is announced exactly when the read returned a non-zero value that
      decodes, and then with the decoded name. */
  lemma ResolveWinnerIff(read: Outcome<string>, decode: string -> Outcome<string>)
    ensures StartsWith(Resolve(read, decode), WINNER_PREFIX) <==>
      read.Ok? && read.value != EMPTY_BYTES32 && decode(read.value).Ok?
    ensures read.Ok? && read.value != EMPTY_BYTES32 && decode(read.value).Ok? ==>
      Resolve(read, decode) == WINNER_PREFIX + decode(read.value).value
  {
    var r := Resolve(read, decode);
    if !(read.Ok? && read.value != EMPTY_BYTES32 && decode(read.value).Ok?) {
      assert r[0] != WINNER_PREFIX[0];
    }
  }

  /** The error text appears exactly when the read or the decoding threw, and it
      carries the error's reason, or its message when there is no reason. */
  lemma ResolveErrorIff(read: Outcome<string>, decode: string -> Outcome<string>)
    ensures StartsWith(Resolve(read, decode), FETCH_ERROR_PREFIX) <==>
      read.Threw? || (read.value != EMPTY_BYTES32 && decode(read.value).Threw?)
    ensures read.Threw? ==> Resolve(read, decode) == FETCH_ERROR_PREFIX + ErrorDetail(read.error)
    ensures read.Ok? && read.value != EMPTY_BYTES32 && decode(read.value).Threw? ==>
      Resolve(read, decode) == FETCH_ERROR_PREFIX + ErrorDetail(decode(read.value).error)
  {
    var r := Resolve(read, decode);
    if !(read.Threw? || (read.value != EMPTY_BYTES32 && decode(read.value).Threw?)) {
      assert r[1] != FETCH_ERROR_PREFIX[1] || r[0] != FETCH_ERROR_PREFIX[0];
    }
  }

  // ---------------------------------------------------------------------------
  // The panel's state and its transitions
  // ---------------------------------------------------------------------------

  /** A call the panel makes outside its own state: the parent's `onTimeUp`
      callback or `contract.winnerName()`. */
  datatype PanelCall = TimeUp | ReadWinner

  /** The panel's React state (`timeLeft`, `result`, `isLoadingWinner`) together
      with the calls it has made so far, in order. */
  datatype PanelState = PanelState(
    timeLeft: int,
    result: Option<string>,
    loadingWinner: bool,
    calls: seq<PanelCall>)

  /** What the panel renders below its heading. */
  datatype Display = Countdown(clock: string) | DeclaringWinner | ShowResult(text: Option<string>)

  function Mounted(votingDuration: int): (p: PanelState)
    ensures p.timeLeft == votingDuration && p.result == None && !p.loadingWinner
    ensures p.calls == []
  {
    PanelState(votingDuration, None, false, [])
  }

  /** One interval callback. The timer effect installs the interval only while
      time is left and clears it whenever timeLeft changes, so a callback that
      finds no time left changes nothing. */
  function TickStep(p: PanelState): (q: PanelState)
    ensures p.timeLeft > 0 ==> q.timeLeft == p.timeLeft - 1
    ensures p.timeLeft <= 0 ==> q == p
    ensures q == p.(timeLeft := q.timeLeft)
  {
    if p.timeLeft > 0 then p.(timeLeft := p.timeLeft - 1) else p
  }

  /** The synchronous part of determineWinner, up to the await of the winner read. */
  function BeginDetermineWinner(p: PanelState, contractConnected: bool): (q: PanelState)
    ensures !contractConnected ==> q == p.(result := Some(NOT_CONNECTED_TEXT))
    ensures contractConnected ==> q == p.(loadingWinner := true, calls := p.calls + [ReadWinner])
  {
    if !contractConnected then p.(result := Some(NOT_CONNECTED_TEXT))
    else p.(loadingWinner := true, calls := p.calls + [ReadWinner])
  }

  /** The time-up effect, run at mount and whenever timeLeft or the contract changes. */
  function ExpiryStep(p: PanelState, contractConnected: bool): (q: PanelState)
    ensures p.timeLeft > 0 ==> q == p
    ensures p.timeLeft <= 0 ==> q.calls == p.calls + [TimeUp] + (if contractConnected then [ReadWinner] else [])
    ensures q.timeLeft == p.timeLeft
  {
    if p.timeLeft <= 0 then BeginDetermineWinner(p.(calls := p.calls + [TimeUp]), contractConnected)
    else p
  }

  /** The try/catch/finally after the winner read settles. */
  function ReceiveStep(p: PanelState, read: Outcome<string>, decode: string -> Outcome<string>): (q: PanelState)
    ensures !q.loadingWinner && q.result == Some(Resolve(read, decode))
    ensures q == p.(result := q.result, loadingWinner := false)
  {
    p.(result := Some(Resolve(read, decode)), loadingWinner := false)
  }

  /** The render branch: the clock while time is left, then the loading text while
      the winner is read, then the result. */
  function Render(p: PanelState): (d: Display)
    ensures d.Countdown? <==> p.timeLeft > 0
    ensures d.Countdown? ==> d.clock == FormatTime(p.timeLeft)
    ensures d.DeclaringWinner? <==> p.timeLeft <= 0 && p.loadingWinner
    ensures d.ShowResult? <==> p.timeLeft <= 0 && !p.loadingWinner
    ensures d.ShowResult? ==> d.text == p.result
  {
    if p.timeLeft > 0 then Countdown(FormatTime(p.timeLeft))
    else if p.loadingWinner then DeclaringWinner
    else ShowResult(p.result)
  }

  // ---------------------------------------------------------------------------
  // A whole mount: React re-runs the time-up effect after each change of timeLeft
  // ---------------------------------------------------------------------------

  /** One tick followed by the effect re-run that a change of timeLeft triggers. */
  function AfterTick(p: PanelState, contractConnected: bool): PanelState {
    var q := TickStep(p);
    if q.timeLeft != p.timeLeft then ExpiryStep(q, contractConnected) else q
  }

  /** n interval callbacks, each with the effect re-runs it triggers. */
  function Run(p: PanelState, n: nat, contractConnected: bool): PanelState
    decreases n
  {
    if n == 0 then p else Run(AfterTick(p, contractConnected), n - 1, contractConnected)
  }

  /** Mounting with a duration (both effects run once), then n interval callbacks. */
  function Session(votingDuration: int, n: nat, contractConnected: bool): PanelState {
    Run(ExpiryStep(Mounted(votingDuration), contractConnected), n, contractConnected)
  }

  /** Once time is up nothing ticks and the effect is not re-run. */
  lemma {:induction false} RunStopped(p: PanelState, n: nat, contractConnected: bool)
    requires p.timeLeft <= 0
    ensures Run(p, n, contractConnected) == p
    decreases n
  {
    if n > 0 {
      assert AfterTick(p, contractConnected) == p;
      RunStopped(p, n - 1, contractConnected);
    }
  }

  /** While time is left each callback removes one second; the callback that
      reaches zero fires the time-up effect, and nothing happens afterwards. */
  lemma {:induction false} RunCounting(p: PanelState, n: nat, contractConnected: bool)
    requires p.timeLeft > 0
    ensures Run(p, n, contractConnected) ==
      if n < p.timeLeft then p.(timeLeft := p.timeLeft - n)
      else ExpiryStep(p.(timeLeft := 0), contractConnected)
    decreases n
  {
    if n > 0 {
      var q := AfterTick(p, contractConnected);
      if p.timeLeft > 1 {
        assert q == p.(timeLeft := p.timeLeft - 1);
        RunCounting(q, n - 1, contractConnected);
      } else {
        assert q == ExpiryStep(p.(timeLeft := 0), contractConnected);
        RunStopped(q, n - 1, contractConnected);
      }
    }
  }

  /** Over a whole mount, onTimeUp is called exactly once, when the countdown has
      reached zero (at mount already for a duration that is not positive); the
      winner is read at most once, only with a contract, and only after onTimeUp;
      and timeLeft never goes up. */
  lemma SessionFiresOnce(votingDuration: int, n: nat, contractConnected: bool)
    ensures var s := Session(votingDuration, n, contractConnected);
      s.timeLeft == (if votingDuration <= 0 then votingDuration
                     else if n >= votingDuration then 0 else votingDuration - n) &&
      s.calls == (if n < votingDuration then [] else [TimeUp] + (if contractConnected then [ReadWinner] else [])) &&
      (n >= votingDuration && !contractConnected ==> s.result == Some(NOT_CONNECTED_TEXT)) &&
      (n < votingDuration ==> s.result == None && !s.loadingWinner) &&
      (Render(s).Countdown? <==> n < votingDuration)
  {
    var m := Mounted(votingDuration);
    if votingDuration <= 0 {
      RunStopped(ExpiryStep(m, contractConnected), n, contractConnected);
    } else {
      assert ExpiryStep(m, contractConnected) == m;
      RunCounting(m, n, contractConnected);
    }
  }

  /** After the read settles, with no time left, the panel shows the result text. */
  lemma ShowsResolvedText(p: PanelState, read: Outcome<string>, decode: string -> Outcome<string>)
    requires p.timeLeft <= 0
    ensures Render(ReceiveStep(p, read, decode)) == ShowResult(Some(Resolve(read, decode)))
  {
  }

  // ---------------------------------------------------------------------------
  // The component, with its state fields updated in place
  // ---------------------------------------------------------------------------

  class VoteResolutionPanel {
    var timeLeft: int
    var result: Option<string>
    var isLoadingWinner: bool
    /** The onTimeUp and winnerName() calls made so far, in the order they were made. */
    var calls: seq<PanelCall>

    function State(): PanelState
      reads this
    {
      PanelState(timeLeft, result, isLoadingWinner, calls)
    }

    constructor (votingDuration: int)
      ensures State() == Mounted(votingDuration)
    {
      timeLeft := votingDuration;
      result := None;
      isLoadingWinner := false;
      calls := [];
    }

    /** The interval callback `prevTime => prevTime - 1`, present only while time is left. */
    method Tick() returns (ticked: bool)
      modifies this
      ensures ticked <==> old(timeLeft) > 0
      ensures ticked ==> timeLeft == old(timeLeft) - 1
      ensures State() == TickStep(old(State()))
    {
      ticked := timeLeft > 0;
      if ticked {
        timeLeft := timeLeft - 1;
      }
    }

    /** The time-up effect: with no time left, notify the parent and determine the winner. */
    method TimeUpEffect(contractConnected: bool) returns (fired: bool)
      modifies this
      ensures fired <==> old(timeLeft) <= 0
      ensures State() == ExpiryStep(old(State()), contractConnected)
    {
      fired := timeLeft <= 0;
      if fired {
        calls := calls + [TimeUp];
        var readStarted := DetermineWinner(contractConnected);
      }
    }

    /** determineWinner up to the await: without a contract the error text is set
        and no read is made; otherwise loading starts and the read is issued. */
    method DetermineWinner(contractConnected: bool) returns (readStarted: bool)
      modifies this
      ensures readStarted == contractConnected
      ensures !readStarted ==> result == Some(NOT_CONNECTED_TEXT) && calls == old(calls)
      ensures State() == BeginDetermineWinner(old(State()), contractConnected)
    {
      if !contractConnected {
        result := Some(NOT_CONNECTED_TEXT);
        return false;
      }
      isLoadingWinner := true;
      calls := calls + [ReadWinner];
      readStarted := true;
    }

    /** determineWinner after the await: the result text, and loading cleared on every path. */
    method ReceiveWinner(read: Outcome<string>, decode: string -> Outcome<string>)
      modifies this
      ensures !isLoadingWinner && result == Some(Resolve(read, decode))
      ensures State() == ReceiveStep(old(State()), read, decode)
    {
      match read {
        case Threw(e) =>
          result := Some(FETCH_ERROR_PREFIX + ErrorDetail(e));
        case Ok(raw) =>
          if raw == EMPTY_BYTES32 {
            result := Some(TIE_TEXT);
          } else {
            match decode(raw) {
              case Ok(name) => result := Some(WINNER_PREFIX + name);
              case Threw(e) => result := Some(FETCH_ERROR_PREFIX + ErrorDetail(e));
            }
          }
      }
      isLoadingWinner := false;
    }
  }
}
