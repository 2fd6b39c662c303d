/** The admin page: the chairperson check that gates it and the handler that
    starts a vote of a given number of minutes. */
module AdminPanel {
  import opened Decimal
  import opened JsBuiltins

  // ---------------------------------------------------------------------------
  // Comparing addresses without regard to letter case
  // ---------------------------------------------------------------------------

  /** `a.toLowerCase() === b.toLowerCase()`. */
  predicate SameAddress(a: string, b: string) {
    ToLowerCase(a) == ToLowerCase(b)
  }

  /** b is a and only the case of some letters differs. */
  predicate CaseVariant(a: string, b: string) {
    |a| == |b| && forall i :: 0 <= i < |a| ==> LowerChar(a[i]) == LowerChar(b[i])
  }

  lemma CaseVariantLowersEqual(a: string, b: string)
    requires CaseVariant(a, b)
    ensures ToLowerCase(a) == ToLowerCase(b)
  {
    forall i | 0 <= i < |a| ensures ToLowerCase(a)[i] == ToLowerCase(b)[i] {
      ToLowerCaseAt(a, i);
      ToLowerCaseAt(b, i);
    }
  }

  /** Two addresses are the same exactly when they differ at most in letter case. */
  lemma SameAddressIffCaseVariant(a: string, b: string)
    ensures SameAddress(a, b) <==> CaseVariant(a, b)
  {
    if SameAddress(a, b) {
      forall i | 0 <= i < |a| ensures LowerChar(a[i]) == LowerChar(b[i]) {
        ToLowerCaseAt(a, i);
        ToLowerCaseAt(b, i);
      }
    }
    if CaseVariant(a, b) {
      CaseVariantLowersEqual(a, b);
    }
  }

  lemma SameAddressSymmetric(a: string, b: string)
    ensures SameAddress(a, b) == SameAddress(b, a)
  {
  }

  /** Changing the letter case of either address does not change the verdict. */
  lemma SameAddressIgnoresCase(a: string, a': string, b: string, b': string)
    requires CaseVariant(a, a') && CaseVariant(b, b')
    ensures SameAddress(a, b) == SameAddress(a', b')
  {
    CaseVariantLowersEqual(a, a');
    CaseVariantLowersEqual(b, b');
  }

  // ---------------------------------------------------------------------------
  // checkStatus
  // ---------------------------------------------------------------------------

  /** `isChairperson`: null while unknown, then true or false. */
  datatype Authorization = Verifying | Authorized | NotAuthorized

  /** The state checkStatus leaves behind. It acts only when both the contract
      and the signer are present; `chairperson` and `signerAddress` are the settled
      outcomes of `contract.chairperson()` and `signer.getAddress()` (the second is
      not awaited when the first throws). */
  function CheckedStatus(current: Authorization, hasContract: bool, hasSigner: bool,
                         chairperson: Outcome<string>, signerAddress: Outcome<string>): (a: Authorization)
    ensures !(hasContract && hasSigner) ==> a == current
    ensures hasContract && hasSigner ==> a != Verifying
    ensures hasContract && hasSigner ==>
      (a == Authorized <==> chairperson.Ok? && signerAddress.Ok? &&
                            SameAddress(chairperson.value, signerAddress.value))
    ensures hasContract && hasSigner && (chairperson.Threw? || signerAddress.Threw?) ==> a == NotAuthorized
  {
    if hasContract && hasSigner then
      match chairperson
      case Threw(_) => NotAuthorized
      case Ok(chairAddr) =>
        match signerAddress
        case Threw(_) => NotAuthorized
        case Ok(signerAddr) => if SameAddress(chairAddr, signerAddr) then Authorized else NotAuthorized
    else current
  }

  /** The verdict does not depend on the letter case of either address. */
  lemma CheckedStatusIgnoresCase(current: Authorization, hasContract: bool, hasSigner: bool,
                                 chair: string, chair': string, signer: string, signer': string)
    requires CaseVariant(chair, chair') && CaseVariant(signer, signer')
    ensures CheckedStatus(current, hasContract, hasSigner, Ok(chair), Ok(signer)) ==
            CheckedStatus(current, hasContract, hasSigner, Ok(chair'), Ok(signer'))
  {
    SameAddressIgnoresCase(chair, chair', signer, signer');
  }

  /** One run of the checkStatus effect, with the outcomes of its two reads. */
  datatype StatusCheck = StatusCheck(hasContract: bool, hasSigner: bool,
                                     chairperson: Outcome<string>, signerAddress: Outcome<string>)

  /** A run that reaches the reads: both the contract and the signer are present. */
  predicate Effective(c: StatusCheck) {
    c.hasContract && c.hasSigner
  }

  /** An effective run whose reads returned matching addresses. */
  predicate Confirms(c: StatusCheck) {
    Effective(c) && c.chairperson.Ok? && c.signerAddress.Ok? &&
    SameAddress(c.chairperson.value, c.signerAddress.value)
  }

  /** isChairperson after the effect runs of a mount, in order, from its initial null. */
  function StatusAfter(checks: seq<StatusCheck>): Authorization
    decreases |checks|
  {
    if checks == [] then Verifying
    else
      var c := checks[|checks| - 1];
      CheckedStatus(StatusAfter(checks[..|checks| - 1]), c.hasContract, c.hasSigner, c.chairperson, c.signerAddress)
  }

  /** The page keeps verifying until a run finds both the contract and the signer. */
  lemma {:induction false} StatusAfterVerifying(checks: seq<StatusCheck>)
    ensures StatusAfter(checks) == Verifying <==> forall i :: 0 <= i < |checks| ==> !Effective(checks[i])
    decreases |checks|
  {
    if checks != [] {
      var init := checks[..|checks| - 1];
      StatusAfterVerifying(init);
      assert forall i :: 0 <= i < |init| ==> init[i] == checks[i];
    }
  }

  /** The verdict is decided by the last run that found both: authorized exactly
      when its addresses matched. */
  lemma {:induction false} StatusAfterLastEffective(checks: seq<StatusCheck>, k: nat)
    requires k < |checks| && Effective(checks[k])
    requires forall j :: k < j < |checks| ==> !Effective(checks[j])
    ensures StatusAfter(checks) == if Confirms(checks[k]) then Authorized else NotAuthorized
    decreases |checks|
  {
    var init := checks[..|checks| - 1];
    if k < |checks| - 1 {
      assert forall j :: k < j < |init| ==> init[j] == checks[j];
      StatusAfterLastEffective(init, k);
    }
  }

  // ---------------------------------------------------------------------------
  // handleStartClick
  // ---------------------------------------------------------------------------

  const INITIAL_DURATION: string := "5"
  const HOME_ROUTE: string := "/"

  /** The seconds handed to startVote for the duration text, or None when
      `parseInt(text, 10)` is NaN or not positive and the handler aborts. */
  function StartSeconds(durationText: string): (r: Option<int>)
    ensures r.Some? <==> ParseInt(durationText).Integer? && ParseInt(durationText).value > 0
    ensures r.Some? ==> r.value == ParseInt(durationText).value * 60
  {
    match ParseInt(durationText)
    case NaN => None
    case Integer(d) => if d <= 0 then None else Some(d * 60)
  }

  /** Every accepted duration is a positive whole number of minutes. */
  lemma StartSecondsWholeMinutes(durationText: string)
    requires StartSeconds(durationText).Some?
    ensures StartSeconds(durationText).value >= 60
    ensures StartSeconds(durationText).value % 60 == 0
  {
  }

  /** The numeral of a number of minutes starts a vote of that many minutes;
      the numeral of a number that is not positive is refused. */
  lemma StartSecondsOfNumeral(minutes: int)
    ensures StartSeconds(NumberToString(minutes)) ==
      if minutes > 0 then Some(minutes * 60) else None
  {
    ParseIntOfNumberToString(minutes);
  }

  /** The untouched input starts a 300-second vote. */
  lemma InitialDurationIsFiveMinutes()
    ensures StartSeconds(INITIAL_DURATION) == Some(300)
  {
    StartSecondsOfNumeral(5);
    assert NumberToString(5) == INITIAL_DURATION;
  }

  /** parseInt stops at the first non-digit, so a fractional input is cut down
      to its leading whole number of minutes. */
  lemma StartSecondsTruncatesFraction()
    ensures StartSeconds("1.5") == Some(60)
  {
    var rest := ".5";
    StartSecondsOfLeadingDigit('1', rest);
    assert ['1'] + rest == "1.5";
  }

  /** An exponent is not read: "2e1" starts a vote of two minutes, not twenty. */
  lemma StartSecondsIgnoresExponent()
    ensures StartSeconds("2e1") == Some(120)
  {
    var rest := "e1";
    StartSecondsOfLeadingDigit('2', rest);
    assert ['2'] + rest == "2e1";
  }

  /** A fraction below one minute truncates to zero and is refused. */
  lemma StartSecondsRefusesSubMinute()
    ensures StartSeconds("0.9") == None
  {
    var rest := ".9";
    StartSecondsOfLeadingDigit('0', rest);
    assert ['0'] + rest == "0.9";
  }

  /** A single digit followed by a non-digit starts a vote of that many minutes,
      unless the digit is 0. */
  lemma StartSecondsOfLeadingDigit(c: char, rest: string)
    requires IsDigit(c)
    requires rest == [] || !IsDigit(rest[0])
    ensures StartSeconds([c] + rest) == if c == '0' then None else Some(DigitValue(c) * 60)
  {
    ParseDigitThen(c, rest);
  }

  /** An empty input and one without digits are refused. */
  lemma StartSecondsRefusesNonNumbers(durationText: string)
    requires forall i :: 0 <= i < |durationText| ==> !IsDigit(durationText[i])
    ensures StartSeconds(durationText) == None
  {
    var t := TrimStart(durationText);
    var body := if t != [] && (t[0] == '-' || t[0] == '+') then t[1..] else t;
    assert forall i :: 0 <= i < |body| ==> !IsDigit(body[i]) by {
      assert t == durationText[|durationText| - |t|..];
    }
  }

  // ---------------------------------------------------------------------------
  // What the page renders
  // ---------------------------------------------------------------------------

  datatype AdminView =
    | VerifyingMessage
    | NotAuthorizedMessage
    | Controls(duration: string, inputEnabled: bool, buttonEnabled: bool, buttonLabel: string)

  /** The controls appear only for the chairperson; the input and the button are
      disabled while a start is in progress. */
  function RenderAdmin(isChairperson: Authorization, durationMinutes: string, isLoading: bool): (v: AdminView)
    ensures v.VerifyingMessage? <==> isChairperson == Verifying
    ensures v.NotAuthorizedMessage? <==> isChairperson == NotAuthorized
    ensures v.Controls? <==> isChairperson == Authorized
    ensures v.Controls? ==> v.duration == durationMinutes && v.inputEnabled == !isLoading &&
                            v.buttonEnabled == !isLoading
    ensures v.Controls? ==> v.buttonLabel == if isLoading then "Starting..." else "Start Voting Period"
  {
    match isChairperson
    case Verifying => VerifyingMessage
    case NotAuthorized => NotAuthorizedMessage
    case Authorized =>
      Controls(durationMinutes, !isLoading, !isLoading, if isLoading then "Starting..." else "Start Voting Period")
  }

  // ---------------------------------------------------------------------------
  // The component, with its state fields updated in place
  // ---------------------------------------------------------------------------

  /** A call the page makes outside its own state: `startVote(seconds)` or
      `router.push(route)`. */
  datatype Effect = StartVote(seconds: int) | Navigate(route: string)

  class AdminPage {
    var durationMinutes: string
    var isLoading: bool
    var isChairperson: Authorization
    /** The startVote and router.push calls made so far, in the order they were made. */
    var effects: seq<Effect>

    constructor ()
      ensures durationMinutes == INITIAL_DURATION && !isLoading && isChairperson == Verifying
      ensures effects == []
    {
      durationMinutes := INITIAL_DURATION;
      isLoading := false;
      isChairperson := Verifying;
      effects := [];
    }

    function View(): AdminView
      reads this
    {
      RenderAdmin(isChairperson, durationMinutes, isLoading)
    }

    /** The checkStatus effect, run when the contract or the signer changes. */
    method CheckStatus(hasContract: bool, hasSigner: bool,
                       chairperson: Outcome<string>, signerAddress: Outcome<string>)
      modifies this`isChairperson
      ensures isChairperson == CheckedStatus(old(isChairperson), hasContract, hasSigner, chairperson, signerAddress)
    {
      if hasContract && hasSigner {
        if chairperson.Threw? || signerAddress.Threw? {
          isChairperson := NotAuthorized;
        } else {
          isChairperson := if SameAddress(chairperson.value, signerAddress.value) then Authorized else NotAuthorized;
        }
      }
    }

    /** Typing into the duration input: its onChange sets the text, but only when
        the input is rendered and enabled. */
    method EditDuration(value: string) returns (accepted: bool)
      modifies this`durationMinutes
      ensures accepted <==> old(View()).Controls? && old(View()).inputEnabled
      ensures accepted <==> old(isChairperson) == Authorized && !old(isLoading)
      ensures durationMinutes == if accepted then value else old(durationMinutes)
    {
      var view := View();
      accepted := view.Controls? && view.inputEnabled;
      if accepted {
        durationMinutes := value;
      }
    }

    /** handleStartClick: an invalid duration aborts with loading cleared and no call;
        a valid one calls startVote once with the seconds, then navigates home, and
        loading is left set. */
    method HandleStartClick() returns (started: bool)
      modifies this`isLoading, this`effects
      ensures started <==> StartSeconds(old(durationMinutes)).Some?
      ensures started ==>
        effects == old(effects) + [StartVote(StartSeconds(old(durationMinutes)).value), Navigate(HOME_ROUTE)]
      ensures !started ==> effects == old(effects)
      ensures isLoading == started
    {
      isLoading := true;
      var duration := ParseInt(durationMinutes);
      if duration.NaN? || duration.value <= 0 {
        isLoading := false;
        return false;
      }
      effects := effects + [StartVote(duration.value * 60)];
      effects := effects + [Navigate(HOME_ROUTE)];
      started := true;
    }

    /** A press of the start button: it reaches the handler only when the
        controls are rendered and the button is enabled. */
    method PressStart() returns (started: bool)
      modifies this`isLoading, this`effects
      ensures !(old(View()).Controls? && old(View()).buttonEnabled) ==> !started
      ensures started <==> old(isChairperson) == Authorized && !old(isLoading) &&
                           StartSeconds(old(durationMinutes)).Some?
      ensures started ==>
        effects == old(effects) + [StartVote(StartSeconds(old(durationMinutes)).value), Navigate(HOME_ROUTE)]
      ensures !started ==> effects == old(effects)
      ensures isLoading == (old(isLoading) || started)
    {
      var view := View();
      if view.Controls? && view.buttonEnabled {
        started := HandleStartClick();
      } else {
        started := false;
      }
    }
  }
}
