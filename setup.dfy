/**
 * The cycle set-up form: last period date and average cycle length, checked
 * against the usual range before the profile is saved.
 */
module Setup {
  import opened Wrappers
  import opened Strings
  import opened Numbers
  import opened Api
  import opened Storage
  import Onboarding

  const CycleLengthMin: int := 21
  const CycleLengthMax: int := 45
  const CycleLengthDefault: int := 28

  /** The lengths offered as quick-pick buttons. */
  const QuickPicks: seq<int> := [21, 28, 30, 35]

  const RangeError: string :=
    "Cycle length is usually between " + IntToString(CycleLengthMin) + " and "
    + IntToString(CycleLengthMax) + " days."

  const DefaultTitle: string := "Set up your cycle"

  /**
   * The length field's state: the text typed into the number input, or a
   * number from the initial value or a quick-pick button.
   */
  datatype LengthInput = Typed(text: string) | Picked(n: int)

  /** `Number(avgCycleLength)`. */
  function LengthNumber(v: LengthInput): Number {
    match v
    case Typed(s) => StringToNumber(s)
    case Picked(n) => Finite(n as real)
  }

  /** `length < 21 || length > 45`, with JavaScript comparisons. */
  predicate OutOfRange(length: Number) {
    LessThan(length, CycleLengthMin as real) || GreaterThan(length, CycleLengthMax as real)
  }

  /** The body of `PUT /profile`. */
  datatype Profile = Profile(lastperiod: string, avgcyclelength: Number)

  class SetupForm {
    var lastPeriod: string
    var avgCycleLength: LengthInput
    var status: Option<string>
    var error: Option<string>
    var saving: bool

    /** The initial state; the default date, two weeks before today, is a parameter. */
    constructor (defaultLastPeriod: string)
      ensures lastPeriod == defaultLastPeriod && avgCycleLength == Picked(CycleLengthDefault)
      ensures status == None && error == None && !saving
    {
      lastPeriod := defaultLastPeriod;
      avgCycleLength := Picked(CycleLengthDefault);
      status, error, saving := None, None, false;
    }

    /**
     * `handleSubmit`: clears the messages, checks the range, then saves the
     * profile. A save that succeeds shows 'Saved.', writes the onboarding flag
     * and then either calls `onComplete` or navigates home; one that fails
     * shows the error and writes nothing. `outcome` is how `PUT /profile`
     * ends and `flagFails` whether the flag write throws.
     */
    method HandleSubmit(store: KeyValueStore, outcome: Response<()>, flagFails: bool, hasOnComplete: bool)
      returns (request: Option<Profile>, next: Option<Onboarding.Next>)
      modifies this, store
      ensures lastPeriod == old(lastPeriod) && avgCycleLength == old(avgCycleLength)
      ensures !saving
      ensures var length := LengthNumber(avgCycleLength);
        if OutOfRange(length) then
          request == None && next == None && status == None && error == Some(RangeError)
          && store.entries == old(store.entries)
        else
          request == Some(Profile(lastPeriod, length))
          && (outcome.Ok? ==>
                status == Some("Saved.") && error == None
                && store.entries == (if flagFails then old(store.entries) else Onboarding.Completed(old(store.entries)))
                && next == Some(if hasOnComplete then Onboarding.CallOnComplete else Onboarding.NavigateTo("/", true)))
          && (outcome.Err? ==>
                status == None && error == Some(ErrorText(outcome.error, "Could not save."))
                && store.entries == old(store.entries) && next == None)
    {
      error := None;
      status := None;
      saving := true;
      var length := LengthNumber(avgCycleLength);
      if OutOfRange(length) {
        error := Some(RangeError);
        saving := false;
        return None, None;
      }
      request := Some(Profile(lastPeriod, length));
      match outcome {
        case Ok(_) =>
          status := Some("Saved.");
          Onboarding.SetOnboardingComplete(store, flagFails);
          if hasOnComplete {
            next := Some(Onboarding.CallOnComplete);
          } else {
            next := Some(Onboarding.NavigateTo("/", true));
          }
        case Err(e) =>
          error := Some(ErrorText(e, "Could not save."));
          next := None;
      }
      saving := false;
    }
  }

  /** A finite length passes the check exactly when it lies in 21..45. */
  lemma FiniteRange(v: real)
    ensures !OutOfRange(Finite(v)) <==> CycleLengthMin as real <= v <= CycleLengthMax as real
  {
  }

  /**
   * NaN compares false both ways, so a length that does not convert to a
   * number passes the check and is sent as NaN; the infinities do not pass.
   */
  lemma NaNPasses()
    ensures !OutOfRange(NaN)
    ensures OutOfRange(PosInfinity) && OutOfRange(NegInfinity)
  {
  }

  /** An emptied input converts to 0 and is refused. */
  lemma EmptyInputRefused()
    ensures OutOfRange(LengthNumber(Typed("")))
  {
    StringToNumberOfEmpty();
  }

  /** Typed decimal digits pass exactly when their value is in range, and are sent as that value. */
  lemma TypedDigits(s: string)
    requires AllDigits(s) && s != []
    ensures LengthNumber(Typed(s)) == Finite(DecimalValue(s) as real)
    ensures !OutOfRange(LengthNumber(Typed(s))) <==> CycleLengthMin <= DecimalValue(s) <= CycleLengthMax
  {
    StringToNumberOfDigits(s);
  }

  /** The initial length and every quick pick pass the check. */
  lemma PicksPass()
    ensures !OutOfRange(LengthNumber(Picked(CycleLengthDefault)))
    ensures forall i :: 0 <= i < |QuickPicks| ==> !OutOfRange(LengthNumber(Picked(QuickPicks[i])))
  {
  }
}
