/** The sponsor dialog (components/FundingModal.tsx): four pieces of state,
    the preset buttons, and a submit that runs through two timers, the first
    settling the payment and the second thanking the backer and closing. The
    timers are events the environment fires; only their order is kept. */
module FundingModal {
  import opened Types

  /** The four amount buttons. */
  datatype Preset = Fifty | Hundred | TwoFifty | FiveHundred

  function Dollars(p: Preset): (amount: int)
    ensures amount in PresetAmounts
  {
    match p
    case Fifty => 50
    case Hundred => 100
    case TwoFifty => 250
    case FiveHundred => 500
  }

  /** The amounts the buttons offer, left to right. */
  const PresetAmounts: seq<int> := [50, 100, 250, 500]

  /** Every offered amount has its button. */
  lemma PresetsCoverAmounts(amount: int)
    requires amount in PresetAmounts
    ensures exists p: Preset :: Dollars(p) == amount
  {
    if amount == 50 { assert Dollars(Fifty) == amount; }
    else if amount == 100 { assert Dollars(Hundred) == amount; }
    else if amount == 250 { assert Dollars(TwoFifty) == amount; }
    else { assert Dollars(FiveHundred) == amount; }
  }

  /** `name || 'Anonymous'`. */
  function SponsorName(name: string): (shown: string)
    ensures shown != ""
    ensures name != "" ==> shown == name
    ensures name == "" ==> shown == "Anonymous"
  {
    if name == "" then "Anonymous" else name
  }

  /** What `onSuccess` receives. */
  datatype Sponsorship = Sponsorship(name: string, amount: int)

  /** The timer that is pending, with the name and amount the submit's
      closure captured. */
  datatype Timer =
    | Idle
    | PaymentPending(name: string, amount: int)
    | ThankYouPending(name: string, amount: int)

  class SponsorForm {
    var amount: int
    var name: string
    var isProcessing: bool
    var isSuccess: bool
    var timer: Timer
    /** How many submits were accepted and how many `onSuccess` calls were
        made, for the once-per-submit invariant. */
    ghost var submits: nat
    ghost var payouts: nat

    ghost predicate Valid()
      reads this
    {
      amount in PresetAmounts &&
      !(isProcessing && isSuccess) &&
      (timer.PaymentPending? <==> isProcessing) &&
      (timer.ThankYouPending? <==> isSuccess) &&
      (!timer.Idle? ==> timer.name != "" && timer.amount in PresetAmounts) &&
      submits == payouts + (if timer.Idle? then 0 else 1)
    }

    /** The initial state: 100 dollars, no name, neither flag. */
    constructor ()
      ensures Valid()
      ensures amount == 100 && name == "" && !isProcessing && !isSuccess
      ensures timer == Idle && submits == 0 && payouts == 0
    {
      amount := 100;
      name := "";
      isProcessing := false;
      isSuccess := false;
      timer := Idle;
      submits := 0;
      payouts := 0;
    }

    /** The identity field's `onChange`. */
    method SetName(value: string)
      requires Valid()
      modifies this
      ensures Valid()
      ensures name == value
      ensures amount == old(amount) && timer == old(timer)
      ensures isProcessing == old(isProcessing) && isSuccess == old(isSuccess)
      ensures submits == old(submits) && payouts == old(payouts)
    {
      name := value;
    }

    /** A preset button's `onClick`: the only way `amount` changes. */
    method ChoosePreset(p: Preset)
      requires Valid()
      modifies this
      ensures Valid()
      ensures amount == Dollars(p)
      ensures name == old(name) && timer == old(timer)
      ensures isProcessing == old(isProcessing) && isSuccess == old(isSuccess)
      ensures submits == old(submits) && payouts == old(payouts)
    {
      amount := Dollars(p);
    }

    /** `handleSubmit`. The form exists only while the dialog is open and
        no thank-you is showing, the button is disabled while processing,
        and the required name field blocks an empty submission; when all of
        that lets the submit through, processing starts and the payment
        timer is set with the current name and amount. */
    method Submit(isOpen: bool) returns (started: bool)
      requires Valid()
      modifies this
      ensures Valid()
      ensures started <==> isOpen && !old(isProcessing) && !old(isSuccess) && old(name) != ""
      ensures started ==>
        isProcessing && !isSuccess && timer == PaymentPending(name, amount) &&
        submits == old(submits) + 1
      ensures !started ==>
        isProcessing == old(isProcessing) && isSuccess == old(isSuccess) &&
        timer == old(timer) && submits == old(submits)
      ensures name == old(name) && amount == old(amount) && payouts == old(payouts)
    {
      started := isOpen && !isProcessing && !isSuccess && name != "";
      if started {
        isProcessing := true;
        timer := PaymentPending(name, amount);
        submits := submits + 1;
      }
    }

    /** The first timer: the payment settles and the thank-you shows. */
    method PaymentTimerFires()
      requires Valid()
      modifies this
      ensures Valid()
      ensures old(timer).PaymentPending? ==>
        !isProcessing && isSuccess && timer == ThankYouPending(old(timer).name, old(timer).amount)
      ensures !old(timer).PaymentPending? ==>
        isProcessing == old(isProcessing) && isSuccess == old(isSuccess) && timer == old(timer)
      ensures name == old(name) && amount == old(amount)
      ensures submits == old(submits) && payouts == old(payouts)
    {
      if timer.PaymentPending? {
        isProcessing := false;
        isSuccess := true;
        timer := ThankYouPending(timer.name, timer.amount);
      }
    }

    /** The second timer: `onSuccess(name || 'Anonymous', amount)` with the
        values captured at submit, the thank-you hides and `onClose` runs.
        The captured name is never empty, so the fallback never shows. */
    method ThankYouTimerFires() returns (sponsorship: Option<Sponsorship>, closeRequested: bool)
      requires Valid()
      modifies this
      ensures Valid()
      ensures old(timer).ThankYouPending? ==>
        sponsorship == Some(Sponsorship(SponsorName(old(timer).name), old(timer).amount)) &&
        sponsorship.value.name == old(timer).name &&
        closeRequested && !isProcessing && !isSuccess && timer == Idle &&
        payouts == old(payouts) + 1
      ensures !old(timer).ThankYouPending? ==>
        sponsorship == None && !closeRequested &&
        isProcessing == old(isProcessing) && isSuccess == old(isSuccess) &&
        timer == old(timer) && payouts == old(payouts)
      ensures name == old(name) && amount == old(amount) && submits == old(submits)
    {
      sponsorship := None;
      closeRequested := false;
      if timer.ThankYouPending? {
        sponsorship := Some(Sponsorship(SponsorName(timer.name), timer.amount));
        isSuccess := false;
        closeRequested := true;
        timer := Idle;
        payouts := payouts + 1;
      }
    }
  }

  /** Once-per-submit in numbers: an idle form has paid out for every
      submit it accepted, a busy one for all but the one in flight. */
  lemma PayoutsTrailSubmits(f: SponsorForm)
    requires f.Valid()
    ensures f.payouts <= f.submits <= f.payouts + 1
    ensures f.submits == f.payouts <==> !f.isProcessing && !f.isSuccess
  {
  }

  /** A whole cycle on a fresh dialog: type a name, pick a preset, submit,
      let both timers fire. Exactly one sponsorship comes out, carrying the
      typed name and the preset's amount; an empty name submits nothing. */
  method SponsorCycle(typed: string, p: Preset) returns (paid: seq<Sponsorship>, closed: bool)
    ensures typed != "" ==> paid == [Sponsorship(typed, Dollars(p))] && closed
    ensures typed == "" ==> paid == [] && !closed
  {
    var form := new SponsorForm();
    form.SetName(typed);
    form.ChoosePreset(p);
    var started := form.Submit(true);
    form.PaymentTimerFires();
    var s, c := form.ThankYouTimerFires();
    paid := if s.Some? then [s.value] else [];
    closed := c;
    assert started ==> form.name == typed && form.amount == Dollars(p) && !form.isSuccess;
  }
}
