/** The main screen of the rental app: a pager over the catalogue with
    previous/next buttons, the add-balance dialog, and the handler that applies
    a finished booking back to the account and catalogue. */
module RentalMain {
  import opened Basics
  import Decimal
  import RS = RentalService
  import B = Booking

  datatype Screen = Screen(service: RS.Service, position: int)

  /** A freshly created screen shows the first instrument. */
  function Launch(): (m: Screen)
    ensures m.position == 0 && m.service == RS.NewService()
  {
    Screen(RS.NewService(), 0)
  }

  predicate ValidPosition(m: Screen) {
    0 <= m.position < |m.service.items|
  }

  function Previous(m: Screen): (r: Screen)
    ensures m.position > 0 ==> r.position == m.position - 1
    ensures m.position <= 0 ==> r == m
    ensures r.service == m.service
    ensures ValidPosition(m) ==> ValidPosition(r)
  {
    if m.position > 0 then m.(position := m.position - 1) else m
  }

  function Next(m: Screen): (r: Screen)
    ensures m.position < |m.service.items| - 1 ==> r.position == m.position + 1
    ensures m.position >= |m.service.items| - 1 ==> r == m
    ensures r.service == m.service
    ensures ValidPosition(m) ==> ValidPosition(r)
  {
    if m.position < |m.service.items| - 1 then m.(position := m.position + 1) else m
  }

  /** `onPageSelected`: the enabled state of the two buttons. */
  predicate PreviousEnabled(m: Screen) {
    m.position > 0
  }

  predicate NextEnabled(m: Screen) {
    m.position < |m.service.items| - 1
  }

  /** A button is enabled exactly when pressing it moves the pager, and the
      two buttons undo each other. */
  lemma NavigationButtons(m: Screen)
    requires ValidPosition(m)
    ensures PreviousEnabled(m) <==> Previous(m) != m
    ensures NextEnabled(m) <==> Next(m) != m
    ensures PreviousEnabled(m) ==> Next(Previous(m)) == m
    ensures NextEnabled(m) ==> Previous(Next(m)) == m
  {
  }

  /** On the new screen with the three sample instruments, Previous starts
      disabled and Next enabled, and at the last instrument it is the other
      way round. */
  lemma LaunchButtons()
    ensures !PreviousEnabled(Launch()) && NextEnabled(Launch())
    ensures PreviousEnabled(Next(Next(Launch()))) && !NextEnabled(Next(Next(Launch())))
  {
  }

  /** The add-balance dialog: text that is not an `Int` adds nothing. */
  function AddBalanceText(m: Screen, text: string): (r: Screen)
    ensures Decimal.ParseInt(text).Some? ==>
      r.service.balance == m.service.balance + Decimal.ParseInt(text).value
    ensures Decimal.ParseInt(text).None? ==> r == m
    ensures r.service.items == m.service.items && r.position == m.position
  {
    var amount := Decimal.ParseInt(text).GetOr(0);
    m.(service := RS.AddBalance(m.service, amount))
  }

  /** Typing "100" adds one hundred; typing "abc" adds nothing. */
  lemma AddBalanceExamples(m: Screen)
    ensures AddBalanceText(m, "100").service.balance == m.service.balance + 100
    ensures AddBalanceText(m, "abc") == m
  {
    assert !Decimal.IsDigit("abc"[0]);
    assert "100"[..2] == "10" && "10"[..1] == "1" && "1"[..0] == "";
    assert Decimal.DigitsValue("1") == 1;
    assert Decimal.DigitsValue("10") == 10;
    assert Decimal.DigitsValue("100") == 100;
  }

  /** The borrow button: opens the booking screen with the current item and
      the account balance. */
  function Borrow(m: Screen): (b: B.Booking)
    requires ValidPosition(m)
    ensures b == B.Open(m.service.items[m.position], m.service.balance)
  {
    B.Open(m.service.items[m.position], m.service.balance)
  }

  /** The extras of the result intent as the handler reads them: each may be
      missing. */
  datatype Extras = Extras(selected: Option<seq<string>>, rating: Option<RS.Rating>, months: Option<int>)

  datatype ActivityResult = OkResult(extras: Extras) | CanceledResult

  /** How a booking's result travels back in the intent. */
  function ToActivityResult(r: B.BookingResult): ActivityResult {
    match r
    case ResultOk(sel, rating, months) => OkResult(Extras(Some(sel), Some(rating), Some(months)))
    case ResultCanceled => CanceledResult
  }

  /** Settles an OK result once the account has been charged: a failed
      charge (one the account cannot cover) throws; otherwise, when
      attributes came back, the current item takes them with the returned
      rating (the item's own rating when missing). */
  function Settle(m: Screen, extras: Extras, charged: Result<RS.Service>): (r: Result<Screen>)
    requires ValidPosition(m)
    requires charged.Ok? ==> charged.value.items == m.service.items
    ensures var item := m.service.items[m.position];
      && (r.Ok? <==> charged.Ok?)
      && (r.Err? ==> r.error == charged.error)
      && (r.Ok? ==>
            && r.value.position == m.position
            && r.value.service.balance == charged.value.balance
            && |r.value.service.items| == |m.service.items|
            && (forall i :: 0 <= i < |m.service.items| && i != m.position ==>
                  r.value.service.items[i] == m.service.items[i])
            && (extras.selected.Some? ==>
                  r.value.service.items[m.position] ==
                    item.(attributes := extras.selected.value, rating := extras.rating.GetOr(item.rating)))
            && (extras.selected.None? ==> r.value.service.items == m.service.items))
  {
    match charged
    case Err(e) => Err(e)
    case Ok(charged) =>
      match extras.selected
      case None => Ok(m.(service := charged))
      case Some(sel) =>
        var rating := extras.rating.GetOr(charged.items[m.position].rating);
        match RS.UpdateRentalItem(charged, m.position, sel, rating)
        case Ok(updated) => Ok(m.(service := updated))
        case Err(e) => Err(e)
  }

  /** The months an OK result books: one when the extra is missing. */
  function Months(extras: Extras): int {
    extras.months.GetOr(1)
  }

  /** The booking launcher's callback with the exact charge, price times
      months. An OK result charges it and, when attributes came back,
      replaces the item's attributes and rating; a charge the account cannot
      cover throws. A cancelled result changes nothing. */
  function ApplyResult(m: Screen, result: ActivityResult): (r: Result<Screen>)
    requires ValidPosition(m)
    ensures result.CanceledResult? ==> r == Ok(m)
    ensures result.OkResult? ==>
      var item := m.service.items[m.position];
      var charge := item.pricePerMonth * result.extras.months.GetOr(1);
      && (r.Ok? <==> charge <= m.service.balance)
      && (r.Ok? ==>
            && r.value.position == m.position
            && r.value.service.balance == m.service.balance - charge
            && |r.value.service.items| == |m.service.items|
            && (forall i :: 0 <= i < |m.service.items| && i != m.position ==>
                  r.value.service.items[i] == m.service.items[i])
            && (result.extras.selected.Some? ==>
                  r.value.service.items[m.position] ==
                    item.(attributes := result.extras.selected.value,
                          rating := result.extras.rating.GetOr(item.rating)))
            && (result.extras.selected.None? ==> r.value.service.items == m.service.items))
  {
    match result
    case CanceledResult => Ok(m)
    case OkResult(extras) =>
      Settle(m, extras, RS.DeductBalance(m.service, m.service.items[m.position].pricePerMonth * Months(extras)))
  }

  // ---------------------------------------------------------------------
  // The callback as the source computes it: `pricePerMonth * months` is a
  // 32-bit `Int` product and `deductBalance` a 32-bit subtraction that only
  // compares the charge with the balance, so a wrapped negative charge is
  // accepted and the new balance wraps in turn.

  function ApplyResultAsWritten(m: Screen, result: ActivityResult): (r: Result<Screen>)
    requires ValidPosition(m)
    ensures result.CanceledResult? ==> r == Ok(m)
    ensures result.OkResult? ==>
      var item := m.service.items[m.position];
      var charge := Wrap32(item.pricePerMonth * result.extras.months.GetOr(1));
      && (r.Ok? <==> charge <= m.service.balance)
      && (r.Err? ==> r.error == IllegalArgument(RS.InsufficientBalance))
      && (r.Ok? ==>
            && r.value.position == m.position
            && r.value.service.balance == Wrap32(m.service.balance - charge)
            && |r.value.service.items| == |m.service.items|
            && (forall i :: 0 <= i < |m.service.items| && i != m.position ==>
                  r.value.service.items[i] == m.service.items[i])
            && (result.extras.selected.Some? ==>
                  r.value.service.items[m.position] ==
                    item.(attributes := result.extras.selected.value,
                          rating := result.extras.rating.GetOr(item.rating)))
            && (result.extras.selected.None? ==> r.value.service.items == m.service.items))
  {
    match result
    case CanceledResult => Ok(m)
    case OkResult(extras) =>
      var charge := Wrap32(m.service.items[m.position].pricePerMonth * Months(extras));
      Settle(m, extras, RS.DeductBalanceAsWritten(m.service, charge))
  }

  /** Booking the drum kit for 8,589,935 months: the booking screen lets the
      save through with its wrapped total of -2,147,483,546, and the callback
      subtracts that charge in 32 bits, where the exact charge is refused. On
      an empty account the balance becomes 2,147,483,546; from the launch
      balance of 5000 the subtraction wraps as well and leaves
      -2,147,478,750. */
  lemma ChargeWrapsAsWritten()
    ensures var m := Screen(RS.Service(0, RS.SampleItems), 2);
      var b := Borrow(m).(months := 8589935);
      var result := ToActivityResult(B.ResultOk(b.selected, b.rating, b.months));
      && B.SaveEnabledAsWritten(b)
      && ApplyResultAsWritten(m, result).Ok?
      && ApplyResultAsWritten(m, result).value.service.balance == 2147483546
      && ApplyResult(m, result).Err?
    ensures var m := Launch().(position := 2);
      var b := Borrow(m).(months := 8589935);
      var result := ToActivityResult(B.ResultOk(b.selected, b.rating, b.months));
      && B.SaveEnabledAsWritten(b)
      && ApplyResultAsWritten(m, result).Ok?
      && ApplyResultAsWritten(m, result).value.service.balance == -2147478750
      && ApplyResult(m, result).Err?
  {
  }

  /** While the exact charge and the balance it leaves both fit an `Int`,
      the callback as written and the exact one agree. */
  lemma ApplyResultAsWrittenInRange(m: Screen, result: ActivityResult)
    requires ValidPosition(m)
    requires result.OkResult? ==>
      var charge := m.service.items[m.position].pricePerMonth * result.extras.months.GetOr(1);
      InInt32(charge) && InInt32(m.service.balance - charge)
    ensures ApplyResultAsWritten(m, result) == ApplyResult(m, result)
  {
  }

  /** End to end: borrowing the current instrument, editing the booking in
      any way and saving never makes the handler throw; it charges the
      account exactly once with the booked price, gives the current item the
      booked attributes and rating, and leaves every other item alone. */
  lemma {:induction false} BookingRoundTrip(m: Screen, edits: seq<B.Edit>)
    requires ValidPosition(m)
    requires B.Save(B.Edits(Borrow(m), edits)).Finished?
    ensures var b := B.Edits(Borrow(m), edits);
      var r := ApplyResult(m, ToActivityResult(B.Save(b).result));
      && r.Ok?
      && r.value.position == m.position
      && r.value.service.balance == m.service.balance - m.service.items[m.position].pricePerMonth * b.months
      && r.value.service.balance == B.Save(b).remaining
      && r.value.service.items[m.position].attributes == b.selected
      && r.value.service.items[m.position].rating == b.rating
      && |r.value.service.items| == |m.service.items|
      && (forall i :: 0 <= i < |m.service.items| && i != m.position ==>
            r.value.service.items[i] == m.service.items[i])
  {
    B.EditsKeepItemAndBalance(Borrow(m), edits);
  }

  /** End to end as the source computes it: whenever the booking screen's
      wrapped check enables saving, the handler's own wrapped check accepts
      the same charge, so the deduction never throws; the balance drops by
      the wrapped total in 32-bit arithmetic and the current item takes the
      booked attributes and rating. */
  lemma {:induction false} BookingRoundTripAsWritten(m: Screen, edits: seq<B.Edit>)
    requires ValidPosition(m)
    requires B.SaveEnabledAsWritten(B.Edits(Borrow(m), edits))
    ensures var b := B.Edits(Borrow(m), edits);
      var r := ApplyResultAsWritten(m, ToActivityResult(B.ResultOk(b.selected, b.rating, b.months)));
      && r.Ok?
      && r.value.position == m.position
      && r.value.service.balance == Wrap32(m.service.balance - B.TotalAsWritten(b))
      && r.value.service.items[m.position].attributes == b.selected
      && r.value.service.items[m.position].rating == b.rating
      && |r.value.service.items| == |m.service.items|
      && (forall i :: 0 <= i < |m.service.items| && i != m.position ==>
            r.value.service.items[i] == m.service.items[i])
  {
    B.EditsKeepItemAndBalance(Borrow(m), edits);
  }

  /** Cancelling a booking leaves the balance and every item unchanged. */
  lemma CancelChangesNothing(m: Screen, b: B.Booking)
    requires ValidPosition(m)
    ensures ApplyResult(m, ToActivityResult(B.Cancel(b))) == Ok(m)
  {
  }
}
