/** The booking screen of the rental app: a months counter that never drops
    below one, the total price and the balance check that gate saving, the
    attribute-name validator and the editable list of attributes. */
module Booking {
  import opened Basics
  import opened Text
  import Seqs
  import RS = RentalService

  /** The screen's data: the item and balance it was opened with, the months
      counter, the rating bar and the selected attributes. */
  datatype Booking = Booking(
    item: RS.RentalItem,
    balance: int,
    months: int,
    rating: RS.Rating,
    selected: seq<string>)

  /** `onCreate`: one month, the item's rating, and one chip per attribute
      of the item in order. */
  function Open(item: RS.RentalItem, balance: int): (b: Booking)
    ensures b.item == item && b.balance == balance
    ensures b.months == 1 && b.rating == item.rating
    ensures b.selected == item.attributes
  {
    Booking(item, balance, 1, item.rating, item.attributes)
  }

  function Increment(b: Booking): (r: Booking)
    ensures r.months == b.months + 1
    ensures r == b.(months := r.months)
  {
    b.(months := b.months + 1)
  }

  /** The decrement listener does nothing at one month. */
  function Decrement(b: Booking): (r: Booking)
    ensures b.months > 1 ==> r.months == b.months - 1
    ensures b.months <= 1 ==> r == b
    ensures r == b.(months := r.months)
  {
    if b.months > 1 then b.(months := b.months - 1) else b
  }

  predicate DecrementEnabled(b: Booking) {
    b.months > 1
  }

  /** The price of the booking as it stands. */
  function Total(b: Booking): int {
    b.item.pricePerMonth * b.months
  }

  /** The red "insufficient balance" warning of the total line. */
  predicate ShowsWarning(b: Booking) {
    Total(b) > b.balance
  }

  /** The save button's enabled state. */
  predicate SaveEnabled(b: Booking) {
    b.balance >= Total(b)
  }

  /** Save is enabled exactly when no warning is shown, for the exact total
      and for the total as the source computes it. */
  lemma SaveEnabledIffNoWarning(b: Booking)
    ensures SaveEnabled(b) <==> !ShowsWarning(b)
    ensures SaveEnabledAsWritten(b) <==> !ShowsWarningAsWritten(b)
  {
  }

  /** Incrementing then decrementing restores the months and the total. */
  lemma IncrementDecrement(b: Booking)
    requires b.months >= 1
    ensures Decrement(Increment(b)) == b
    ensures Total(Decrement(Increment(b))) == Total(b)
  {
  }

  /** The rating bar. */
  function SetRating(b: Booking, rating: RS.Rating): (r: Booking)
    ensures r.rating == rating
    ensures r == b.(rating := rating)
  {
    b.(rating := rating)
  }

  /** The result handed back to the list screen. */
  datatype BookingResult =
    | ResultOk(selected: seq<string>, rating: RS.Rating, months: int)
    | ResultCanceled

  /** What a tap on Save does: finish with a result and the locally charged
      balance, or stay on the screen. */
  datatype SaveOutcome = Finished(result: BookingResult, remaining: int) | Stay

  /** Save: with enough balance, finish with OK carrying the months, the
      rating and the current attributes, having charged exactly the total;
      otherwise nothing happens. */
  function Save(b: Booking): (o: SaveOutcome)
    ensures o.Finished? <==> b.balance >= b.item.pricePerMonth * b.months
    ensures o.Finished? ==>
      && o.result == ResultOk(b.selected, b.rating, b.months)
      && o.remaining + b.item.pricePerMonth * b.months == b.balance
      && o.remaining >= 0
  {
    var needed := Total(b);
    if b.balance >= needed then Finished(ResultOk(b.selected, b.rating, b.months), b.balance - needed)
    else Stay
  }

  function Cancel(b: Booking): (r: BookingResult)
    ensures r.ResultCanceled?
  {
    ResultCanceled
  }

  predicate IsAttributeChar(c: char) {
    IsAsciiLetterOrDigit(c) || c == ' '
  }

  /** The add-attribute dialog's check: not blank and matching
      `^[a-zA-Z0-9 ]+$`. */
  predicate IsValidAttribute(s: string) {
    && !IsBlank(s)
    && |s| > 0
    && forall i :: 0 <= i < |s| ==> IsAttributeChar(s[i])
  }

  /** The validator accepts exactly the non-empty strings of ASCII letters,
      digits and spaces that are not all spaces. */
  lemma ValidAttributeCharacterisation(s: string)
    ensures IsValidAttribute(s) <==>
      && (forall i :: 0 <= i < |s| ==> IsAttributeChar(s[i]))
      && (exists i :: 0 <= i < |s| && s[i] != ' ')
  {
    if (forall i :: 0 <= i < |s| ==> IsAttributeChar(s[i])) && (exists i :: 0 <= i < |s| && s[i] != ' ') {
      var i :| 0 <= i < |s| && s[i] != ' ';
      assert !IsWhitespace(s[i]);
    }
  }

  /** The Add button of the dialog, which is enabled only for valid text:
      a valid attribute is appended as a new chip. */
  function AddAttribute(b: Booking, text: string): (r: Booking)
    ensures IsValidAttribute(text) ==> r.selected == b.selected + [text]
    ensures !IsValidAttribute(text) ==> r.selected == b.selected
    ensures r == b.(selected := r.selected)
  {
    if IsValidAttribute(text) then b.(selected := b.selected + [text]) else b
  }

  /** A chip's close icon: removes the first occurrence of its text. */
  function CloseChip(b: Booking, attribute: string): (r: Booking)
    ensures attribute !in b.selected ==> r == b
    ensures attribute in b.selected ==>
      var i := Seqs.IndexOf(b.selected, attribute);
      && i < |b.selected| && b.selected[i] == attribute
      && (forall j :: 0 <= j < i ==> b.selected[j] != attribute)
      && r.selected == b.selected[..i] + b.selected[i + 1..]
    ensures multiset(r.selected) == multiset(b.selected) - multiset{attribute}
    ensures attribute in b.selected ==> |r.selected| == |b.selected| - 1
    ensures r == b.(selected := r.selected)
  {
    b.(selected := Seqs.RemoveFirst(b.selected, attribute))
  }

  /** Adding a new attribute and closing its chip restores the list. */
  lemma AddThenClose(b: Booking, text: string)
    requires IsValidAttribute(text) && text !in b.selected
    ensures CloseChip(AddAttribute(b, text), text) == b
  {
    Seqs.AppendThenRemove(b.selected, text);
  }

  /** The user's edits on the screen. */
  datatype Edit =
    | IncrementMonths
    | DecrementMonths
    | Rate(rating: RS.Rating)
    | AddAttr(text: string)
    | CloseAttr(attribute: string)

  function ApplyEdit(b: Booking, e: Edit): Booking {
    match e
    case IncrementMonths => Increment(b)
    case DecrementMonths => Decrement(b)
    case Rate(r) => SetRating(b, r)
    case AddAttr(t) => AddAttribute(b, t)
    case CloseAttr(a) => CloseChip(b, a)
  }

  function Edits(b: Booking, es: seq<Edit>): Booking
    decreases |es|
  {
    if |es| == 0 then b else Edits(ApplyEdit(b, es[0]), es[1..])
  }

  /** Whatever the user does, the item and balance the screen was opened with
      stay as they were and the months never drop below one. */
  lemma {:induction false} EditsKeepItemAndBalance(b: Booking, es: seq<Edit>)
    requires b.months >= 1
    ensures Edits(b, es).item == b.item
    ensures Edits(b, es).balance == b.balance
    ensures Edits(b, es).months >= 1
    decreases |es|
  {
    if |es| > 0 {
      EditsKeepItemAndBalance(ApplyEdit(b, es[0]), es[1..]);
    }
  }

  // ---------------------------------------------------------------------
  // The total as the source computes it: `pricePerMonth * months` is a
  // 32-bit `Int` product, which wraps for large month counts.

  function TotalAsWritten(b: Booking): int {
    Wrap32(b.item.pricePerMonth * b.months)
  }

  predicate SaveEnabledAsWritten(b: Booking) {
    b.balance >= TotalAsWritten(b)
  }

  predicate ShowsWarningAsWritten(b: Booking) {
    TotalAsWritten(b) > b.balance
  }

  /** With the wrapped total, a booking of the drum kit (250 a month) for
      8,589,935 months costs -2,147,483,546: the save button is enabled and
      no warning is shown on an empty account, though the true price is over
      two billion. */
  lemma TotalWrapsAsWritten()
    ensures var b := Booking(RS.SampleItems[2], 0, 8589935, RS.SampleItems[2].rating, []);
      && InInt32(b.months)
      && TotalAsWritten(b) == -2147483546
      && SaveEnabledAsWritten(b)
      && !ShowsWarningAsWritten(b)
      && !SaveEnabled(b)
      && ShowsWarning(b)
  {
  }

  /** Within `Int` range the as-written total agrees with the exact one. */
  lemma TotalAsWrittenInRange(b: Booking)
    requires InInt32(Total(b))
    ensures TotalAsWritten(b) == Total(b)
    ensures SaveEnabledAsWritten(b) <==> SaveEnabled(b)
    ensures ShowsWarningAsWritten(b) <==> ShowsWarning(b)
  {
  }
}
