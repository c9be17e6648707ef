/** The instrument-rental account of the second app: a balance that can be
    topped up and charged (refusing a charge it cannot cover) and a fixed
    catalogue of three instruments whose attributes and rating are replaced
    after a booking. */
module RentalService {
  import opened Basics

  /** A star rating. The app only stores and forwards this `Float`, so it is
      kept as its IEEE-754 bit pattern and never computed with. */
  datatype Rating = Rating(bits: bv32)

  /** The drawable resources of the sample instruments. */
  datatype Image = ElectricGuitar | DigitalPiano | DrumKit

  datatype RentalItem = RentalItem(
    name: string,
    rating: Rating,
    attributes: seq<string>,
    pricePerMonth: int,
    description: string,
    image: Image)

  datatype Service = Service(balance: int, items: seq<RentalItem>)

  const InitialBalance: int := 5000
  const InsufficientBalance: string := "Insufficient balance"

  /** The sample catalogue: ratings 4.5, 5.0 and 4.0 as `Float` bits. */
  const SampleItems: seq<RentalItem> := [
    RentalItem("Electric Guitar", Rating(0x4090_0000),
      ["6 strings", "Solid body", "Maple neck"], 150,
      "Professional electric guitar with excellent tone", ElectricGuitar),
    RentalItem("Digital Piano", Rating(0x40A0_0000),
      ["88 keys", "Weighted", "Built-in speakers"], 200,
      "Full-size digital piano with realistic feel", DigitalPiano),
    RentalItem("Drum Kit", Rating(0x4080_0000),
      ["5 pieces", "Cymbals included", "Hardware included"], 250,
      "Complete acoustic drum set for beginners", DrumKit)
  ]

  /** A newly constructed service. */
  function NewService(): (s: Service)
    ensures s.balance == 5000
    ensures |s.items| == 3
    ensures s.items[0].pricePerMonth == 150
    ensures s.items[1].pricePerMonth == 200
    ensures s.items[2].pricePerMonth == 250
  {
    Service(InitialBalance, SampleItems)
  }

  function AddBalance(s: Service, amount: int): (r: Service)
    ensures r.balance - amount == s.balance
    ensures r.items == s.items
  {
    s.(balance := s.balance + amount)
  }

  /** Charges `amount`, or fails with "Insufficient balance" when it exceeds
      the balance; a failed charge leaves the account as it was. */
  function DeductBalance(s: Service, amount: int): (r: Result<Service>)
    ensures r.Ok? <==> amount <= s.balance
    ensures r.Ok? ==> r.value.balance + amount == s.balance && r.value.items == s.items
    ensures r.Err? ==> r.error == IllegalArgument(InsufficientBalance)
  {
    if s.balance >= amount then Ok(s.(balance := s.balance - amount))
    else Err(IllegalArgument(InsufficientBalance))
  }

  /** `deductBalance` as the source computes it: `balance -= amount` is a
      32-bit `Int` subtraction, so the new balance wraps when a negative
      amount pushes it past `Int.MAX_VALUE`. Within `Int` range it is the
      exact charge. */
  function DeductBalanceAsWritten(s: Service, amount: int): (r: Result<Service>)
    ensures r.Ok? <==> amount <= s.balance
    ensures r.Ok? ==> r.value.balance == Wrap32(s.balance - amount) && r.value.items == s.items
    ensures r.Err? ==> r.error == IllegalArgument(InsufficientBalance)
    ensures InInt32(s.balance - amount) ==> r == DeductBalance(s, amount)
  {
    if s.balance >= amount then Ok(s.(balance := Wrap32(s.balance - amount)))
    else Err(IllegalArgument(InsufficientBalance))
  }

  /** A charge of a non-negative amount that succeeds leaves a non-negative
      balance. */
  lemma DeductKeepsNonNegative(s: Service, amount: int)
    requires amount >= 0 && DeductBalance(s, amount).Ok?
    ensures DeductBalance(s, amount).value.balance >= 0
  {
  }

  /** Adding and charging the same amount are inverse to each other. */
  lemma AddDeductInverse(s: Service, amount: int)
    ensures s.balance >= 0 ==> DeductBalance(AddBalance(s, amount), amount) == Ok(s)
    ensures DeductBalance(s, amount).Ok? ==> AddBalance(DeductBalance(s, amount).value, amount) == s
  {
  }

  /** Replaces the attribute list and rating of the item at `position`; any
      other position is an index error. */
  function UpdateRentalItem(s: Service, position: int, attributes: seq<string>, rating: Rating): (r: Result<Service>)
    ensures r.Ok? <==> 0 <= position < |s.items|
    ensures r.Err? ==> r.error == IndexOutOfBounds(position)
    ensures r.Ok? ==>
      && r.value.balance == s.balance
      && |r.value.items| == |s.items|
      && r.value.items[position].attributes == attributes
      && r.value.items[position].rating == rating
      && r.value.items[position].name == s.items[position].name
      && r.value.items[position].pricePerMonth == s.items[position].pricePerMonth
      && r.value.items[position].description == s.items[position].description
      && r.value.items[position].image == s.items[position].image
      && (forall i :: 0 <= i < |s.items| && i != position ==> r.value.items[i] == s.items[i])
  {
    if 0 <= position < |s.items| then
      var item := s.items[position].(attributes := attributes, rating := rating);
      Ok(s.(items := s.items[position := item]))
    else
      Err(IndexOutOfBounds(position))
  }

  /** Account movements, applied in order; the first refused charge aborts. */
  datatype Movement = Add(amount: int) | Deduct(amount: int)

  function ApplyAll(s: Service, ms: seq<Movement>): Result<Service>
    decreases |ms|
  {
    if |ms| == 0 then Ok(s)
    else
      match ms[0]
      case Add(a) => ApplyAll(AddBalance(s, a), ms[1..])
      case Deduct(a) =>
        match DeductBalance(s, a)
        case Ok(s') => ApplyAll(s', ms[1..])
        case Err(e) => Err(e)
  }

  /** Net effect of a list of movements on the balance. */
  function Net(ms: seq<Movement>): int
    decreases |ms|
  {
    if |ms| == 0 then 0
    else (match ms[0] case Add(a) => a case Deduct(a) => -a) + Net(ms[1..])
  }

  /** Successful movements compose arithmetically and never touch the
      catalogue. */
  lemma {:induction false} ApplyAllNet(s: Service, ms: seq<Movement>)
    requires ApplyAll(s, ms).Ok?
    ensures ApplyAll(s, ms).value.balance == s.balance + Net(ms)
    ensures ApplyAll(s, ms).value.items == s.items
    decreases |ms|
  {
    if |ms| > 0 {
      match ms[0]
      case Add(a) => ApplyAllNet(AddBalance(s, a), ms[1..]);
      case Deduct(a) => ApplyAllNet(DeductBalance(s, a).value, ms[1..]);
    }
  }

  /** +500, -200, +700, -1500 from a new service ends at 4500. */
  lemma InterleavedMovements()
    ensures ApplyAll(NewService(), [Add(500), Deduct(200), Add(700), Deduct(1500)]).Ok?
    ensures ApplyAll(NewService(), [Add(500), Deduct(200), Add(700), Deduct(1500)]).value.balance == 4500
  {
  }

  /** No operation changes the size of the catalogue. */
  lemma CatalogueSizeFixed(s: Service, amount: int, position: int, attributes: seq<string>, rating: Rating)
    ensures |AddBalance(s, amount).items| == |s.items|
    ensures DeductBalance(s, amount).Ok? ==> |DeductBalance(s, amount).value.items| == |s.items|
    ensures UpdateRentalItem(s, position, attributes, rating).Ok? ==>
      |UpdateRentalItem(s, position, attributes, rating).value.items| == |s.items|
  {
  }
}
