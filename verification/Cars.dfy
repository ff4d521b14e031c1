/** The car record (`Models/Car.h`) and the row that stores it (`src/database/database.cpp`). */
module Cars {

  datatype Option<+T> = None | Some(value: T)

  datatype Car = Car(
    carId: int, make: string, model: string, year: int, price: real, mileage: int,
    color: string, vin: string, imageDataUrl: string, createdAt: string, updatedAt: string)

  /** What the default constructor makes. */
  const BLANK_CAR := Car(0, "", "", 0, 0.0, 0, "", "", "", "", "")

  /** A table row without its key; the three nullable columns are options. */
  datatype Row = Row(
    make: string, model: string, year: int, price: real, mileage: int,
    color: Option<string>, vin: Option<string>, image: Option<string>, createdAt: string, updatedAt: string)

  /** Binding a nullable text column. */
  function NullIfEmpty(s: string): Option<string> {
    if s == "" then None else Some(s)
  }

  /** Reading a nullable text column. */
  function TextOrEmpty(o: Option<string>): string {
    if o.Some? then o.value else ""
  }

  function Encode(car: Car, createdAt: string, updatedAt: string): Row {
    Row(car.make, car.model, car.year, car.price, car.mileage,
        NullIfEmpty(car.color), NullIfEmpty(car.vin), NullIfEmpty(car.imageDataUrl), createdAt, updatedAt)
  }

  function Decode(id: int, row: Row): Car {
    Car(id, row.make, row.model, row.year, row.price, row.mileage,
        TextOrEmpty(row.color), TextOrEmpty(row.vin), TextOrEmpty(row.image), row.createdAt, row.updatedAt)
  }

  /** Nullable text is never the empty string. */
  predicate RowOk(row: Row) {
    row.color != Some("") && row.vin != Some("") && row.image != Some("")
  }

  /** The rows agree on everything but `updated_at`. */
  predicate SameButUpdated(r: Row, q: Row) {
    r.(updatedAt := "") == q.(updatedAt := "")
  }

  /** Storing a car and reading it back changes nothing but its key and timestamps; reading a row
      and storing it under the same timestamps changes nothing. */
  lemma StoreAndRead(car: Car, id: int, row: Row, createdAt: string, updatedAt: string)
    ensures RowOk(Encode(car, createdAt, updatedAt))
    ensures Decode(id, Encode(car, createdAt, updatedAt)) == car.(carId := id, createdAt := createdAt, updatedAt := updatedAt)
    ensures Encode(Decode(id, row), row.createdAt, row.updatedAt) == row <==> RowOk(row)
  {
  }

  // ----- The user-supplied fields, one by one -----

  datatype Field = Make | Model | Year | Price | Mileage | Color | Vin | Image

  datatype Value = Text(s: string) | Whole(n: int) | Amount(r: real)

  function FieldOf(car: Car, f: Field): Value {
    match f
    case Make => Text(car.make)
    case Model => Text(car.model)
    case Year => Whole(car.year)
    case Price => Amount(car.price)
    case Mileage => Whole(car.mileage)
    case Color => Text(car.color)
    case Vin => Text(car.vin)
    case Image => Text(car.imageDataUrl)
  }

  /** Cars with one key, one pair of timestamps and the same fields are equal. */
  lemma SameFields(a: Car, b: Car)
    requires a.carId == b.carId && a.createdAt == b.createdAt && a.updatedAt == b.updatedAt
    requires forall f: Field :: FieldOf(a, f) == FieldOf(b, f)
    ensures a == b
  {
    assert FieldOf(a, Make) == FieldOf(b, Make) && FieldOf(a, Model) == FieldOf(b, Model);
    assert FieldOf(a, Year) == FieldOf(b, Year) && FieldOf(a, Price) == FieldOf(b, Price);
    assert FieldOf(a, Mileage) == FieldOf(b, Mileage) && FieldOf(a, Color) == FieldOf(b, Color);
    assert FieldOf(a, Vin) == FieldOf(b, Vin) && FieldOf(a, Image) == FieldOf(b, Image);
  }

  /** The blank car has key 0, no text, and all its numbers are 0. */
  lemma BlankCarIs(f: Field)
    ensures FieldOf(BLANK_CAR, f) in {Text(""), Whole(0), Amount(0.0)}
    ensures BLANK_CAR.carId == 0 && BLANK_CAR.createdAt == BLANK_CAR.updatedAt == ""
  {
  }
}
