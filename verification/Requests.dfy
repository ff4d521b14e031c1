/** Request bodies and the cars built from them (`src/Routes/CarRoutes.h`). */
module Requests {
  import opened Cars
  import opened StringUtils

  /** A value of a JSON object; a number carries both readings the server may take of it. */
  datatype Json = JString(s: string) | JNumber(i: int, d: real) | JOther

  datatype Body = Malformed | Object(fields: map<string, Json>)

  datatype Request = Post(body: Body) | Put(id: int, body: Body) | Patch(id: int, body: Body) | DeleteCar(id: int)

  datatype Response =
    | BadRequest
    | Failed
    | Created(location: int, car: Car)
    | Ok(car: Car)
    | Skipped(id: int)
    | NoContent

  function GetString(fields: map<string, Json>, key: string): string {
    if key in fields && fields[key].JString? then fields[key].s else ""
  }

  function GetInt(fields: map<string, Json>, key: string): int {
    if key in fields && fields[key].JNumber? then fields[key].i else 0
  }

  function GetDouble(fields: map<string, Json>, key: string): real {
    if key in fields && fields[key].JNumber? then fields[key].d else 0.0
  }

  predicate HasRequired(fields: map<string, Json>) {
    "make" in fields && "model" in fields && "year" in fields && "price" in fields && "mileageKm" in fields
  }

  /** A body that POST and PUT work on. */
  predicate Complete(body: Body) {
    body.Object? && HasRequired(body.fields)
  }

  /** The car that POST (with key 0) and PUT build. */
  function NewCar(id: int, fields: map<string, Json>): Car {
    Car(id, TitleCase(GetString(fields, "make")), TitleCase(GetString(fields, "model")), GetInt(fields, "year"),
        GetDouble(fields, "price"), GetInt(fields, "mileageKm"), TitleCase(GetString(fields, "color")),
        UpperCase(GetString(fields, "vin")), GetString(fields, "imageDataUrl"), "", "")
  }

  /** The car that PATCH writes back: the body's fields, as sent, over what was read. */
  function Overlay(car: Car, fields: map<string, Json>): Car {
    car.(
      make := if "make" in fields then GetString(fields, "make") else car.make,
      model := if "model" in fields then GetString(fields, "model") else car.model,
      year := if "year" in fields then GetInt(fields, "year") else car.year,
      price := if "price" in fields then GetDouble(fields, "price") else car.price,
      mileage := if "mileageKm" in fields then GetInt(fields, "mileageKm") else car.mileage,
      color := if "color" in fields then GetString(fields, "color") else car.color,
      vin := if "vin" in fields then GetString(fields, "vin") else car.vin,
      imageDataUrl := if "imageDataUrl" in fields then GetString(fields, "imageDataUrl") else car.imageDataUrl)
  }

  function Key(f: Field): string {
    match f
    case Make => "make"
    case Model => "model"
    case Year => "year"
    case Price => "price"
    case Mileage => "mileageKm"
    case Color => "color"
    case Vin => "vin"
    case Image => "imageDataUrl"
  }

  /** A body's value for one field, as sent. */
  function Raw(fields: map<string, Json>, f: Field): Value {
    match f
    case Year | Mileage => Whole(GetInt(fields, Key(f)))
    case Price => Amount(GetDouble(fields, Key(f)))
    case _ => Text(GetString(fields, Key(f)))
  }

  /** A body's value for one field, normalised. */
  function Normal(fields: map<string, Json>, f: Field): Value {
    match f
    case Make | Model | Color => Text(TitleCase(GetString(fields, Key(f))))
    case Vin => Text(UpperCase(GetString(fields, Key(f))))
    case _ => Raw(fields, f)
  }

  /** Field by field: a new car has the normalised values, an overlaid car the raw values of the
      keys that the body has and the old values of the others. */
  lemma FieldsOfNewAndOverlaid(fields: map<string, Json>, id: int, car: Car, f: Field)
    ensures FieldOf(NewCar(id, fields), f) == Normal(fields, f)
    ensures FieldOf(Overlay(car, fields), f) == if Key(f) in fields then Raw(fields, f) else FieldOf(car, f)
  {
  }

  /** Overlays of bodies without a common key commute. */
  lemma OverlaysCommute(car: Car, a: map<string, Json>, b: map<string, Json>)
    requires forall f: Field :: !(Key(f) in a && Key(f) in b)
    ensures Overlay(Overlay(car, a), b) == Overlay(Overlay(car, b), a)
  {
    var x, y := Overlay(Overlay(car, a), b), Overlay(Overlay(car, b), a);
    forall f: Field ensures FieldOf(x, f) == FieldOf(y, f) {
      FieldsOfNewAndOverlaid(a, 0, car, f);
      FieldsOfNewAndOverlaid(b, 0, car, f);
      FieldsOfNewAndOverlaid(b, 0, Overlay(car, a), f);
      FieldsOfNewAndOverlaid(a, 0, Overlay(car, b), f);
    }
    SameFields(x, y);
  }

  // ----- What a body's values become, read off the body itself -----

  /** The value is the normal form of the text that was sent; nothing, or something else than a
      text, reads as the empty text. */
  ghost predicate ReadsText(fields: map<string, Json>, key: string, value: string, normal: string -> string) {
    && (forall s | key in fields && fields[key] == JString(s) :: value == normal(s))
    && (key !in fields || !fields[key].JString? ==> value == "")
  }

  ghost predicate ReadsWhole(fields: map<string, Json>, key: string, value: int) {
    && (forall i, d | key in fields && fields[key] == JNumber(i, d) :: value == i)
    && (key !in fields || !fields[key].JNumber? ==> value == 0)
  }

  ghost predicate ReadsAmount(fields: map<string, Json>, key: string, value: real) {
    && (forall i, d | key in fields && fields[key] == JNumber(i, d) :: value == d)
    && (key !in fields || !fields[key].JNumber? ==> value == 0.0)
  }

  /** The car has the body's values: make, model and colour in title case, the VIN in upper case. */
  ghost predicate BuiltFrom(fields: map<string, Json>, car: Car) {
    && ReadsText(fields, "make", car.make, TitleCase) && ReadsText(fields, "model", car.model, TitleCase)
    && ReadsWhole(fields, "year", car.year) && ReadsAmount(fields, "price", car.price)
    && ReadsWhole(fields, "mileageKm", car.mileage) && ReadsText(fields, "color", car.color, TitleCase)
    && ReadsText(fields, "vin", car.vin, UpperCase) && ReadsText(fields, "imageDataUrl", car.imageDataUrl, s => s)
  }

  /** The car has the body's values, as sent, where the body has the key, and the old ones elsewhere. */
  ghost predicate ChangedBy(fields: map<string, Json>, was: Car, car: Car) {
    && (if "make" in fields then ReadsText(fields, "make", car.make, s => s) else car.make == was.make)
    && (if "model" in fields then ReadsText(fields, "model", car.model, s => s) else car.model == was.model)
    && (if "year" in fields then ReadsWhole(fields, "year", car.year) else car.year == was.year)
    && (if "price" in fields then ReadsAmount(fields, "price", car.price) else car.price == was.price)
    && (if "mileageKm" in fields then ReadsWhole(fields, "mileageKm", car.mileage) else car.mileage == was.mileage)
    && (if "color" in fields then ReadsText(fields, "color", car.color, s => s) else car.color == was.color)
    && (if "vin" in fields then ReadsText(fields, "vin", car.vin, s => s) else car.vin == was.vin)
    && (if "imageDataUrl" in fields then ReadsText(fields, "imageDataUrl", car.imageDataUrl, s => s)
        else car.imageDataUrl == was.imageDataUrl)
  }

  lemma NewCarIsBuilt(id: int, fields: map<string, Json>)
    ensures BuiltFrom(fields, NewCar(id, fields))
  {
    TrimIdentity("", IsTrimChar);
  }

  lemma OverlayIsChanged(fields: map<string, Json>, car: Car)
    ensures ChangedBy(fields, car, Overlay(car, fields))
  {
  }
}
