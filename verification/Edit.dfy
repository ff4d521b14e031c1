/** Editing a stored car with the form (`src/frontend/add-car.js`) and sending it back with PUT. */
module Edit {
  import opened Cars
  import opened CarTable
  import opened ClientText
  import opened Requests
  import opened Routes
  import opened StringUtils

  /** A single-line text input drops line breaks from the value that is set (value sanitization of
      the Text state, section 4.10.5.1.2 of the HTML standard). */
  function InputText(s: string): string {
    if s == "" then "" else
      (if s[0] == '\n' || s[0] == '\r' then "" else [s[0]]) + InputText(s[1..])
  }

  /** Text goes through piece by piece, and of single characters the two line breaks are dropped. */
  lemma {:induction false} InputTextPieces(s: string, t: string)
    ensures InputText(s + t) == InputText(s) + InputText(t)
    ensures |s| == 1 ==> InputText(s) == if s[0] in "\n\r" then "" else s
  {
    if s == "" {
      assert s + t == t;
    } else {
      assert (s + t)[1..] == s[1..] + t;
      InputTextPieces(s[1..], t);
    }
  }

  /** A number field reads as no number (NaN) when it is empty. */
  datatype Form = Form(
    make: string, model: string, year: Option<int>, price: Option<real>, mileage: Option<int>, color: string, vin: string)

  function Load(car: Car): Form {
    Form(InputText(car.make), InputText(car.model), Some(car.year), Some(car.price), Some(car.mileage),
         InputText(car.color), InputText(car.vin))
  }

  /** NaN becomes `null`. Otherwise numbers cross JSON exactly. */
  function WholeData(n: Option<int>): Json {
    if n.Some? then JNumber(n.value, n.value as real) else JOther
  }

  /** Only the double reading of a price is ever taken. */
  function AmountData(r: Option<real>): Json {
    if r.Some? then JNumber(r.value.Floor, r.value) else JOther
  }

  /** `carData` */
  function CarData(form: Form, image: string): map<string, Json> {
    map[
      "make" := JString(NormalizeText(form.make)),
      "model" := JString(NormalizeText(form.model)),
      "year" := WholeData(form.year),
      "price" := AmountData(form.price),
      "mileageKm" := WholeData(form.mileage),
      "color" := JString(NormalizeText(form.color)),
      "vin" := JString(NormalizeUpperCase(form.vin)),
      "imageDataUrl" := if image == "" then JOther else JString(image)]
  }

  lemma BlankIsNothing(s: string)
    ensures NormalizeText(s) == "" <==> forall c | c in s :: c in " \t\n\r\U{0B}\U{0C}"
  {
    var a, m, b := NormalizeTextIs(s);
    if m == "" {
      assert forall c | c in s :: c in a || c in b;
    } else {
      assert s[|a|] == m[0] && m[0] in s;
    }
  }

  /** Comparisons with NaN are false, so a number that is missing passes. */
  predicate PassesValidation(form: Form) {
    && NormalizeText(form.make) != "" && NormalizeText(form.model) != ""
    && (form.year.Some? ==> 1886 <= form.year.value <= 2027)
    && (form.price.Some? ==> form.price.value >= 0.0)
  }

  /** Nothing is left of a text that is all white space, so it does not pass; nor does a year outside
      1886 to 2027, or a negative price. Everything else does. */
  lemma ValidationIs(form: Form)
    ensures PassesValidation(form) <==>
      && (exists c | c in form.make :: c !in " \t\n\r\U{0B}\U{0C}") && (exists c | c in form.model :: c !in " \t\n\r\U{0B}\U{0C}")
      && (form.year == None || exists year | 1886 <= year <= 2027 :: form.year == Some(year))
      && (form.price == None || exists price | price >= 0.0 :: form.price == Some(price))
  {
    BlankIsNothing(form.make);
    BlankIsNothing(form.model);
    assert form.year.Some? ==> form.year == Some(form.year.value);
    assert form.price.Some? ==> form.price == Some(form.price.value);
  }

  class EditPage {
    /** 0 stands for no car. */
    var editingCarId: int
    var currentImageDataUrl: string
    var form: Form

    constructor (id: int)
      ensures editingCarId == id && currentImageDataUrl == ""
    {
      editingCarId, currentImageDataUrl := id, "";
      form := Form("", "", None, None, None, "", "");
    }

    method LoadCarForEdit(car: Car)
      modifies this`form, this`currentImageDataUrl
      ensures form == Load(car) && currentImageDataUrl == car.imageDataUrl
    {
      form := Form(InputText(car.make), InputText(car.model), Some(car.year), Some(car.price), Some(car.mileage), "", "");
      form := form.(color := InputText(car.color), vin := InputText(car.vin));
      currentImageDataUrl := car.imageDataUrl;
    }

    /** The request that is sent, or nothing when validation fails. */
    method HandleFormSubmit() returns (request: Option<Request>)
      ensures request.Some? <==> PassesValidation(form)
      ensures request.Some? ==>
        var body := Object(CarData(form, currentImageDataUrl));
        request.value == if editingCarId != 0 then Put(editingCarId, body) else Post(body)
      ensures request.Some? ==>
        && !request.value.DeleteCar?
        && request.value.body.fields.Keys == {"make", "model", "year", "price", "mileageKm", "color", "vin", "imageDataUrl"}
    {
      var carData := CarData(form, currentImageDataUrl);
      if carData["make"].s == "" || carData["model"].s == "" {
        return None;
      }
      var year, price := carData["year"], carData["price"];
      if year.JNumber? && (year.i < 1886 || year.i > 2027) {
        return None;
      }
      if price.JNumber? && price.d < 0.0 {
        return None;
      }
      if editingCarId != 0 {
        return Some(Put(editingCarId, Object(carData)));
      }
      return Some(Post(Object(carData)));
    }
  }

  // ----- A text field survives the round trip exactly when the form keeps it -----

  lemma {:induction false} InputTextShortens(s: string)
    ensures |InputText(s)| <= |s|
    ensures |InputText(s)| == |s| ==> InputText(s) == s
    ensures InputText(s) == s <==> forall i | 0 <= i < |s| :: s[i] != '\n' && s[i] != '\r'
  {
    if s == "" {
    } else {
      InputTextShortens(s[1..]);
      assert s == [s[0]] + s[1..];
      if forall i | 0 <= i < |s| :: s[i] != '\n' && s[i] != '\r' {
        assert s[0] != '\n' && s[0] != '\r';
        forall i | 0 <= i < |s[1..]| ensures s[1..][i] != '\n' && s[1..][i] != '\r' {
          assert s[1..][i] == s[i + 1];
        }
      } else {
        var i :| 0 <= i < |s| && (s[i] == '\n' || s[i] == '\r');
        if i > 0 {
          assert s[1..][i - 1] == s[i];
        }
      }
    }
  }

  /** The text has no line break, and no vertical tab or form feed at its ends. */
  ghost predicate FormKeeps(s: string) {
    (forall i | 0 <= i < |s| :: s[i] != '\n' && s[i] != '\r') && CleanEnds(s, IsSpace)
  }

  lemma JsTrimShortens(s: string)
    ensures |JsTrim(s)| <= |s|
  {
    var a, b := TrimSplits(s, IsSpace);
    assert |s| == |a| + |JsTrim(s)| + |b|;
  }

  /** A stored text survives the form exactly when it is in title case and the form keeps it. */
  lemma TitleRoundTrip(s: string)
    ensures TitleCase(NormalizeText(InputText(s))) == s <==> TitleCase(s) == s && FormKeeps(s)
  {
    var t := InputText(s);
    InputTextShortens(s);
    TitleCaseIdempotent(NormalizeText(t));
    if TitleCase(s) != s {
    } else if t == s {
      TitleKeepsLetters(s);
      ClientThenServer(s);
    } else {
      NormalizeTextScan(t);
      JsTrimShortens(t);
      assert |NormalizeText(t)| == |JsTrim(t)|;
      assert |TitleCase(NormalizeText(t))| == |NormalizeText(t)|;
    }
  }

  lemma UpperRoundTrip(s: string)
    ensures UpperCase(NormalizeUpperCase(InputText(s))) == s <==> UpperCase(s) == s && FormKeeps(s)
  {
    var t := InputText(s);
    InputTextShortens(s);
    UpperCaseIdempotent(NormalizeUpperCase(t));
    if UpperCase(s) != s {
    } else if t == s {
      UpperKeepsLetters(s);
      ClientThenServerUpper(s);
    } else {
      NormalizeUpperCaseScan(t);
      JsTrimShortens(t);
      assert |NormalizeUpperCase(t)| == |JsTrim(t)|;
      assert |UpperCase(NormalizeUpperCase(t))| == |NormalizeUpperCase(t)|;
    }
  }

  // ----- Editing without a change -----

  /** The row's text is as POST and PUT store it. */
  ghost predicate NormalForm(car: Car) {
    && TitleCase(car.make) == car.make && TitleCase(car.model) == car.model && TitleCase(car.color) == car.color
    && UpperCase(car.vin) == car.vin
  }

  ghost predicate FormKeepsAll(car: Car) {
    FormKeeps(car.make) && FormKeeps(car.model) && FormKeeps(car.color) && FormKeeps(car.vin)
  }

  function OrZero(n: Option<int>): int {
    if n.Some? then n.value else 0
  }

  /** The car that PUT builds from form data: a missing number is stored as 0. */
  function Resent(id: int, form: Form, image: string): Car {
    Car(id, TitleCase(NormalizeText(form.make)), TitleCase(NormalizeText(form.model)), OrZero(form.year),
        if form.price.Some? then form.price.value else 0.0, OrZero(form.mileage),
        TitleCase(NormalizeText(form.color)), UpperCase(NormalizeUpperCase(form.vin)), image, "", "")
  }

  lemma TextData(form: Form, image: string)
    ensures GetString(CarData(form, image), "make") == NormalizeText(form.make)
    ensures GetString(CarData(form, image), "model") == NormalizeText(form.model)
  {
  }

  lemma MoreTextData(form: Form, image: string)
    ensures GetString(CarData(form, image), "color") == NormalizeText(form.color)
    ensures GetString(CarData(form, image), "vin") == NormalizeUpperCase(form.vin)
  {
  }

  lemma OtherData(form: Form, image: string)
    ensures GetInt(CarData(form, image), "year") == OrZero(form.year)
    ensures GetDouble(CarData(form, image), "price") == if form.price.Some? then form.price.value else 0.0
    ensures GetInt(CarData(form, image), "mileageKm") == OrZero(form.mileage)
    ensures GetString(CarData(form, image), "imageDataUrl") == image
  {
  }

  lemma DataComplete(form: Form, image: string)
    ensures Complete(Object(CarData(form, image)))
  {
  }

  lemma PutReadsFormData(id: int, form: Form, image: string)
    ensures Complete(Object(CarData(form, image)))
    ensures NewCar(id, CarData(form, image)) == Resent(id, form, image)
  {
    TextData(form, image);
    MoreTextData(form, image);
    OtherData(form, image);
    DataComplete(form, image);
  }

  /** The resent car is the stored car exactly when its text is in normal form and the form keeps it. */
  lemma ResentCar(id: int, car: Car)
    requires car.carId == id
    ensures NormalForm(car) && FormKeepsAll(car)
      <==> Resent(id, Load(car), car.imageDataUrl) == car.(createdAt := "", updatedAt := "")
  {
    TitleRoundTrip(car.make);
    TitleRoundTrip(car.model);
    TitleRoundTrip(car.color);
    UpperRoundTrip(car.vin);
  }

  /** Updating a row with a car leaves all but `updated_at` alone exactly when the car has the row's fields. */
  lemma SameRowSameCar(id: int, row: Row, sent: Car, now: string)
    requires RowOk(row) && sent.carId == id && sent.createdAt == sent.updatedAt == ""
    ensures SameButUpdated(Encode(sent, row.createdAt, now), row)
      <==> sent == Decode(id, row).(createdAt := "", updatedAt := "")
  {
    StoreAndRead(sent, id, row, "", "");
    var stored := Encode(sent, row.createdAt, now);
    if SameButUpdated(stored, row) {
      assert Decode(id, stored.(updatedAt := "")) == Decode(id, row.(updatedAt := ""));
      StoreAndRead(sent, id, row, row.createdAt, "");
    }
  }

  /** Loading a stored car, submitting the form as it is, and serving the PUT. It fails, and changes
      nothing, exactly when the VIN that comes back is another row's; that can only be when the
      row's own is not in normal form or not kept. When it succeeds, nothing but `updated_at` has
      changed exactly when the row's text is in normal form (text that PATCH wrote need not be) and
      the form keeps it. */
  lemma EditWithoutChange(st: Table, id: int, now: string)
    requires WellFormed(st) && id in st.rows && PassesValidation(Load(Get(st, id).0))
    ensures var car := Get(st, id).0;
      var kept := NormalForm(car) && FormKeepsAll(car);
      var vin := UpperCase(NormalizeUpperCase(InputText(car.vin)));
      var (after, response) := Serve(st, Put(id, Object(CarData(Load(car), car.imageDataUrl))), now);
      && (response == Failed <==> vin != "" && exists k | k in st.rows && k != id :: st.rows[k].vin == Some(vin))
      && (response == Failed ==> after == st && !kept)
      && (response != Failed ==> id in after.rows && after == st.(rows := st.rows[id := after.rows[id]]))
      && (response != Failed ==> (SameButUpdated(after.rows[id], st.rows[id]) <==> kept))
      && (kept ==> response == Ok(car.(updatedAt := now)) && after.rows[id] == st.rows[id].(updatedAt := now))
  {
    var row, car := st.rows[id], Get(st, id).0;
    var resent := Resent(id, Load(car), car.imageDataUrl);
    PutReadsFormData(id, Load(car), car.imageDataUrl);
    ResentCar(id, car);
    SameRowSameCar(id, row, resent, now);
    var body := Object(CarData(Load(car), car.imageDataUrl));
    assert Serve(st, Put(id, body), now) == (
      var (after, ok) := Update(st, id, resent, now);
      if !ok then (after, Response.Failed) else (after, Ok(Get(after, id).0)));
    if NormalForm(car) && FormKeepsAll(car) {
      assert !VinTaken(st.rows, NullIfEmpty(resent.vin), id);
      assert Encode(resent, row.createdAt, now) == row.(updatedAt := now);
    }
  }
}
