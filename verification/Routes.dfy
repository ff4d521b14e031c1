/** The handlers served one at a time (`src/Routes/CarRoutes.h`). Each takes at most one timestamp, `now`. */
module Routes {
  import opened Cars
  import opened CarTable
  import opened DatabaseClass
  import opened Listing
  import opened Requests
  import opened StringUtils

  // ----- What serving one request does to the table -----

  function ServePost(st: Table, body: Body, now: string): (Table, Response) {
    if !Complete(body) then (st, BadRequest) else
      var (after, ok) := Insert(st, NewCar(0, body.fields), now);
      if !ok then (after, Failed) else (after, Created(after.lastRowId, Get(after, after.lastRowId).0))
  }

  function ServePut(st: Table, id: int, body: Body, now: string): (Table, Response) {
    if !Complete(body) then (st, BadRequest)
    else if id !in st.rows then
      var (after, ok) := Insert(st, NewCar(id, body.fields), now);
      (after, Ok(Get(after, if ok then after.lastRowId else 0).0))
    else
      var (after, ok) := Update(st, id, NewCar(id, body.fields), now);
      if !ok then (after, Failed) else (after, Ok(Get(after, id).0))
  }

  function ServePatch(st: Table, id: int, body: Body, now: string): (Table, Response) {
    if id !in st.rows then (st, Skipped(id))
    else if body.Malformed? then (st, BadRequest)
    else
      var (after, ok) := Update(st, id, Overlay(Get(st, id).0, body.fields), now);
      if !ok then (after, Failed) else (after, Ok(Get(after, id).0))
  }

  function Serve(st: Table, req: Request, now: string): (Table, Response) {
    match req
    case Post(body) => ServePost(st, body, now)
    case Put(id, body) => ServePut(st, id, body, now)
    case Patch(id, body) => ServePatch(st, id, body, now)
    case DeleteCar(id) => (Delete(st, id), NoContent)
  }

  // ----- The handlers -----

  /** The setters that POST and PUT share. */
  method ReadNewCar(blank: Car, fields: map<string, Json>) returns (car: Car)
    requires blank == BLANK_CAR.(carId := blank.carId)
    ensures car == NewCar(blank.carId, fields)
  {
    car := blank;
    var make := ToTitleCase(GetString(fields, "make"));
    var model := ToTitleCase(GetString(fields, "model"));
    car := car.(make := make, model := model, year := GetInt(fields, "year"),
                price := GetDouble(fields, "price"), mileage := GetInt(fields, "mileageKm"));
    var color := ToTitleCase(GetString(fields, "color"));
    var vin := ToUpperCase(GetString(fields, "vin"));
    car := car.(color := color, vin := vin, imageDataUrl := GetString(fields, "imageDataUrl"));
  }

  method HandlePost(db: Database, body: Body, now: string) returns (response: Response)
    requires db.Valid()
    modifies db
    ensures db.Valid()
    ensures (db.Contents(), response) == Serve(old(db.Contents()), Post(body), now)
  {
    if body.Malformed? || !HasRequired(body.fields) {
      return BadRequest;
    }
    var car := ReadNewCar(BLANK_CAR, body.fields);
    var ok, newId := db.InsertCar(car, 0, now);
    if !ok {
      return Failed;
    }
    var created, _ := db.GetCarById(newId);
    return Created(newId, created);
  }

  method HandlePut(db: Database, id: int, body: Body, now: string) returns (response: Response)
    requires db.Valid()
    modifies db
    ensures db.Valid()
    ensures (db.Contents(), response) == Serve(old(db.Contents()), Put(id, body), now)
  {
    if body.Malformed? || !HasRequired(body.fields) {
      return BadRequest;
    }
    var car := ReadNewCar(BLANK_CAR.(carId := id), body.fields);
    var live := db.CarExists(id);
    if !live {
      var _, newId := db.InsertCar(car, 0, now);
      var created, _ := db.GetCarById(newId);
      return Ok(created);
    }
    var ok := db.UpdateCar(id, car, now);
    if !ok {
      return Failed;
    }
    var updated, _ := db.GetCarById(id);
    return Ok(updated);
  }

  method HandlePatch(db: Database, id: int, body: Body, now: string) returns (response: Response)
    requires db.Valid()
    modifies db
    ensures db.Valid()
    ensures (db.Contents(), response) == Serve(old(db.Contents()), Patch(id, body), now)
  {
    var live := db.CarExists(id);
    if !live {
      return Skipped(id);
    }
    if body.Malformed? {
      return BadRequest;
    }
    var car, _ := db.GetCarById(id);
    ghost var read, fields := car, body.fields;
    if "make" in body.fields { car := car.(make := GetString(body.fields, "make")); }
    if "model" in body.fields { car := car.(model := GetString(body.fields, "model")); }
    if "year" in body.fields { car := car.(year := GetInt(body.fields, "year")); }
    if "price" in body.fields { car := car.(price := GetDouble(body.fields, "price")); }
    if "mileageKm" in body.fields { car := car.(mileage := GetInt(body.fields, "mileageKm")); }
    if "color" in body.fields { car := car.(color := GetString(body.fields, "color")); }
    if "vin" in body.fields { car := car.(vin := GetString(body.fields, "vin")); }
    if "imageDataUrl" in body.fields { car := car.(imageDataUrl := GetString(body.fields, "imageDataUrl")); }
    assert car == Overlay(read, fields);
    var ok := db.UpdateCar(id, car, now);
    if !ok {
      return Failed;
    }
    var updated, _ := db.GetCarById(id);
    return Ok(updated);
  }

  method HandleDelete(db: Database, id: int) returns (response: Response)
    requires db.Valid()
    modifies db
    ensures db.Valid()
    ensures forall now :: (db.Contents(), response) == Serve(old(db.Contents()), DeleteCar(id), now)
    ensures response == NoContent && db.high == old(db.high) && db.lastRowId == old(db.lastRowId)
    ensures id !in db.rows && forall k | k != id ::
      (k in db.rows <==> k in old(db.rows)) && (k in db.rows ==> db.rows[k] == old(db.rows)[k])
  {
    var live := db.CarExists(id);
    if !live {
      assert db.rows - {id} == db.rows;
      return NoContent;
    }
    var ok := db.DeleteCar(id);
    return if ok then NoContent else Failed;
  }

  /** The car, or nothing, which is answered with 404. */
  method HandleGet(db: Database, id: int) returns (answer: Option<Car>)
    ensures answer.Some? <==> id in db.rows
    ensures answer.Some? ==> answer.value.carId == id
    ensures answer.Some? && RowOk(db.rows[id]) ==>
      Encode(answer.value, answer.value.createdAt, answer.value.updatedAt) == db.rows[id]
  {
    var car, found := db.GetCarById(id);
    return if found then Some(car) else None;
  }

  /** A query parameter read with `std::stoi`. */
  datatype Param = Absent | Unreadable | Number(n: int)

  datatype Answer = Answer(total: nat, limit: int, offset: int, cars: seq<Car>)

  method HandleList(db: Database, order: seq<int>, limitParam: Param, offsetParam: Param, includeImages: bool)
    returns (answer: Answer)
    requires db.Valid() && IsListing(db.rows, order)
    ensures answer.total == |db.rows|
    ensures answer.limit == ClampLimit(if limitParam.Number? then limitParam.n else 20)
    ensures limitParam.Number? && 1 <= limitParam.n <= 100 ==> answer.limit == limitParam.n
    ensures !limitParam.Number? ==> answer.limit == 20
    ensures answer.offset == if offsetParam.Number? then offsetParam.n else 0
    ensures var ids := Page(order, answer.limit, answer.offset);
      && (forall id | id in ids :: id in db.rows)
      && |answer.cars| == |ids|
      && forall k | 0 <= k < |ids| ::
           var car := Decode(ids[k], db.rows[ids[k]]);
           if includeImages then answer.cars[k] == car else Summarises(answer.cars[k], car)
  {
    var limit, offset := 20, 0;
    if limitParam.Number? { limit := limitParam.n; }
    if offsetParam.Number? { offset := offsetParam.n; }
    if limit > 100 { limit := 100; }
    if limit < 1 { limit := 1; }
    var total := db.GetTotalCarCount();
    var cars;
    if includeImages {
      cars := db.GetAllCars(order, limit, offset);
    } else {
      cars := db.GetAllCarsSummary(order, limit, offset);
    }
    answer := Answer(total, limit, offset, cars);
  }

  // ----- PATCH, served alone, is an overlay of fields -----

  /** PATCH on a live row answers with failure exactly when another row holds the resulting VIN;
      otherwise the row becomes the overlay, with a new `updated_at`, and nothing else changes. */
  lemma PatchIsOverlay(st: Table, id: int, body: Body, now: string)
    requires WellFormed(st) && id in st.rows && body.Object?
    ensures var (after, response) := Serve(st, Patch(id, body), now);
      var car := Overlay(Decode(id, st.rows[id]), body.fields);
      && (response == Failed <==> exists k | k in st.rows && k != id :: st.rows[k].vin == Some(car.vin) && car.vin != "")
      && (response == Failed ==> after == st)
      && (response != Failed ==>
            && id in after.rows
            && response == Ok(Decode(id, after.rows[id]))
            && Decode(id, after.rows[id]) == car.(updatedAt := now)
            && after == st.(rows := st.rows[id := after.rows[id]]))
  {
  }

  /** Such a PATCH answers with the values that the body sent, where it has the key, and the old ones elsewhere. */
  lemma PatchChanges(st: Table, id: int, body: Body, now: string)
    requires WellFormed(st) && id in st.rows && body.Object?
    ensures var response := Serve(st, Patch(id, body), now).1;
      response != Failed ==> response.Ok? && ChangedBy(body.fields, Decode(id, st.rows[id]), response.car)
  {
    PatchIsOverlay(st, id, body, now);
    OverlayIsChanged(body.fields, Decode(id, st.rows[id]));
  }

  /** POST fails exactly when a row holds the normalised VIN; otherwise it adds the normalised car
      under an id that was never used, and answers with that row. */
  lemma PostCreates(st: Table, body: Body, now: string)
    requires WellFormed(st) && Complete(body)
    ensures var (after, response) := Serve(st, Post(body), now);
      var car, id := NewCar(0, body.fields), st.high + 1;
      && id !in st.rows && BuiltFrom(body.fields, car)
      && (response == Failed <==> exists k | k in st.rows :: st.rows[k].vin == Some(car.vin) && car.vin != "")
      && (response == Failed ==> after == st)
      && (response != Failed ==>
            && response == Created(id, car.(carId := id, createdAt := now, updatedAt := now))
            && after == Table(st.rows[id := Encode(response.car, now, now)], id, id))
  {
    var car := NewCar(0, body.fields);
    NewCarIsBuilt(0, body.fields);
    StoreAndRead(car, st.high + 1, Encode(car, now, now), now, now);
    if VinTaken(st.rows, NullIfEmpty(car.vin), st.high + 1) {
      var k :| k in st.rows && k != st.high + 1 && st.rows[k].vin == NullIfEmpty(car.vin);
    }
  }

  /** However many cars without a VIN there are, one more is created: it has the empty VIN, stored as NULL. */
  lemma PostWithoutVin(st: Table, body: Body, now: string)
    requires WellFormed(st) && Complete(body) && ("vin" !in body.fields || !body.fields["vin"].JString?)
    ensures var (after, response) := Serve(st, Post(body), now);
      response.Created? && response.car.vin == "" && response.location in after.rows && after.rows[response.location].vin == None
  {
    PostCreates(st, body, now);
  }

  /** Which requests are refused without touching the table: POST and PUT answer 400 exactly when the
      body is malformed or lacks one of five keys; PATCH skips an id without a row, whatever the
      body, and answers 400 exactly when the row is there and the body is malformed. */
  lemma Refusals(st: Table, id: int, body: Body, now: string)
    ensures var lacking := body.Malformed? || exists key | key in {"make", "model", "year", "price", "mileageKm"} :: key !in body.fields;
      && (Serve(st, Post(body), now) == (st, BadRequest) <==> lacking)
      && (Serve(st, Post(body), now).1 == BadRequest <==> lacking)
      && (Serve(st, Put(id, body), now) == (st, BadRequest) <==> lacking)
      && (Serve(st, Put(id, body), now).1 == BadRequest <==> lacking)
    ensures id !in st.rows <==> Serve(st, Patch(id, body), now) == (st, Skipped(id))
    ensures id in st.rows && body.Malformed? <==> Serve(st, Patch(id, body), now) == (st, BadRequest)
  {
    if body.Object? {
      assert HasRequired(body.fields) <==> forall key | key in {"make", "model", "year", "price", "mileageKm"} :: key in body.fields;
    }
  }

  /** PUT on a live row fails exactly when another row holds the normalised VIN; otherwise all the
      row's fields become the normalised ones, its creation time stays, and nothing else changes. */
  lemma PutReplaces(st: Table, id: int, body: Body, now: string)
    requires WellFormed(st) && id in st.rows && Complete(body)
    ensures var (after, response) := Serve(st, Put(id, body), now);
      var car, createdAt := NewCar(id, body.fields), st.rows[id].createdAt;
      && BuiltFrom(body.fields, car)
      && (response == Failed <==> exists k | k in st.rows && k != id :: st.rows[k].vin == Some(car.vin) && car.vin != "")
      && (response == Failed ==> after == st)
      && (response != Failed ==>
            && response == Ok(car.(createdAt := createdAt, updatedAt := now))
            && after == st.(rows := st.rows[id := Encode(response.car, createdAt, now)]))
  {
    var car := NewCar(id, body.fields);
    NewCarIsBuilt(id, body.fields);
    StoreAndRead(car, id, Encode(car, st.rows[id].createdAt, now), st.rows[id].createdAt, now);
  }

  /** PUT on an id without a row never makes a row of that id that existed before: it inserts the
      normalised car under a fresh id, and when that is rejected it still answers 200, with the
      blank car; the answer shows which. */
  lemma PutOnMissingRow(st: Table, id: int, body: Body, now: string)
    requires WellFormed(st) && id !in st.rows && Complete(body)
    ensures var (after, response) := Serve(st, Put(id, body), now);
      && response.Ok?
      && (response.car.carId == 0 <==> after == st)
      && (response.car.carId == 0 <==> exists k | k in st.rows :: st.rows[k].vin == Some(NewCar(id, body.fields).vin))
      && (response.car.carId == 0 ==> response == Ok(BLANK_CAR))
      && (response.car.carId != 0 ==>
            && BuiltFrom(body.fields, response.car)
            && response.car == NewCar(id, body.fields).(carId := st.high + 1, createdAt := now, updatedAt := now)
            && after.rows == st.rows[st.high + 1 := Encode(response.car, now, now)])
  {
    var car := NewCar(id, body.fields);
    NewCarIsBuilt(id, body.fields);
    StoreAndRead(car, st.high + 1, Encode(car, now, now), now, now);
    if VinTaken(st.rows, NullIfEmpty(car.vin), st.high + 1) {
      var k :| k in st.rows && k != st.high + 1 && st.rows[k].vin == NullIfEmpty(car.vin);
    }
  }

  /** The two tables agree on everything but `updated_at`. */
  ghost predicate SameButStamps(a: Table, b: Table) {
    && a.high == b.high && a.lastRowId == b.lastRowId
    && SameRowsButStamps(a.rows, b.rows)
  }

  ghost predicate SameRowsButStamps(a: map<int, Row>, b: map<int, Row>) {
    a.Keys == b.Keys && forall id | id in a :: SameButUpdated(a[id], b[id])
  }

  ghost predicate DisjointKeys(a: Body, b: Body) {
    a.Object? && b.Object? ==> forall f: Field :: !(Key(f) in a.fields && Key(f) in b.fields)
  }

  predicate LeavesVin(body: Body) {
    body.Object? ==> "vin" !in body.fields
  }

  /** A PATCH without a VIN never clashes. */
  lemma PatchWithoutVin(st: Table, id: int, body: Body, now: string)
    requires WellFormed(st) && LeavesVin(body)
    ensures WellFormed(Serve(st, Patch(id, body), now).0)
    ensures Serve(st, Patch(id, body), now).0 ==
      if id in st.rows && body.Object? then
        st.(rows := st.rows[id := Encode(Overlay(Decode(id, st.rows[id]), body.fields), st.rows[id].createdAt, now)])
      else st
  {
    if id in st.rows && body.Object? {
      assert NullIfEmpty(Overlay(Decode(id, st.rows[id]), body.fields).vin) == st.rows[id].vin;
      UpdateKeeps(st, id, Overlay(Decode(id, st.rows[id]), body.fields), now);
    }
  }

  /** Overlaying what an overlay stored is overlaying twice. */
  lemma OverlayOfStored(id: int, row: Row, a: map<string, Json>, b: map<string, Json>, t: string, u: string)
    ensures var stored := Encode(Overlay(Decode(id, row), a), row.createdAt, t);
      SameButUpdated(Encode(Overlay(Decode(id, stored), b), row.createdAt, u),
                     Encode(Overlay(Overlay(Decode(id, row), a), b), row.createdAt, ""))
  {
  }

  lemma OverlaysOfRowCommute(id: int, row: Row, a: map<string, Json>, b: map<string, Json>, t: string, u: string)
    requires DisjointKeys(Object(a), Object(b))
    ensures var ra := Encode(Overlay(Decode(id, row), a), row.createdAt, t);
      var rb := Encode(Overlay(Decode(id, row), b), row.createdAt, t);
      SameButUpdated(Encode(Overlay(Decode(id, ra), b), row.createdAt, u), Encode(Overlay(Decode(id, rb), a), row.createdAt, u))
  {
    OverlaysCommute(Decode(id, row), a, b);
    OverlayOfStored(id, row, a, b, t, u);
    OverlayOfStored(id, row, b, a, t, u);
  }

  lemma PatchesOnOneRowCommute(st: Table, id: int, a: Body, b: Body, t: string, u: string)
    requires WellFormed(st) && LeavesVin(a) && LeavesVin(b) && DisjointKeys(a, b)
    ensures SameButStamps(Serve(Serve(st, Patch(id, a), t).0, Patch(id, b), u).0,
                          Serve(Serve(st, Patch(id, b), t).0, Patch(id, a), u).0)
  {
    PatchWithoutVin(st, id, a, t);
    PatchWithoutVin(st, id, b, t);
    PatchWithoutVin(Serve(st, Patch(id, a), t).0, id, b, u);
    PatchWithoutVin(Serve(st, Patch(id, b), t).0, id, a, u);
    if id in st.rows && a.Object? && b.Object? {
      OverlaysOfRowCommute(id, st.rows[id], a.fields, b.fields, t, u);
    }
  }

  /** Two PATCHes served one after the other, without VINs and without a common key, commute up to
      `updated_at`, on the same row as on different rows. */
  lemma PatchesCommute(st: Table, i: int, a: Body, j: int, b: Body, t: string, u: string)
    requires WellFormed(st) && LeavesVin(a) && LeavesVin(b) && DisjointKeys(a, b)
    ensures SameButStamps(Serve(Serve(st, Patch(i, a), t).0, Patch(j, b), u).0,
                          Serve(Serve(st, Patch(j, b), t).0, Patch(i, a), u).0)
  {
    if i == j {
      PatchesOnOneRowCommute(st, i, a, b, t, u);
    } else {
      PatchWithoutVin(st, i, a, t);
      PatchWithoutVin(st, j, b, t);
      PatchWithoutVin(Serve(st, Patch(i, a), t).0, j, b, u);
      PatchWithoutVin(Serve(st, Patch(j, b), t).0, i, a, u);
    }
  }
}
