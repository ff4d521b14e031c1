/** The `Database` class (`src/database/database.cpp`), used by one request at a time. */
module DatabaseClass {
  import opened Cars
  import opened CarTable
  import opened Listing

  class Database {
    var rows: map<int, Row>
    var high: nat
    var lastRowId: nat

    ghost function Contents(): Table
      reads this
    {
      Table(rows, high, lastRowId)
    }

    ghost predicate Valid()
      reads this
    {
      WellFormed(Contents())
    }

    constructor ()
      ensures Valid() && Contents() == Table(map[], 0, 0)
    {
      rows, high, lastRowId := map[], 0, 0;
    }

    /** `newId` is a reference parameter in the source: it keeps the caller's value on failure. */
    method InsertCar(car: Car, callerId: int, now: string) returns (ok: bool, newId: int)
      requires Valid()
      modifies this
      ensures Valid()
      ensures (Contents(), ok) == Insert(old(Contents()), car, now)
      ensures newId == if ok then Contents().lastRowId else callerId
    {
      InsertKeeps(Contents(), car, now);
      newId := callerId;
      var row := Row(car.make, car.model, car.year, car.price, car.mileage, None, None, None, now, now);
      if car.color != "" {
        row := row.(color := Some(car.color));
      }
      if car.vin != "" {
        row := row.(vin := Some(car.vin));
      }
      if car.imageDataUrl != "" {
        row := row.(image := Some(car.imageDataUrl));
      }
      ok := !VinTaken(rows, row.vin, high + 1);
      if !ok {
        return;
      }
      high := high + 1;
      rows := rows[high := row];
      lastRowId := high;
      newId := lastRowId;
    }

    method UpdateCar(id: int, car: Car, now: string) returns (ok: bool)
      requires Valid()
      modifies this`rows
      ensures Valid()
      ensures (Contents(), ok) == Update(old(Contents()), id, car, now)
    {
      UpdateKeeps(Contents(), id, car, now);
      if id !in rows {
        return true;
      }
      var row := rows[id].(
        make := car.make, model := car.model, year := car.year, price := car.price, mileage := car.mileage,
        color := None, vin := None, image := None, updatedAt := now);
      if car.color != "" {
        row := row.(color := Some(car.color));
      }
      if car.vin != "" {
        row := row.(vin := Some(car.vin));
      }
      if car.imageDataUrl != "" {
        row := row.(image := Some(car.imageDataUrl));
      }
      ok := !VinTaken(rows, row.vin, id);
      if ok {
        rows := rows[id := row];
      }
    }

    method DeleteCar(id: int) returns (ok: bool)
      requires Valid()
      modifies this`rows
      ensures Valid() && ok
      ensures Contents() == Delete(old(Contents()), id)
    {
      DeleteKeeps(Contents(), id);
      rows := rows - {id};
      ok := true;
    }

    method GetCarById(id: int) returns (car: Car, found: bool)
      ensures (car, found) == Get(Contents(), id)
    {
      car, found := BLANK_CAR, false;
      if id in rows {
        found := true;
        var row := rows[id];
        car := car.(carId := id, make := row.make, model := row.model, year := row.year, price := row.price,
                    mileage := row.mileage);
        car := car.(color := TextOrEmpty(row.color), vin := TextOrEmpty(row.vin),
                    imageDataUrl := TextOrEmpty(row.image), createdAt := row.createdAt, updatedAt := row.updatedAt);
      }
    }

    method CarExists(id: int) returns (exists_: bool)
      ensures exists_ <==> id in Contents().rows
    {
      exists_ := id in rows;
    }

    method GetTotalCarCount() returns (count: nat)
      ensures count == |Contents().rows|
    {
      count := |rows|;
    }

    /** `order` is the order in which SQLite's plan delivers the rows. */
    method GetAllCars(order: seq<int>, limit: int, offset: int) returns (cars: seq<Car>)
      requires IsListing(rows, order)
      ensures forall id | id in Page(order, limit, offset) :: id in rows
      ensures cars == FullCars(rows, Page(order, limit, offset))
    {
      var ids := Page(order, limit, offset);
      cars := [];
      var i := 0;
      while i < |ids|
        invariant i == |cars| <= |ids|
        invariant forall k | 0 <= k < i :: ids[k] in rows && cars[k] == Decode(ids[k], rows[ids[k]])
      {
        assert ids[i] in order;
        var car, _ := GetCarById(ids[i]);
        cars := cars + [car];
        i := i + 1;
      }
    }

    /** The same page without the image column. */
    method GetAllCarsSummary(order: seq<int>, limit: int, offset: int) returns (cars: seq<Car>)
      requires IsListing(rows, order)
      ensures forall id | id in Page(order, limit, offset) :: id in rows
      ensures |cars| == |Page(order, limit, offset)|
      ensures forall k | 0 <= k < |cars| :: cars[k] == WithoutImage(FullCars(rows, Page(order, limit, offset))[k])
      ensures forall k | 0 <= k < |cars| ::
        var id := Page(order, limit, offset)[k]; Summarises(cars[k], Decode(id, rows[id]))
    {
      var ids := Page(order, limit, offset);
      cars := [];
      var i := 0;
      while i < |ids|
        invariant i == |cars| <= |ids|
        invariant forall k | 0 <= k < i :: ids[k] in rows && cars[k] == WithoutImage(Decode(ids[k], rows[ids[k]]))
      {
        var id := ids[i];
        assert id in order;
        var row := rows[id];
        var car := Car(id, row.make, row.model, row.year, row.price, row.mileage,
                       TextOrEmpty(row.color), TextOrEmpty(row.vin), "", row.createdAt, row.updatedAt);
        cars := cars + [car];
        i := i + 1;
      }
    }
  }
}
