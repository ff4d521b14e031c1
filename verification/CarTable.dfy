/** The `cars` table on one SQLite connection, statement by statement (`src/database/database.cpp`).
    Each function is one statement, and a statement is atomic. */
module CarTable {
  import opened Cars

  /** The rows by key, the AUTOINCREMENT high-water mark, and the connection's last inserted rowid. */
  datatype Table = Table(rows: map<int, Row>, high: nat, lastRowId: nat)

  /** The UNIQUE constraint: some other row holds exactly this VIN. NULLs never clash. */
  predicate VinTaken(rows: map<int, Row>, vin: Option<string>, self: int) {
    vin.Some? && exists k | k in rows :: k != self && rows[k].vin == vin
  }

  /** `INSERT`: a failed one changes nothing, a successful one takes an id above every id ever used. */
  function Insert(st: Table, car: Car, now: string): (r: (Table, bool)) {
    var id := st.high + 1;
    if VinTaken(st.rows, NullIfEmpty(car.vin), id) then (st, false)
    else (Table(st.rows[id := Encode(car, now, now)], id, id), true)
  }

  /** `UPDATE ... WHERE id=?`: succeeds without effect when no row matches. */
  function Update(st: Table, id: int, car: Car, now: string): (r: (Table, bool)) {
    if id !in st.rows then (st, true)
    else if VinTaken(st.rows, NullIfEmpty(car.vin), id) then (st, false)
    else (st.(rows := st.rows[id := Encode(car, st.rows[id].createdAt, now)]), true)
  }

  /** `DELETE ... WHERE id=?` */
  function Delete(st: Table, id: int): Table {
    st.(rows := st.rows - {id})
  }

  /** `getCarById`: the blank car when nothing matches. */
  function Get(st: Table, id: int): (r: (Car, bool)) {
    if id in st.rows then (Decode(id, st.rows[id]), true) else (BLANK_CAR, false)
  }

  /** Live non-empty VINs are pairwise distinct. */
  ghost predicate VinsDistinct(rows: map<int, Row>) {
    forall i, j | i in rows && j in rows && i != j && rows[i].vin.Some? :: rows[i].vin != rows[j].vin
  }

  /** What every statement keeps. */
  ghost predicate WellFormed(st: Table) {
    && (forall id | id in st.rows :: 1 <= id <= st.high && RowOk(st.rows[id]))
    && st.lastRowId <= st.high
    && VinsDistinct(st.rows)
  }

  lemma ClashAt(st: Table, id: int, row: Row)
    requires WellFormed(st)
    ensures VinTaken(st.rows, row.vin, id) <==> !VinsDistinct(st.rows[id := row])
  {
    var after := st.rows[id := row];
    if VinTaken(st.rows, row.vin, id) {
      var k :| k in st.rows && k != id && st.rows[k].vin == row.vin;
      assert k in after && after[k].vin == after[id].vin;
    }
  }

  /** An insert or update is rejected exactly when it would leave two rows with one VIN. */
  lemma RejectedIffClash(st: Table, id: int, car: Car, now: string)
    requires WellFormed(st)
    ensures Insert(st, car, now).1 <==> VinsDistinct(st.rows[st.high + 1 := Encode(car, now, now)])
    ensures id in st.rows ==>
      (Update(st, id, car, now).1 <==> VinsDistinct(st.rows[id := Encode(car, st.rows[id].createdAt, now)]))
  {
    ClashAt(st, st.high + 1, Encode(car, now, now));
    if id in st.rows {
      ClashAt(st, id, Encode(car, st.rows[id].createdAt, now));
    }
  }

  lemma InsertKeeps(st: Table, car: Car, now: string)
    requires WellFormed(st)
    ensures WellFormed(Insert(st, car, now).0)
  {
  }

  lemma UpdateKeeps(st: Table, id: int, car: Car, now: string)
    requires WellFormed(st)
    ensures WellFormed(Update(st, id, car, now).0)
  {
  }

  lemma DeleteKeeps(st: Table, id: int)
    requires WellFormed(st)
    ensures WellFormed(Delete(st, id))
  {
  }
}
