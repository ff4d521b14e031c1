/** Runs that show what does not hold, and why the conditions of the other results are needed. */
module Witnesses {
  import opened Batches
  import opened Cars
  import opened CarTable
  import opened Machine
  import opened Races
  import opened Reduction
  import opened Requests
  import opened Routes
  import opened Safety
  import opened StringUtils
  import opened Timestamps
  import opened Vins

  /** Two requests arrive. */
  function Arrivals(p: ThreadId, a: Request, q: ThreadId, b: Request): seq<Event> {
    [Arrive(p, a), Arrive(q, b)]
  }

  lemma AfterArrivals(s: State, p: ThreadId, a: Request, q: ThreadId, b: Request)
    requires p != q && p !in s.threads && q !in s.threads
    ensures var s' := Exec(s, Arrivals(p, a, q, b));
      s'.table == s.table && s'.clock == s.clock && s'.threads == s.threads[p := Entry(a)][q := Entry(b)]
  {
    var s1 := Next(s, Arrive(p, a));
    var s2 := Next(s1, Arrive(q, b));
    assert Arrivals(p, a, q, b)[1..] == [Arrive(q, b)] && [Arrive(q, b)][1..] == [];
    assert Exec(s1, [Arrive(q, b)]) == Exec(s2, []);
  }

  lemma AfterTick(s: State, now: DateTime)
    ensures Exec(s, [Tick(now)]) == s.(clock := now)
  {
    assert [Tick(now)][1..] == [];
  }

  // ----- POST may answer with another request's row -----

  function ForeignAnswerRun(p: ThreadId, a: Body, q: ThreadId, b: Body): seq<Event> {
    Arrivals(p, Post(a), q, Post(b)) + (Runs(p, 3) + (Runs(q, 3) + Runs(p, 2)))
  }

  lemma PostUntilInserted(body: Body, st: Table, now: DateTime, after: Table)
    requires Complete(body) && Insert(st, NewCar(0, body.fields), Stamp(now)) == (after, true)
    ensures Steps(Entry(Post(body)), st, now, 3) == (after, InsertDone(ForPost, after.high))
  {
    var car := NewCar(0, body.fields);
    assert Steps(Entry(Post(body)), st, now, 3) == Steps(InsertBegin(ForPost, car), st, now, 2);
    assert Steps(InsertBegin(ForPost, car), st, now, 2) == Steps(InsertReady(ForPost, car, Stamp(now)), st, now, 1);
  }

  lemma PostAfterInserted(own: int, st: Table, now: DateTime)
    ensures Steps(InsertDone(ForPost, own), st, now, 2)
      == (st, Done(Created(st.lastRowId, Get(st, st.lastRowId).0)))
  {
    assert Steps(InsertDone(ForPost, own), st, now, 2) == Steps(ReadBack(ForPost, st.lastRowId, own), st, now, 1);
  }

  lemma ForeignAnswerOutcome(s: State, p: ThreadId, a: Body, q: ThreadId, b: Body, t1: Table, t2: Table)
    requires p != q && p !in s.threads && q !in s.threads && Complete(a) && Complete(b)
    requires Insert(s.table, NewCar(0, a.fields), Stamp(s.clock)) == (t1, true)
    requires Insert(t1, NewCar(0, b.fields), Stamp(s.clock)) == (t2, true)
    ensures var s' := Exec(s, ForeignAnswerRun(p, a, q, b));
      s'.table == t2 && p in s'.threads && s'.threads[p] == Done(Created(t2.lastRowId, Get(t2, t2.lastRowId).0))
  {
    var s0 := Exec(s, Arrivals(p, Post(a), q, Post(b)));
    AfterArrivals(s, p, Post(a), q, Post(b));
    ExecAppend(s, Arrivals(p, Post(a), q, Post(b)), Runs(p, 3) + (Runs(q, 3) + Runs(p, 2)));

    var s1 := Exec(s0, Runs(p, 3));
    ExecRuns(s0, p, 3);
    PostUntilInserted(a, s0.table, s0.clock, t1);
    ExecAppend(s0, Runs(p, 3), Runs(q, 3) + Runs(p, 2));

    var s2 := Exec(s1, Runs(q, 3));
    ExecRuns(s1, q, 3);
    PostUntilInserted(b, s1.table, s1.clock, t2);
    ExecAppend(s1, Runs(q, 3), Runs(p, 2));

    ExecRuns(s2, p, 2);
    PostAfterInserted(t1.high, t2, s2.clock);
  }

  /** The car is stored under `id`, at time `now`. */
  predicate InsertedAs(st: Table, id: int, car: Car, now: string) {
    Get(st, id) == (car.(carId := id, createdAt := now, updatedAt := now), true)
  }

  lemma TwoInserts(st: Table, a: Car, b: Car, now: string, t1: Table, t2: Table)
    requires Insert(st, a, now) == (t1, true) && Insert(t1, b, now) == (t2, true)
    ensures t2.lastRowId == st.high + 2
    ensures InsertedAs(t2, st.high + 1, a, now) && InsertedAs(t2, st.high + 2, b, now)
  {
    StoreAndRead(a, st.high + 1, Encode(a, now, now), now, now);
    StoreAndRead(b, st.high + 2, Encode(b, now, now), now, now);
  }

  /** Whenever both inserts would succeed, the first POST can be made to answer with the row, and the
      location, of the second: its own row is the one before. */
  lemma PostAnswersWithForeignRow(s: State, p: ThreadId, a: Body, q: ThreadId, b: Body, t1: Table, t2: Table)
    requires p != q && p !in s.threads && q !in s.threads && Complete(a) && Complete(b)
    requires Insert(s.table, NewCar(0, a.fields), Stamp(s.clock)) == (t1, true)
    requires Insert(t1, NewCar(0, b.fields), Stamp(s.clock)) == (t2, true)
    ensures var s' := Exec(s, ForeignAnswerRun(p, a, q, b));
      && s'.table == t2 && p in s'.threads
      && InsertedAs(t2, s.table.high + 1, NewCar(0, a.fields), Stamp(s.clock))
      && InsertedAs(t2, s.table.high + 2, NewCar(0, b.fields), Stamp(s.clock))
      && s'.threads[p] == Done(Created(s.table.high + 2, Get(t2, s.table.high + 2).0))
  {
    TwoInserts(s.table, NewCar(0, a.fields), NewCar(0, b.fields), Stamp(s.clock), t1, t2);
    ForeignAnswerOutcome(s, p, a, q, b, t1, t2);
  }

  /** When the two cars differ, neither order of serving the POSTs one after the other gives that
      answer, at whatever times: a request that inserts cannot be part of a reduction to serial service. */
  lemma ForeignAnswerIsNotSerial(st: Table, a: Body, b: Body, foreign: Car, now: string, t: string, u: string)
    requires WellFormed(st) && Complete(a) && Complete(b) && NewCar(0, a.fields) != NewCar(0, b.fields)
    requires foreign == NewCar(0, b.fields).(carId := st.high + 2, createdAt := now, updatedAt := now)
    ensures Serve(st, Post(a), t).1 != Created(st.high + 2, foreign)
    ensures Serve(Serve(st, Post(b), u).0, Post(a), t).1 != Created(st.high + 2, foreign)
  {
    var st1 := Serve(st, Post(b), u).0;
    InsertKeeps(st, NewCar(0, b.fields), u);
    PostCreates(st, a, t);
    PostCreates(st, b, u);
    PostCreates(st1, a, t);
    var car := NewCar(0, a.fields);
    assert car == car.(carId := 0, createdAt := "", updatedAt := "");
    assert foreign.(carId := 0, createdAt := "", updatedAt := "") == NewCar(0, b.fields);
  }

  // ----- POST may answer with a blank car -----

  function DeletedAnswerRun(p: ThreadId, a: Body, q: ThreadId, id: int): seq<Event> {
    (Arrivals(p, Post(a), q, DeleteCar(id)) + Runs(p, 4)) + (Runs(q, 2) + Runs(p, 1))
  }

  lemma PostUntilRowIdRead(body: Body, st: Table, now: DateTime, after: Table)
    requires Complete(body) && Insert(st, NewCar(0, body.fields), Stamp(now)) == (after, true)
    ensures Steps(Entry(Post(body)), st, now, 4) == (after, ReadBack(ForPost, after.high, after.high))
  {
    PostUntilInserted(body, st, now, after);
    StepsAppend(Entry(Post(body)), st, now, 3);
  }

  lemma AfterRowIdRead(s: State, p: ThreadId, a: Body, q: ThreadId, b: Request, after: Table)
    requires p != q && p !in s.threads && q !in s.threads && Complete(a)
    requires Insert(s.table, NewCar(0, a.fields), Stamp(s.clock)) == (after, true)
    ensures var s' := Exec(s, Arrivals(p, Post(a), q, b) + Runs(p, 4));
      && s'.table == after && p in s'.threads && q in s'.threads
      && s'.threads[p] == ReadBack(ForPost, after.high, after.high) && s'.threads[q] == Entry(b)
  {
    var s0 := Exec(s, Arrivals(p, Post(a), q, b));
    AfterArrivals(s, p, Post(a), q, b);
    ExecAppend(s, Arrivals(p, Post(a), q, b), Runs(p, 4));
    ExecRuns(s0, p, 4);
    PostUntilRowIdRead(a, s0.table, s0.clock, after);
  }

  lemma InsertThenDelete(st: Table, car: Car, now: string)
    requires WellFormed(st) && Insert(st, car, now).1
    ensures var after := Insert(st, car, now).0;
      after.high == st.high + 1 && after.high in after.rows && after.rows - {after.high} == st.rows
  {
    assert st.high + 1 !in st.rows;
  }

  lemma DeletedInTwoSteps(id: int, st: Table, now: DateTime)
    requires id in st.rows
    ensures Steps(Entry(DeleteCar(id)), st, now, 2) == (Delete(st, id), Done(NoContent))
  {
    assert Steps(Entry(DeleteCar(id)), st, now, 2) == Steps(DeleteReady(id), st, now, 1);
  }

  lemma DeletedBeforeReadBack(s: State, p: ThreadId, q: ThreadId, id: int)
    requires p != q && p in s.threads && q in s.threads && id in s.table.rows
    requires s.threads[p] == ReadBack(ForPost, id, id) && s.threads[q] == Entry(DeleteCar(id))
    ensures var s' := Exec(s, Runs(q, 2) + Runs(p, 1));
      && s'.table.rows == s.table.rows - {id}
      && s'.threads == s.threads[q := Done(NoContent)][p := Done(Created(id, BLANK_CAR))]
  {
    var s1 := Exec(s, Runs(q, 2));
    ExecRuns(s, q, 2);
    DeletedInTwoSteps(id, s.table, s.clock);
    ExecAppend(s, Runs(q, 2), Runs(p, 1));
    ExecRuns(s1, p, 1);
    assert Steps(ReadBack(ForPost, id, id), s1.table, s1.clock, 1) == (s1.table, Done(Created(id, BLANK_CAR)));
  }

  lemma DeletedAnswerOutcome(s: State, p: ThreadId, a: Body, q: ThreadId, after: Table)
    requires p != q && p !in s.threads && q !in s.threads && Complete(a) && after.high in after.rows
    requires Insert(s.table, NewCar(0, a.fields), Stamp(s.clock)) == (after, true)
    ensures var s' := Exec(s, DeletedAnswerRun(p, a, q, after.high));
      && s'.table.rows == after.rows - {after.high}
      && p in s'.threads && s'.threads[p] == Done(Created(after.high, BLANK_CAR))
      && q in s'.threads && s'.threads[q] == Done(NoContent)
  {
    var es, fs := Arrivals(p, Post(a), q, DeleteCar(after.high)) + Runs(p, 4), Runs(q, 2) + Runs(p, 1);
    AfterRowIdRead(s, p, a, q, DeleteCar(after.high), after);
    DeletedBeforeReadBack(Exec(s, es), p, q, after.high);
    ExecAppend(s, es, fs);
  }

  /** A POST whose INSERT would succeed can be made to answer with its own location and the blank car,
      id 0 included: another request deletes the row before it is read back. */
  lemma PostAnswersWithDeletedRow(s: State, p: ThreadId, a: Body, q: ThreadId, after: Table)
    requires WellFormed(s.table) && p != q && p !in s.threads && q !in s.threads && Complete(a)
    requires Insert(s.table, NewCar(0, a.fields), Stamp(s.clock)) == (after, true)
    ensures var s' := Exec(s, DeletedAnswerRun(p, a, q, s.table.high + 1));
      && s'.table.rows == s.table.rows
      && p in s'.threads && s'.threads[p] == Done(Created(s.table.high + 1, BLANK_CAR))
      && q in s'.threads && s'.threads[q] == Done(NoContent)
  {
    InsertThenDelete(s.table, NewCar(0, a.fields), Stamp(s.clock));
    DeletedAnswerOutcome(s, p, a, q, after);
  }

  // ----- PATCH writes back a stale snapshot -----

  /** `p` reads the row and takes its timestamp, `q` is served up to its write, then `p` writes. */
  function StaleRun(p: ThreadId, a: Request, q: ThreadId, b: Request, t: DateTime, u: DateTime): seq<Event> {
    Arrivals(p, a, q, b) + ([Tick(t)] + (Runs(p, 3) + ([Tick(u)] + Runs(q, 4))))
  }

  lemma PatchUntilStamped(id: int, body: Body, st: Table, now: DateTime)
    requires id in st.rows && body.Object?
    ensures Steps(Entry(Patch(id, body)), st, now, 3)
      == (st, UpdateReady(ForPatch, id, Overlay(Decode(id, st.rows[id]), body.fields), Stamp(now)))
  {
    var car := Overlay(Decode(id, st.rows[id]), body.fields);
    assert Steps(Entry(Patch(id, body)), st, now, 3) == Steps(PatchRead(id, body.fields), st, now, 2);
    assert Steps(PatchRead(id, body.fields), st, now, 2) == Steps(UpdateBegin(ForPatch, id, car), st, now, 1);
  }

  lemma WriteWithoutVin(id: int, body: Body, st: Table, now: DateTime)
    requires WellFormed(st) && id in st.rows && body.Object? && LeavesVin(body)
    ensures var car := Overlay(Decode(id, st.rows[id]), body.fields);
      Step(UpdateReady(ForPatch, id, car, Stamp(now)), st, now)
        == (st.(rows := st.rows[id := Encode(car, st.rows[id].createdAt, Stamp(now))]), ReadBack(ForPatch, id, 0))
  {
    assert NullIfEmpty(Overlay(Decode(id, st.rows[id]), body.fields).vin) == st.rows[id].vin;
  }

  lemma PatchUntilWritten(id: int, body: Body, st: Table, now: DateTime)
    requires WellFormed(st) && id in st.rows && body.Object? && LeavesVin(body)
    ensures Steps(Entry(Patch(id, body)), st, now, 4)
      == (st.(rows := st.rows[id := Encode(Overlay(Decode(id, st.rows[id]), body.fields), st.rows[id].createdAt, Stamp(now))]),
          ReadBack(ForPatch, id, 0))
  {
    PatchUntilStamped(id, body, st, now);
    StepsAppend(Entry(Patch(id, body)), st, now, 3);
    WriteWithoutVin(id, body, st, now);
  }

  lemma StaleRunOutcome(s: State, id: int, p: ThreadId, a: Body, q: ThreadId, b: Body, t: DateTime, u: DateTime)
    requires WellFormed(s.table) && id in s.table.rows && p != q && p !in s.threads && q !in s.threads
    requires a.Object? && b.Object? && LeavesVin(b)
    ensures var row := s.table.rows[id];
      var middle := Exec(s, StaleRun(p, Patch(id, a), q, Patch(id, b), t, u));
      && middle.table == s.table.(rows := s.table.rows[id := Encode(Overlay(Decode(id, row), b.fields), row.createdAt, Stamp(u))])
      && p in middle.threads
      && middle.threads[p] == UpdateReady(ForPatch, id, Overlay(Decode(id, row), a.fields), Stamp(t))
  {
    var ra, rb := Patch(id, a), Patch(id, b);
    var s0 := Exec(s, Arrivals(p, ra, q, rb));
    AfterArrivals(s, p, ra, q, rb);
    ExecAppend(s, Arrivals(p, ra, q, rb), [Tick(t)] + (Runs(p, 3) + ([Tick(u)] + Runs(q, 4))));
    var s1 := s0.(clock := t);
    AfterTick(s0, t);
    ExecAppend(s0, [Tick(t)], Runs(p, 3) + ([Tick(u)] + Runs(q, 4)));
    var s2 := Exec(s1, Runs(p, 3));
    ExecRuns(s1, p, 3);
    PatchUntilStamped(id, a, s1.table, t);
    ExecAppend(s1, Runs(p, 3), [Tick(u)] + Runs(q, 4));
    var s3 := s2.(clock := u);
    AfterTick(s2, u);
    ExecAppend(s2, [Tick(u)], Runs(q, 4));
    ExecRuns(s3, q, 4);
    PatchUntilWritten(id, b, s3.table, u);
  }

  lemma OwnVinStillFree(st: Table, id: int, a: Body, b: Body, stamp: string)
    requires WellFormed(st) && id in st.rows && a.Object? && b.Object? && LeavesVin(a) && LeavesVin(b)
    ensures var row := st.rows[id];
      var rows := st.rows[id := Encode(Overlay(Decode(id, row), b.fields), row.createdAt, stamp)];
      !VinTaken(rows, NullIfEmpty(Overlay(Decode(id, row), a.fields).vin), id)
  {
    assert NullIfEmpty(Overlay(Decode(id, st.rows[id]), a.fields).vin) == st.rows[id].vin;
  }

  /** For any two PATCHes on one live row and any two times: in this run the row first holds the
      second PATCH's values and its timestamp, and then, after the first PATCH's write, the first
      one's values over the original row and the first one's timestamp. The second update is lost
      even when the two have no key in common, and `updated_at` goes back when `t` is before `u`. */
  lemma UpdateIsLost(s: State, id: int, p: ThreadId, a: Body, q: ThreadId, b: Body, t: DateTime, u: DateTime)
    requires WellFormed(s.table) && id in s.table.rows && p != q && p !in s.threads && q !in s.threads
    requires a.Object? && b.Object? && LeavesVin(a) && LeavesVin(b)
    ensures var row := s.table.rows[id];
      var middle := Exec(s, StaleRun(p, Patch(id, a), q, Patch(id, b), t, u));
      var last := Next(middle, Run(p));
      && id in middle.table.rows && id in last.table.rows
      && middle.table.rows[id] == Encode(Overlay(Decode(id, row), b.fields), row.createdAt, Stamp(u))
      && last.table.rows[id] == Encode(Overlay(Decode(id, row), a.fields), row.createdAt, Stamp(t))
  {
    StaleRunOutcome(s, id, p, a, q, b, t, u);
    OwnVinStillFree(s.table, id, a, b, Stamp(u));
  }

  lemma {:induction false} ForwardAppend(s: State, es: seq<Event>, fs: seq<Event>)
    requires ClockForward(s, es) && ClockForward(Exec(s, es), fs)
    ensures ClockForward(s, es + fs)
    decreases |es|
  {
    if es == [] {
      assert es + fs == fs;
    } else {
      assert (es + fs)[0] == es[0] && (es + fs)[1..] == es[1..] + fs;
      ForwardAppend(Next(s, es[0]), es[1..], fs);
    }
  }

  lemma {:induction false} ForwardWithoutTicks(s: State, es: seq<Event>)
    requires forall e | e in es :: !e.Tick?
    ensures ClockForward(s, es) && Exec(s, es).clock == s.clock
    decreases |es|
  {
    if es == [] {
    } else {
      assert es[0] in es && forall e | e in es[1..] :: e in es;
      ForwardWithoutTicks(Next(s, es[0]), es[1..]);
    }
  }

  /** One reading of the clock, then events without. */
  lemma ForwardTick(s: State, now: DateTime, es: seq<Event>)
    requires NotAfter(s.clock, now) && Printable(now) && forall e | e in es :: !e.Tick?
    ensures ClockForward(s, [Tick(now)] + es) && Exec(s, [Tick(now)] + es).clock == now
  {
    ForwardWithoutTicks(Next(s, Tick(now)), es);
    assert ([Tick(now)] + es)[1..] == es;
  }

  lemma StaleRunForward(s: State, p: ThreadId, a: Request, q: ThreadId, b: Request, t: DateTime, u: DateTime)
    requires NotAfter(s.clock, t) && NotAfter(t, u) && Printable(t) && Printable(u)
    ensures ClockForward(s, StaleRun(p, a, q, b, t, u) + [Run(p)])
  {
    var es, fs, gs := Arrivals(p, a, q, b), [Tick(t)] + Runs(p, 3), [Tick(u)] + (Runs(q, 4) + [Run(p)]);
    ForwardWithoutTicks(s, es);
    ForwardTick(Exec(s, es), t, Runs(p, 3));
    ForwardTick(Exec(Exec(s, es), fs), u, Runs(q, 4) + [Run(p)]);
    ForwardAppend(Exec(s, es), fs, gs);
    ForwardAppend(s, es, fs + gs);
    assert StaleRun(p, a, q, b, t, u) + [Run(p)] == es + (fs + gs);
  }

  /** With a clock that only goes forward, the last write of that run moves `updated_at` back as soon
      as the two readings of the clock differ. */
  lemma UpdatedAtGoesBack(s: State, id: int, p: ThreadId, a: Body, q: ThreadId, b: Body, t: DateTime, u: DateTime)
    requires WellFormed(s.table) && id in s.table.rows && p != q && p !in s.threads && q !in s.threads
    requires a.Object? && b.Object? && LeavesVin(a) && LeavesVin(b)
    requires NotAfter(s.clock, t) && NotAfter(t, u) && Printable(t) && Printable(u)
    ensures var es := StaleRun(p, Patch(id, a), q, Patch(id, b), t, u);
      var middle := Exec(s, es);
      var last := Next(middle, Run(p));
      && ClockForward(s, es + [Run(p)])
      && id in middle.table.rows && id in last.table.rows
      && (!TextLeq(middle.table.rows[id].updatedAt, last.table.rows[id].updatedAt) <==> t != u)
  {
    StaleRunForward(s, p, Patch(id, a), q, Patch(id, b), t, u);
    UpdateIsLost(s, id, p, a, q, b, t, u);
    TextOrderIsTimeOrder(u, t);
  }

  // ----- PATCH with a VIN -----

  function VinBody(vin: string): Body {
    Object(map["vin" := JString(vin)])
  }

  lemma VinStored(st: Table, id: int, vin: string, now: string)
    requires WellFormed(st) && id in st.rows
    requires vin != "" && forall k | k in st.rows :: st.rows[k].vin != Some(vin)
    ensures var after := Serve(st, Patch(id, VinBody(vin)), now).0;
      && after.rows.Keys == st.rows.Keys && after.rows[id].vin == Some(vin)
      && forall k | k in st.rows && k != id :: after.rows[k] == st.rows[k]
  {
    assert Overlay(Decode(id, st.rows[id]), VinBody(vin).fields).vin == vin;
  }

  /** A request that arrives and is served without interruption. */
  function Alone(p: ThreadId, req: Request): seq<Event> {
    [Arrive(p, req)] + Runs(p, 5)
  }

  lemma ServedAlone(s: State, p: ThreadId, req: Request)
    requires p !in s.threads
    ensures var s', (after, response) := Exec(s, Alone(p, req)), Serve(s.table, req, Stamp(s.clock));
      s'.table == after && s'.clock == s.clock && s'.threads == s.threads[p := Done(response)]
  {
    assert Alone(p, req)[1..] == Runs(p, 5);
    AloneIsServe(Next(s, Arrive(p, req)), p, req);
  }

  /** Wherever a row has a VIN, one PATCH of that VIN in other case, or with blanks around it, gives it
      to another row, unless some row already holds it as sent. */
  lemma PatchMakesLookalikeVin(s: State, p: ThreadId, id: int, other: int, vin: string)
    requires Inv(s) && p !in s.threads && id in s.table.rows && other in s.table.rows && id != other
    requires s.table.rows[other].vin.Some? && SameText(vin, s.table.rows[other].vin.value)
    requires vin != "" && forall k | k in s.table.rows :: s.table.rows[k].vin != Some(vin)
    ensures var rows := Exec(s, Alone(p, Patch(id, VinBody(vin)))).table.rows;
      && id in rows && other in rows && rows[id].vin == Some(vin) && rows[other].vin.Some?
      && SameText(rows[id].vin.value, rows[other].vin.value)
  {
    ServedAlone(s, p, Patch(id, VinBody(vin)));
    VinStored(s.table, id, vin, Stamp(s.clock));
  }

  /** A fresh connection over two cars that differ at most in the VIN. */
  function TwoCars(vin: Option<string>): State {
    var row := Encode(BLANK_CAR, "", "");
    State(Table(map[1 := row.(vin := vin), 2 := row], 2, 0), DateTime(2025, 1, 1, 0, 0, 0), map[], map[], map[])
  }

  lemma TwoCarsStart(vin: Option<string>)
    requires vin != Some("") && CanonicalVin(TextOrEmpty(vin))
    ensures CanonicalStart(TwoCars(vin)) && Inv(TwoCars(vin))
  {
    TrimIdentity("", IsTrimChar);
    StartInv(TwoCars(vin));
  }

  lemma AloneSends(others: set<string>, p: ThreadId, id: int, vin: string)
    requires vin in others
    ensures PatchesSend(others, Alone(p, Patch(id, VinBody(vin))))
  {
  }

  /** One PATCH of a VIN that is neither canonical nor blank is enough. */
  lemma OnePatchIsEnough(others: set<string>, vin: string)
    requires vin in others && !CanonicalVin(vin) && !Blank(vin)
    ensures LookalikesReachable(others)
  {
    UpperCaseIdempotent(vin);
    UpperCaseCanonical(vin, UpperCase(vin));
    TrimIdentity("", IsTrimChar);
    var s := TwoCars(Some(UpperCase(vin)));
    TwoCarsStart(Some(UpperCase(vin)));
    PatchMakesLookalikeVin(s, 0, 2, 1, vin);
    var es := Alone(0, Patch(2, VinBody(vin)));
    AloneSends(others, 0, 2, vin);
    assert Lookalikes(Exec(s, es).table.rows);
  }

  /** After one PATCH of a VIN that no row holds. */
  lemma AfterVinPatch(s: State, p: ThreadId, id: int, vin: string)
    requires Inv(s) && p !in s.threads && id in s.table.rows
    requires vin != "" && forall k | k in s.table.rows :: s.table.rows[k].vin != Some(vin)
    ensures var s' := Exec(s, Alone(p, Patch(id, VinBody(vin))));
      && Inv(s') && s'.threads.Keys == s.threads.Keys + {p} && s'.table.rows.Keys == s.table.rows.Keys
      && s'.table.rows[id].vin == Some(vin)
      && forall k | k in s.table.rows && k != id :: s'.table.rows[k] == s.table.rows[k]
  {
    ServedAlone(s, p, Patch(id, VinBody(vin)));
    VinStored(s.table, id, vin, Stamp(s.clock));
    InvExec(s, Alone(p, Patch(id, VinBody(vin))));
  }

  /** Two PATCHes of different blank VINs are enough. */
  lemma TwoBlanksAreEnough(others: set<string>, v: string, w: string)
    requires v in others && w in others && v != w && Blank(v) && Blank(w)
    ensures LookalikesReachable(others)
  {
    UpperCaseCanonical(w, v);
    TrimIdentity("", IsTrimChar);
    var s := TwoCars(None);
    TwoCarsStart(None);
    var es, fs := Alone(0, Patch(1, VinBody(v))), Alone(1, Patch(2, VinBody(w)));
    AfterVinPatch(s, 0, 1, v);
    var s1 := Exec(s, es);
    PatchMakesLookalikeVin(s1, 1, 2, 1, w);
    ExecAppend(s, es, fs);
    AloneSends(others, 0, 1, v);
    AloneSends(others, 1, 2, w);
    assert PatchesSend(others, es + fs);
    assert Lookalikes(Exec(s, es + fs).table.rows);
  }

  /** Exactly which VINs in PATCHes can make two rows look alike, when every other VIN is canonical. */
  lemma WhenLookalikesExist(others: set<string>)
    ensures LookalikesReachable(others) <==> Harmful(others)
  {
    if vin :| vin in others && !CanonicalVin(vin) && !Blank(vin) {
      OnePatchIsEnough(others, vin);
    } else if v, w :| v in others && w in others && v != w && Blank(v) && Blank(w) {
      TwoBlanksAreEnough(others, v, w);
    } else {
      forall s: State, es: seq<Event> | CanonicalStart(s) && PatchesSend(others, es)
        ensures !Lookalikes(Exec(s, es).table.rows)
      {
        VinsDistinctAsText(others, s, es);
      }
    }
  }

  lemma VinWinner(st: Table, i: int, j: int, vin: string, t: string, u: string) returns (after: Table)
    requires WellFormed(st) && i in st.rows && j in st.rows && i != j
    requires vin != "" && forall k | k in st.rows :: st.rows[k].vin != Some(vin)
    ensures after == Serve(Serve(st, Patch(i, VinBody(vin)), t).0, Patch(j, VinBody(vin)), u).0
    ensures i in after.rows && j in after.rows && after.rows[i].vin == Some(vin) && after.rows[j].vin == st.rows[j].vin
  {
    var first := Serve(st, Patch(i, VinBody(vin)), t).0;
    after := Serve(first, Patch(j, VinBody(vin)), u).0;
    VinStored(st, i, vin, t);
    assert Overlay(Decode(j, st.rows[j]), VinBody(vin).fields).vin == vin;
    assert VinTaken(first.rows, Some(vin), j);
  }

  /** Of two PATCHes on different rows with one new VIN the first one served wins. */
  lemma FirstPatchWins(st: Table, i: int, j: int, vin: string, t: string, u: string)
    requires WellFormed(st) && i in st.rows && j in st.rows && i != j
    requires vin != "" && forall k | k in st.rows :: st.rows[k].vin != Some(vin)
    ensures !SameButStamps(Serve(Serve(st, Patch(i, VinBody(vin)), t).0, Patch(j, VinBody(vin)), u).0,
                           Serve(Serve(st, Patch(j, VinBody(vin)), t).0, Patch(i, VinBody(vin)), u).0)
  {
    var ij := VinWinner(st, i, j, vin, t, u);
    var ji := VinWinner(st, j, i, vin, t, u);
    assert ij.rows[i].vin != ji.rows[i].vin;
    assert ij.rows[i].(updatedAt := "").vin == ij.rows[i].vin && ji.rows[i].(updatedAt := "").vin == ji.rows[i].vin;
  }

  // ----- Races for a VIN, in batches -----

  /** A VIN that no row holds makes no request fail for certain. */
  lemma FreeVinNotRefused(s: State, t: ThreadId)
    requires SentBy(s, t).Some? && forall k | k in s.table.rows :: s.table.rows[k].vin != Some(SentBy(s, t).value.vin)
    ensures !Refused(s, t)
  {
    forall blocked | Blocked(s, blocked) ensures t !in blocked {
      assert forall k :: !BlockedBy(s, t, k, blocked);
    }
  }

  /** Any batch in which two requests send one VIN that no row holds: its outcome depends on the order. */
  lemma VinRaceDependsOnOrder(s: State, t: ThreadId, u: ThreadId)
    requires Batch(s) && t != u && SentBy(s, t).Some? && SentBy(s, u).Some?
    requires SentBy(s, t).value.vin == SentBy(s, u).value.vin != ""
    requires forall k | k in s.table.rows :: s.table.rows[k].vin != Some(SentBy(s, t).value.vin)
    ensures !RunsDecided(s) && !OrdersDecided(s)
  {
    FreeVinNotRefused(s, t);
    FreeVinNotRefused(s, u);
    OrderMattersIffRace(s);
  }

  /** Two requests that swap the VINs of their rows. */
  ghost predicate Swap(s: State, t: ThreadId, u: ThreadId) {
    && t != u && (forall x :: Active(s, x) <==> x == t || x == u) && SentBy(s, t).Some? && SentBy(s, u).Some?
    && Target(s, t) in s.table.rows && Target(s, u) in s.table.rows
    && s.table.rows[Target(s, u)].vin == Some(SentBy(s, t).value.vin)
    && s.table.rows[Target(s, t)].vin == Some(SentBy(s, u).value.vin)
  }

  lemma SwapIsNoRace(s: State, t: ThreadId, u: ThreadId)
    requires Swap(s, t, u) && Target(s, t) != Target(s, u)
    ensures Refused(s, t) && Refused(s, u) && VinsApart(s)
  {
    var both := {t, u};
    assert KeepsVin(s, Target(s, u), both) && KeepsVin(s, Target(s, t), both);
    assert BlockedBy(s, t, Target(s, u), both) && BlockedBy(s, u, Target(s, t), both);
    assert Blocked(s, both) && t in both && u in both;
  }

  /** A swap of VINs is no race: each request keeps the other from writing, in every run. */
  lemma SwapAlwaysFails(s: State, t: ThreadId, u: ThreadId, es: seq<Event>)
    requires Batch(s) && Swap(s, t, u) && CompleteRun(s, es)
    ensures VinsApart(s)
    ensures var s' := Exec(s, es);
      && t in s'.threads && s'.threads[t] == Done(Response.Failed)
      && u in s'.threads && s'.threads[u] == Done(Response.Failed)
  {
    SwapIsNoRace(s, t, u);
    assert Ready(s);
    AlongStart(s);
    AlongExec(s, s, es);
    FinishedRequest(s, es, t);
    FinishedRequest(s, es, u);
  }
}
