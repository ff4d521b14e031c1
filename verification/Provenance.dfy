/** No value out of thin air: where the fields of the rows come from in interleaved runs. */
module Provenance {
  import opened Cars
  import opened CarTable
  import opened Machine
  import opened Requests
  import opened Safety

  /** Request `tid` of the run created or was sent to row `id`, and supplies `v` for field `f`:
      normalised by POST and PUT, as sent by PATCH. */
  ghost predicate Supplies(s: State, tid: ThreadId, id: int, f: Field, v: Value) {
    tid in s.requests &&
    match s.requests[tid]
    case Post(body) => Complete(body) && Created(s, tid, id) && v == Normal(body.fields, f)
    case Put(i, body) => Complete(body) && (i == id || Created(s, tid, id)) && v == Normal(body.fields, f)
    case Patch(i, body) => body.Object? && i == id && Key(f) in body.fields && v == Raw(body.fields, f)
    case DeleteCar(_) => false
  }

  ghost predicate Created(s: State, tid: ThreadId, id: int) {
    id in s.creator && s.creator[id] == tid
  }

  /** The value was there at the start, or some request of the run supplied it for this row. */
  ghost predicate Sourced(rows0: map<int, Row>, s: State, id: int, f: Field, v: Value) {
    || (id in rows0 && v == FieldOf(Decode(id, rows0[id]), f))
    || exists tid :: Supplies(s, tid, id, f, v)
  }

  ghost predicate CarSourced(rows0: map<int, Row>, s: State, id: int, car: Car) {
    forall f: Field :: Sourced(rows0, s, id, f, FieldOf(car, f))
  }

  ghost predicate ThreadSourced(rows0: map<int, Row>, s: State, tid: ThreadId) {
    tid in s.threads && tid in s.requests &&
    match s.threads[tid]
    case Entry(req) => s.requests[tid] == req
    case InsertBegin(_, car) => BuiltBy(s.requests[tid], car)
    case InsertReady(_, car, _) => BuiltBy(s.requests[tid], car)
    case PatchRead(id, fields) => s.requests[tid] == Patch(id, Object(fields))
    case UpdateBegin(_, id, car) => id in s.table.rows ==> CarSourced(rows0, s, id, car)
    case UpdateReady(_, id, car, _) => id in s.table.rows ==> CarSourced(rows0, s, id, car)
    case _ => true
  }

  /** The car is the one that this POST or PUT builds from its body. */
  ghost predicate BuiltBy(req: Request, car: Car) {
    match req
    case Post(body) => Complete(body) && forall f: Field :: FieldOf(car, f) == Normal(body.fields, f)
    case Put(_, body) => Complete(body) && forall f: Field :: FieldOf(car, f) == Normal(body.fields, f)
    case _ => false
  }

  ghost predicate AllSourced(rows0: map<int, Row>, s: State) {
    && (forall id | id in s.table.rows :: CarSourced(rows0, s, id, Decode(id, s.table.rows[id])))
    && (forall tid | tid in s.threads :: ThreadSourced(rows0, s, tid))
  }

  /** The history only grows, so what has a source keeps it. */
  ghost predicate HistoryGrows(s: State, s': State) {
    && (forall tid | tid in s.requests :: tid in s'.requests && s'.requests[tid] == s.requests[tid])
    && (forall id | id in s.creator :: id in s'.creator && s'.creator[id] == s.creator[id])
  }

  lemma HistoryNext(s: State, e: Event)
    requires Inv(s)
    ensures HistoryGrows(s, Next(s, e))
  {
  }

  lemma CarSourcedGrows(rows0: map<int, Row>, s: State, s': State, id: int, car: Car)
    requires HistoryGrows(s, s') && CarSourced(rows0, s, id, car)
    ensures CarSourced(rows0, s', id, car)
  {
    forall f: Field ensures Sourced(rows0, s', id, f, FieldOf(car, f)) {
      assert Sourced(rows0, s, id, f, FieldOf(car, f));
      if tid :| Supplies(s, tid, id, f, FieldOf(car, f)) {
        assert Supplies(s', tid, id, f, FieldOf(car, f));
      }
    }
  }

  lemma NewCarBuilt(req: Request, id: int, body: Body)
    requires Complete(body) && (req == Post(body) || (req.Put? && req.body == body))
    ensures BuiltBy(req, NewCar(id, body.fields))
  {
    forall f: Field ensures FieldOf(NewCar(id, body.fields), f) == Normal(body.fields, f) {
      FieldsOfNewAndOverlaid(body.fields, id, BLANK_CAR, f);
    }
  }

  lemma BuiltSupplies(rows0: map<int, Row>, s: State, tid: ThreadId, id: int, car: Car)
    requires tid in s.requests && BuiltBy(s.requests[tid], car)
    requires Created(s, tid, id) || (s.requests[tid].Put? && s.requests[tid].id == id)
    ensures CarSourced(rows0, s, id, car)
  {
    forall f: Field ensures Sourced(rows0, s, id, f, FieldOf(car, f)) {
      assert Supplies(s, tid, id, f, FieldOf(car, f));
    }
  }

  /** The car that a PATCH writes: body values and, even from a stale snapshot, sourced values. */
  lemma OverlaySourced(rows0: map<int, Row>, s: State, tid: ThreadId, id: int, fields: map<string, Json>, car: Car)
    requires tid in s.requests && s.requests[tid] == Patch(id, Object(fields)) && CarSourced(rows0, s, id, car)
    ensures CarSourced(rows0, s, id, Overlay(car, fields))
  {
    forall f: Field ensures Sourced(rows0, s, id, f, FieldOf(Overlay(car, fields), f)) {
      FieldsOfNewAndOverlaid(fields, id, car, f);
      if Key(f) in fields {
        assert Supplies(s, tid, id, f, Raw(fields, f));
      } else {
        assert Sourced(rows0, s, id, f, FieldOf(car, f));
      }
    }
  }

  /** The step's own thread, and the row that it wrote. */
  lemma OwnStepSourced(rows0: map<int, Row>, s: State, tid: ThreadId)
    requires Inv(s) && AllSourced(rows0, s) && tid in s.threads
    ensures var s' := Next(s, Run(tid)); ThreadSourced(rows0, s', tid)
  {
    var s' := Next(s, Run(tid));
    assert ThreadSourced(rows0, s, tid) && ThreadOk(s.threads[tid], s);
    HistoryNext(s, Run(tid));
    match s.threads[tid]
    case Entry(Post(body)) =>
      if Complete(body) { NewCarBuilt(Post(body), 0, body); }
    case Entry(Put(id, body)) =>
      if Complete(body) {
        NewCarBuilt(Put(id, body), id, body);
        BuiltSupplies(rows0, s', tid, id, NewCar(id, body.fields));
      }
    case PatchRead(id, fields) =>
      if id in s.table.rows {
        OverlaySourced(rows0, s, tid, id, fields, Decode(id, s.table.rows[id]));
        CarSourcedGrows(rows0, s, s', id, Overlay(Decode(id, s.table.rows[id]), fields));
      }
    case UpdateBegin(_, id, car) =>
      if id in s.table.rows { CarSourcedGrows(rows0, s, s', id, car); }
    case _ =>
  }

  lemma StoredSourced(rows0: map<int, Row>, s: State, id: int, car: Car, t: string, u: string)
    requires CarSourced(rows0, s, id, car)
    ensures CarSourced(rows0, s, id, Decode(id, Encode(car, t, u)))
  {
    forall f: Field ensures Sourced(rows0, s, id, f, FieldOf(Decode(id, Encode(car, t, u)), f)) {
      assert FieldOf(Decode(id, Encode(car, t, u)), f) == FieldOf(car, f);
      assert Sourced(rows0, s, id, f, FieldOf(car, f));
    }
  }

  lemma RowsSourced(rows0: map<int, Row>, s: State, e: Event, id: int)
    requires Inv(s) && AllSourced(rows0, s) && id in Next(s, e).table.rows
    ensures CarSourced(rows0, Next(s, e), id, Decode(id, Next(s, e).table.rows[id]))
  {
    var s' := Next(s, e);
    HistoryNext(s, e);
    if id in s.table.rows && s'.table.rows[id] == s.table.rows[id] {
      CarSourcedGrows(rows0, s, s', id, Decode(id, s.table.rows[id]));
    } else {
      var th := s.threads[e.tid];
      assert ThreadSourced(rows0, s, e.tid);
      if th.InsertReady? {
        BuiltSupplies(rows0, s', e.tid, id, th.car);
        StoredSourced(rows0, s', id, th.car, th.stamp, th.stamp);
      } else {
        CarSourcedGrows(rows0, s, s', id, th.car);
        StoredSourced(rows0, s', id, th.car, s.table.rows[id].createdAt, th.stamp);
      }
    }
  }

  lemma OtherThreadSourced(rows0: map<int, Row>, s: State, e: Event, tid: ThreadId)
    requires Inv(s) && AllSourced(rows0, s) && tid in s.threads && e != Run(tid)
    ensures ThreadSourced(rows0, Next(s, e), tid)
  {
    var s' := Next(s, e);
    var th := s.threads[tid];
    assert ThreadSourced(rows0, s, tid) && ThreadOk(th, s) && s'.threads[tid] == th;
    HistoryNext(s, e);
    if th.UpdateBegin? || th.UpdateReady? {
      if th.id in s'.table.rows {
        if th.id !in s.table.rows {
          DeadStaysDeadNext(s, e, th.id);
          assert false;
        }
        CarSourcedGrows(rows0, s, s', th.id, th.car);
      }
    }
  }

  lemma SourcedNext(rows0: map<int, Row>, s: State, e: Event)
    requires Inv(s) && AllSourced(rows0, s)
    ensures AllSourced(rows0, Next(s, e))
  {
    var s' := Next(s, e);
    HistoryNext(s, e);
    InvNext(s, e);
    forall id | id in s'.table.rows ensures CarSourced(rows0, s', id, Decode(id, s'.table.rows[id])) {
      RowsSourced(rows0, s, e, id);
    }
    forall tid | tid in s'.threads ensures ThreadSourced(rows0, s', tid) {
      if e == Run(tid) {
        OwnStepSourced(rows0, s, tid);
      } else if tid in s.threads {
        OtherThreadSourced(rows0, s, e, tid);
      }
    }
  }

  lemma {:induction false} SourcedExec(rows0: map<int, Row>, s: State, es: seq<Event>)
    requires Inv(s) && AllSourced(rows0, s)
    ensures AllSourced(rows0, Exec(s, es))
    decreases |es|
  {
    if es == [] {
    } else {
      InvNext(s, es[0]);
      SourcedNext(rows0, s, es[0]);
      SourcedExec(rows0, Next(s, es[0]), es[1..]);
    }
  }

  /** In every run from a fresh connection, every user-supplied field of every live row holds its
      initial value or one that a request supplied for that very row. */
  lemma NoValueFromThinAir(s: State, es: seq<Event>, id: int, f: Field)
    requires Start(s) && id in Exec(s, es).table.rows
    ensures Sourced(s.table.rows, Exec(s, es), id, f, FieldOf(Decode(id, Exec(s, es).table.rows[id]), f))
  {
    var rows0 := s.table.rows;
    StartInv(s);
    forall k | k in rows0 ensures CarSourced(rows0, s, k, Decode(k, rows0[k])) {
      forall g: Field ensures Sourced(rows0, s, k, g, FieldOf(Decode(k, rows0[k]), g)) {
      }
    }
    SourcedExec(rows0, s, es);
    assert CarSourced(rows0, Exec(s, es), id, Decode(id, Exec(s, es).table.rows[id]));
  }
}
