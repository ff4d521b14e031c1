/** Counting rows, and knowing one's own row, over interleaved runs. */
module Conservation {
  import opened Cars
  import opened CarTable
  import opened Machine
  import opened Requests
  import opened Safety

  /** The event runs an INSERT that succeeds. */
  predicate InsertHit(s: State, e: Event) {
    && e.Run? && e.tid in s.threads && s.threads[e.tid].InsertReady?
    && Insert(s.table, s.threads[e.tid].car, s.threads[e.tid].stamp).1
  }

  /** The event runs a DELETE that removes row `id`. */
  predicate DeleteHit(s: State, e: Event, id: int) {
    e.Run? && e.tid in s.threads && s.threads[e.tid] == DeleteReady(id) && id in s.table.rows
  }

  predicate AnyDeleteHit(s: State, e: Event) {
    e.Run? && e.tid in s.threads && s.threads[e.tid].DeleteReady? && DeleteHit(s, e, s.threads[e.tid].id)
  }

  function Bit(b: bool): nat {
    if b then 1 else 0
  }

  function Inserts(s: State, es: seq<Event>): nat
    decreases |es|
  {
    if es == [] then 0 else Bit(InsertHit(s, es[0])) + Inserts(Next(s, es[0]), es[1..])
  }

  function InsertsOf(s: State, es: seq<Event>, id: int): nat
    decreases |es|
  {
    if es == [] then 0 else
      Bit(InsertHit(s, es[0]) && s.table.high + 1 == id) + InsertsOf(Next(s, es[0]), es[1..], id)
  }

  function Deletes(s: State, es: seq<Event>): nat
    decreases |es|
  {
    if es == [] then 0 else Bit(AnyDeleteHit(s, es[0])) + Deletes(Next(s, es[0]), es[1..])
  }

  function DeletesOf(s: State, es: seq<Event>, id: int): nat
    decreases |es|
  {
    if es == [] then 0 else Bit(DeleteHit(s, es[0], id)) + DeletesOf(Next(s, es[0]), es[1..], id)
  }

  // ----- Rows in = rows out -----

  /** Only a successful INSERT adds an id, a fresh one, and only a DELETE that hits removes one. */
  lemma KeysAfter(s: State, e: Event)
    requires Inv(s)
    ensures Next(s, e).table.rows.Keys ==
      if InsertHit(s, e) then s.table.rows.Keys + {s.table.high + 1}
      else if AnyDeleteHit(s, e) then s.table.rows.Keys - {s.threads[e.tid].id}
      else s.table.rows.Keys
    ensures s.table.high + 1 !in s.table.rows
    ensures Next(s, e).table.high == s.table.high + Bit(InsertHit(s, e))
  {
  }

  lemma {:induction false} RowsConserved(s: State, es: seq<Event>)
    requires Inv(s)
    ensures |Exec(s, es).table.rows| + Deletes(s, es) == |s.table.rows| + Inserts(s, es)
    decreases |es|
  {
    if es == [] {
    } else {
      var s1 := Next(s, es[0]);
      InvNext(s, es[0]);
      KeysAfter(s, es[0]);
      assert |s1.table.rows.Keys| + Bit(AnyDeleteHit(s, es[0])) == |s.table.rows.Keys| + Bit(InsertHit(s, es[0]));
      RowsConserved(s1, es[1..]);
    }
  }

  /** The same for a single id; no id is inserted twice, and an id used before not even once. */
  lemma {:induction false} RowConserved(s: State, es: seq<Event>, id: int)
    requires Inv(s)
    ensures Bit(id in Exec(s, es).table.rows) + DeletesOf(s, es, id) == Bit(id in s.table.rows) + InsertsOf(s, es, id)
    ensures InsertsOf(s, es, id) <= Bit(id > s.table.high)
    decreases |es|
  {
    if es == [] {
    } else {
      InvNext(s, es[0]);
      KeysAfter(s, es[0]);
      RowConserved(Next(s, es[0]), es[1..], id);
    }
  }

  // ----- Racing DELETEs -----

  ghost predicate Deleting(th: Thread, id: int, rows: map<int, Row>) {
    || th == Entry(DeleteCar(id))
    || th == DeleteReady(id)
    || (th == Done(NoContent) && id !in rows)
  }

  lemma {:induction false} DeletingExec(s: State, es: seq<Event>, tid: ThreadId, id: int)
    requires Inv(s) && id <= s.table.high && tid in s.threads && Deleting(s.threads[tid], id, s.table.rows)
    ensures tid in Exec(s, es).threads && Deleting(Exec(s, es).threads[tid], id, Exec(s, es).table.rows)
    decreases |es|
  {
    if es == [] {
    } else {
      InvNext(s, es[0]);
      if id !in s.table.rows {
        DeadStaysDeadNext(s, es[0], id);
      }
      DeletingExec(Next(s, es[0]), es[1..], tid, id);
    }
  }

  /** However many DELETEs race on a live row: each one that finishes answers 204 and finds the row
      gone, and exactly one DELETE statement of the run removed it. */
  lemma RacingDeletes(s: State, es: seq<Event>, tid: ThreadId, id: int)
    requires Inv(s) && id in s.table.rows
    requires tid in s.threads && s.threads[tid] == Entry(DeleteCar(id))
    ensures var s' := Exec(s, es);
      tid in s'.threads &&
      (s'.threads[tid].Done? ==>
        s'.threads[tid] == Done(NoContent) && id !in s'.table.rows && DeletesOf(s, es, id) == 1)
  {
    DeletingExec(s, es, tid, id);
    RowConserved(s, es, id);
  }

  // ----- Whose row does an insert report? -----

  /** What a request knows right after its INSERT: on success the key it took, which is fresh and
      the connection's last rowid; on failure POST gives up and PUT goes on with 0, never a live id. */
  lemma AfterInsert(s: State, tid: ThreadId)
    requires Inv(s) && tid in s.threads && s.threads[tid].InsertReady?
    ensures var s' := Next(s, Run(tid));
      var th := s'.threads[tid];
      if InsertHit(s, Run(tid)) then
        && th.InsertDone? && th.own == s'.table.lastRowId == s'.table.high > s.table.high
        && th.own in s'.table.rows && th.own !in s.table.rows
        && th.own in s'.creator && s'.creator[th.own] == tid
        && Decode(th.own, s'.table.rows[th.own]) ==
             s.threads[tid].car.(carId := th.own, createdAt := s.threads[tid].stamp, updatedAt := s.threads[tid].stamp)
      else
        && s'.table == s.table && 0 !in s.table.rows
        && th == if s.threads[tid].h == ForPost then Done(Failed) else ReadBack(ForPut, 0, 0)
  {
    assert ThreadOk(s.threads[tid], s);
  }

  lemma {:induction false} LastRowIdCounts(s: State, es: seq<Event>)
    requires Inv(s)
    ensures s.table.lastRowId <= Exec(s, es).table.lastRowId
    ensures Exec(s, es).table.lastRowId == s.table.lastRowId <==> Inserts(s, es) == 0
    decreases |es|
  {
    if es == [] {
    } else {
      var s1 := Next(s, es[0]);
      InvNext(s, es[0]);
      if InsertHit(s, es[0]) {
        assert s1.table.lastRowId == s.table.high + 1 > s.table.lastRowId;
      } else {
        assert s1.table.lastRowId == s.table.lastRowId;
      }
      LastRowIdCounts(s1, es[1..]);
    }
  }

  lemma {:induction false} WaitingThreadStays(s: State, es: seq<Event>, tid: ThreadId)
    requires tid in s.threads && Run(tid) !in es
    ensures tid in Exec(s, es).threads && Exec(s, es).threads[tid] == s.threads[tid]
    decreases |es|
  {
    if es == [] {
    } else {
      assert es[0] in es && forall e | e in es[1..] :: e in es;
      WaitingThreadStays(Next(s, es[0]), es[1..], tid);
    }
  }

  /** The id that a request reads after its INSERT is that of a row inserted on this connection, not
      smaller than its own, and its own exactly when no other INSERT succeeded in between. */
  lemma ReportedId(s: State, es: seq<Event>, tid: ThreadId)
    requires Inv(s) && tid in s.threads && s.threads[tid].InsertDone?
    requires s.threads[tid].own == s.table.lastRowId && Run(tid) !in es
    ensures var own := s.threads[tid].own;
      var s' := Next(Exec(s, es), Run(tid));
      && tid in s'.threads && s'.threads[tid].ReadBack?
      && own <= s'.threads[tid].newId && s'.threads[tid].newId in s'.creator
      && (s'.threads[tid].newId == own <==> Inserts(s, es) == 0)
  {
    assert ThreadOk(s.threads[tid], s);
    InvExec(s, es);
    LastRowIdCounts(s, es);
    WaitingThreadStays(s, es, tid);
  }
}
