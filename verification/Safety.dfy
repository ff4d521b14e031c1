/** What every interleaved run keeps. */
module Safety {
  import opened Cars
  import opened CarTable
  import opened Machine
  import opened Requests
  import opened Timestamps

  // ----- The invariant over the table and the requests in flight -----

  /** A request that has seen a row only ever works on an id that has been used. */
  ghost predicate ThreadOk(th: Thread, s: State) {
    match th
    case UpdateBegin(h, id, _) => h != ForPost && 1 <= id <= s.table.high
    case UpdateReady(h, id, _, _) => h != ForPost && 1 <= id <= s.table.high
    case PatchRead(id, _) => 1 <= id <= s.table.high
    case DeleteReady(id) => 1 <= id <= s.table.high
    case InsertBegin(h, _) => h != ForPatch
    case InsertReady(h, _, _) => h != ForPatch
    case InsertDone(h, own) => h != ForPatch && 1 <= own <= s.table.lastRowId
    case ReadBack(h, newId, own) =>
      && 0 <= own <= newId <= s.table.high
      && (own > 0 ==> newId in s.creator)
      && (h == ForPost ==> own > 0)
    case _ => true
  }

  ghost predicate Inv(s: State) {
    && WellFormed(s.table)
    && s.threads.Keys == s.requests.Keys
    && (forall id | id in s.creator :: 1 <= id <= s.table.high)
    && (s.table.lastRowId != 0 ==> s.table.lastRowId in s.creator)
    && (forall tid | tid in s.threads :: ThreadOk(s.threads[tid], s))
  }

  lemma StartInv(s: State)
    requires Start(s)
    ensures Inv(s)
  {
  }

  /** The table after one step: unchanged, or changed by the one statement that the step runs. */
  lemma StepKeepsTable(s: State, tid: ThreadId)
    requires Inv(s) && tid in s.threads
    ensures var after := Step(s.threads[tid], s.table, s.clock).0;
      && WellFormed(after)
      && s.table.high <= after.high && s.table.lastRowId <= after.lastRowId
      && (forall id | id in after.rows :: id in s.table.rows || id == after.high == s.table.high + 1)
      && (after.high != s.table.high ==> after.lastRowId == after.high)
      && (after.high == s.table.high ==> after.lastRowId == s.table.lastRowId)
  {
    match s.threads[tid]
    case InsertReady(_, car, stamp) => InsertKeeps(s.table, car, stamp);
    case UpdateReady(_, id, car, stamp) => UpdateKeeps(s.table, id, car, stamp);
    case DeleteReady(id) => DeleteKeeps(s.table, id);
    case _ =>
  }

  lemma EntryKeepsThread(s: State, tid: ThreadId)
    requires Inv(s) && tid in s.threads && s.threads[tid].Entry?
    ensures ThreadOk(Next(s, Run(tid)).threads[tid], Next(s, Run(tid)))
  {
    assert Next(s, Run(tid)).table == s.table;
  }

  lemma StepKeepsThread(s: State, tid: ThreadId)
    requires Inv(s) && tid in s.threads
    ensures ThreadOk(Next(s, Run(tid)).threads[tid], Next(s, Run(tid)))
  {
    if s.threads[tid].Entry? {
      EntryKeepsThread(s, tid);
    } else {
      assert ThreadOk(s.threads[tid], s);
      StepKeepsTable(s, tid);
    }
  }

  /** Threads that do not step: the bounds they depend on only grow. */
  lemma OtherKeepsThread(s: State, e: Event, tid: ThreadId)
    requires Inv(s) && tid in s.threads && e != Run(tid)
    ensures tid in Next(s, e).threads && ThreadOk(Next(s, e).threads[tid], Next(s, e))
  {
    assert ThreadOk(s.threads[tid], s);
    if e.Run? && e.tid in s.threads {
      StepKeepsTable(s, e.tid);
    }
  }

  lemma InvNext(s: State, e: Event)
    requires Inv(s)
    ensures Inv(Next(s, e))
    ensures s.table.high <= Next(s, e).table.high
  {
    var s' := Next(s, e);
    if e.Run? && e.tid in s.threads {
      StepKeepsTable(s, e.tid);
      StepKeepsThread(s, e.tid);
    }
    forall tid | tid in s'.threads ensures ThreadOk(s'.threads[tid], s') {
      if tid in s.threads && e != Run(tid) {
        OtherKeepsThread(s, e, tid);
      }
    }
  }

  /** Well-formedness, distinct VINs included, holds in every state of every run. */
  lemma {:induction false} InvExec(s: State, es: seq<Event>)
    requires Inv(s)
    ensures Inv(Exec(s, es))
    ensures s.table.high <= Exec(s, es).table.high
    decreases |es|
  {
    if es == [] {
    } else {
      InvNext(s, es[0]);
      InvExec(Next(s, es[0]), es[1..]);
    }
  }

  lemma VinsDistinctInEveryRun(s: State, es: seq<Event>, i: int, j: int)
    requires Start(s)
    requires var rows := Exec(s, es).table.rows; i in rows && j in rows && i != j
    ensures var rows := Exec(s, es).table.rows;
      Decode(i, rows[i]).vin == Decode(j, rows[j]).vin ==> Decode(i, rows[i]).vin == ""
  {
    StartInv(s);
    InvExec(s, es);
    var rows := Exec(s, es).table.rows;
    assert RowOk(rows[i]) && RowOk(rows[j]);
    assert rows[i].vin.Some? ==> rows[i].vin != rows[j].vin;
  }

  // ----- Deleted ids never return -----

  lemma DeadStaysDeadNext(s: State, e: Event, id: int)
    requires Inv(s) && id <= s.table.high && id !in s.table.rows
    ensures id !in Next(s, e).table.rows
  {
    if e.Run? && e.tid in s.threads {
      StepKeepsTable(s, e.tid);
    }
  }

  /** An id that was used once and names no row now will never name one. */
  lemma {:induction false} DeadStaysDead(s: State, es: seq<Event>, id: int)
    requires Inv(s) && id <= s.table.high && id !in s.table.rows
    ensures id !in Exec(s, es).table.rows
    decreases |es|
  {
    if es == [] {
    } else {
      InvNext(s, es[0]);
      DeadStaysDeadNext(s, es[0], id);
      DeadStaysDead(Next(s, es[0]), es[1..], id);
    }
  }

  /** The rest of a PATCH that has passed its existence check on `id`. */
  ghost predicate PatchingOn(th: Thread, id: int) {
    match th
    case PatchRead(i, _) => i == id
    case UpdateBegin(_, i, _) => i == id
    case UpdateReady(_, i, _, _) => i == id
    case ReadBack(_, newId, _) => newId == id
    case Done(_) => true
    case _ => false
  }

  lemma {:induction false} PatchStaysOnId(s: State, es: seq<Event>, tid: ThreadId, id: int)
    requires tid in s.threads && PatchingOn(s.threads[tid], id)
    ensures tid in Exec(s, es).threads && PatchingOn(Exec(s, es).threads[tid], id)
    decreases |es|
  {
    if es == [] {
    } else {
      PatchStaysOnId(Next(s, es[0]), es[1..], tid, id);
    }
  }

  /** When PATCH's row disappears between its existence check and its read, the blank car that it
      then works on never reaches the table: in every continuation none of its steps changes it. */
  lemma MissedPatchWritesNothing(s: State, tid: ThreadId, es: seq<Event>)
    requires Inv(s) && tid in s.threads && s.threads[tid].PatchRead? && s.threads[tid].id !in s.table.rows
    ensures var later := Exec(s, es);
      s.threads[tid].id !in later.table.rows && Next(later, Run(tid)).table == later.table
  {
    var id := s.threads[tid].id;
    assert ThreadOk(s.threads[tid], s);
    DeadStaysDead(s, es, id);
    PatchStaysOnId(s, es, tid, id);
  }

  /** In every run an update writes only to the row that its request was sent to. */
  lemma UpdateTouchesOneRow(s: State, tid: ThreadId)
    requires Inv(s) && tid in s.threads && s.threads[tid].UpdateReady?
    ensures var id := s.threads[tid].id;
      var rows, rows' := s.table.rows, Next(s, Run(tid)).table.rows;
      rows'.Keys == rows.Keys && forall k | k in rows && k != id :: rows'[k] == rows[k]
  {
  }

  // ----- `created_at` -----

  lemma CreatedFixedNext(s: State, e: Event, id: int)
    requires Inv(s) && id in s.table.rows && id in Next(s, e).table.rows
    ensures Next(s, e).table.rows[id].createdAt == s.table.rows[id].createdAt
  {
  }

  /** `created_at` never changes while the row lives. */
  lemma {:induction false} CreatedFixed(s: State, es: seq<Event>, id: int)
    requires Inv(s) && id in s.table.rows && id in Exec(s, es).table.rows
    ensures Exec(s, es).table.rows[id].createdAt == s.table.rows[id].createdAt
    decreases |es|
  {
    if es == [] {
    } else {
      var s1 := Next(s, es[0]);
      InvNext(s, es[0]);
      if id !in s1.table.rows {
        DeadStaysDead(s1, es[1..], id);
      } else {
        CreatedFixedNext(s, es[0], id);
        CreatedFixed(s1, es[1..], id);
      }
    }
  }

  // ----- `created_at <= updated_at`, when the clock does not go back -----

  ghost predicate RowStamped(row: Row, now: string) {
    TextLeq(row.createdAt, row.updatedAt) && TextLeq(row.createdAt, now) && TextLeq(row.updatedAt, now)
  }

  /** A stamp in flight is not later than the clock, and an update's stamp is not earlier than the
      creation of the row it is meant for. */
  ghost predicate ThreadStamped(th: Thread, rows: map<int, Row>, now: string) {
    match th
    case InsertReady(_, _, stamp) => TextLeq(stamp, now)
    case UpdateReady(_, id, _, stamp) =>
      TextLeq(stamp, now) && (id in rows ==> TextLeq(rows[id].createdAt, stamp))
    case _ => true
  }

  ghost predicate Stamped(s: State) {
    && Printable(s.clock)
    && (forall id | id in s.table.rows :: RowStamped(s.table.rows[id], Stamp(s.clock)))
    && (forall tid | tid in s.threads :: ThreadStamped(s.threads[tid], s.table.rows, Stamp(s.clock)))
  }

  ghost predicate ClockForward(s: State, es: seq<Event>)
    decreases |es|
  {
    es == [] || (
      && (es[0].Tick? ==> NotAfter(s.clock, es[0].now) && Printable(es[0].now))
      && ClockForward(Next(s, es[0]), es[1..]))
  }

  lemma StampedTick(s: State, now: DateTime)
    requires Stamped(s) && NotAfter(s.clock, now) && Printable(now)
    ensures Stamped(s.(clock := now))
  {
    var earlier, later := Stamp(s.clock), Stamp(now);
    TextOrderIsTimeOrder(s.clock, now);
    forall id | id in s.table.rows ensures RowStamped(s.table.rows[id], later) {
      assert RowStamped(s.table.rows[id], earlier);
      TextLeqTransitive(s.table.rows[id].createdAt, earlier, later);
      TextLeqTransitive(s.table.rows[id].updatedAt, earlier, later);
    }
    forall tid | tid in s.threads ensures ThreadStamped(s.threads[tid], s.table.rows, later) {
      assert ThreadStamped(s.threads[tid], s.table.rows, earlier);
      if s.threads[tid].InsertReady? || s.threads[tid].UpdateReady? {
        TextLeqTransitive(s.threads[tid].stamp, earlier, later);
      }
    }
  }

  /** The rows after a step. */
  lemma RowsStamped(s: State, tid: ThreadId, id: int)
    requires Inv(s) && Stamped(s) && tid in s.threads && id in Next(s, Run(tid)).table.rows
    ensures RowStamped(Next(s, Run(tid)).table.rows[id], Stamp(s.clock))
  {
    var th := s.threads[tid];
    assert ThreadStamped(th, s.table.rows, Stamp(s.clock));
    assert id in s.table.rows ==> RowStamped(s.table.rows[id], Stamp(s.clock));
    if th.InsertReady? {
      TextLeqReflexive(th.stamp);
    }
  }

  /** The thread that steps. */
  lemma OwnThreadStamped(s: State, tid: ThreadId)
    requires Inv(s) && Stamped(s) && tid in s.threads
    ensures var s' := Next(s, Run(tid)); ThreadStamped(s'.threads[tid], s'.table.rows, Stamp(s.clock))
  {
    TextLeqReflexive(Stamp(s.clock));
    if s.threads[tid].UpdateBegin? && s.threads[tid].id in s.table.rows {
      assert RowStamped(s.table.rows[s.threads[tid].id], Stamp(s.clock));
    }
  }

  /** Another thread: its row keeps its creation time, and an id that is dead stays dead. */
  lemma OtherThreadStamped(s: State, e: Event, tid: ThreadId)
    requires Inv(s) && Stamped(s) && tid in s.threads && e.Run? && e.tid != tid
    ensures ThreadStamped(s.threads[tid], Next(s, e).table.rows, Stamp(s.clock))
  {
    var th := s.threads[tid];
    assert ThreadOk(th, s) && ThreadStamped(th, s.table.rows, Stamp(s.clock));
    if th.UpdateReady? {
      if th.id !in s.table.rows {
        DeadStaysDeadNext(s, e, th.id);
      } else if th.id in Next(s, e).table.rows {
        CreatedFixedNext(s, e, th.id);
      }
    }
  }

  lemma StampedRun(s: State, tid: ThreadId)
    requires Inv(s) && Stamped(s) && tid in s.threads
    ensures Stamped(Next(s, Run(tid)))
  {
    var s', now := Next(s, Run(tid)), Stamp(s.clock);
    forall id | id in s'.table.rows ensures RowStamped(s'.table.rows[id], now) {
      RowsStamped(s, tid, id);
    }
    forall t | t in s'.threads ensures ThreadStamped(s'.threads[t], s'.table.rows, now) {
      if t == tid {
        OwnThreadStamped(s, tid);
      } else {
        OtherThreadStamped(s, Run(tid), t);
      }
    }
  }

  /** In every run with a clock that does not go back, every row has `created_at <= updated_at`. */
  lemma {:induction false} StampedExec(s: State, es: seq<Event>)
    requires Inv(s) && Stamped(s) && ClockForward(s, es)
    ensures Stamped(Exec(s, es))
    decreases |es|
  {
    if es == [] {
    } else {
      InvNext(s, es[0]);
      if es[0].Tick? {
        StampedTick(s, es[0].now);
      } else if es[0].Run? && es[0].tid in s.threads {
        StampedRun(s, es[0].tid);
      }
      StampedExec(Next(s, es[0]), es[1..]);
    }
  }
}
