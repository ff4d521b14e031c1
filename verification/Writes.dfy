/** The UPDATEs of a run that hit a row, and when `updated_at` goes back. */
module Writes {
  import opened Cars
  import opened CarTable
  import opened Machine
  import opened Safety
  import opened Timestamps

  /** The event runs an UPDATE that writes row `id`. */
  predicate UpdateHit(s: State, e: Event, id: int) {
    && e.Run? && e.tid in s.threads && s.threads[e.tid].UpdateReady? && s.threads[e.tid].id == id
    && id in s.table.rows && Update(s.table, id, s.threads[e.tid].car, s.threads[e.tid].stamp).1
  }

  /** What that UPDATE makes of the row. */
  function Written(s: State, e: Event, id: int): Row
    requires UpdateHit(s, e, id)
  {
    Encode(s.threads[e.tid].car, s.table.rows[id].createdAt, s.threads[e.tid].stamp)
  }

  /** What the last UPDATE of the run that writes row `id` makes of it. */
  function LastWrite(s: State, es: seq<Event>, id: int): Option<Row>
    decreases |es|
  {
    if es == [] then None else
      var later := LastWrite(Next(s, es[0]), es[1..], id);
      if later.None? && UpdateHit(s, es[0], id) then Some(Written(s, es[0], id)) else later
  }

  lemma RowAfterEvent(s: State, e: Event, id: int)
    requires Inv(s) && id in s.table.rows && id in Next(s, e).table.rows
    ensures Next(s, e).table.rows[id] == if UpdateHit(s, e, id) then Written(s, e, id) else s.table.rows[id]
  {
  }

  /** A row that lives through a run is as it was when no UPDATE wrote it, and otherwise as the last one
      that did made it. */
  lemma {:induction false} RowAfterRun(s: State, es: seq<Event>, id: int)
    requires Inv(s) && id in s.table.rows && id in Exec(s, es).table.rows
    ensures var row, last := Exec(s, es).table.rows[id], LastWrite(s, es, id);
      row == if last.None? then s.table.rows[id] else last.value
    decreases |es|
  {
    if es == [] {
    } else {
      var s1 := Next(s, es[0]);
      InvNext(s, es[0]);
      if id !in s1.table.rows {
        DeadStaysDead(s1, es[1..], id);
      } else {
        RowAfterEvent(s, es[0], id);
        RowAfterRun(s1, es[1..], id);
      }
    }
  }

  /** The update holds the stamp that it took, or is past its write. */
  ghost predicate Stamps(th: Thread, id: int, stamp: string) {
    match th
    case UpdateReady(_, i, _, t) => i == id && t == stamp
    case ReadBack(_, _, _) => true
    case Done(_) => true
    case _ => false
  }

  lemma {:induction false} StampsExec(s: State, es: seq<Event>, tid: ThreadId, id: int, stamp: string)
    requires tid in s.threads && Stamps(s.threads[tid], id, stamp)
    ensures tid in Exec(s, es).threads && Stamps(Exec(s, es).threads[tid], id, stamp)
    decreases |es|
  {
    if es == [] {
    } else {
      StampsExec(Next(s, es[0]), es[1..], tid, id, stamp);
    }
  }

  /** An update takes its stamp in `s`, other events follow, and it writes. The write moves
      `updated_at` back exactly when it succeeds and the last UPDATE that wrote the row in between
      bears a later stamp. In particular it never stores a time before the one that the row held
      when the stamp was taken. */
  lemma WhenUpdatedAtGoesBack(s: State, tid: ThreadId, es: seq<Event>)
    requires Inv(s) && Stamped(s) && tid in s.threads && s.threads[tid].UpdateBegin? && s.threads[tid].id in s.table.rows
    requires var later := Exec(Next(s, Run(tid)), es);
      tid in later.threads && later.threads[tid].UpdateReady? && s.threads[tid].id in later.table.rows
    ensures var id := s.threads[tid].id;
      var s1 := Next(s, Run(tid));
      var later := Exec(s1, es);
      var after := Next(later, Run(tid));
      var last := LastWrite(s1, es, id);
      && id in after.table.rows
      && (!TextLeq(later.table.rows[id].updatedAt, after.table.rows[id].updatedAt)
          <==> UpdateHit(later, Run(tid), id) && last.Some? && !TextLeq(last.value.updatedAt, Stamp(s.clock)))
      && (UpdateHit(later, Run(tid), id) ==> TextLeq(s.table.rows[id].updatedAt, after.table.rows[id].updatedAt))
  {
    var id := s.threads[tid].id;
    var s1 := Next(s, Run(tid));
    var later := Exec(s1, es);
    assert RowStamped(s.table.rows[id], Stamp(s.clock));
    InvNext(s, Run(tid));
    InvExec(s1, es);
    StampsExec(s1, es, tid, id, Stamp(s.clock));
    RowAfterRun(s1, es, id);
    RowAfterEvent(later, Run(tid), id);
    TextLeqReflexive(later.table.rows[id].updatedAt);
  }
}
