/** What one PATCH does to its row in the middle of other requests. */
module Patching {
  import opened Cars
  import opened CarTable
  import opened Machine
  import opened Requests
  import opened Safety
  import opened Writes

  /** The PATCH carries `car` to its UPDATE, or is past it. */
  ghost predicate Carries(th: Thread, id: int, car: Car) {
    match th
    case UpdateBegin(h, i, c) => h == ForPatch && i == id && c == car
    case UpdateReady(h, i, c, _) => h == ForPatch && i == id && c == car
    case ReadBack(_, _, _) => true
    case Done(_) => true
    case _ => false
  }

  lemma {:induction false} CarriesExec(s: State, es: seq<Event>, tid: ThreadId, id: int, car: Car)
    requires tid in s.threads && Carries(s.threads[tid], id, car)
    ensures tid in Exec(s, es).threads && Carries(Exec(s, es).threads[tid], id, car)
    decreases |es|
  {
    if es == [] {
    } else {
      CarriesExec(Next(s, es[0]), es[1..], tid, id, car);
    }
  }

  lemma WriteOutcome(later: State, tid: ThreadId, id: int, car: Car)
    requires Inv(later) && tid in later.threads && id in later.table.rows
    requires later.threads[tid].UpdateReady? && Carries(later.threads[tid], id, car)
    ensures var after := Next(later, Run(tid));
      if exists k | k in later.table.rows :: k != id && later.table.rows[k].vin.Some? && later.table.rows[k].vin.value == car.vin
      then after.table == later.table && after.threads[tid] == Done(Response.Failed)
      else
        && id in after.table.rows
        && after.table == later.table.(rows := later.table.rows[id := after.table.rows[id]])
        && forall f: Field :: FieldOf(Decode(id, after.table.rows[id]), f) == FieldOf(car, f)
  {
    var rows := later.table.rows;
    if k :| k in rows && k != id && rows[k].vin.Some? && rows[k].vin.value == car.vin {
      assert RowOk(rows[k]);
      assert VinTaken(rows, NullIfEmpty(car.vin), id);
    }
    StoreAndRead(car, id, rows[id], rows[id].createdAt, later.threads[tid].stamp);
  }

  /** A PATCH that read its row in `s` and is about to write in `later`, whatever else has happened:
      its write fails exactly when another row holds the VIN it carries, and then changes nothing.
      Otherwise it changes only its row, to the body's fields over the row as read. This is the
      overlay of the row as it stands exactly when, key by key outside the body, the row still
      holds what was read. */
  lemma PatchWrites(s: State, tid: ThreadId, es: seq<Event>)
    requires Inv(s) && tid in s.threads && s.threads[tid].PatchRead? && s.threads[tid].id in s.table.rows
    requires var later := Exec(Next(s, Run(tid)), es);
      tid in later.threads && later.threads[tid].UpdateReady? && s.threads[tid].id in later.table.rows
    ensures var id, fields := s.threads[tid].id, s.threads[tid].fields;
      var later := Exec(Next(s, Run(tid)), es);
      var after := Next(later, Run(tid));
      var read, standing := Decode(id, s.table.rows[id]), Decode(id, later.table.rows[id]);
      if exists k | k in later.table.rows :: k != id && later.table.rows[k].vin.Some? && later.table.rows[k].vin.value == Overlay(read, fields).vin
      then after.table == later.table && after.threads[tid] == Done(Response.Failed)
      else
        && id in after.table.rows
        && after.table == later.table.(rows := later.table.rows[id := after.table.rows[id]])
        && forall f: Field ::
             && FieldOf(Decode(id, after.table.rows[id]), f) == (if Key(f) in fields then Raw(fields, f) else FieldOf(read, f))
             && (FieldOf(Decode(id, after.table.rows[id]), f) == FieldOf(Overlay(standing, fields), f)
                 <==> Key(f) in fields || FieldOf(read, f) == FieldOf(standing, f))
  {
    var id, fields := s.threads[tid].id, s.threads[tid].fields;
    var s1 := Next(s, Run(tid));
    var later := Exec(s1, es);
    var read, standing := Decode(id, s.table.rows[id]), Decode(id, later.table.rows[id]);
    var car := Overlay(read, fields);
    CarriesExec(s1, es, tid, id, car);
    InvNext(s, Run(tid));
    InvExec(s1, es);
    WriteOutcome(later, tid, id, car);
    forall f: Field
      ensures FieldOf(car, f) == (if Key(f) in fields then Raw(fields, f) else FieldOf(read, f))
      ensures FieldOf(car, f) == FieldOf(Overlay(standing, fields), f) <==> Key(f) in fields || FieldOf(read, f) == FieldOf(standing, f)
    {
      FieldsOfNewAndOverlaid(fields, id, read, f);
      FieldsOfNewAndOverlaid(fields, id, standing, f);
    }
  }

  /** When no UPDATE writes the row between the read and the write of a PATCH, and its write succeeds,
      the row becomes the overlay of the row as it stands, and nothing else changes. */
  lemma PatchUninterrupted(s: State, tid: ThreadId, es: seq<Event>)
    requires Inv(s) && tid in s.threads && s.threads[tid].PatchRead? && s.threads[tid].id in s.table.rows
    requires var later := Exec(Next(s, Run(tid)), es);
      tid in later.threads && later.threads[tid].UpdateReady? && s.threads[tid].id in later.table.rows
    requires LastWrite(Next(s, Run(tid)), es, s.threads[tid].id).None?
    requires UpdateHit(Exec(Next(s, Run(tid)), es), Run(tid), s.threads[tid].id)
    ensures var id, fields := s.threads[tid].id, s.threads[tid].fields;
      var later := Exec(Next(s, Run(tid)), es);
      var standing, stamp := later.table.rows[id], later.threads[tid].stamp;
      Next(later, Run(tid)).table ==
        later.table.(rows := later.table.rows[id := Encode(Overlay(Decode(id, standing), fields), standing.createdAt, stamp)])
  {
    var id, fields := s.threads[tid].id, s.threads[tid].fields;
    var s1 := Next(s, Run(tid));
    CarriesExec(s1, es, tid, id, Overlay(Decode(id, s.table.rows[id]), fields));
    InvNext(s, Run(tid));
    RowAfterRun(s1, es, id);
  }
}
