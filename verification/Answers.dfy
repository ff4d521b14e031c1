/** Whose row is in the answer of a request, and what does it hold? */
module Answers {
  import opened Cars
  import opened CarTable
  import opened Conservation
  import opened Machine
  import opened Requests
  import opened Safety
  import opened Writes

  /** The events between a request's INSERT and its answer: `es1` before it reads the last rowid,
      `es2` before it reads the row back. */
  function UntilAnswer(tid: ThreadId, es1: seq<Event>, es2: seq<Event>): seq<Event> {
    es1 + ([Run(tid)] + es2)
  }

  lemma ExecOne(s: State, e: Event)
    ensures Exec(s, [e]) == Next(s, e)
  {
    assert [e][1..] == [];
    assert Exec(Next(s, e), []) == Next(s, e);
  }

  lemma ExecUntilAnswer(s: State, tid: ThreadId, es1: seq<Event>, es2: seq<Event>)
    ensures Exec(s, UntilAnswer(tid, es1, es2)) == Exec(Next(Exec(s, es1), Run(tid)), es2)
  {
    ExecAppend(s, es1, [Run(tid)] + es2);
    ExecAppend(Exec(s, es1), [Run(tid)], es2);
    ExecOne(Exec(s, es1), Run(tid));
  }

  /** What the request holds when it reads the row back. */
  lemma HeldForAnswer(s: State, tid: ThreadId, es1: seq<Event>, es2: seq<Event>)
    requires Inv(s) && tid in s.threads && s.threads[tid].InsertDone? && s.threads[tid].own == s.table.lastRowId
    requires Run(tid) !in es1 && Run(tid) !in es2
    ensures var own, before := s.threads[tid].own, Exec(s, UntilAnswer(tid, es1, es2));
      && Inv(before) && tid in before.threads
      && before.threads[tid] == ReadBack(s.threads[tid].h, Exec(s, es1).table.lastRowId, own)
      && own <= Exec(s, es1).table.lastRowId
      && (Exec(s, es1).table.lastRowId == own <==> Inserts(s, es1) == 0)
  {
    ReportedId(s, es1, tid);
    var s2 := Next(Exec(s, es1), Run(tid));
    WaitingThreadStays(s, es1, tid);
    WaitingThreadStays(s2, es2, tid);
    ExecUntilAnswer(s, tid, es1, es2);
    InvExec(s, UntilAnswer(tid, es1, es2));
    LastRowIdCounts(s, es1);
  }

  /** The car in an answer of POST or PUT. */
  predicate Carries(response: Response, h: Handler, location: int, car: Car) {
    response == if h == ForPost then Created(location, car) else Ok(car)
  }

  /** A row is still there exactly when no DELETE removed it, and then as it was unless an UPDATE wrote it. */
  lemma OwnRowLater(s: State, es: seq<Event>, own: int)
    requires Inv(s) && own in s.table.rows
    ensures var later := Exec(s, es).table.rows;
      && (own in later <==> DeletesOf(s, es, own) == 0)
      && (own in later ==> later[own] == if LastWrite(s, es, own).None? then s.table.rows[own] else LastWrite(s, es, own).value)
  {
    RowConserved(s, es, own);
    if own in Exec(s, es).table.rows {
      RowAfterRun(s, es, own);
    }
  }

  /** The answer itself: the row with the id that was read, whatever it is. */
  lemma AnswerIsRowRead(s: State, tid: ThreadId, es1: seq<Event>, es2: seq<Event>)
    requires Inv(s) && tid in s.threads && s.threads[tid].InsertDone? && s.threads[tid].own == s.table.lastRowId
    requires Run(tid) !in es1 && Run(tid) !in es2
    ensures var before := Exec(s, UntilAnswer(tid, es1, es2));
      var answered := Next(before, Run(tid));
      var location := Exec(s, es1).table.lastRowId;
      && tid in answered.threads && answered.threads[tid].Done?
      && Carries(answered.threads[tid].response, s.threads[tid].h, location, Get(before.table, location).0)
      && s.threads[tid].own <= location && (location == s.threads[tid].own <==> Inserts(s, es1) == 0)
  {
    HeldForAnswer(s, tid, es1, es2);
  }

  lemma CarRead(st: Table, location: int, own: int)
    requires 1 <= own <= location
    ensures var car := Get(st, location).0;
      && (car.carId == own <==> location == own && own in st.rows)
      && (car.carId != own ==> car == BLANK_CAR || car.carId == location > own)
      && (car.carId == own ==> car == Decode(own, st.rows[own]))
  {
  }

  lemma OwnRowAnswered(s: State, tid: ThreadId, es1: seq<Event>, es2: seq<Event>)
    requires Inv(s) && tid in s.threads && s.threads[tid].InsertDone? && s.threads[tid].own == s.table.lastRowId
    requires s.threads[tid].own in s.table.rows && Run(tid) !in es1 && Run(tid) !in es2
    ensures var own, es, location := s.threads[tid].own, UntilAnswer(tid, es1, es2), Exec(s, es1).table.lastRowId;
      var car := Get(Exec(s, es).table, location).0;
      && (car.carId == own <==> Inserts(s, es1) == 0 && DeletesOf(s, es, own) == 0)
      && (car.carId != own ==> car == BLANK_CAR || car.carId == location > own)
      && (car.carId == own ==>
            car == Decode(own, if LastWrite(s, es, own).None? then s.table.rows[own] else LastWrite(s, es, own).value))
  {
    var own, es := s.threads[tid].own, UntilAnswer(tid, es1, es2);
    AnswerIsRowRead(s, tid, es1, es2);
    OwnRowLater(s, es, own);
    CarRead(Exec(s, es).table, Exec(s, es1).table.lastRowId, own);
  }

  /** The answer of a POST, or of a PUT that inserts, from its successful INSERT in `s0` on, whatever
      happens meanwhile. The location of POST is its own row exactly when no other INSERT succeeds
      before the last rowid is read. The car is its own row exactly when moreover no DELETE removes
      that row before it is read back, and then it has the values inserted, or those of the last
      UPDATE that wrote the row since. When the location is its own but the row was deleted, the car is blank; when the
      location is another's, the car is that row, or blank. */
  lemma InsertAnswer(s0: State, tid: ThreadId, es1: seq<Event>, es2: seq<Event>)
    requires Inv(s0) && InsertHit(s0, Run(tid)) && Run(tid) !in es1 && Run(tid) !in es2
    ensures var s, own := Next(s0, Run(tid)), s0.table.high + 1;
      var es := UntilAnswer(tid, es1, es2);
      var before := Exec(s, es);
      var answered := Next(before, Run(tid));
      var location := Exec(s, es1).table.lastRowId;
      var car := Get(before.table, location).0;
      var sent := s0.threads[tid];
      && tid in answered.threads && answered.threads[tid].Done?
      && Carries(answered.threads[tid].response, sent.h, location, car)
      && (location == own <==> Inserts(s, es1) == 0)
      && (car.carId == own <==> Inserts(s, es1) == 0 && DeletesOf(s, es, own) == 0)
      && (car.carId != own ==> car == BLANK_CAR || car.carId == location > own)
      && (location == own && car.carId != own ==> car == BLANK_CAR)
      && (car.carId == own ==>
            car == if LastWrite(s, es, own).Some? then Decode(own, LastWrite(s, es, own).value)
                   else sent.car.(carId := own, createdAt := sent.stamp, updatedAt := sent.stamp))
  {
    var s := Next(s0, Run(tid));
    AfterInsert(s0, tid);
    InvNext(s0, Run(tid));
    AnswerIsRowRead(s, tid, es1, es2);
    OwnRowAnswered(s, tid, es1, es2);
  }

  /** After a failed INSERT, PUT answers 200 with the blank car, whatever happens meanwhile, and POST
      has answered that it failed. */
  lemma FailedInsertAnswer(s0: State, tid: ThreadId, es: seq<Event>)
    requires Inv(s0) && tid in s0.threads && s0.threads[tid].InsertReady? && !InsertHit(s0, Run(tid)) && Run(tid) !in es
    ensures var answered := Next(Exec(Next(s0, Run(tid)), es), Run(tid));
      tid in answered.threads && answered.threads[tid] == Done(if s0.threads[tid].h == ForPost then Response.Failed else Ok(BLANK_CAR))
  {
    AfterInsert(s0, tid);
    InvNext(s0, Run(tid));
    InvExec(Next(s0, Run(tid)), es);
    WaitingThreadStays(Next(s0, Run(tid)), es, tid);
  }

  /** The answer of a PATCH, or of a PUT that updates, from its UPDATE in `s0` on, whatever happens
      meanwhile. It is a failure exactly when another row holds the VIN. Otherwise it is the car as
      written, unless there was no row to write or a DELETE has removed it, when it is blank, or
      another UPDATE has written the row since, when it is what the last one made of it. */
  lemma UpdateAnswer(s0: State, tid: ThreadId, es: seq<Event>)
    requires Inv(s0) && tid in s0.threads && s0.threads[tid].UpdateReady? && Run(tid) !in es
    ensures var s, sent := Next(s0, Run(tid)), s0.threads[tid];
      var answered, last := Next(Exec(s, es), Run(tid)), LastWrite(s, es, sent.id);
      && tid in answered.threads
      && answered.threads[tid] == Done(
           if sent.id in s0.table.rows && VinTaken(s0.table.rows, NullIfEmpty(sent.car.vin), sent.id) then Response.Failed
           else if sent.id !in s0.table.rows || DeletesOf(s, es, sent.id) > 0 then Ok(BLANK_CAR)
           else if last.Some? then Ok(Decode(sent.id, last.value))
           else Ok(sent.car.(carId := sent.id, createdAt := s0.table.rows[sent.id].createdAt, updatedAt := sent.stamp)))
  {
    var s, id := Next(s0, Run(tid)), s0.threads[tid].id;
    assert ThreadOk(s0.threads[tid], s0);
    InvNext(s0, Run(tid));
    WaitingThreadStays(s, es, tid);
    if id in s.table.rows {
      OwnRowLater(s, es, id);
    } else {
      DeadStaysDead(s, es, id);
    }
  }
}
