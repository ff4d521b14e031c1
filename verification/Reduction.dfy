/** Concurrent PATCHes, PUTs and DELETEs on different rows, without a race for a VIN: every
    interleaving has the outcome of serving the requests one at a time, in whatever order. */
module Reduction {
  import opened Batches
  import opened Cars
  import opened CarTable
  import opened Machine
  import opened Requests
  import opened Routes
  import opened Safety

  /** Row `id` is as it was in `s0`. */
  ghost predicate Untouched(s0: State, s: State, id: int) {
    SameRow(s0.table.rows, s.table.rows, id)
  }

  /** Row `id` holds the car sent, with its old creation time. */
  ghost predicate Stored(s0: State, s: State, id: int, sent: Option<Car>) {
    && sent.Some? && id in s0.table.rows && id in s.table.rows
    && SameButUpdated(s.table.rows[id], Encode(sent.value, s0.table.rows[id].createdAt, ""))
  }

  /** The answer, up to `updatedAt`. */
  function Answer(s0: State, req: Request, refused: bool): Response {
    var sent := Sent(s0, req);
    if req.DeleteCar? then NoContent
    else if refused then Response.Failed
    else if sent.Some? && req.id in s0.table.rows then
      Ok(Decode(req.id, Encode(sent.value, s0.table.rows[req.id].createdAt, "")))
    else if req.Patch? && req.id !in s0.table.rows then Skipped(req.id)
    else BadRequest
  }

  /** How far the request has come, and what its row looks like meanwhile. */
  ghost predicate Doing(s0: State, s: State, req: Request, th: Thread, refused: bool)
    requires !req.Post?
  {
    var id, sent := req.id, Sent(s0, req);
    match th
    case Entry(r) => r == req && Untouched(s0, s, id)
    case DeleteReady(i) => req.DeleteCar? && i == id && Untouched(s0, s, id)
    case PatchRead(i, fields) => req == Patch(i, Object(fields)) && id in s0.table.rows && Untouched(s0, s, id)
    case UpdateBegin(h, i, car) => h != ForPost && i == id && sent == Some(car) && Untouched(s0, s, id)
    case UpdateReady(h, i, car, _) => h != ForPost && i == id && sent == Some(car) && Untouched(s0, s, id)
    case ReadBack(h, newId, _) => h != ForPost && newId == id && !refused && Stored(s0, s, id, sent)
    case Done(response) =>
      && SameResponse(response, Answer(s0, req, refused))
      && if req.DeleteCar? then id !in s.table.rows
         else if sent.Some? && !refused then Stored(s0, s, id, sent)
         else Untouched(s0, s, id)
    case _ => false
  }

  ghost predicate Progress(s0: State, s: State, tid: ThreadId) {
    Active(s0, tid) && tid in s.threads && Doing(s0, s, s0.threads[tid].req, s.threads[tid], Refused(s0, tid))
  }

  /** The state of a run from `s0`. */
  ghost predicate Along(s0: State, s: State) {
    && Inv(s) && s.threads.Keys == s0.threads.Keys
    && s.table.high == s0.table.high && s.table.lastRowId == s0.table.lastRowId
    && (forall tid | Active(s0, tid) :: Progress(s0, s, tid))
    && (forall tid | tid in s0.threads && !Active(s0, tid) :: s.threads[tid] == s0.threads[tid])
    && (forall id: int :: Untouched(s0, s, id) || exists tid :: Active(s0, tid) && Target(s0, tid) == id)
  }

  lemma AlongStart(s0: State)
    requires Ready(s0)
    ensures Along(s0, s0)
  {
  }

  /** Any row of the run: as it was, or what some other request made of it. */
  lemma OtherRow(s0: State, s: State, k: int)
    requires Ready(s0) && Along(s0, s) && k in s.table.rows
    ensures Untouched(s0, s, k)
      || exists u :: Active(s0, u) && Target(s0, u) == k && !Refused(s0, u) && Stored(s0, s, k, SentBy(s0, u))
  {
    if !Untouched(s0, s, k) {
      var u :| Active(s0, u) && Target(s0, u) == k;
      assert Progress(s0, s, u);
    }
  }

  lemma NullIfEmptyDiffers(v: string, w: string)
    requires v == w ==> v == ""
    ensures NullIfEmpty(v).Some? ==> NullIfEmpty(v) != NullIfEmpty(w)
  {
  }

  /** When a request that is not refused comes to write, no other row holds its VIN. */
  lemma OwnVinFree(s0: State, s: State, tid: ThreadId)
    requires Ready(s0) && Along(s0, s) && SentBy(s0, tid).Some? && !Refused(s0, tid)
    ensures !VinTaken(s.table.rows, NullIfEmpty(SentBy(s0, tid).value.vin), Target(s0, tid))
  {
    var id, vin := Target(s0, tid), SentBy(s0, tid).value.vin;
    if vin != "" {
      forall k | k in s.table.rows && k != id ensures s.table.rows[k].vin != Some(vin) {
        OtherRow(s0, s, k);
        if Untouched(s0, s, k) {
          assert !VinTaken(s0.table.rows, Some(vin), id);
        } else {
          var u :| Active(s0, u) && Target(s0, u) == k && !Refused(s0, u) && Stored(s0, s, k, SentBy(s0, u));
          NullIfEmptyDiffers(vin, SentBy(s0, u).value.vin);
          assert s.table.rows[k].vin == s.table.rows[k].(updatedAt := "").vin == NullIfEmpty(SentBy(s0, u).value.vin);
        }
      }
    }
  }

  /** A row that a blocked set keeps holds its VIN throughout. */
  lemma KeptVin(s0: State, s: State, k: int, blocked: set<ThreadId>)
    requires Along(s0, s) && Blocked(s0, blocked) && KeepsVin(s0, k, blocked)
    ensures k in s.table.rows && s.table.rows[k].vin == s0.table.rows[k].vin
  {
    if !Untouched(s0, s, k) {
      var u :| Active(s0, u) && Target(s0, u) == k;
      assert Progress(s0, s, u);
      assert u in blocked ==> Refused(s0, u);
      assert s.table.rows[k].vin == s.table.rows[k].(updatedAt := "").vin;
    }
  }

  /** When a request that is refused comes to write, another row still holds its VIN. */
  lemma RefusedVinTaken(s0: State, s: State, tid: ThreadId)
    requires Along(s0, s) && Refused(s0, tid)
    ensures SentBy(s0, tid).Some? && VinTaken(s.table.rows, NullIfEmpty(SentBy(s0, tid).value.vin), Target(s0, tid))
  {
    var blocked :| Blocked(s0, blocked) && tid in blocked;
    var k :| BlockedBy(s0, tid, k, blocked);
    KeptVin(s0, s, k, blocked);
    assert RowOk(s.table.rows[k]) && s.table.rows[k].vin == Some(SentBy(s0, tid).value.vin);
  }

  /** `tid` has made progress, and rows of other ids are left alone. */
  ghost predicate Stepped(s0: State, s: State, s': State, tid: ThreadId) {
    && Progress(s0, s', tid)
    && s'.table.high == s.table.high && s'.table.lastRowId == s.table.lastRowId
    && forall id: int | id != Target(s0, tid) ::
         (id in s'.table.rows <==> id in s.table.rows) && (id in s.table.rows ==> s'.table.rows[id] == s.table.rows[id])
  }

  lemma EntryStep(s0: State, s: State, tid: ThreadId)
    requires Progress(s0, s, tid) && s.threads[tid].Entry?
    ensures Stepped(s0, s, Next(s, Run(tid)), tid)
  {
    assert Next(s, Run(tid)).table == s.table;
  }

  lemma RefusedStep(s0: State, s: State, tid: ThreadId)
    requires Progress(s0, s, tid) && s.threads[tid].UpdateReady? && Refused(s0, tid)
    requires VinTaken(s.table.rows, NullIfEmpty(SentBy(s0, tid).value.vin), Target(s0, tid))
    ensures Stepped(s0, s, Next(s, Run(tid)), tid)
  {
    assert Target(s0, tid) in s.table.rows;
    assert Next(s, Run(tid)).table == s.table && Next(s, Run(tid)).threads[tid] == Done(Response.Failed);
  }

  lemma WriteStep(s0: State, s: State, tid: ThreadId)
    requires Progress(s0, s, tid) && s.threads[tid].UpdateReady? && !Refused(s0, tid)
    requires !VinTaken(s.table.rows, NullIfEmpty(SentBy(s0, tid).value.vin), Target(s0, tid))
    ensures Stepped(s0, s, Next(s, Run(tid)), tid)
  {
  }

  lemma OtherStep(s0: State, s: State, tid: ThreadId)
    requires Progress(s0, s, tid) && !s.threads[tid].Entry? && !s.threads[tid].UpdateReady?
    ensures Stepped(s0, s, Next(s, Run(tid)), tid)
  {
  }

  lemma OwnStep(s0: State, s: State, tid: ThreadId)
    requires Ready(s0) && Along(s0, s) && Active(s0, tid)
    ensures Stepped(s0, s, Next(s, Run(tid)), tid)
  {
    assert Progress(s0, s, tid);
    if s.threads[tid].Entry? {
      EntryStep(s0, s, tid);
    } else if s.threads[tid].UpdateReady? {
      if Refused(s0, tid) {
        RefusedVinTaken(s0, s, tid);
        RefusedStep(s0, s, tid);
      } else {
        OwnVinFree(s0, s, tid);
        WriteStep(s0, s, tid);
      }
    } else {
      OtherStep(s0, s, tid);
    }
  }

  lemma OthersKeep(s0: State, s: State, s': State, tid: ThreadId)
    requires Progress(s0, s, tid)
    requires tid in s'.threads && s'.threads[tid] == s.threads[tid]
    requires var id := Target(s0, tid);
      (id in s'.table.rows <==> id in s.table.rows) && (id in s.table.rows ==> s'.table.rows[id] == s.table.rows[id])
    ensures Progress(s0, s', tid)
  {
  }

  lemma AlongRun(s0: State, s: State, own: ThreadId)
    requires Ready(s0) && Along(s0, s) && Active(s0, own)
    ensures Along(s0, Next(s, Run(own)))
  {
    var s' := Next(s, Run(own));
    InvNext(s, Run(own));
    OwnStep(s0, s, own);
    forall tid | Active(s0, tid) ensures Progress(s0, s', tid) {
      assert Progress(s0, s, tid);
      if tid != own {
        assert Target(s0, tid) != Target(s0, own);
        OthersKeep(s0, s, s', tid);
      }
    }
    forall id: int ensures Untouched(s0, s', id) || exists tid :: Active(s0, tid) && Target(s0, tid) == id {
      assert Untouched(s0, s, id) || exists tid :: Active(s0, tid) && Target(s0, tid) == id;
    }
  }

  /** Clock changes, and steps of finished requests. */
  lemma IdleEvent(s: State, e: Event)
    requires !e.Arrive? && (e.Run? && e.tid in s.threads ==> s.threads[e.tid].Done?)
    ensures Next(s, e).table == s.table && Next(s, e).threads == s.threads
  {
  }

  lemma AlongIdle(s0: State, s: State, s': State)
    requires Along(s0, s) && Inv(s') && s'.table == s.table && s'.threads == s.threads
    ensures Along(s0, s')
  {
    forall tid | Active(s0, tid) ensures Progress(s0, s', tid) {
      assert Progress(s0, s, tid);
      OthersKeep(s0, s, s', tid);
    }
    assert forall id: int :: Untouched(s0, s', id) <==> Untouched(s0, s, id);
  }

  /** A request that had finished before stays as it was. */
  lemma FinishedStays(s0: State, s: State, tid: ThreadId)
    requires Batch(s0) && Along(s0, s) && tid in s.threads && !Active(s0, tid)
    ensures s.threads[tid].Done?
  {
  }

  lemma AlongNext(s0: State, s: State, e: Event)
    requires Ready(s0) && Along(s0, s) && !e.Arrive?
    ensures Along(s0, Next(s, e))
  {
    if e.Run? && Active(s0, e.tid) {
      AlongRun(s0, s, e.tid);
    } else {
      if e.Run? && e.tid in s.threads {
        FinishedStays(s0, s, e.tid);
      }
      InvNext(s, e);
      IdleEvent(s, e);
      AlongIdle(s0, s, Next(s, e));
    }
  }

  lemma {:induction false} AlongExec(s0: State, s: State, es: seq<Event>)
    requires Ready(s0) && Along(s0, s) && NoArrivals(es)
    ensures Along(s0, Exec(s, es))
    decreases |es|
  {
    if es == [] {
    } else {
      assert es[0] in es && forall e | e in es[1..] :: e in es;
      AlongNext(s0, s, es[0]);
      AlongExec(s0, Next(s, es[0]), es[1..]);
    }
  }

  ghost predicate RowsAgree(a: map<int, Row>, b: map<int, Row>, id: int) {
    (id in a <==> id in b) && (id in a && id in b ==> SameButUpdated(a[id], b[id]))
  }

  lemma SameRowsByRow(a: map<int, Row>, b: map<int, Row>)
    requires forall id: int :: RowsAgree(a, b, id)
    ensures SameRowsButStamps(a, b)
  {
    forall id: int ensures id in a.Keys <==> id in b.Keys {
      assert RowsAgree(a, b, id);
    }
    forall id | id in a ensures SameButUpdated(a[id], b[id]) {
      assert RowsAgree(a, b, id);
    }
  }

  /** The row of a finished request. */
  lemma DoneRow(s0: State, a: State, tid: ThreadId)
    requires Progress(s0, a, tid) && a.threads[tid].Done?
    ensures var id, sent := Target(s0, tid), SentBy(s0, tid);
      if s0.threads[tid].req.DeleteCar? then id !in a.table.rows
      else if sent.Some? && !Refused(s0, tid) then Stored(s0, a, id, sent)
      else Untouched(s0, a, id)
  {
  }

  lemma DoneAnswer(s0: State, a: State, tid: ThreadId)
    requires Progress(s0, a, tid) && a.threads[tid].Done?
    ensures SameResponse(a.threads[tid].response, Answer(s0, s0.threads[tid].req, Refused(s0, tid)))
  {
  }

  /** A request that has finished, whether or not the others have: the state before decides its answer
      and its row. It fails exactly when it is refused. */
  lemma FinishedRequest(s0: State, es: seq<Event>, tid: ThreadId)
    requires Ready(s0) && NoArrivals(es) && Active(s0, tid)
    requires tid in Exec(s0, es).threads && Exec(s0, es).threads[tid].Done?
    ensures var s, id, sent := Exec(s0, es), Target(s0, tid), SentBy(s0, tid);
      && SameResponse(s.threads[tid].response, Answer(s0, s0.threads[tid].req, Refused(s0, tid)))
      && (s.threads[tid].response == Failed <==> Refused(s0, tid))
      && (if s0.threads[tid].req.DeleteCar? then id !in s.table.rows
          else if sent.Some? && !Refused(s0, tid) then Stored(s0, s, id, sent)
          else Untouched(s0, s, id))
  {
    AlongStart(s0);
    AlongExec(s0, s0, es);
    assert Progress(s0, Exec(s0, es), tid);
    DoneRow(s0, Exec(s0, es), tid);
    DoneAnswer(s0, Exec(s0, es), tid);
  }

  lemma OneRowAgrees(s0: State, a: State, b: State, id: int)
    requires Along(s0, a) && Along(s0, b) && AllDone(a) && AllDone(b)
    ensures RowsAgree(a.table.rows, b.table.rows, id)
  {
    if tid :| Active(s0, tid) && Target(s0, tid) == id {
      assert Progress(s0, a, tid) && Progress(s0, b, tid);
      assert a.threads[tid].Done? && b.threads[tid].Done?;
      DoneRow(s0, a, tid);
      DoneRow(s0, b, tid);
    } else {
      assert Untouched(s0, a, id) && Untouched(s0, b, id);
    }
  }

  lemma OneAnswerAgrees(s0: State, a: State, b: State, tid: ThreadId)
    requires Along(s0, a) && Along(s0, b) && AllDone(a) && AllDone(b) && tid in s0.threads
    ensures a.threads[tid].Done? && b.threads[tid].Done? && SameResponse(a.threads[tid].response, b.threads[tid].response)
  {
    assert a.threads[tid].Done? && b.threads[tid].Done?;
    if Active(s0, tid) {
      assert Progress(s0, a, tid) && Progress(s0, b, tid);
      DoneAnswer(s0, a, tid);
      DoneAnswer(s0, b, tid);
    }
  }

  /** Two states in which every request has finished have the same outcome. */
  lemma OutcomesAgree(s0: State, a: State, b: State)
    requires Ready(s0) && Along(s0, a) && Along(s0, b) && AllDone(a) && AllDone(b)
    ensures SameOutcome(s0, a, b)
  {
    forall id: int ensures RowsAgree(a.table.rows, b.table.rows, id) {
      OneRowAgrees(s0, a, b, id);
    }
    SameRowsByRow(a.table.rows, b.table.rows);
    forall tid | tid in s0.threads
      ensures a.threads[tid].Done? && b.threads[tid].Done? && SameResponse(a.threads[tid].response, b.threads[tid].response)
    {
      OneAnswerAgrees(s0, a, b, tid);
    }
  }

  /** Without a race, all complete runs have one outcome. */
  lemma RunsAgree(s0: State, es: seq<Event>, fs: seq<Event>)
    requires Ready(s0) && CompleteRun(s0, es) && CompleteRun(s0, fs)
    ensures SameOutcome(s0, Exec(s0, es), Exec(s0, fs))
  {
    AlongStart(s0);
    AlongExec(s0, s0, es);
    AlongExec(s0, s0, fs);
    OutcomesAgree(s0, Exec(s0, es), Exec(s0, fs));
  }

  /** Every complete interleaving of PATCHes, PUTs on live rows and DELETEs, on distinct ids and without
      a race for a VIN, ends in the table that serving them one at a time gives, in any order and at any
      times, up to `updated_at`, and with the same answers. */
  lemma InterleavingsAreSerial(s0: State, es: seq<Event>, turns: seq<Turn>)
    requires Ready(s0) && CompleteRun(s0, es) && CompleteOrder(s0, turns)
    ensures SameOutcome(s0, Exec(s0, es), Exec(s0, SerialRun(turns)))
    ensures Waiting(s0, s0, turns) && Exec(s0, SerialRun(turns)).table == ServeAll(s0.table, s0, turns)
  {
    SerialRunCompletes(s0, turns);
    RunsAgree(s0, es, SerialRun(turns));
  }

  // ----- Requests that arrive while others are served -----

  function ArrivalsOf(es: seq<Event>): seq<Event> {
    if es == [] then [] else (if es[0].Arrive? then [es[0]] else []) + ArrivalsOf(es[1..])
  }

  function WithoutArrivals(es: seq<Event>): seq<Event> {
    if es == [] then [] else (if es[0].Arrive? then [] else [es[0]]) + WithoutArrivals(es[1..])
  }

  /** No request takes a step before it has arrived. */
  ghost predicate Causal(s: State, es: seq<Event>)
    decreases |es|
  {
    es == [] || ((es[0].Run? ==> es[0].tid in s.threads) && Causal(Next(s, es[0]), es[1..]))
  }

  lemma StepPastArrival(s: State, e: Event, a: Event)
    requires a.Arrive? && !e.Arrive? && (e.Run? ==> e.tid in s.threads)
    ensures Next(Next(s, e), a) == Next(Next(s, a), e)
  {
    if e.Run? && a.tid !in s.threads {
      var th := Step(s.threads[e.tid], s.table, s.clock).1;
      assert s.threads[e.tid := th][a.tid := Entry(a.req)] == s.threads[a.tid := Entry(a.req)][e.tid := th];
    }
  }

  lemma {:induction false} StepPastArrivals(s: State, e: Event, es: seq<Event>)
    requires !e.Arrive? && (e.Run? ==> e.tid in s.threads)
    ensures Exec(Next(s, e), ArrivalsOf(es)) == Next(Exec(s, ArrivalsOf(es)), e)
    decreases |es|
  {
    if es == [] {
    } else if es[0].Arrive? {
      StepPastArrival(s, e, es[0]);
      StepPastArrivals(Next(s, es[0]), e, es[1..]);
      assert ArrivalsOf(es)[1..] == ArrivalsOf(es[1..]);
    } else {
      StepPastArrivals(s, e, es[1..]);
      assert ArrivalsOf(es) == ArrivalsOf(es[1..]);
    }
  }

  /** A run ends as if all its requests had arrived at its beginning. */
  lemma {:induction false} ArrivalsFirst(s: State, es: seq<Event>)
    requires Causal(s, es)
    ensures Exec(s, es) == Exec(Exec(s, ArrivalsOf(es)), WithoutArrivals(es))
    ensures NoArrivals(WithoutArrivals(es))
    decreases |es|
  {
    if es == [] {
    } else {
      ArrivalsFirst(Next(s, es[0]), es[1..]);
      if es[0].Arrive? {
        assert ArrivalsOf(es)[1..] == ArrivalsOf(es[1..]) && WithoutArrivals(es) == WithoutArrivals(es[1..]);
      } else {
        StepPastArrivals(s, es[0], es[1..]);
        assert ArrivalsOf(es) == ArrivalsOf(es[1..]) && WithoutArrivals(es)[1..] == WithoutArrivals(es[1..]);
      }
    }
  }

  /** So the reduction holds for requests that arrive at any time. */
  lemma LateArrivalsAreSerial(s: State, es: seq<Event>, turns: seq<Turn>)
    requires Causal(s, es) && AllDone(Exec(s, es))
    requires Ready(Exec(s, ArrivalsOf(es))) && CompleteOrder(Exec(s, ArrivalsOf(es)), turns)
    ensures var s0 := Exec(s, ArrivalsOf(es));
      && SameOutcome(s0, Exec(s, es), Exec(s0, SerialRun(turns)))
      && Waiting(s0, s0, turns) && Exec(s0, SerialRun(turns)).table == ServeAll(s0.table, s0, turns)
  {
    ArrivalsFirst(s, es);
    InterleavingsAreSerial(Exec(s, ArrivalsOf(es)), WithoutArrivals(es), turns);
  }
}
