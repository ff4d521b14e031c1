/** The same handlers as a step machine: the server runs requests on several threads over one
    connection (`src/main.cpp:110`), without transactions, so their statements interleave. */
module Machine {
  import opened Cars
  import opened CarTable
  import opened Requests
  import opened Routes
  import opened Timestamps

  /** Which handler called `insertCar` or `updateCar`. */
  datatype Handler = ForPost | ForPut | ForPatch

  /** A request's program counter with its local variables. Work that touches only local variables
      happens together with the statement before it. `own`, the key that the request's INSERT
      really took (0 without one), is a history variable: no step reads it. */
  datatype Thread =
    | Entry(req: Request)
    | InsertBegin(h: Handler, car: Car)
    | InsertReady(h: Handler, car: Car, stamp: string)
    | InsertDone(h: Handler, own: int)
    | PatchRead(id: int, fields: map<string, Json>)
    | UpdateBegin(h: Handler, id: int, car: Car)
    | UpdateReady(h: Handler, id: int, car: Car, stamp: string)
    | DeleteReady(id: int)
    | ReadBack(h: Handler, newId: int, own: int)
    | Done(response: Response)

  type ThreadId = nat

  /** `requests` and `creator` (which request inserted a row) are history variables. */
  datatype State = State(
    table: Table, clock: DateTime, threads: map<ThreadId, Thread>,
    requests: map<ThreadId, Request>, creator: map<int, ThreadId>)

  datatype Event = Arrive(tid: ThreadId, req: Request) | Run(tid: ThreadId) | Tick(now: DateTime)

  /** `getCurrentTimestamp` */
  function Stamp(now: DateTime): string {
    if Printable(now) then Format(now) else ""
  }

  /** One step of one request. */
  function Step(th: Thread, st: Table, now: DateTime): (Table, Thread) {
    match th
    case Entry(Post(body)) =>
      (st, if Complete(body) then InsertBegin(ForPost, NewCar(0, body.fields)) else Done(BadRequest))
    case Entry(Put(id, body)) =>
      (st, if !Complete(body) then Done(BadRequest)
           else if id in st.rows then UpdateBegin(ForPut, id, NewCar(id, body.fields))
           else InsertBegin(ForPut, NewCar(id, body.fields)))
    case Entry(Patch(id, body)) =>
      (st, if id !in st.rows then Done(Skipped(id))
           else if body.Malformed? then Done(BadRequest)
           else PatchRead(id, body.fields))
    case Entry(DeleteCar(id)) =>
      (st, if id in st.rows then DeleteReady(id) else Done(NoContent))
    case InsertBegin(h, car) => (st, InsertReady(h, car, Stamp(now)))
    case InsertReady(h, car, stamp) =>
      var (after, ok) := Insert(st, car, stamp);
      (after, if ok then InsertDone(h, after.high)
              else if h == ForPost then Done(Failed)
              else ReadBack(h, 0, 0))
    case InsertDone(h, own) => (st, ReadBack(h, st.lastRowId, own))
    case PatchRead(id, fields) => (st, UpdateBegin(ForPatch, id, Overlay(Get(st, id).0, fields)))
    case UpdateBegin(h, id, car) => (st, UpdateReady(h, id, car, Stamp(now)))
    case UpdateReady(h, id, car, stamp) =>
      var (after, ok) := Update(st, id, car, stamp);
      (after, if ok then ReadBack(h, id, 0) else Done(Failed))
    case DeleteReady(id) => (Delete(st, id), Done(NoContent))
    case ReadBack(h, newId, own) =>
      (st, Done(if h == ForPost then Created(newId, Get(st, newId).0) else Ok(Get(st, newId).0)))
    case Done(_) => (st, th)
  }

  function Next(s: State, e: Event): State {
    match e
    case Arrive(tid, req) =>
      if tid in s.threads then s
      else s.(threads := s.threads[tid := Entry(req)], requests := s.requests[tid := req])
    case Tick(now) => s.(clock := now)
    case Run(tid) =>
      if tid !in s.threads then s
      else
        var (after, th) := Step(s.threads[tid], s.table, s.clock);
        s.(table := after, threads := s.threads[tid := th],
           creator := if after.high > s.table.high then s.creator[after.high := tid] else s.creator)
  }

  /** A run: any sequence of arrivals, steps and clock changes, so any interleaving. */
  function Exec(s: State, es: seq<Event>): State
    decreases |es|
  {
    if es == [] then s else Exec(Next(s, es[0]), es[1..])
  }

  /** A fresh connection over an existing table. */
  ghost predicate Start(s: State) {
    && WellFormed(s.table) && s.table.lastRowId == 0
    && s.threads == map[] && s.requests == map[] && s.creator == map[]
  }

  lemma {:induction false} ExecAppend(s: State, es: seq<Event>, fs: seq<Event>)
    ensures Exec(s, es + fs) == Exec(Exec(s, es), fs)
    decreases |es|
  {
    if es == [] {
      assert es + fs == fs;
    } else {
      assert (es + fs)[1..] == es[1..] + fs;
      ExecAppend(Next(s, es[0]), es[1..], fs);
    }
  }

  // ----- A request that is never interrupted is served as by the handlers -----

  /** `n` steps of one thread on its own. */
  function Steps(th: Thread, st: Table, now: DateTime, n: nat): (Table, Thread)
    decreases n
  {
    if n == 0 then (st, th) else
      var (after, next) := Step(th, st, now);
      Steps(next, after, now, n - 1)
  }

  /** The last of `n + 1` steps. */
  lemma {:induction false} StepsAppend(th: Thread, st: Table, now: DateTime, n: nat)
    ensures var (after, next) := Steps(th, st, now, n); Steps(th, st, now, n + 1) == Step(next, after, now)
    decreases n
  {
    var (after, next) := Step(th, st, now);
    if n == 0 {
      assert Steps(th, st, now, 1) == Steps(next, after, now, 0);
    } else {
      StepsAppend(next, after, now, n - 1);
    }
  }

  function Runs(tid: ThreadId, n: nat): seq<Event> {
    seq(n, i => Run(tid))
  }

  lemma {:induction false} ExecRuns(s: State, tid: ThreadId, n: nat)
    requires tid in s.threads
    ensures var (after, th) := Steps(s.threads[tid], s.table, s.clock, n);
      var s' := Exec(s, Runs(tid, n));
      s'.table == after && s'.clock == s.clock && s'.requests == s.requests && s'.threads == s.threads[tid := th]
    decreases n
  {
    if n == 0 {
      assert s.threads == s.threads[tid := s.threads[tid]];
    } else {
      var s1 := Next(s, Run(tid));
      assert Runs(tid, n)[0] == Run(tid) && Runs(tid, n)[1..] == Runs(tid, n - 1);
      ExecRuns(s1, tid, n - 1);
    }
  }

  lemma {:induction false} DoneStays(response: Response, st: Table, now: DateTime, n: nat)
    ensures Steps(Done(response), st, now, n) == (st, Done(response))
    decreases n
  {
    if n == 0 {
    } else {
      DoneStays(response, st, now, n - 1);
    }
  }

  lemma InsertServed(h: Handler, car: Car, st: Table, now: DateTime)
    requires h != ForPatch
    ensures var (after, ok) := Insert(st, car, Stamp(now));
      Steps(InsertBegin(h, car), st, now, 4) ==
        (after, Done(if h == ForPost then
                       if ok then Created(after.lastRowId, Get(after, after.lastRowId).0) else Failed
                     else Ok(Get(after, if ok then after.lastRowId else 0).0)))
  {
    var (after, ok) := Insert(st, car, Stamp(now));
    assert Steps(InsertBegin(h, car), st, now, 4) == Steps(InsertReady(h, car, Stamp(now)), st, now, 3);
    if ok {
      assert Steps(InsertReady(h, car, Stamp(now)), st, now, 3) == Steps(InsertDone(h, after.high), after, now, 2);
    } else if h == ForPost {
      DoneStays(Failed, after, now, 2);
    } else {
      assert Steps(InsertReady(h, car, Stamp(now)), st, now, 3) == Steps(ReadBack(h, 0, 0), after, now, 2);
    }
  }

  lemma PostServed(body: Body, st: Table, now: DateTime)
    ensures var (after, response) := Serve(st, Post(body), Stamp(now));
      Steps(Entry(Post(body)), st, now, 5) == (after, Done(response))
  {
    if Complete(body) {
      var car := NewCar(0, body.fields);
      assert Steps(Entry(Post(body)), st, now, 5) == Steps(InsertBegin(ForPost, car), st, now, 4);
      InsertServed(ForPost, car, st, now);
    } else {
      DoneStays(BadRequest, st, now, 4);
    }
  }

  lemma UpdateServed(h: Handler, id: int, car: Car, st: Table, now: DateTime, n: nat)
    requires h != ForPost && n >= 3
    ensures var (after, ok) := Update(st, id, car, Stamp(now));
      Steps(UpdateBegin(h, id, car), st, now, n) == (after, Done(if ok then Ok(Get(after, id).0) else Failed))
  {
    var (after, ok) := Update(st, id, car, Stamp(now));
    assert Steps(UpdateBegin(h, id, car), st, now, n) == Steps(UpdateReady(h, id, car, Stamp(now)), st, now, n - 1);
    if ok {
      assert Steps(UpdateReady(h, id, car, Stamp(now)), st, now, n - 1) == Steps(ReadBack(h, id, 0), after, now, n - 2);
      DoneStays(Ok(Get(after, id).0), after, now, n - 3);
    } else {
      DoneStays(Failed, after, now, n - 2);
    }
  }

  lemma PutServed(id: int, body: Body, st: Table, now: DateTime)
    ensures var (after, response) := Serve(st, Put(id, body), Stamp(now));
      Steps(Entry(Put(id, body)), st, now, 5) == (after, Done(response))
  {
    if !Complete(body) {
      DoneStays(BadRequest, st, now, 4);
    } else if id in st.rows {
      UpdateServed(ForPut, id, NewCar(id, body.fields), st, now, 4);
    } else {
      InsertServed(ForPut, NewCar(id, body.fields), st, now);
    }
  }

  lemma PatchServed(id: int, body: Body, st: Table, now: DateTime)
    ensures var (after, response) := Serve(st, Patch(id, body), Stamp(now));
      Steps(Entry(Patch(id, body)), st, now, 5) == (after, Done(response))
  {
    if id !in st.rows {
      DoneStays(Skipped(id), st, now, 4);
    } else if body.Malformed? {
      DoneStays(BadRequest, st, now, 4);
    } else {
      var car := Overlay(Get(st, id).0, body.fields);
      assert Steps(Entry(Patch(id, body)), st, now, 5) == Steps(PatchRead(id, body.fields), st, now, 4);
      assert Steps(PatchRead(id, body.fields), st, now, 4) == Steps(UpdateBegin(ForPatch, id, car), st, now, 3);
      UpdateServed(ForPatch, id, car, st, now, 3);
    }
  }

  lemma DeleteServed(id: int, st: Table, now: DateTime)
    ensures Steps(Entry(DeleteCar(id)), st, now, 5) == (Delete(st, id), Done(NoContent))
  {
    if id in st.rows {
      DoneStays(NoContent, Delete(st, id), now, 3);
    } else {
      assert st.rows - {id} == st.rows;
      DoneStays(NoContent, st, now, 4);
    }
  }

  /** Five steps of one thread without interruption serve its request as the handlers do. */
  lemma AloneIsServe(s: State, tid: ThreadId, req: Request)
    requires tid in s.threads && s.threads[tid] == Entry(req)
    ensures var (after, response) := Serve(s.table, req, Stamp(s.clock));
      var s' := Exec(s, Runs(tid, 5));
      && s'.table == after && s'.clock == s.clock && s'.requests == s.requests
      && s'.threads == s.threads[tid := Done(response)]
  {
    ExecRuns(s, tid, 5);
    match req
    case Post(body) => PostServed(body, s.table, s.clock);
    case Put(id, body) => PutServed(id, body, s.table, s.clock);
    case Patch(id, body) => PatchServed(id, body, s.table, s.clock);
    case DeleteCar(id) => DeleteServed(id, s.table, s.clock);
  }

  // ----- Every request finishes -----

  /** The most steps that a request still needs. */
  function Remaining(th: Thread): nat {
    match th
    case Entry(_) => 5
    case InsertBegin(_, _) => 4
    case PatchRead(_, _) => 4
    case InsertReady(_, _, _) => 3
    case UpdateBegin(_, _, _) => 3
    case InsertDone(_, _) => 2
    case UpdateReady(_, _, _, _) => 2
    case DeleteReady(_) => 1
    case ReadBack(_, _, _) => 1
    case Done(_) => 0
  }

  function StepsOf(tid: ThreadId, es: seq<Event>): nat {
    if es == [] then 0 else (if es[0] == Run(tid) then 1 else 0) + StepsOf(tid, es[1..])
  }

  lemma StepUsesUp(th: Thread, st: Table, now: DateTime)
    ensures Remaining(th) <= 5 && (Remaining(th) == 0 <==> th.Done?)
    ensures var next := Step(th, st, now).1; if th.Done? then next == th else Remaining(next) < Remaining(th)
  {
  }

  /** Whatever the others do in between, a request is done after five steps of its own. */
  lemma {:induction false} FinishesInFiveSteps(s: State, es: seq<Event>, tid: ThreadId)
    requires tid in s.threads
    ensures tid in Exec(s, es).threads
    ensures StepsOf(tid, es) >= Remaining(s.threads[tid]) ==> Exec(s, es).threads[tid].Done?
    ensures Remaining(s.threads[tid]) <= 5
    decreases |es|
  {
    StepUsesUp(s.threads[tid], s.table, s.clock);
    if es == [] {
    } else {
      FinishesInFiveSteps(Next(s, es[0]), es[1..], tid);
    }
  }
}
