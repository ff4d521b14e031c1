/** Batches of requests that change live rows, and serving them one at a time. */
module Batches {
  import opened Cars
  import opened CarTable
  import opened Conservation
  import opened Machine
  import opened Requests
  import opened Routes
  import opened Safety
  import opened Timestamps

  /** The car that a request to change a live row will write, if it gets that far. */
  function Sent(s0: State, req: Request): Option<Car> {
    match req
    case Patch(id, Object(fields)) =>
      if id in s0.table.rows then Some(Overlay(Decode(id, s0.table.rows[id]), fields)) else None
    case Put(id, Object(fields)) =>
      if id in s0.table.rows && HasRequired(fields) then Some(NewCar(id, fields)) else None
    case _ => None
  }

  /** A PATCH, a DELETE, or a PUT that will not insert, about to start. */
  predicate Eligible(s: State, th: Thread) {
    th.Entry? && !th.req.Post? && (th.req.Put? && Complete(th.req.body) ==> th.req.id in s.table.rows)
  }

  /** The request is about to start; the other threads of a batch have finished. */
  predicate Active(s: State, tid: ThreadId) {
    tid in s.threads && Eligible(s, s.threads[tid])
  }

  function Target(s: State, tid: ThreadId): int {
    if Active(s, tid) then s.threads[tid].req.id else 0
  }

  function SentBy(s: State, tid: ThreadId): Option<Car> {
    if Active(s, tid) then Sent(s, s.threads[tid].req) else None
  }

  /** Any number of such requests, on pairwise distinct ids, beside requests that have finished. */
  ghost predicate Batch(s: State) {
    && Inv(s)
    && (forall tid | tid in s.threads :: s.threads[tid].Done? || Active(s, tid))
    && (forall t, u | Active(s, t) && Active(s, u) && t != u :: Target(s, t) != Target(s, u))
  }

  // ----- Which requests race for a VIN? -----

  /** Outside `blocked`, no request would delete row `k` or change its VIN. */
  ghost predicate KeepsVin(s: State, k: int, blocked: set<ThreadId>) {
    k in s.table.rows && forall u | Active(s, u) && Target(s, u) == k ::
      !s.threads[u].req.DeleteCar?
      && (SentBy(s, u).Some? && u !in blocked ==> NullIfEmpty(SentBy(s, u).value.vin) == s.table.rows[k].vin)
  }

  ghost predicate BlockedBy(s: State, t: ThreadId, k: int, blocked: set<ThreadId>) {
    && SentBy(s, t).Some? && KeepsVin(s, k, blocked) && k != Target(s, t)
    && s.table.rows[k].vin == Some(SentBy(s, t).value.vin)
  }

  /** Each of the requests sends a VIN that another row holds, and keeps as long as none of them succeeds. */
  ghost predicate Blocked(s: State, blocked: set<ThreadId>) {
    forall t | t in blocked :: exists k :: BlockedBy(s, t, k, blocked)
  }

  /** Whatever the order of service, the request fails. */
  ghost predicate Refused(s: State, t: ThreadId) {
    exists blocked :: Blocked(s, blocked) && t in blocked
  }

  /** No race for a VIN: unless it is refused anyway, a VIN to be written is held by no other row, and
      written by no other request. */
  ghost predicate VinsApart(s: State) {
    forall t | SentBy(s, t).Some? && SentBy(s, t).value.vin != "" && !Refused(s, t) ::
      && !VinTaken(s.table.rows, Some(SentBy(s, t).value.vin), Target(s, t))
      && forall u | u != t && SentBy(s, u).Some? && !Refused(s, u) :: SentBy(s, u).value.vin != SentBy(s, t).value.vin
  }

  ghost predicate Ready(s: State) {
    Batch(s) && VinsApart(s)
  }

  lemma OwnVinOfPatch(s: State, t: ThreadId)
    requires Batch(s) && Active(s, t) && SentBy(s, t).Some? && s.threads[t].req.Patch? && LeavesVin(s.threads[t].req.body)
    ensures Target(s, t) in s.table.rows && SentBy(s, t).value.vin == TextOrEmpty(s.table.rows[Target(s, t)].vin)
  {
  }

  /** Requests that leave VINs alone never race. */
  lemma WithoutVinsApart(s: State)
    requires Batch(s)
    requires forall t | Active(s, t) :: !s.threads[t].req.Put? && (s.threads[t].req.Patch? ==> LeavesVin(s.threads[t].req.body))
    ensures Ready(s)
  {
    forall t | SentBy(s, t).Some?
      ensures Target(s, t) in s.table.rows && SentBy(s, t).value.vin == TextOrEmpty(s.table.rows[Target(s, t)].vin)
    {
      assert Active(s, t);
      OwnVinOfPatch(s, t);
    }
  }

  // ----- Outcomes -----

  ghost predicate NoArrivals(es: seq<Event>) {
    forall e | e in es :: !e.Arrive?
  }

  ghost predicate AllDone(s: State) {
    forall tid | tid in s.threads :: s.threads[tid].Done?
  }

  predicate SameResponse(a: Response, b: Response) {
    match (a, b)
    case (Ok(x), Ok(y)) => x.(updatedAt := "") == y.(updatedAt := "")
    case _ => a == b
  }

  /** All requests have finished in `a` and `b`, and they agree up to `updated_at`, answers included. */
  ghost predicate SameOutcome(s0: State, a: State, b: State) {
    && SameButStamps(a.table, b.table)
    && forall tid | tid in s0.threads ::
         && tid in a.threads && a.threads[tid].Done? && tid in b.threads && b.threads[tid].Done?
         && SameResponse(a.threads[tid].response, b.threads[tid].response)
  }

  /** A run in which all the requests finish. */
  ghost predicate CompleteRun(s0: State, es: seq<Event>) {
    NoArrivals(es) && AllDone(Exec(s0, es))
  }

  /** Row `id` is the same. */
  ghost predicate SameRow(a: map<int, Row>, b: map<int, Row>, id: int) {
    (id in a <==> id in b) && (id in a ==> a[id] == b[id])
  }

  // ----- Serving one at a time -----

  /** One request served alone, at a time of its own. */
  datatype Turn = Turn(tid: ThreadId, now: DateTime)

  function ServeAll(st: Table, s0: State, turns: seq<Turn>): Table
    requires forall turn | turn in turns :: turn.tid in s0.threads && s0.threads[turn.tid].Entry?
    decreases |turns|
  {
    if turns == [] then st else
      ServeAll(Serve(st, s0.threads[turns[0].tid].req, Stamp(turns[0].now)).0, s0, turns[1..])
  }

  /** The run that serves the turns in order. */
  function SerialRun(turns: seq<Turn>): seq<Event> {
    if turns == [] then [] else [Tick(turns[0].now)] + Runs(turns[0].tid, 5) + SerialRun(turns[1..])
  }

  ghost predicate DistinctTurns(turns: seq<Turn>) {
    forall i, j | 0 <= i < j < |turns| :: turns[i].tid != turns[j].tid
  }

  ghost predicate Serves(turns: seq<Turn>, tid: ThreadId) {
    exists turn | turn in turns :: turn.tid == tid
  }

  /** Each request of the batch has one turn. */
  ghost predicate CompleteOrder(s0: State, turns: seq<Turn>) {
    DistinctTurns(turns) && forall tid :: Active(s0, tid) <==> Serves(turns, tid)
  }

  ghost predicate Waiting(s0: State, s: State, turns: seq<Turn>) {
    forall turn | turn in turns ::
      turn.tid in s0.threads && s0.threads[turn.tid].Entry? && turn.tid in s.threads && s.threads[turn.tid] == s0.threads[turn.tid]
  }

  /** The first turn of a serial run. */
  lemma FirstTurn(s0: State, s: State, turns: seq<Turn>)
    requires turns != [] && DistinctTurns(turns) && Waiting(s0, s, turns)
    ensures var Turn(tid, now) := turns[0];
      var s' := Exec(s, [Tick(now)] + Runs(tid, 5));
      && tid in s0.threads && s0.threads[tid].Entry? && tid in s.threads
      && s'.table == Serve(s.table, s0.threads[tid].req, Stamp(now)).0
      && s'.threads == s.threads[tid := Done(Serve(s.table, s0.threads[tid].req, Stamp(now)).1)]
      && Waiting(s0, s', turns[1..])
  {
    var Turn(tid, now) := turns[0];
    assert turns[0] in turns;
    var s1 := Next(s, Tick(now));
    assert ([Tick(now)] + Runs(tid, 5))[1..] == Runs(tid, 5);
    AloneIsServe(s1, tid, s.threads[tid].req);
    forall turn | turn in turns[1..] ensures turn in turns && turn.tid != tid {
      var k :| 0 <= k < |turns[1..]| && turns[1..][k] == turn;
      assert turns[k + 1] == turn && turns[0].tid != turns[k + 1].tid;
    }
  }

  lemma {:induction false} SerialRunHasNoArrivals(turns: seq<Turn>)
    ensures NoArrivals(SerialRun(turns))
    decreases |turns|
  {
    if turns == [] {
    } else {
      SerialRunHasNoArrivals(turns[1..]);
    }
  }

  lemma {:induction false} SerialRunServes(s0: State, s: State, turns: seq<Turn>)
    requires DistinctTurns(turns) && Waiting(s0, s, turns)
    ensures Exec(s, SerialRun(turns)).table == ServeAll(s.table, s0, turns)
    ensures Exec(s, SerialRun(turns)).threads.Keys == s.threads.Keys
    decreases |turns|
  {
    if turns == [] {
    } else {
      FirstTurn(s0, s, turns);
      var first := [Tick(turns[0].now)] + Runs(turns[0].tid, 5);
      ExecAppend(s, first, SerialRun(turns[1..]));
      SerialRunServes(s0, Exec(s, first), turns[1..]);
    }
  }

  lemma {:induction false} SerialRunWithout(turns: seq<Turn>, tid: ThreadId)
    requires !Serves(turns, tid)
    ensures Run(tid) !in SerialRun(turns)
    decreases |turns|
  {
    if turns == [] {
    } else {
      assert turns[0] in turns && forall turn | turn in turns[1..] :: turn in turns;
      SerialRunWithout(turns[1..], tid);
    }
  }

  /** A request that has no turn stays as it is. */
  lemma SerialRunLeaves(s: State, turns: seq<Turn>, tid: ThreadId)
    requires tid in s.threads && !Serves(turns, tid)
    ensures tid in Exec(s, SerialRun(turns)).threads && Exec(s, SerialRun(turns)).threads[tid] == s.threads[tid]
  {
    SerialRunWithout(turns, tid);
    WaitingThreadStays(s, SerialRun(turns), tid);
  }

  /** What a request is answered in a serial run: the answer of its handler on the table that those
      before it leave. */
  lemma {:induction false} SerialRunAnswers(s0: State, s: State, before: seq<Turn>, turn: Turn, rest: seq<Turn>)
    requires DistinctTurns(before + ([turn] + rest)) && Waiting(s0, s, before + ([turn] + rest))
    ensures turn in before + ([turn] + rest) && forall b | b in before :: b in before + ([turn] + rest)
    ensures var s' := Exec(s, SerialRun(before + ([turn] + rest)));
      && turn.tid in s'.threads
      && s'.threads[turn.tid] == Done(Serve(ServeAll(s.table, s0, before), s0.threads[turn.tid].req, Stamp(turn.now)).1)
    decreases |before|
  {
    var turns := before + ([turn] + rest);
    var first := [Tick(turns[0].now)] + Runs(turns[0].tid, 5);
    var s1 := Exec(s, first);
    FirstTurn(s0, s, turns);
    ExecAppend(s, first, SerialRun(turns[1..]));
    if before == [] {
      assert turns[0] == turn && turns[1..] == rest;
      assert !Serves(rest, turn.tid) by {
        assert forall i | 0 <= i < |rest| :: rest[i] == turns[i + 1];
      }
      SerialRunLeaves(s1, rest, turn.tid);
    } else {
      assert turns[0] == before[0] && turns[1..] == before[1..] + ([turn] + rest);
      SerialRunAnswers(s0, s1, before[1..], turn, rest);
    }
  }

  lemma ServedIsDone(s0: State, turns: seq<Turn>, tid: ThreadId)
    requires DistinctTurns(turns) && Waiting(s0, s0, turns) && Serves(turns, tid)
    ensures tid in Exec(s0, SerialRun(turns)).threads && Exec(s0, SerialRun(turns)).threads[tid].Done?
  {
    var i :| 0 <= i < |turns| && turns[i].tid == tid;
    var before, rest := turns[..i], turns[i + 1..];
    assert turns == before + ([turns[i]] + rest);
    SerialRunAnswers(s0, s0, before, turns[i], rest);
  }

  /** A complete order makes a complete run. */
  lemma SerialRunCompletes(s0: State, turns: seq<Turn>)
    requires Batch(s0) && CompleteOrder(s0, turns)
    ensures CompleteRun(s0, SerialRun(turns)) && Waiting(s0, s0, turns)
    ensures Exec(s0, SerialRun(turns)).table == ServeAll(s0.table, s0, turns)
  {
    forall turn | turn in turns ensures Active(s0, turn.tid) {
      assert Serves(turns, turn.tid);
    }
    SerialRunServes(s0, s0, turns);
    SerialRunHasNoArrivals(turns);
    var s' := Exec(s0, SerialRun(turns));
    forall tid | tid in s'.threads ensures s'.threads[tid].Done? {
      if Active(s0, tid) {
        ServedIsDone(s0, turns, tid);
      } else {
        SerialRunLeaves(s0, turns, tid);
      }
    }
  }
}
