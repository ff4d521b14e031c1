/** Exactly when the order of service matters: when requests race for a VIN. */
module Races {
  import opened Batches
  import opened Cars
  import opened CarTable
  import opened Listing
  import opened Machine
  import opened Reduction
  import opened Requests
  import opened Routes
  import opened Safety
  import opened Timestamps

  // ----- Serving a part of the batch -----

  /** Some requests of the batch, each with one turn. */
  ghost predicate Prefix(s0: State, turns: seq<Turn>) {
    DistinctTurns(turns) && forall turn | turn in turns :: Active(s0, turn.tid)
  }

  ghost function TableAfter(s0: State, turns: seq<Turn>): Table
    requires Prefix(s0, turns)
  {
    ServeAll(s0.table, s0, turns)
  }

  /** On this table the request would fail. */
  predicate FailsOn(s0: State, st: Table, t: ThreadId) {
    SentBy(s0, t).Some? && VinTaken(st.rows, NullIfEmpty(SentBy(s0, t).value.vin), Target(s0, t))
  }

  /** What serving one request does to a table in which its row is as it was. */
  lemma ServeOne(s0: State, st: Table, t: ThreadId, now: string)
    requires Active(s0, t) && WellFormed(st) && SameRow(s0.table.rows, st.rows, Target(s0, t))
    ensures var (after, response) := Serve(st, s0.threads[t].req, now);
      var id, sent := Target(s0, t), SentBy(s0, t);
      && (response == Failed <==> FailsOn(s0, st, t))
      && after == st.(rows :=
           if s0.threads[t].req.DeleteCar? then st.rows - {id}
           else if sent.None? || FailsOn(s0, st, t) then st.rows
           else st.rows[id := Encode(sent.value, s0.table.rows[id].createdAt, now)])
  {
  }

  lemma ServeKeeps(st: Table, req: Request, now: string)
    requires WellFormed(st)
    ensures WellFormed(Serve(st, req, now).0)
  {
    match req
    case Post(body) => if Complete(body) { InsertKeeps(st, NewCar(0, body.fields), now); }
    case Put(id, body) =>
      if Complete(body) {
        InsertKeeps(st, NewCar(id, body.fields), now);
        UpdateKeeps(st, id, NewCar(id, body.fields), now);
      }
    case Patch(id, body) => if body.Object? { UpdateKeeps(st, id, Overlay(Get(st, id).0, body.fields), now); }
    case DeleteCar(id) => DeleteKeeps(st, id);
  }

  lemma {:induction false} ServeAllAppend(st: Table, s0: State, turns: seq<Turn>, last: Turn)
    requires Active(s0, last.tid) && forall turn | turn in turns :: Active(s0, turn.tid)
    ensures forall turn | turn in turns + [last] :: turn.tid in s0.threads && s0.threads[turn.tid].Entry?
    ensures ServeAll(st, s0, turns + [last]) == Serve(ServeAll(st, s0, turns), s0.threads[last.tid].req, Stamp(last.now)).0
    decreases |turns|
  {
    if turns == [] {
      assert [last][1..] == [];
    } else {
      assert (turns + [last])[1..] == turns[1..] + [last];
      ServeAllAppend(Serve(st, s0.threads[turns[0].tid].req, Stamp(turns[0].now)).0, s0, turns[1..], last);
    }
  }

  lemma PrefixAppend(s0: State, turns: seq<Turn>, last: Turn)
    requires Prefix(s0, turns) && Active(s0, last.tid) && !Serves(turns, last.tid)
    ensures Prefix(s0, turns + [last])
    ensures TableAfter(s0, turns + [last])
      == Serve(TableAfter(s0, turns), s0.threads[last.tid].req, Stamp(last.now)).0
  {
    ServeAllAppend(s0.table, s0, turns, last);
  }

  lemma PrefixInit(s0: State, turns: seq<Turn>)
    requires Prefix(s0, turns) && turns != []
    ensures var init, last := turns[..|turns| - 1], turns[|turns| - 1];
      && Prefix(s0, init) && !Serves(init, last.tid) && Active(s0, last.tid) && turns == init + [last]
      && TableAfter(s0, turns) == Serve(TableAfter(s0, init), s0.threads[last.tid].req, Stamp(last.now)).0
      && forall tid :: Serves(turns, tid) <==> Serves(init, tid) || tid == last.tid
  {
    var init, last := turns[..|turns| - 1], turns[|turns| - 1];
    assert turns == init + [last];
    assert last in turns && forall turn :: turn in turns <==> turn in init || turn == last;
    PrefixAppend(s0, init, last);
  }

  /** The rows of requests without a turn are as they were. */
  lemma {:induction false} AfterPrefix(s0: State, turns: seq<Turn>)
    requires Batch(s0) && Prefix(s0, turns)
    ensures WellFormed(TableAfter(s0, turns))
    ensures forall t | Active(s0, t) && !Serves(turns, t) :: SameRow(s0.table.rows, TableAfter(s0, turns).rows, Target(s0, t))
    decreases |turns|
  {
    if turns == [] {
    } else {
      var init, last := turns[..|turns| - 1], turns[|turns| - 1];
      PrefixInit(s0, turns);
      AfterPrefix(s0, init);
      var st := TableAfter(s0, init);
      ServeKeeps(st, s0.threads[last.tid].req, Stamp(last.now));
      ServeOne(s0, st, last.tid, Stamp(last.now));
      forall t | Active(s0, t) && !Serves(turns, t) ensures SameRow(s0.table.rows, TableAfter(s0, turns).rows, Target(s0, t)) {
        assert Target(s0, t) != Target(s0, last.tid);
      }
    }
  }

  // ----- A request that is never let through is refused -----

  /** Some serial prefix lets the request write. */
  ghost predicate CanWrite(s0: State, t: ThreadId) {
    SentBy(s0, t).Some? && exists turns | Prefix(s0, turns) :: !Serves(turns, t) && !FailsOn(s0, TableAfter(s0, turns), t)
  }

  /** The row of `u` holds the VIN that `t` sends. */
  ghost predicate Holds(s0: State, t: ThreadId, u: ThreadId) {
    && SentBy(s0, t).Some? && SentBy(s0, t).value.vin != "" && Active(s0, u) && Target(s0, u) != Target(s0, t)
    && Target(s0, u) in s0.table.rows && s0.table.rows[Target(s0, u)].vin == Some(SentBy(s0, t).value.vin)
  }

  /** Before the turn of `u`, whose row holds the VIN of `t`, serving `t` changes nothing. */
  lemma FailsBefore(s0: State, turns: seq<Turn>, t: ThreadId, u: ThreadId)
    requires Batch(s0) && Prefix(s0, turns) && Holds(s0, t, u) && !Serves(turns, u)
    ensures FailsOn(s0, TableAfter(s0, turns), t)
  {
    AfterPrefix(s0, turns);
    assert SameRow(s0.table.rows, TableAfter(s0, turns).rows, Target(s0, u));
  }

  /** So its turn can be dropped. */
  lemma {:induction false} DropTurn(s0: State, turns: seq<Turn>, t: ThreadId, u: ThreadId) returns (rest: seq<Turn>)
    requires Batch(s0) && Prefix(s0, turns) && Holds(s0, t, u) && !Serves(turns, u)
    ensures Prefix(s0, rest) && !Serves(rest, t) && TableAfter(s0, rest) == TableAfter(s0, turns)
    ensures forall tid | Serves(rest, tid) :: Serves(turns, tid)
    decreases |turns|
  {
    if turns == [] {
      rest := [];
    } else {
      var init, last := turns[..|turns| - 1], turns[|turns| - 1];
      PrefixInit(s0, turns);
      rest := DropTurn(s0, init, t, u);
      if last.tid == t {
        AfterPrefix(s0, init);
        FailsBefore(s0, init, t, u);
        ServeOne(s0, TableAfter(s0, init), t, Stamp(last.now));
      } else {
        PrefixAppend(s0, rest, last);
        var longer := rest + [last];
        assert forall tid :: Serves(longer, tid) <==> Serves(rest, tid) || tid == last.tid by {
          assert forall turn :: turn in longer <==> turn in rest || turn == last;
        }
        rest := longer;
      }
    }
  }

  /** When `u` can give up the VIN of `t`, then `t` can write. */
  lemma RoomAfter(s0: State, turns: seq<Turn>, t: ThreadId, u: ThreadId)
    requires Batch(s0) && Prefix(s0, turns) && Holds(s0, t, u) && !Serves(turns, u)
    requires s0.threads[u].req.DeleteCar?
      || (SentBy(s0, u).Some? && SentBy(s0, u).value.vin != SentBy(s0, t).value.vin && !FailsOn(s0, TableAfter(s0, turns), u))
    ensures CanWrite(s0, t)
  {
    var rest := DropTurn(s0, turns, t, u);
    var st, k, vin := TableAfter(s0, rest), Target(s0, u), SentBy(s0, t).value.vin;
    AfterPrefix(s0, rest);
    assert SameRow(s0.table.rows, st.rows, k);
    var now := DateTime(1, 1, 1, 0, 0, 0);
    var last := Turn(u, now);
    PrefixAppend(s0, rest, last);
    ServeOne(s0, st, u, Stamp(now));
    var after := TableAfter(s0, rest + [last]);
    forall i | i in after.rows ensures after.rows[i].vin != Some(vin) {
      assert i != k ==> st.rows[i].vin != st.rows[k].vin;
    }
    assert !FailsOn(s0, after, t);
    assert !Serves(rest + [last], t) by {
      assert forall turn :: turn in rest + [last] ==> turn in rest || turn == last;
    }
  }

  /** The requests with a VIN that no serial prefix lets write. */
  ghost function Stuck(s0: State): set<ThreadId> {
    set t | t in s0.threads && SentBy(s0, t).Some? && SentBy(s0, t).value.vin != "" && !CanWrite(s0, t)
  }

  lemma LetsThrough(s0: State, t: ThreadId, u: ThreadId)
    requires Batch(s0) && Holds(s0, t, u) && u !in Stuck(s0)
    requires SentBy(s0, u).Some? && SentBy(s0, u).value.vin != SentBy(s0, t).value.vin
    ensures CanWrite(s0, t)
  {
    if SentBy(s0, u).value.vin == "" {
      RoomAfter(s0, [], t, u);
    } else {
      var turns :| Prefix(s0, turns) && !Serves(turns, u) && !FailsOn(s0, TableAfter(s0, turns), u);
      RoomAfter(s0, turns, t, u);
    }
  }

  /** Each of them is blocked by a row that the others keep. */
  lemma StuckIsBlocked(s0: State, t: ThreadId)
    requires Batch(s0) && t in Stuck(s0)
    ensures exists k :: BlockedBy(s0, t, k, Stuck(s0))
  {
    assert Prefix(s0, []) && TableAfter(s0, []) == s0.table && !Serves([], t);
    assert FailsOn(s0, s0.table, t);
    var k :| k in s0.table.rows && k != Target(s0, t) && s0.table.rows[k].vin == Some(SentBy(s0, t).value.vin);
    forall u | Active(s0, u) && Target(s0, u) == k
      ensures !s0.threads[u].req.DeleteCar?
      ensures SentBy(s0, u).Some? && u !in Stuck(s0) ==> NullIfEmpty(SentBy(s0, u).value.vin) == s0.table.rows[k].vin
    {
      assert Holds(s0, t, u) && !Serves([], u);
      if s0.threads[u].req.DeleteCar? {
        RoomAfter(s0, [], t, u);
      } else if SentBy(s0, u).Some? && SentBy(s0, u).value.vin != SentBy(s0, t).value.vin && u !in Stuck(s0) {
        LetsThrough(s0, t, u);
      }
    }
    assert BlockedBy(s0, t, k, Stuck(s0));
  }

  lemma NotRefusedCanWrite(s0: State, t: ThreadId)
    requires Batch(s0) && SentBy(s0, t).Some? && SentBy(s0, t).value.vin != "" && !Refused(s0, t)
    ensures CanWrite(s0, t)
  {
    forall u | u in Stuck(s0) ensures exists k :: BlockedBy(s0, u, k, Stuck(s0)) {
      StuckIsBlocked(s0, u);
    }
    assert Blocked(s0, Stuck(s0));
  }

  /** Rows that a blocked set keeps hold their VINs throughout. */
  lemma {:induction false} KeptVinsStay(s0: State, turns: seq<Turn>, blocked: set<ThreadId>)
    requires Batch(s0) && Prefix(s0, turns) && Blocked(s0, blocked)
    ensures forall k | KeepsVin(s0, k, blocked) ::
      k in TableAfter(s0, turns).rows && TableAfter(s0, turns).rows[k].vin == s0.table.rows[k].vin
    decreases |turns|
  {
    if turns == [] {
    } else {
      var init, last := turns[..|turns| - 1], turns[|turns| - 1];
      PrefixInit(s0, turns);
      AfterPrefix(s0, init);
      KeptVinsStay(s0, init, blocked);
      var st := TableAfter(s0, init);
      assert SameRow(s0.table.rows, st.rows, Target(s0, last.tid));
      ServeOne(s0, st, last.tid, Stamp(last.now));
      if last.tid in blocked {
        var k :| BlockedBy(s0, last.tid, k, blocked);
        assert st.rows[k].vin == Some(SentBy(s0, last.tid).value.vin);
        assert FailsOn(s0, st, last.tid);
      }
    }
  }

  /** What it means to be refused: no serial prefix lets the request write. */
  lemma RefusedIffNeverLetThrough(s0: State, t: ThreadId)
    requires Batch(s0) && SentBy(s0, t).Some? && SentBy(s0, t).value.vin != ""
    ensures Refused(s0, t) <==> !CanWrite(s0, t)
  {
    if blocked :| Blocked(s0, blocked) && t in blocked {
      var k :| BlockedBy(s0, t, k, blocked);
      forall turns | Prefix(s0, turns) && !Serves(turns, t) ensures FailsOn(s0, TableAfter(s0, turns), t) {
        KeptVinsStay(s0, turns, blocked);
        assert TableAfter(s0, turns).rows[k].vin == Some(SentBy(s0, t).value.vin);
      }
    } else {
      NotRefusedCanWrite(s0, t);
    }
  }

  // ----- In a race some request fails or succeeds by its place -----

  /** A request that has had its turn has written its VIN, or failed when its turn came. */
  lemma {:induction false} WroteOrFailed(s0: State, turns: seq<Turn>, t: ThreadId) returns (before: seq<Turn>)
    requires Batch(s0) && Prefix(s0, turns) && Serves(turns, t) && SentBy(s0, t).Some?
    ensures Prefix(s0, before) && !Serves(before, t)
    ensures FailsOn(s0, TableAfter(s0, before), t) || (
      var rows, id := TableAfter(s0, turns).rows, Target(s0, t);
      id in rows && rows[id].vin == NullIfEmpty(SentBy(s0, t).value.vin))
    decreases |turns|
  {
    var init, last := turns[..|turns| - 1], turns[|turns| - 1];
    PrefixInit(s0, turns);
    AfterPrefix(s0, init);
    assert SameRow(s0.table.rows, TableAfter(s0, init).rows, Target(s0, last.tid));
    ServeOne(s0, TableAfter(s0, init), last.tid, Stamp(last.now));
    if last.tid == t {
      before := init;
    } else {
      before := WroteOrFailed(s0, init, t);
      assert Target(s0, t) != Target(s0, last.tid);
    }
  }

  /** Two serial prefixes: after the one the request fails, after the other it does not. */
  ghost predicate Decides(s0: State, t: ThreadId, fails: seq<Turn>, writes: seq<Turn>) {
    && Active(s0, t)
    && Prefix(s0, fails) && !Serves(fails, t) && FailsOn(s0, TableAfter(s0, fails), t)
    && Prefix(s0, writes) && !Serves(writes, t) && !FailsOn(s0, TableAfter(s0, writes), t)
  }

  /** When two requests send one VIN and each can write, one of them can also fail: after the other. */
  lemma OneVinTwice(s0: State, t: ThreadId, u: ThreadId) returns (fails: seq<Turn>)
    requires Batch(s0) && t != u && SentBy(s0, t).Some? && SentBy(s0, u).Some? && CanWrite(s0, u)
    requires SentBy(s0, t).value.vin == SentBy(s0, u).value.vin != ""
    ensures Prefix(s0, fails) && !Serves(fails, t) && FailsOn(s0, TableAfter(s0, fails), t)
  {
    var turns :| Prefix(s0, turns) && !Serves(turns, u) && !FailsOn(s0, TableAfter(s0, turns), u);
    var st := TableAfter(s0, turns);
    AfterPrefix(s0, turns);
    assert Target(s0, t) != Target(s0, u);
    if Serves(turns, t) {
      fails := WroteOrFailed(s0, turns, t);
      assert FailsOn(s0, st, u) <==> VinTaken(st.rows, NullIfEmpty(SentBy(s0, u).value.vin), Target(s0, u));
    } else {
      var last := Turn(u, DateTime(1, 1, 1, 0, 0, 0));
      PrefixAppend(s0, turns, last);
      assert SameRow(s0.table.rows, st.rows, Target(s0, u));
      ServeOne(s0, st, u, Stamp(last.now));
      fails := turns + [last];
      assert TableAfter(s0, fails).rows[Target(s0, u)].vin == Some(SentBy(s0, t).value.vin);
      assert !Serves(fails, t) by {
        assert forall turn :: turn in fails ==> turn in turns || turn == last;
      }
    }
  }

  lemma RaceDecides(s0: State) returns (t: ThreadId, fails: seq<Turn>, writes: seq<Turn>)
    requires Batch(s0) && !VinsApart(s0)
    ensures Decides(s0, t, fails, writes)
  {
    t :| SentBy(s0, t).Some? && SentBy(s0, t).value.vin != "" && !Refused(s0, t)
      && (VinTaken(s0.table.rows, Some(SentBy(s0, t).value.vin), Target(s0, t))
          || exists u :: u != t && SentBy(s0, u).Some? && !Refused(s0, u) && SentBy(s0, u).value.vin == SentBy(s0, t).value.vin);
    NotRefusedCanWrite(s0, t);
    writes :| Prefix(s0, writes) && !Serves(writes, t) && !FailsOn(s0, TableAfter(s0, writes), t);
    if VinTaken(s0.table.rows, Some(SentBy(s0, t).value.vin), Target(s0, t)) {
      fails := [];
      assert TableAfter(s0, fails) == s0.table;
    } else {
      var u :| u != t && SentBy(s0, u).Some? && !Refused(s0, u) && SentBy(s0, u).value.vin == SentBy(s0, t).value.vin;
      NotRefusedCanWrite(s0, u);
      fails := OneVinTwice(s0, t, u);
    }
  }

  // ----- Completing an order -----

  lemma {:induction false} FillUp(s0: State, turns: seq<Turn>, todo: set<ThreadId>) returns (rest: seq<Turn>)
    requires Prefix(s0, turns)
    requires forall tid :: tid in todo <==> Active(s0, tid) && !Serves(turns, tid)
    ensures CompleteOrder(s0, turns + rest)
    decreases todo
  {
    if todo == {} {
      rest := [];
      assert turns + rest == turns;
    } else {
      var next := AnyOf(todo);
      var turn := Turn(next, DateTime(1, 1, 1, 0, 0, 0));
      PrefixAppend(s0, turns, turn);
      assert forall tid :: Serves(turns + [turn], tid) <==> Serves(turns, tid) || tid == next by {
        assert forall x :: x in turns + [turn] <==> x in turns || x == turn;
      }
      rest := FillUp(s0, turns + [turn], todo - {next});
      rest := [turn] + rest;
      assert turns + rest == turns + [turn] + rest[1..];
    }
  }

  // ----- The order matters exactly in a race -----

  ghost predicate RunsDecided(s0: State) {
    forall es, fs | CompleteRun(s0, es) && CompleteRun(s0, fs) :: SameOutcome(s0, Exec(s0, es), Exec(s0, fs))
  }

  ghost predicate OrdersDecided(s0: State) {
    forall turns, others | CompleteOrder(s0, turns) && CompleteOrder(s0, others) ::
      SameOutcome(s0, Exec(s0, SerialRun(turns)), Exec(s0, SerialRun(others)))
  }

  /** The answer to the turn after a prefix. */
  lemma AnswerAfter(s0: State, before: seq<Turn>, turn: Turn, rest: seq<Turn>)
    requires Batch(s0) && Prefix(s0, before) && Active(s0, turn.tid) && !Serves(before, turn.tid)
    requires DistinctTurns(before + ([turn] + rest)) && Waiting(s0, s0, before + ([turn] + rest))
    ensures var s := Exec(s0, SerialRun(before + ([turn] + rest)));
      && turn.tid in s.threads && s.threads[turn.tid].Done?
      && (s.threads[turn.tid].response == Failed <==> FailsOn(s0, TableAfter(s0, before), turn.tid))
  {
    SerialRunAnswers(s0, s0, before, turn, rest);
    AfterPrefix(s0, before);
    ServeOne(s0, TableAfter(s0, before), turn.tid, Stamp(turn.now));
  }

  /** A complete order that begins with the prefix and goes on with `t`. */
  lemma OrderThrough(s0: State, before: seq<Turn>, t: ThreadId) returns (turns: seq<Turn>)
    requires Batch(s0) && Prefix(s0, before) && Active(s0, t) && !Serves(before, t)
    ensures CompleteOrder(s0, turns)
    ensures var s := Exec(s0, SerialRun(turns));
      && t in s.threads && s.threads[t].Done?
      && (s.threads[t].response == Failed <==> FailsOn(s0, TableAfter(s0, before), t))
  {
    var turn := Turn(t, DateTime(1, 1, 1, 0, 0, 0));
    PrefixAppend(s0, before, turn);
    var rest := FillUp(s0, before + [turn], set u | u in s0.threads && Active(s0, u) && !Serves(before + [turn], u));
    turns := before + ([turn] + rest);
    assert turns == before + [turn] + rest;
    SerialRunCompletes(s0, turns);
    AnswerAfter(s0, before, turn, rest);
  }

  lemma RaceHasTwoOutcomes(s0: State)
    requires Batch(s0) && !VinsApart(s0)
    ensures !OrdersDecided(s0)
  {
    var t, fails, writes := RaceDecides(s0);
    var turns := OrderThrough(s0, fails, t);
    var others := OrderThrough(s0, writes, t);
    assert !SameOutcome(s0, Exec(s0, SerialRun(turns)), Exec(s0, SerialRun(others)));
  }

  lemma RunsIncludeOrders(s0: State)
    requires Batch(s0) && RunsDecided(s0)
    ensures OrdersDecided(s0)
  {
    forall turns, others | CompleteOrder(s0, turns) && CompleteOrder(s0, others)
      ensures SameOutcome(s0, Exec(s0, SerialRun(turns)), Exec(s0, SerialRun(others)))
    {
      SerialRunCompletes(s0, turns);
      SerialRunCompletes(s0, others);
    }
  }

  /** For every batch: all its runs have one outcome, and all its serial orders have, exactly when the
      requests do not race for a VIN. */
  lemma OrderMattersIffRace(s0: State)
    requires Batch(s0)
    ensures RunsDecided(s0) <==> VinsApart(s0)
    ensures OrdersDecided(s0) <==> VinsApart(s0)
  {
    if VinsApart(s0) {
      forall es, fs | CompleteRun(s0, es) && CompleteRun(s0, fs) ensures SameOutcome(s0, Exec(s0, es), Exec(s0, fs)) {
        RunsAgree(s0, es, fs);
      }
    } else {
      RaceHasTwoOutcomes(s0);
    }
    if RunsDecided(s0) {
      RunsIncludeOrders(s0);
    }
  }
}
