/** VINs as people read them: which VINs may PATCHes send so that no two rows ever share one up to
    case and surrounding blanks? POST and PUT are free to send anything. */
module Vins {
  import opened Cars
  import opened CarTable
  import opened Machine
  import opened Requests
  import opened Safety
  import opened StringUtils
  import opened Timestamps

  ghost predicate CanonicalVin(vin: string) {
    UpperCase(vin) == vin
  }

  /** A VIN as POST and PUT store it, or one of the others that PATCHes send. */
  ghost predicate Allowed(others: set<string>, vin: string) {
    CanonicalVin(vin) || vin in others
  }

  /** A PATCH body that leaves the VIN alone or sends an allowed one. */
  ghost predicate SendsAllowed(others: set<string>, body: Body) {
    body.Object? && "vin" in body.fields ==> Allowed(others, GetString(body.fields, "vin"))
  }

  ghost predicate ThreadAllowed(others: set<string>, th: Thread) {
    match th
    case Entry(Patch(_, body)) => SendsAllowed(others, body)
    case PatchRead(_, fields) => SendsAllowed(others, Object(fields))
    case InsertBegin(_, car) => Allowed(others, car.vin)
    case InsertReady(_, car, _) => Allowed(others, car.vin)
    case UpdateBegin(_, _, car) => Allowed(others, car.vin)
    case UpdateReady(_, _, car, _) => Allowed(others, car.vin)
    case _ => true
  }

  ghost predicate RowsAllowed(others: set<string>, rows: map<int, Row>) {
    forall id | id in rows :: Allowed(others, TextOrEmpty(rows[id].vin))
  }

  ghost predicate AllAllowed(others: set<string>, s: State) {
    && RowsAllowed(others, s.table.rows)
    && (forall tid | tid in s.threads :: ThreadAllowed(others, s.threads[tid]))
  }

  /** A fresh connection over a table of trimmed, upper-cased VINs. */
  ghost predicate CanonicalStart(s: State) {
    Start(s) && forall id | id in s.table.rows :: CanonicalVin(TextOrEmpty(s.table.rows[id].vin))
  }

  /** Every PATCH that arrives in the run leaves the VIN alone, or sends a canonical one or one of `others`. */
  ghost predicate PatchesSend(others: set<string>, es: seq<Event>) {
    forall e | e in es && e.Arrive? && e.req.Patch? :: SendsAllowed(others, e.req.body)
  }

  lemma NewVinAllowed(others: set<string>, id: int, fields: map<string, Json>)
    ensures Allowed(others, NewCar(id, fields).vin)
  {
    UpperCaseIdempotent(GetString(fields, "vin"));
  }

  lemma ReadVinAllowed(others: set<string>, st: Table, id: int)
    requires RowsAllowed(others, st.rows)
    ensures Allowed(others, Get(st, id).0.vin)
  {
    TrimIdentity("", IsTrimChar);
  }

  /** POST and PUT upper-case the VIN, PATCH sends an allowed one or passes on a stored one or the
      blank car's. */
  lemma OwnVinAllowed(others: set<string>, th: Thread, st: Table, now: DateTime)
    requires ThreadAllowed(others, th) && RowsAllowed(others, st.rows)
    ensures ThreadAllowed(others, Step(th, st, now).1)
  {
    match th
    case Entry(Post(body)) => if Complete(body) { NewVinAllowed(others, 0, body.fields); }
    case Entry(Put(id, body)) => if Complete(body) { NewVinAllowed(others, id, body.fields); }
    case PatchRead(id, fields) => ReadVinAllowed(others, st, id);
    case _ =>
  }

  lemma StoringOne(others: set<string>, rows: map<int, Row>, id: int, car: Car, t: string, u: string)
    requires RowsAllowed(others, rows) && Allowed(others, car.vin)
    ensures RowsAllowed(others, rows[id := Encode(car, t, u)])
  {
    assert TextOrEmpty(Encode(car, t, u).vin) == car.vin;
  }

  lemma StoredVinAllowed(others: set<string>, th: Thread, st: Table, now: DateTime)
    requires ThreadAllowed(others, th) && RowsAllowed(others, st.rows)
    ensures RowsAllowed(others, Step(th, st, now).0.rows)
  {
    if th.InsertReady? {
      StoringOne(others, st.rows, st.high + 1, th.car, th.stamp, th.stamp);
    } else if th.UpdateReady? && th.id in st.rows {
      StoringOne(others, st.rows, th.id, th.car, st.rows[th.id].createdAt, th.stamp);
    }
  }

  lemma AllAllowedStep(others: set<string>, s: State, tid: ThreadId)
    requires AllAllowed(others, s) && tid in s.threads
    ensures AllAllowed(others, Next(s, Run(tid)))
  {
    var s' := Next(s, Run(tid));
    assert ThreadAllowed(others, s.threads[tid]);
    OwnVinAllowed(others, s.threads[tid], s.table, s.clock);
    StoredVinAllowed(others, s.threads[tid], s.table, s.clock);
    forall t | t in s'.threads ensures ThreadAllowed(others, s'.threads[t]) {
      assert t != tid ==> s'.threads[t] == s.threads[t] && ThreadAllowed(others, s.threads[t]);
    }
  }

  /** In every run every stored VIN, and every VIN in flight, is canonical or one that a PATCH may send. */
  lemma {:induction false} AllAllowedExec(others: set<string>, s: State, es: seq<Event>)
    requires AllAllowed(others, s) && PatchesSend(others, es)
    ensures AllAllowed(others, Exec(s, es))
    decreases |es|
  {
    if es == [] {
    } else {
      assert es[0] in es && forall e | e in es[1..] :: e in es;
      if es[0].Run? && es[0].tid in s.threads {
        AllAllowedStep(others, s, es[0].tid);
      }
      AllAllowedExec(others, Next(s, es[0]), es[1..]);
    }
  }

  /** Two different rows hold the same VIN up to case and surrounding blanks. */
  ghost predicate Lookalikes(rows: map<int, Row>) {
    exists i, j | i in rows && j in rows ::
      i != j && rows[i].vin.Some? && rows[j].vin.Some? && SameText(rows[i].vin.value, rows[j].vin.value)
  }

  ghost predicate Blank(vin: string) {
    UpperCase(vin) == "" && vin != ""
  }

  /** One of the VINs is neither canonical nor blank, or two different ones are blank. */
  ghost predicate Harmful(others: set<string>) {
    || (exists v | v in others :: !CanonicalVin(v) && !Blank(v))
    || (exists v, w | v in others && w in others :: v != w && Blank(v) && Blank(w))
  }

  lemma LookalikesHarm(others: set<string>, v: string, w: string)
    requires Allowed(others, v) && Allowed(others, w) && v != "" && w != "" && v != w && SameText(v, w)
    ensures Harmful(others)
  {
    UpperCaseCanonical(v, w);
    if Blank(v) {
      assert v in others && w in others;
    } else {
      assert !CanonicalVin(v) || !CanonicalVin(w);
    }
  }

  /** From a table of canonical VINs, in runs whose PATCHes send canonical ones or harmless others, two
      rows never hold the same VIN up to case and surrounding blanks. `Witnesses.WhenLookalikesExist`
      shows that every harmful set of VINs can break it. */
  lemma VinsDistinctAsText(others: set<string>, s: State, es: seq<Event>)
    requires CanonicalStart(s) && PatchesSend(others, es) && !Harmful(others)
    ensures !Lookalikes(Exec(s, es).table.rows)
  {
    var rows := Exec(s, es).table.rows;
    StartInv(s);
    InvExec(s, es);
    AllAllowedExec(others, s, es);
    forall i, j | i in rows && j in rows && i != j && rows[i].vin.Some? && rows[j].vin.Some?
      ensures !SameText(rows[i].vin.value, rows[j].vin.value)
    {
      assert Allowed(others, TextOrEmpty(rows[i].vin)) && Allowed(others, TextOrEmpty(rows[j].vin));
      assert RowOk(rows[i]) && RowOk(rows[j]) && rows[i].vin != rows[j].vin;
      if SameText(rows[i].vin.value, rows[j].vin.value) {
        LookalikesHarm(others, rows[i].vin.value, rows[j].vin.value);
      }
    }
  }

  /** Some run whose PATCHes keep to canonical VINs and `others` ends with two such rows. */
  ghost predicate LookalikesReachable(others: set<string>) {
    exists s: State, es: seq<Event> :: CanonicalStart(s) && PatchesSend(others, es) && Lookalikes(Exec(s, es).table.rows)
  }
}
