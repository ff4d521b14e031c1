/** The list computations of the statistics page (`src/frontend/stats.js`): the most frequent
    models, and the filtered and sorted list. */
module Stats {
  import opened Cars
  import opened Sorting
  import opened Timestamps

  // ----- Counting models -----

  function Count(cars: seq<Car>, model: string): nat {
    if cars == [] then 0 else (if cars[0].model == model then 1 else 0) + Count(cars[1..], model)
  }

  /** Cars with a non-empty model. */
  function Modelled(cars: seq<Car>): nat {
    if cars == [] then 0 else (if cars[0].model != "" then 1 else 0) + Modelled(cars[1..])
  }

  lemma {:induction false} CountLast(cars: seq<Car>)
    requires cars != []
    ensures var init, last := cars[..|cars| - 1], cars[|cars| - 1];
      forall m :: Count(cars, m) == Count(init, m) + if last.model == m then 1 else 0
    ensures Modelled(cars) == Modelled(cars[..|cars| - 1]) + if cars[|cars| - 1].model != "" then 1 else 0
  {
    if |cars| == 1 {
    } else {
      var init := cars[..|cars| - 1];
      CountLast(cars[1..]);
      assert cars[1..][..|cars[1..]| - 1] == init[1..];
      forall m ensures Count(cars, m) == Count(init, m) + if cars[|cars| - 1].model == m then 1 else 0 {
        assert Count(init, m) == (if cars[0].model == m then 1 else 0) + Count(init[1..], m);
      }
    }
  }

  /** The models in the order in which the counting loop first meets them. */
  function FirstMet(cars: seq<Car>): (models: seq<string>)
    ensures forall m :: m in models <==> m != "" && Count(cars, m) > 0
    ensures forall i, j | 0 <= i < j < |models| :: models[i] != models[j]
  {
    if cars == [] then [] else
      var init, last := cars[..|cars| - 1], cars[|cars| - 1];
      CountLast(cars);
      var models := FirstMet(init);
      if last.model == "" || last.model in models then models else models + [last.model]
  }

  function Total(models: seq<string>, cars: seq<Car>): nat {
    if models == [] then 0 else Count(cars, models[0]) + Total(models[1..], cars)
  }

  /** A name of the counting object's prototype, section 20.1.3 of ECMA-262: for
      these the counting loop would not start from zero. */
  predicate Inherited(name: string) {
    name in {"constructor", "hasOwnProperty", "isPrototypeOf", "propertyIsEnumerable", "toLocaleString",
             "toString", "valueOf", "__proto__", "__defineGetter__", "__defineSetter__",
             "__lookupGetter__", "__lookupSetter__"}
  }

  /** The counting object after the cars `seen`. */
  ghost predicate Counted(counts: map<string, nat>, created: seq<string>, seen: seq<Car>) {
    && created == FirstMet(seen)
    && (forall m :: m in counts <==> m in created)
    && (forall m | m in counts :: counts[m] == Count(seen, m))
  }

  /** What one more car does to the models met and to their counts. */
  lemma LastCar(seen: seq<Car>, last: Car)
    ensures FirstMet(seen + [last]) ==
      if last.model == "" || last.model in FirstMet(seen) then FirstMet(seen) else FirstMet(seen) + [last.model]
    ensures forall m :: Count(seen + [last], m) == Count(seen, m) + if last.model == m then 1 else 0
  {
    var cars := seen + [last];
    assert cars[..|cars| - 1] == seen;
    CountLast(cars);
  }

  /** One more car without a model. */
  lemma NoModel(counts: map<string, nat>, created: seq<string>, seen: seq<Car>, last: Car)
    requires Counted(counts, created, seen) && last.model == ""
    ensures Counted(counts, created, seen + [last])
  {
    LastCar(seen, last);
    assert created == FirstMet(seen + [last]);
  }

  /** One more car of a model that was met before. */
  lemma OldModel(counts: map<string, nat>, created: seq<string>, seen: seq<Car>, last: Car)
    requires Counted(counts, created, seen) && last.model in counts
    ensures Counted(counts[last.model := counts[last.model] + 1], created, seen + [last])
  {
    LastCar(seen, last);
    assert created == FirstMet(seen + [last]);
  }

  /** The first car of a model. */
  lemma NewModel(counts: map<string, nat>, created: seq<string>, seen: seq<Car>, last: Car)
    requires Counted(counts, created, seen) && last.model != "" && last.model !in counts
    ensures Counted(counts[last.model := 1], created + [last.model], seen + [last])
  {
    LastCar(seen, last);
    assert Count(seen, last.model) == 0;
    var more, longer := counts[last.model := 1], created + [last.model];
    assert longer == FirstMet(seen + [last]);
    forall m ensures m in more <==> m in longer {
      assert m in counts <==> m in created;
    }
    forall m | m in more ensures more[m] == Count(seen + [last], m) {
      assert m != last.model ==> m in counts;
    }
  }

  /** The loop over the cars: `counts` is the object, `created` its keys in order of creation. */
  method CountModels(cars: seq<Car>) returns (counts: map<string, nat>, created: seq<string>)
    requires forall c | c in cars :: !Inherited(c.model)
    ensures created == FirstMet(cars)
    ensures forall m :: m in counts <==> m in created
    ensures forall m | m in counts :: counts[m] == Count(cars, m)
  {
    counts, created := map[], [];
    var i := 0;
    while i < |cars|
      invariant i <= |cars|
      invariant Counted(counts, created, cars[..i])
    {
      var c := cars[i];
      assert cars[..i + 1] == cars[..i] + [c];
      if c.model == "" {
        NoModel(counts, created, cars[..i], c);
      } else {
        if c.model in counts {
          OldModel(counts, created, cars[..i], c);
        } else {
          NewModel(counts, created, cars[..i], c);
          created := created + [c.model];
        }
        counts := counts[c.model := (if c.model in counts then counts[c.model] else 0) + 1];
      }
      i := i + 1;
    }
    assert cars[..|cars|] == cars;
  }

  lemma {:induction false} TotalUnchanged(models: seq<string>, a: seq<Car>, b: seq<Car>, last: string)
    requires last !in models && forall m | m != last :: Count(b, m) == Count(a, m)
    ensures Total(models, b) == Total(models, a)
  {
    if models == [] {
    } else {
      assert models[0] in models && forall m | m in models[1..] :: m in models;
      TotalUnchanged(models[1..], a, b, last);
    }
  }

  lemma {:induction false} TotalOneMore(models: seq<string>, a: seq<Car>, b: seq<Car>, last: string)
    requires last in models && forall i, j | 0 <= i < j < |models| :: models[i] != models[j]
    requires forall m :: Count(b, m) == Count(a, m) + if m == last then 1 else 0
    ensures Total(models, b) == Total(models, a) + 1
  {
    if models[0] == last {
      assert last !in models[1..] by {
        assert forall i | 0 <= i < |models[1..]| :: models[1..][i] == models[i + 1];
      }
      TotalUnchanged(models[1..], a, b, last);
    } else {
      TotalOneMore(models[1..], a, b, last);
    }
  }

  lemma {:induction false} TotalAppend(models: seq<string>, m: string, cars: seq<Car>)
    ensures Total(models + [m], cars) == Total(models, cars) + Count(cars, m)
  {
    if models == [] {
      assert Total([m], cars) == Count(cars, m) + Total([m][1..], cars);
    } else {
      assert (models + [m])[1..] == models[1..] + [m];
      TotalAppend(models[1..], m, cars);
    }
  }

  /** The counts add up to the number of cars with a model. */
  lemma {:induction false} CountsAddUp(cars: seq<Car>)
    ensures Total(FirstMet(cars), cars) == Modelled(cars)
    decreases |cars|
  {
    if cars == [] {
    } else {
      var init, last := cars[..|cars| - 1], cars[|cars| - 1].model;
      CountLast(cars);
      CountsAddUp(init);
      var models := FirstMet(init);
      if last == "" {
        TotalUnchanged(models, init, cars, last);
      } else if last in models {
        TotalOneMore(models, init, cars, last);
      } else {
        TotalUnchanged(models, init, cars, last);
        TotalAppend(models, last, cars);
      }
    }
  }

  // ----- The order of an object's keys (section 10.1.11.1 of ECMA-262) -----

  predicate IsDigit(c: char) {
    '0' <= c <= '9'
  }

  function Number(s: string): nat
    requires forall c | c in s :: IsDigit(c)
  {
    if s == "" then 0 else
      assert s[|s| - 1] in s && IsDigit(s[|s| - 1]) && forall c | c in s[..|s| - 1] :: c in s;
      Number(s[..|s| - 1]) * 10 + (s[|s| - 1] as int - '0' as int)
  }

  const MAX_ARRAY_INDEX: nat := 4294967294

  /** The canonical decimal text of an array index. */
  predicate IsArrayIndex(s: string) {
    s != "" && (forall c | c in s :: IsDigit(c)) && (s[0] == '0' ==> |s| == 1) && Number(s) <= MAX_ARRAY_INDEX
  }

  /** Array indices come first, in ascending order; all other keys rank behind them, equally. */
  function Rank(m: string): real {
    if IsArrayIndex(m) then Number(m) as real else (MAX_ARRAY_INDEX + 1) as real
  }

  function OwnKeys(created: seq<string>): seq<string> {
    StableSort(created, Rank)
  }

  // ----- The top five -----

  /** Most frequent first. */
  function ByCount(cars: seq<Car>): string -> real {
    m => -(Count(cars, m) as real)
  }

  function TopModels(cars: seq<Car>): seq<string> {
    var entries := StableSort(OwnKeys(FirstMet(cars)), ByCount(cars));
    if |entries| > 5 then entries[..5] else entries
  }

  lemma SortedKeys(cars: seq<Car>)
    ensures var entries := StableSort(OwnKeys(FirstMet(cars)), ByCount(cars));
      && multiset(entries) == multiset(FirstMet(cars))
      && |entries| == |FirstMet(cars)|
      && forall m :: m in entries <==> m in FirstMet(cars)
  {
    var first := FirstMet(cars);
    var keys := OwnKeys(first);
    var entries := StableSort(keys, ByCount(cars));
    StableSortSorts(first, Rank);
    StableSortSorts(keys, ByCount(cars));
    assert |multiset(entries)| == |entries| && |multiset(first)| == |first|;
    forall m ensures m in entries <==> m in first {
      assert m in entries <==> m in multiset(entries);
    }
  }

  method ComputeTopModels(cars: seq<Car>) returns (top5: seq<(string, nat)>)
    requires forall c | c in cars :: !Inherited(c.model)
    ensures |top5| == |TopModels(cars)|
    ensures forall i | 0 <= i < |top5| :: top5[i] == (TopModels(cars)[i], Count(cars, TopModels(cars)[i]))
  {
    var counts, created := CountModels(cars);
    SortedKeys(cars);
    var entries := StableSort(OwnKeys(created), ByCount(cars));
    var models := if |entries| > 5 then entries[..5] else entries;
    assert forall i | 0 <= i < |models| :: models[i] == entries[i] && entries[i] in entries;
    top5 := seq(|models|, i requires 0 <= i < |models| => (models[i], counts[models[i]]));
  }

  /** Decimal digits without a leading zero. */
  ghost predicate Decimal(s: string) {
    s != "" && (forall c | c in s :: '0' <= c <= '9') && (s[0] == '0' ==> |s| == 1)
  }

  /** The order of such texts as numbers: a longer one is larger, and equally long ones compare as text. */
  ghost predicate AtMost(a: string, b: string) {
    |a| < |b| || (|a| == |b| && TextLeq(a, b))
  }

  ghost predicate CanonicalIndex(s: string) {
    Decimal(s) && AtMost(s, "4294967294")
  }

  /** Some car of model `a` comes before every car of model `b`. */
  ghost predicate MetBefore(cars: seq<Car>, a: string, b: string) {
    exists p | 0 <= p < |cars| :: cars[p].model == a && forall q | 0 <= q <= p :: cars[q].model != b
  }

  /** `a` is listed before `b` among models with equal counts: array indices first and by value,
      the others by first appearance. */
  ghost predicate KeyBefore(cars: seq<Car>, a: string, b: string) {
    if CanonicalIndex(a) then CanonicalIndex(b) ==> a != b && AtMost(a, b)
    else !CanonicalIndex(b) && MetBefore(cars, a, b)
  }

  function Pow10(n: nat): nat {
    if n == 0 then 1 else 10 * Pow10(n - 1)
  }

  lemma {:induction false} Pow10Grows(m: nat, n: nat)
    requires m <= n
    ensures 1 <= Pow10(m) <= Pow10(n)
    decreases n
  {
    if n == 0 {
    } else if m == n {
      Pow10Grows(m - 1, n - 1);
    } else {
      Pow10Grows(m, n - 1);
    }
  }

  lemma LastDigit(s: string)
    requires s != "" && forall c | c in s :: IsDigit(c)
    ensures var init, last := s[..|s| - 1], s[|s| - 1];
      && s == init + [last] && IsDigit(last) && (forall c | c in init :: IsDigit(c))
      && Number(s) == Number(init) * 10 + (last as int - '0' as int)
  {
    assert s[|s| - 1] in s && forall c | c in s[..|s| - 1] :: c in s;
  }

  lemma {:induction false} NumberBelow(s: string)
    requires forall c | c in s :: IsDigit(c)
    ensures Number(s) < Pow10(|s|)
    decreases |s|
  {
    if s == "" {
    } else {
      var init := s[..|s| - 1];
      LastDigit(s);
      NumberBelow(init);
      assert Pow10(|s|) == 10 * Pow10(|init|);
    }
  }

  lemma {:induction false} NumberAbove(s: string)
    requires s != "" && s[0] != '0' && forall c | c in s :: IsDigit(c)
    ensures Pow10(|s| - 1) <= Number(s)
    decreases |s|
  {
    var init := s[..|s| - 1];
    LastDigit(s);
    if init == "" {
      assert s[0] in s && Number(init) == 0;
    } else {
      assert init[0] == s[0];
      NumberAbove(init);
      assert Pow10(|s| - 1) == 10 * Pow10(|init| - 1);
    }
  }

  lemma DecimalBounds(s: string)
    requires Decimal(s)
    ensures Number(s) < Pow10(|s|)
    ensures |s| > 1 ==> Pow10(|s| - 1) <= Number(s)
  {
    NumberBelow(s);
    if |s| > 1 {
      NumberAbove(s);
    }
  }

  lemma {:induction false} NumberOrder(a: string, b: string)
    requires |a| == |b| && (forall c | c in a :: IsDigit(c)) && (forall c | c in b :: IsDigit(c))
    ensures TextLeq(a, b) <==> Number(a) <= Number(b)
    ensures a == b <==> Number(a) == Number(b)
    decreases |a|
  {
    if a == "" {
    } else {
      var x, y := a[..|a| - 1], b[..|b| - 1];
      LastDigit(a);
      LastDigit(b);
      NumberOrder(x, y);
      var c, d := [a[|a| - 1]], [b[|b| - 1]];
      CompareHeads(x, y, c, d);
      assert TextLeq(c, d) <==> c[0] <= d[0] by {
        assert c[1..] == d[1..] == "";
      }
    }
  }

  lemma DecimalOrder(a: string, b: string)
    requires Decimal(a) && Decimal(b)
    ensures AtMost(a, b) <==> Number(a) <= Number(b)
    ensures a == b <==> Number(a) == Number(b)
  {
    DecimalBounds(a);
    DecimalBounds(b);
    if |a| < |b| {
      Pow10Grows(|a|, |b| - 1);
    } else if |b| < |a| {
      Pow10Grows(|b|, |a| - 1);
    } else {
      NumberOrder(a, b);
    }
  }

  lemma OneMoreDigit(s: string, k: nat)
    requires k < |s| && forall c | c in s :: IsDigit(c)
    ensures forall c | c in s[..k] || c in s[..k + 1] :: IsDigit(c)
    ensures Number(s[..k + 1]) == Number(s[..k]) * 10 + (s[k] as int - '0' as int)
  {
    LastDigit(s[..k + 1]);
    assert s[..k + 1][..k] == s[..k];
  }

  /** Two more digits. */
  lemma TwoMoreDigits(s: string, k: nat, n: nat)
    requires k + 1 < |s| && (forall c | c in s :: IsDigit(c)) && (forall c | c in s[..k] :: IsDigit(c)) && Number(s[..k]) == n
    ensures forall c | c in s[..k + 2] :: IsDigit(c)
    ensures Number(s[..k + 2]) == n * 100 + (s[k] as int - '0' as int) * 10 + (s[k + 1] as int - '0' as int)
  {
    OneMoreDigit(s, k);
    OneMoreDigit(s, k + 1);
  }

  lemma LargestIndexIs(s: string)
    requires s == "4294967294"
    ensures (forall c | c in s :: IsDigit(c)) && Number(s) == MAX_ARRAY_INDEX
  {
    assert s[..0] == "" && s[..10] == s;
    TwoMoreDigits(s, 0, 0);
    TwoMoreDigits(s, 2, 42);
    TwoMoreDigits(s, 4, 4294);
    TwoMoreDigits(s, 6, 429496);
    TwoMoreDigits(s, 8, 42949672);
  }

  lemma IndexIsCanonical(s: string)
    ensures IsArrayIndex(s) <==> CanonicalIndex(s)
  {
    var largest := "4294967294";
    LargestIndexIs(largest);
    if Decimal(s) {
      DecimalOrder(s, largest);
    }
  }

  lemma {:induction false} Occurs(cars: seq<Car>, m: string)
    ensures Count(cars, m) > 0 <==> exists p :: 0 <= p < |cars| && cars[p].model == m
  {
    if cars == [] {
    } else {
      Occurs(cars[1..], m);
      if p :| 0 <= p < |cars| && cars[p].model == m {
        if p > 0 {
          assert cars[1..][p - 1] == cars[p];
        }
      }
    }
  }

  /** The counting loop meets models in the order of their first cars. */
  lemma {:induction false} FirstMetOrder(cars: seq<Car>, a: string, b: string)
    requires Before(FirstMet(cars), a, b)
    ensures MetBefore(cars, a, b)
    decreases |cars|
  {
    var init, last := cars[..|cars| - 1], cars[|cars| - 1];
    assert cars == init + [last];
    LastCar(init, last);
    var models := FirstMet(init);
    if Before(models, a, b) {
      FirstMetOrder(init, a, b);
    } else {
      assert b == last.model && b !in models && a in models;
      Occurs(init, a);
      Occurs(init, b);
      var p :| 0 <= p < |init| && init[p].model == a;
      assert cars[p].model == a;
    }
  }

  lemma RankedBefore(cars: seq<Car>, a: string, b: string)
    requires a != b && (Rank(a) < Rank(b) || (Rank(a) == Rank(b) && Before(FirstMet(cars), a, b)))
    ensures KeyBefore(cars, a, b)
  {
    IndexIsCanonical(a);
    IndexIsCanonical(b);
    if CanonicalIndex(a) && CanonicalIndex(b) {
      DecimalOrder(a, b);
    } else if !CanonicalIndex(a) {
      FirstMetOrder(cars, a, b);
    }
  }

  ghost predicate Beats(cars: seq<Car>, a: string, b: string) {
    Count(cars, a) > Count(cars, b) || (Count(cars, a) == Count(cars, b) && KeyBefore(cars, a, b))
  }

  lemma EntriesOrdered(cars: seq<Car>, i: nat, j: nat)
    requires i < j < |StableSort(OwnKeys(FirstMet(cars)), ByCount(cars))|
    ensures var entries := StableSort(OwnKeys(FirstMet(cars)), ByCount(cars));
      entries[i] != entries[j] ==> Beats(cars, entries[i], entries[j])
  {
    var first := FirstMet(cars);
    var keys := OwnKeys(first);
    var entries := StableSort(keys, ByCount(cars));
    StableSortSorts(first, Rank);
    StableSortSorts(keys, ByCount(cars));
    StableOrder(keys, entries, ByCount(cars), i, j);
    if Before(keys, entries[i], entries[j]) {
      var p, q :| 0 <= p < q < |keys| && keys[p] == entries[i] && keys[q] == entries[j];
      StableOrder(first, keys, Rank, p, q);
      if entries[i] != entries[j] {
        RankedBefore(cars, entries[i], entries[j]);
      }
    }
  }

  lemma TwiceInSeq(xs: seq<string>, i: nat, j: nat)
    requires i < j < |xs| && xs[i] == xs[j]
    ensures multiset(xs)[xs[i]] >= 2
  {
    assert xs == xs[..j] + xs[j..];
    assert xs[..j][i] in xs[..j] && xs[j..][0] in xs[j..];
    assert multiset(xs) == multiset(xs[..j]) + multiset(xs[j..]);
  }

  lemma {:induction false} OnceInSeq(xs: seq<string>, x: string)
    requires forall i, j | 0 <= i < j < |xs| :: xs[i] != xs[j]
    ensures multiset(xs)[x] <= 1
  {
    if xs == [] {
    } else {
      assert xs == [xs[0]] + xs[1..];
      OnceInSeq(xs[1..], x);
      if x == xs[0] {
        assert x !in xs[1..];
      }
    }
  }

  lemma EntriesDistinct(cars: seq<Car>, i: nat, j: nat)
    requires i < j < |StableSort(OwnKeys(FirstMet(cars)), ByCount(cars))|
    ensures var entries := StableSort(OwnKeys(FirstMet(cars)), ByCount(cars)); entries[i] != entries[j]
  {
    var entries := StableSort(OwnKeys(FirstMet(cars)), ByCount(cars));
    SortedKeys(cars);
    if entries[i] == entries[j] {
      TwiceInSeq(entries, i, j);
      OnceInSeq(FirstMet(cars), entries[i]);
    }
  }

  /** The list shows the best models: each really occurs and none occurs twice, every listed model
      beats the ones after it, and none that is left out beats a listed one. */
  lemma TopFive(cars: seq<Car>)
    ensures forall i | 0 <= i < |TopModels(cars)| :: TopModels(cars)[i] in FirstMet(cars)
    ensures forall i, j | 0 <= i < j < |TopModels(cars)| ::
      TopModels(cars)[i] != TopModels(cars)[j] && Beats(cars, TopModels(cars)[i], TopModels(cars)[j])
    ensures forall i, m | 0 <= i < |TopModels(cars)| && m in FirstMet(cars) && m !in TopModels(cars) ::
      Beats(cars, TopModels(cars)[i], m)
  {
    var entries := StableSort(OwnKeys(FirstMet(cars)), ByCount(cars));
    var top := TopModels(cars);
    SortedKeys(cars);
    assert forall i | 0 <= i < |top| :: top[i] == entries[i] && entries[i] in entries && entries[i] in top;
    forall i, j | 0 <= i < j < |top| ensures top[i] != top[j] && Beats(cars, top[i], top[j]) {
      EntriesOrdered(cars, i, j);
      EntriesDistinct(cars, i, j);
    }
    forall i, m | 0 <= i < |top| && m in FirstMet(cars) && m !in top ensures Beats(cars, top[i], m) {
      assert m in entries;
      var j :| 0 <= j < |entries| && entries[j] == m;
      assert j >= |top|;
      EntriesOrdered(cars, i, j);
    }
  }

  /** Five of them, or all the different models when there are fewer. */
  lemma TopFiveLength(cars: seq<Car>)
    ensures |TopModels(cars)| == if |FirstMet(cars)| > 5 then 5 else |FirstMet(cars)|
  {
    SortedKeys(cars);
  }

  // ----- Filtering and sorting the list -----

  datatype Filters = Filters(make: string, model: string, color: string)

  datatype FilterKind = ByMake | ByModel | ByColor

  function Shown(c: Car, kind: FilterKind): string {
    match kind case ByMake => c.make case ByModel => c.model case ByColor => c.color
  }

  /** One `filter` call; an empty choice filters nothing. */
  function Keep(cars: seq<Car>, kind: FilterKind, choice: string): seq<Car> {
    if choice == "" then cars
    else if cars == [] then []
    else (if Shown(cars[0], kind) == choice then [cars[0]] else []) + Keep(cars[1..], kind, choice)
  }

  predicate Matches(c: Car, filters: Filters) {
    && (filters.make == "" || c.make == filters.make)
    && (filters.model == "" || c.model == filters.model)
    && (filters.color == "" || c.color == filters.color)
  }

  /** The cars that match all active filters, in order. */
  function Matching(cars: seq<Car>, filters: Filters): seq<Car> {
    if cars == [] then [] else (if Matches(cars[0], filters) then [cars[0]] else []) + Matching(cars[1..], filters)
  }

  predicate Kept(c: Car, kind: FilterKind, choice: string) {
    choice == "" || Shown(c, kind) == choice
  }

  lemma KeepCons(c: Car, rest: seq<Car>, kind: FilterKind, choice: string)
    ensures Keep([c] + rest, kind, choice) ==
      if Kept(c, kind, choice) then [c] + Keep(rest, kind, choice) else Keep(rest, kind, choice)
  {
    var cars := [c] + rest;
    assert cars[0] == c && cars[1..] == rest;
    if choice != "" && Shown(c, kind) != choice {
      assert Keep(cars, kind, choice) == [] + Keep(rest, kind, choice);
    }
  }

  /** The order of two filter calls does not matter. */
  lemma {:induction false} KeepsCommute(cars: seq<Car>, k: FilterKind, a: string, l: FilterKind, b: string)
    ensures Keep(Keep(cars, k, a), l, b) == Keep(Keep(cars, l, b), k, a)
  {
    if cars == [] {
    } else {
      var c, rest := cars[0], cars[1..];
      assert cars == [c] + rest;
      KeepsCommute(rest, k, a, l, b);
      KeepCons(c, rest, k, a);
      KeepCons(c, rest, l, b);
      KeepCons(c, Keep(rest, k, a), l, b);
      KeepCons(c, Keep(rest, l, b), k, a);
    }
  }

  /** The three filter calls, in the order of the source and hence in any order, keep exactly the
      cars that match all active filters. */
  lemma {:induction false} FiltersMatch(cars: seq<Car>, filters: Filters)
    ensures Keep(Keep(Keep(cars, ByMake, filters.make), ByModel, filters.model), ByColor, filters.color)
      == Matching(cars, filters)
  {
    if cars == [] {
    } else {
      var c, rest := cars[0], cars[1..];
      assert cars == [c] + rest;
      FiltersMatch(rest, filters);
      var one := Keep(rest, ByMake, filters.make);
      KeepCons(c, rest, ByMake, filters.make);
      KeepCons(c, one, ByModel, filters.model);
      KeepCons(c, Keep(one, ByModel, filters.model), ByColor, filters.color);
    }
  }

  datatype SortBy = Unsorted | PriceAsc | PriceDesc | YearAsc | YearDesc | MileageAsc | MileageDesc

  /** The number that the chosen comparator compares, in ascending order. */
  function SortKey(sortBy: SortBy): Car -> real {
    match sortBy
    case Unsorted => (c: Car) => 0.0
    case PriceAsc => (c: Car) => c.price
    case PriceDesc => (c: Car) => -c.price
    case YearAsc => (c: Car) => c.year as real
    case YearDesc => (c: Car) => -(c.year as real)
    case MileageAsc => (c: Car) => c.mileage as real
    case MileageDesc => (c: Car) => -(c.mileage as real)
  }

  /** What the page shows: the matching cars, stably sorted. */
  function ShownList(cars: seq<Car>, filters: Filters, sortBy: SortBy): (shown: seq<Car>)
  {
    StableSort(Matching(cars, filters), SortKey(sortBy))
  }

  lemma {:induction false} MatchingMembers(cars: seq<Car>, filters: Filters)
    ensures forall c :: c in Matching(cars, filters) <==> c in cars && Matches(c, filters)
  {
    if cars == [] {
    } else {
      MatchingMembers(cars[1..], filters);
      assert cars == [cars[0]] + cars[1..];
    }
  }

  /** The list is the only sorted one that keeps the matching cars with equal keys in their order. */
  lemma ShownListIs(cars: seq<Car>, filters: Filters, sortBy: SortBy, list: seq<Car>)
    ensures StablySorted(Matching(cars, filters), list, SortKey(sortBy)) <==> list == ShownList(cars, filters, sortBy)
  {
    var matching, shown := Matching(cars, filters), ShownList(cars, filters, sortBy);
    StableSortSorts(matching, SortKey(sortBy));
    if StablySorted(matching, list, SortKey(sortBy)) {
      StableSortUnique(list, shown, SortKey(sortBy));
    }
  }

  /** It holds the matching cars, as often as they occur, and no others. */
  lemma ShownListMembers(cars: seq<Car>, filters: Filters, sortBy: SortBy)
    ensures multiset(ShownList(cars, filters, sortBy)) == multiset(Matching(cars, filters))
    ensures forall c :: c in ShownList(cars, filters, sortBy) <==> c in cars && Matches(c, filters)
  {
    var matching, shown := Matching(cars, filters), ShownList(cars, filters, sortBy);
    StableSortSorts(matching, SortKey(sortBy));
    MatchingMembers(cars, filters);
    forall c ensures c in shown <==> c in matching {
      assert c in shown <==> c in multiset(shown);
    }
  }

  /** What the six choices promise, in the fields themselves. */
  ghost predicate InOrder(sortBy: SortBy, list: seq<Car>) {
    match sortBy
    case Unsorted => true
    case PriceAsc => forall i, j | 0 <= i < j < |list| :: list[i].price <= list[j].price
    case PriceDesc => forall i, j | 0 <= i < j < |list| :: list[i].price >= list[j].price
    case YearAsc => forall i, j | 0 <= i < j < |list| :: list[i].year <= list[j].year
    case YearDesc => forall i, j | 0 <= i < j < |list| :: list[i].year >= list[j].year
    case MileageAsc => forall i, j | 0 <= i < j < |list| :: list[i].mileage <= list[j].mileage
    case MileageDesc => forall i, j | 0 <= i < j < |list| :: list[i].mileage >= list[j].mileage
  }

  ghost predicate Tied(sortBy: SortBy, a: Car, b: Car) {
    match sortBy
    case Unsorted => true
    case PriceAsc | PriceDesc => a.price == b.price
    case YearAsc | YearDesc => a.year == b.year
    case MileageAsc | MileageDesc => a.mileage == b.mileage
  }

  lemma {:induction false} SortUnsorted(xs: seq<Car>)
    ensures StableSort(xs, SortKey(Unsorted)) == xs
  {
    if xs == [] {
    } else {
      SortUnsorted(xs[1..]);
      assert xs == [xs[0]] + xs[1..];
    }
  }

  /** The list is in the order chosen, and cars that tie stay in the order of the page's list; without
      a choice all do. */
  lemma ShownInOrder(cars: seq<Car>, filters: Filters, sortBy: SortBy)
    ensures var shown := ShownList(cars, filters, sortBy);
      && InOrder(sortBy, shown)
      && (forall i, j | 0 <= i < j < |shown| && Tied(sortBy, shown[i], shown[j]) ::
            Before(Matching(cars, filters), shown[i], shown[j]))
      && (sortBy == Unsorted ==> shown == Matching(cars, filters))
  {
    var matching, key, shown := Matching(cars, filters), SortKey(sortBy), ShownList(cars, filters, sortBy);
    StableSortSorts(matching, key);
    forall i, j | 0 <= i < j < |shown| && Tied(sortBy, shown[i], shown[j]) ensures Before(matching, shown[i], shown[j]) {
      assert key(shown[i]) == key(shown[j]);
      StableOrder(matching, shown, key, i, j);
    }
    SortUnsorted(matching);
  }
}
