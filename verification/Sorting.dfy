/** `Array.prototype.sort` with a numeric comparator: stable, by section 23.1.3.30 of ECMA-262. */
module Sorting {

  ghost predicate Sorted<T>(ys: seq<T>, key: T -> real) {
    forall i, j | 0 <= i < j < |ys| :: key(ys[i]) <= key(ys[j])
  }

  /** The elements with key `k`, in order. */
  function OfKey<T>(xs: seq<T>, key: T -> real, k: real): seq<T> {
    if xs == [] then []
    else (if key(xs[0]) == k then [xs[0]] else []) + OfKey(xs[1..], key, k)
  }

  /** `ys` is `xs` sorted, and elements with equal keys keep their order. */
  ghost predicate StablySorted<T>(xs: seq<T>, ys: seq<T>, key: T -> real) {
    Sorted(ys, key) && forall k: real :: OfKey(ys, key, k) == OfKey(xs, key, k)
  }

  function Insert<T>(x: T, ys: seq<T>, key: T -> real): seq<T> {
    if ys == [] || key(x) <= key(ys[0]) then [x] + ys else [ys[0]] + Insert(x, ys[1..], key)
  }

  function StableSort<T>(xs: seq<T>, key: T -> real): seq<T> {
    if xs == [] then [] else Insert(xs[0], StableSort(xs[1..], key), key)
  }

  lemma {:induction false} InsertAdds<T>(x: T, ys: seq<T>, key: T -> real)
    ensures multiset(Insert(x, ys, key)) == multiset{x} + multiset(ys)
  {
    if ys == [] || key(x) <= key(ys[0]) {
    } else {
      InsertAdds(x, ys[1..], key);
      assert ys == [ys[0]] + ys[1..];
    }
  }

  /** Inserting keeps a lower bound of the keys. */
  lemma {:induction false} InsertedLater<T>(x: T, ys: seq<T>, key: T -> real, low: real)
    requires low <= key(x) && forall i | 0 <= i < |ys| :: low <= key(ys[i])
    ensures forall i | 0 <= i < |Insert(x, ys, key)| :: low <= key(Insert(x, ys, key)[i])
  {
    if ys == [] || key(x) <= key(ys[0]) {
    } else {
      InsertedLater(x, ys[1..], key, low);
    }
  }

  lemma {:induction false} InsertSorts<T>(x: T, ys: seq<T>, key: T -> real)
    requires Sorted(ys, key)
    ensures Sorted(Insert(x, ys, key), key)
  {
    if ys == [] || key(x) <= key(ys[0]) {
    } else {
      InsertSorts(x, ys[1..], key);
      InsertedLater(x, ys[1..], key, key(ys[0]));
    }
  }

  lemma {:induction false} InsertIsStable<T>(x: T, ys: seq<T>, key: T -> real, k: real)
    requires Sorted(ys, key)
    ensures OfKey(Insert(x, ys, key), key, k) == OfKey([x] + ys, key, k)
  {
    if ys == [] || key(x) <= key(ys[0]) {
    } else {
      var rest := Insert(x, ys[1..], key);
      InsertIsStable(x, ys[1..], key, k);
      assert ([ys[0]] + rest)[1..] == rest;
      assert ([x] + ys)[1..] == ys && ([x] + ys[1..])[1..] == ys[1..];
    }
  }

  lemma {:induction false} StableSortSorts<T>(xs: seq<T>, key: T -> real)
    ensures StablySorted(xs, StableSort(xs, key), key)
    ensures multiset(StableSort(xs, key)) == multiset(xs)
  {
    if xs == [] {
    } else {
      var rest := StableSort(xs[1..], key);
      StableSortSorts(xs[1..], key);
      InsertSorts(xs[0], rest, key);
      InsertAdds(xs[0], rest, key);
      assert xs == [xs[0]] + xs[1..];
      forall k: real ensures OfKey(StableSort(xs, key), key, k) == OfKey(xs, key, k) {
        InsertIsStable(xs[0], rest, key, k);
        assert ([xs[0]] + rest)[1..] == rest;
      }
    }
  }

  // ----- There is only one stable sort -----

  lemma {:induction false} OfKeyMembers<T>(xs: seq<T>, key: T -> real, k: real)
    ensures OfKey(xs, key, k) == [] <==> forall i | 0 <= i < |xs| :: key(xs[i]) != k
  {
    if xs == [] {
    } else {
      OfKeyMembers(xs[1..], key, k);
      assert forall i | 0 < i < |xs| :: xs[i] == xs[1..][i - 1];
      if OfKey(xs, key, k) == [] {
        assert OfKey(xs[1..], key, k) == [];
      }
    }
  }

  lemma SmallestKeyAgrees<T>(ys: seq<T>, zs: seq<T>, key: T -> real)
    requires Sorted(zs, key) && ys != []
    requires forall k: real :: OfKey(ys, key, k) == OfKey(zs, key, k)
    ensures zs != [] && key(zs[0]) <= key(ys[0])
  {
    var k := key(ys[0]);
    OfKeyMembers(ys, key, k);
    OfKeyMembers(zs, key, k);
  }

  /** Whatever algorithm the engine uses, a stable sort has this result. */
  lemma {:induction false} StableSortUnique<T>(ys: seq<T>, zs: seq<T>, key: T -> real)
    requires Sorted(ys, key) && Sorted(zs, key)
    requires forall k: real :: OfKey(ys, key, k) == OfKey(zs, key, k)
    ensures ys == zs
  {
    if ys == [] {
      if zs != [] {
        SmallestKeyAgrees(zs, ys, key);
      }
    } else {
      SmallestKeyAgrees(ys, zs, key);
      SmallestKeyAgrees(zs, ys, key);
      var k := key(ys[0]);
      assert OfKey(ys, key, k)[0] == ys[0] && OfKey(zs, key, k)[0] == zs[0];
      forall j: real ensures OfKey(ys[1..], key, j) == OfKey(zs[1..], key, j) {
        assert OfKey(ys, key, j) == OfKey(zs, key, j);
        if j == k {
          assert OfKey(ys, key, j)[1..] == OfKey(ys[1..], key, j);
          assert OfKey(zs, key, j)[1..] == OfKey(zs[1..], key, j);
        } else {
          assert OfKey(ys, key, j) == OfKey(ys[1..], key, j);
          assert OfKey(zs, key, j) == OfKey(zs[1..], key, j);
        }
      }
      StableSortUnique(ys[1..], zs[1..], key);
      assert ys == [ys[0]] + ys[1..] && zs == [zs[0]] + zs[1..];
    }
  }

  // ----- Stability, position by position -----

  /** `a` stands somewhere before `b`. */
  ghost predicate Before<T>(xs: seq<T>, a: T, b: T) {
    exists p, q :: 0 <= p < q < |xs| && xs[p] == a && xs[q] == b
  }

  lemma BeforeInTail<T>(x: T, xs: seq<T>, a: T, b: T)
    requires Before(xs, a, b)
    ensures Before([x] + xs, a, b)
  {
    var p, q :| 0 <= p < q < |xs| && xs[p] == a && xs[q] == b;
    assert ([x] + xs)[p + 1] == a && ([x] + xs)[q + 1] == b;
  }

  lemma {:induction false} OfKeyIsSubsequence<T>(xs: seq<T>, key: T -> real, k: real)
    ensures forall a | a in OfKey(xs, key, k) :: a in xs && key(a) == k
    ensures forall a, b | Before(OfKey(xs, key, k), a, b) :: Before(xs, a, b)
  {
    if xs == [] {
    } else {
      var rest := OfKey(xs[1..], key, k);
      OfKeyIsSubsequence(xs[1..], key, k);
      assert xs == [xs[0]] + xs[1..];
      forall a, b | Before(OfKey(xs, key, k), a, b) ensures Before(xs, a, b) {
        var ks := OfKey(xs, key, k);
        var p, q :| 0 <= p < q < |ks| && ks[p] == a && ks[q] == b;
        if key(xs[0]) == k && p == 0 {
          assert b == rest[q - 1] && b in xs[1..];
          var j :| 0 <= j < |xs[1..]| && xs[1..][j] == b;
          assert xs[0] == a && xs[j + 1] == b;
        } else {
          var d := if key(xs[0]) == k then 1 else 0;
          assert rest[p - d] == a && rest[q - d] == b;
          assert Before(rest, a, b);
          BeforeInTail(xs[0], xs[1..], a, b);
        }
      }
    }
  }

  lemma {:induction false} OfKeyHas<T>(xs: seq<T>, key: T -> real, j: nat)
    requires j < |xs|
    ensures xs[j] in OfKey(xs, key, key(xs[j]))
  {
    if j == 0 {
    } else {
      OfKeyHas(xs[1..], key, j - 1);
    }
  }

  lemma {:induction false} OfKeyKeepsOrder<T>(xs: seq<T>, key: T -> real, i: nat, j: nat)
    requires i < j < |xs| && key(xs[i]) == key(xs[j])
    ensures Before(OfKey(xs, key, key(xs[i])), xs[i], xs[j])
  {
    var k := key(xs[i]);
    var rest := OfKey(xs[1..], key, k);
    if i > 0 {
      OfKeyKeepsOrder(xs[1..], key, i - 1, j - 1);
      if key(xs[0]) == k {
        BeforeInTail(xs[0], rest, xs[i], xs[j]);
      } else {
        assert OfKey(xs, key, k) == rest;
      }
    } else {
      OfKeyHas(xs[1..], key, j - 1);
      var q :| 0 <= q < |rest| && rest[q] == xs[j];
      assert OfKey(xs, key, k) == [xs[0]] + rest;
      assert OfKey(xs, key, k)[0] == xs[i] && OfKey(xs, key, k)[q + 1] == xs[j];
    }
  }

  /** In a stable sort, of two elements with equal keys the first came first. */
  lemma StableOrder<T>(xs: seq<T>, ys: seq<T>, key: T -> real, i: nat, j: nat)
    requires StablySorted(xs, ys, key) && i < j < |ys|
    ensures key(ys[i]) < key(ys[j]) || (key(ys[i]) == key(ys[j]) && Before(xs, ys[i], ys[j]))
  {
    if key(ys[i]) == key(ys[j]) {
      OfKeyKeepsOrder(ys, key, i, j);
      OfKeyIsSubsequence(xs, key, key(ys[i]));
    }
  }
}
