/**
 Sorted index views and sums.  A multi-index ordered by price is modelled as a sequence kept sorted by a key
 price, with ties broken by object id.
 */
module Collections {
  import opened Prices

  function Sum<T>(s: seq<T>, f: T -> nat): nat {
    if s == [] then 0 else f(s[0]) + Sum(s[1..], f)
  }

  lemma {:induction false} SumConcat<T>(a: seq<T>, b: seq<T>, f: T -> nat)
    ensures Sum(a + b, f) == Sum(a, f) + Sum(b, f)
  {
    if a == [] {
      assert a + b == b;
    } else {
      assert (a + b)[1..] == a[1..] + b;
      SumConcat(a[1..], b, f);
    }
  }

  lemma SumOne<T>(x: T, f: T -> nat)
    ensures Sum([x], f) == f(x)
  {
    assert [x][1..] == [];
  }

  lemma SumTwo<T>(x: T, y: T, f: T -> nat)
    ensures Sum([x, y], f) == f(x) + f(y)
  {
    assert [x, y][1..] == [y];
    SumOne(y, f);
  }

  lemma SumSplit<T>(s: seq<T>, i: nat, f: T -> nat)
    requires i < |s|
    ensures Sum(s, f) == Sum(s[..i], f) + f(s[i]) + Sum(s[i + 1..], f)
  {
    assert s == s[..i] + s[i..];
    SumConcat(s[..i], s[i..], f);
    assert s[i..][1..] == s[i + 1..];
  }

  function RemoveAt<T>(s: seq<T>, i: nat): seq<T>
    requires i < |s|
  {
    s[..i] + s[i + 1..]
  }

  lemma RemoveAtElements<T>(s: seq<T>, i: nat)
    requires i < |s|
    ensures multiset(RemoveAt(s, i)) + multiset{s[i]} == multiset(s)
  {
    assert s == s[..i] + [s[i]] + s[i + 1..];
  }

  lemma SumRemoveAt<T>(s: seq<T>, i: nat, f: T -> nat)
    requires i < |s|
    ensures Sum(s, f) == Sum(RemoveAt(s, i), f) + f(s[i])
  {
    SumSplit(s, i, f);
    SumConcat(s[..i], s[i + 1..], f);
  }

  /** An element never exceeds the sum it is part of. */
  lemma SumBounds<T>(s: seq<T>, i: nat, f: T -> nat)
    requires i < |s|
    ensures f(s[i]) <= Sum(s, f)
  {
    SumSplit(s, i, f);
  }

  predicate Sorted<T>(s: seq<T>, key: T -> Price) {
    forall i, j | 0 <= i < j < |s| :: key(s[i]).AtMost(key(s[j]))
  }

  predicate ValidKeys<T>(s: seq<T>, key: T -> Price) {
    forall i | 0 <= i < |s| :: key(s[i]).Valid()
  }

  /** Index order: by key, then by id. */
  predicate Before<T>(x: T, y: T, key: T -> Price, id: T -> nat) {
    key(x).Less(key(y)) || (key(x).AtMost(key(y)) && id(x) < id(y))
  }

  function Insert<T>(s: seq<T>, x: T, key: T -> Price, id: T -> nat): seq<T> {
    if s == [] || Before(x, s[0], key, id) then [x] + s else [s[0]] + Insert(s[1..], x, key, id)
  }

  lemma {:induction false} InsertKeepsElements<T>(s: seq<T>, x: T, key: T -> Price, id: T -> nat)
    ensures multiset(Insert(s, x, key, id)) == multiset(s) + multiset{x}
    ensures |Insert(s, x, key, id)| == |s| + 1
  {
    if s != [] && !Before(x, s[0], key, id) {
      InsertKeepsElements(s[1..], x, key, id);
      assert s == [s[0]] + s[1..];
    }
  }

  /** Where it goes: behind every element with a lower key, or the same key and no higher id, up to the first other. */
  lemma {:induction false} InsertPlace<T>(s: seq<T>, x: T, key: T -> Price, id: T -> nat) returns (k: nat)
    ensures k <= |s| && Insert(s, x, key, id) == s[..k] + [x] + s[k..]
    ensures k < |s| ==> key(x).Less(key(s[k])) || (key(x).AtMost(key(s[k])) && id(x) < id(s[k]))
    ensures forall i | 0 <= i < k ::
              !key(x).Less(key(s[i])) && (key(x).AtMost(key(s[i])) ==> id(s[i]) <= id(x))
  {
    hide Price.Less, Price.AtMost;
    if s == [] || Before(x, s[0], key, id) {
      k := 0;
    } else {
      k := InsertPlace(s[1..], x, key, id);
      k := k + 1;
    }
  }

  lemma MemberAfterInsert<T>(s: seq<T>, x: T, key: T -> Price, id: T -> nat, y: T)
    ensures y in Insert(s, x, key, id) <==> y == x || y in s
  {
  }

  lemma {:induction false} SumInsert<T>(s: seq<T>, x: T, key: T -> Price, id: T -> nat, f: T -> nat)
    ensures Sum(Insert(s, x, key, id), f) == Sum(s, f) + f(x)
  {
    if s == [] || Before(x, s[0], key, id) {
      SumConcat([x], s, f);
    } else {
      SumInsert(s[1..], x, key, id, f);
      SumConcat([s[0]], Insert(s[1..], x, key, id), f);
    }
  }

  lemma LessIsAtMost(p: Price, q: Price)
    requires p.Valid() && q.Valid()
    ensures p.Less(q) ==> p.AtMost(q)
    ensures p.AtMost(q) || q.AtMost(p)
  {
  }

  lemma {:induction false} InsertKeepsSorted<T>(s: seq<T>, x: T, key: T -> Price, id: T -> nat)
    requires Sorted(s, key) && ValidKeys(s, key) && key(x).Valid()
    ensures Sorted(Insert(s, x, key, id), key) && ValidKeys(Insert(s, x, key, id), key)
  {
    hide Price.Less;
    if s == [] {
    } else if Before(x, s[0], key, id) {
      var t := [x] + s;
      LessIsAtMost(key(x), key(s[0]));
      forall i, j | 0 <= i < j < |t|
        ensures key(t[i]).AtMost(key(t[j]))
      {
        if i == 0 && j > 1 {
          AtMostTransitive(key(x), key(s[0]), key(s[j - 1]));
        }
      }
    } else {
      var r := s[1..];
      InsertKeepsSorted(r, x, key, id);
      var u := Insert(r, x, key, id);
      LessIsAtMost(key(x), key(s[0]));
      forall y | y in u
        ensures key(s[0]).AtMost(key(y)) && key(y).Valid()
      {
        MemberAfterInsert(r, x, key, id, y);
        if y != x {
          assert y in r;
          var k :| 0 <= k < |r| && r[k] == y;
          assert s[k + 1] == y;
        } else {
          assert key(s[0]).AtMost(key(x));
        }
      }
      assert forall j | 0 <= j < |u| :: u[j] in u;
    }
  }

  lemma SortedRemoveAt<T>(s: seq<T>, i: nat, key: T -> Price)
    requires Sorted(s, key) && i < |s|
    ensures Sorted(RemoveAt(s, i), key)
    ensures forall k | 0 <= k < |s| - 1 :: RemoveAt(s, i)[k] == s[if k < i then k else k + 1]
  {
  }

  // ----- sums over balances

  function Lookup(m: map<nat, nat>, k: nat): nat {
    if k in m then m[k] else 0
  }

  ghost function SumMap(m: map<nat, nat>): nat {
    if m == map[] then 0
    else
      var k :| k in m;
      m[k] + SumMap(m - {k})
  }

  lemma {:induction false} SumMapRemove(m: map<nat, nat>, k: nat)
    requires k in m
    ensures SumMap(m) == m[k] + SumMap(m - {k})
    decreases |m|
  {
    assert m != map[];
    var k' :| k' in m && SumMap(m) == m[k'] + SumMap(m - {k'});
    if k' != k {
      SumMapRemove(m - {k'}, k);
      SumMapRemove(m - {k}, k');
      assert m - {k'} - {k} == m - {k} - {k'};
    }
  }

  lemma SumMapUpdate(m: map<nat, nat>, k: nat, v: nat)
    ensures SumMap(m[k := v]) == SumMap(m) - Lookup(m, k) + v
    ensures SumMap(m) >= Lookup(m, k)
  {
    SumMapRemove(m[k := v], k);
    assert m[k := v] - {k} == m - {k};
    if k in m {
      SumMapRemove(m, k);
    } else {
      assert m - {k} == m;
    }
  }
}
