/** The row order of an SQL `ORDER BY key, id` clause: rows are compared by an integer sort key
    and ties are broken by the row id. */
module Ordering {

  predicate Before(key: map<nat, int>, a: nat, b: nat)
    requires a in key && b in key
  {
    key[a] < key[b] || (key[a] == key[b] && a < b)
  }

  predicate IsLeast(ids: set<nat>, key: map<nat, int>, m: nat)
    requires ids <= key.Keys
  {
    m in ids && forall b :: b in ids && b != m ==> Before(key, m, b)
  }

  lemma {:induction false} LeastExists(ids: set<nat>, key: map<nat, int>)
    requires ids <= key.Keys && ids != {}
    ensures exists m :: IsLeast(ids, key, m)
  {
    var a :| a in ids;
    if ids == {a} {
      assert IsLeast(ids, key, a);
    } else {
      LeastExists(ids - {a}, key);
      var m :| IsLeast(ids - {a}, key, m);
      if Before(key, a, m) {
        forall b | b in ids && b != a ensures Before(key, a, b) {
          assert b in ids - {a};
        }
        assert IsLeast(ids, key, a);
      } else {
        assert IsLeast(ids, key, m);
      }
    }
  }

  lemma LeastIsUnique(ids: set<nat>, key: map<nat, int>, m: nat, n: nat)
    requires ids <= key.Keys && IsLeast(ids, key, m) && IsLeast(ids, key, n)
    ensures m == n
  {
  }

  /** `ORDER BY key, id LIMIT 1`. */
  function Least(ids: set<nat>, key: map<nat, int>): (m: nat)
    requires ids <= key.Keys && ids != {}
    ensures IsLeast(ids, key, m)
  {
    LeastExists(ids, key);
    var m :| IsLeast(ids, key, m);
    m
  }

  /** `ORDER BY key, id`. */
  function Sorted(ids: set<nat>, key: map<nat, int>): (s: seq<nat>)
    requires ids <= key.Keys
    ensures |s| == |ids|
    ensures forall x :: x in s <==> x in ids
    ensures forall i, j :: 0 <= i < j < |s| ==> Before(key, s[i], s[j])
    decreases |ids|
  {
    if ids == {} then []
    else
      var m := Least(ids, key);
      var rest := Sorted(ids - {m}, key);
      assert forall x :: x in [m] + rest <==> x == m || x in rest;
      [m] + rest
  }

  /** The `k` rows that come first. */
  function First(ids: set<nat>, key: map<nat, int>, k: nat): (first: set<nat>)
    requires ids <= key.Keys && k <= |ids|
    ensures first <= ids && |first| == k
    ensures forall a, b :: a in first && b in ids - first ==> Before(key, a, b)
  {
    if k == 0 then {}
    else
      var m := Least(ids, key);
      var rest := First(ids - {m}, key, k - 1);
      assert forall b :: b in ids - (rest + {m}) ==> b in (ids - {m}) - rest;
      rest + {m}
  }

  /** The rows that `ORDER BY key DESC, id DESC` puts after the first `n`: those `OFFSET n`
      selects, and those `LIMIT n` cuts off. */
  function BeyondLimit(ids: set<nat>, key: map<nat, int>, n: nat): (beyond: set<nat>)
    requires ids <= key.Keys
    ensures beyond <= ids && |ids - beyond| == if |ids| < n then |ids| else n
    ensures forall d, s :: d in beyond && s in ids - beyond ==> Before(key, d, s)
  {
    First(ids, key, if |ids| <= n then 0 else |ids| - n)
  }

  /** `INTEGER PRIMARY KEY` without `AUTOINCREMENT`: one more than the greatest id in the table. */
  function NextId(ids: set<nat>): (n: nat)
    ensures n > 0 && forall id :: id in ids ==> id < n
    ensures ids != {} ==> n - 1 in ids
  {
    if ids == {} then 1 else
      var key := map id | id in ids :: -id;
      Least(ids, key) + 1
  }

  /** `tuple(dict.fromkeys(ids))`: the ids in order, each once. */
  function FirstOccurrences(ids: seq<nat>): (r: seq<nat>)
    ensures forall id :: id in r <==> id in ids
    ensures forall i, j :: 0 <= i < j < |r| ==> r[i] != r[j]
  {
    if ids == [] then []
    else
      var init := FirstOccurrences(ids[..|ids| - 1]);
      var last := ids[|ids| - 1];
      if last in init then init else init + [last]
  }

  lemma {:induction false} SubsetHasFewer<T>(small: set<T>, large: set<T>)
    requires small <= large
    ensures |small| <= |large|
    ensures |small| == |large| ==> small == large
  {
    if small != {} {
      var x :| x in small;
      SubsetHasFewer(small - {x}, large - {x});
      assert small == small - {x} + {x} && large == large - {x} + {x};
    }
  }
}
