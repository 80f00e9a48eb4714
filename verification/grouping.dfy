/** Python's `sorted(xs, key=...)` (a stable sort) and
    `itertools.groupby(xs, key)` (runs of consecutive equal keys), as the
    index generators use them, and Python's ordering of strings. */
module Grouping {

  // ------------------------------------------------------------- orders

  /** A total preorder: any two keys compare, and comparison chains. */
  ghost predicate TotalPreorder<K(!new)>(le: (K, K) -> bool) {
    && (forall a, b :: le(a, b) || le(b, a))
    && (forall a, b, c :: le(a, b) && le(b, c) ==> le(a, c))
  }

  /** Python's `a <= b` on strings: code point by code point, a proper
      prefix first. */
  predicate StrLe(a: string, b: string)
    decreases |a|
  {
    |a| == 0 || (|b| > 0 && (a[0] < b[0] || (a[0] == b[0] && StrLe(a[1..], b[1..]))))
  }

  lemma {:induction false} StrLeTotal(a: string, b: string)
    ensures StrLe(a, b) || StrLe(b, a)
    decreases |a|
  {
    if |a| > 0 && |b| > 0 && a[0] == b[0] {
      StrLeTotal(a[1..], b[1..]);
    }
  }

  lemma {:induction false} StrLeTrans(a: string, b: string, c: string)
    requires StrLe(a, b) && StrLe(b, c)
    ensures StrLe(a, c)
    decreases |a|
  {
    if |a| > 0 && a[0] == b[0] && b[0] == c[0] {
      StrLeTrans(a[1..], b[1..], c[1..]);
    }
  }

  lemma {:induction false} StrLeAntisym(a: string, b: string)
    requires StrLe(a, b) && StrLe(b, a)
    ensures a == b
    decreases |a|
  {
    if |a| > 0 {
      StrLeAntisym(a[1..], b[1..]);
      assert a == [a[0]] + a[1..] && b == [b[0]] + b[1..];
    }
  }

  /** Strings in Python's order form a total order. */
  lemma StrOrder()
    ensures TotalPreorder(StrLe)
    ensures forall a, b :: StrLe(a, b) && StrLe(b, a) ==> a == b
  {
    forall a, b ensures StrLe(a, b) || StrLe(b, a) { StrLeTotal(a, b); }
    forall a, b, c | StrLe(a, b) && StrLe(b, c) ensures StrLe(a, c) { StrLeTrans(a, b, c); }
    forall a, b | StrLe(a, b) && StrLe(b, a) ensures a == b { StrLeAntisym(a, b); }
  }

  lemma IntOrder()
    ensures TotalPreorder((a: int, b: int) => a <= b)
  {
  }

  // --------------------------------------------------------------- sort

  /** Every element's key is at most every later element's key. */
  ghost predicate SortedBy<T, K>(xs: seq<T>, key: T -> K, le: (K, K) -> bool) {
    forall i, j :: 0 <= i < j < |xs| ==> le(key(xs[i]), key(xs[j]))
  }

  /** `x` placed before the first element whose key is not below its own. */
  function Insert<T, K>(x: T, xs: seq<T>, key: T -> K, le: (K, K) -> bool): (r: seq<T>)
    ensures |r| == |xs| + 1
    decreases |xs|
  {
    if |xs| == 0 || le(key(x), key(xs[0])) then [x] + xs
    else [xs[0]] + Insert(x, xs[1..], key, le)
  }

  /** `sorted(xs, key=key)`: each element is inserted, from the last one
      back, in front of the keys it does not exceed, so equal keys keep
      their order. */
  function Sort<T, K>(xs: seq<T>, key: T -> K, le: (K, K) -> bool): (r: seq<T>)
    ensures |r| == |xs|
    decreases |xs|
  {
    if |xs| == 0 then [] else Insert(xs[0], Sort(xs[1..], key, le), key, le)
  }

  lemma {:induction false} InsertPerm<T, K>(x: T, xs: seq<T>, key: T -> K, le: (K, K) -> bool)
    ensures multiset(Insert(x, xs, key, le)) == multiset{x} + multiset(xs)
    decreases |xs|
  {
    if |xs| > 0 && !le(key(x), key(xs[0])) {
      InsertPerm(x, xs[1..], key, le);
      assert xs == [xs[0]] + xs[1..];
    }
  }

  /** Sorting rearranges: the same elements, as often as before. */
  lemma {:induction false} SortPerm<T, K>(xs: seq<T>, key: T -> K, le: (K, K) -> bool)
    ensures multiset(Sort(xs, key, le)) == multiset(xs)
    decreases |xs|
  {
    if |xs| > 0 {
      SortPerm(xs[1..], key, le);
      InsertPerm(xs[0], Sort(xs[1..], key, le), key, le);
      assert xs == [xs[0]] + xs[1..];
    }
  }

  lemma {:induction false} InsertSorted<T, K(!new)>(x: T, xs: seq<T>, key: T -> K, le: (K, K) -> bool)
    requires TotalPreorder(le) && SortedBy(xs, key, le)
    ensures SortedBy(Insert(x, xs, key, le), key, le)
    ensures forall i :: 0 <= i < |Insert(x, xs, key, le)| ==> Insert(x, xs, key, le)[i] == x || Insert(x, xs, key, le)[i] in xs
    decreases |xs|
  {
    if |xs| > 0 && !le(key(x), key(xs[0])) {
      var t := xs[1..];
      InsertSorted(x, t, key, le);
      var u := Insert(x, t, key, le);
      var r := [xs[0]] + u;
      forall i, j | 0 <= i < j < |r| ensures le(key(r[i]), key(r[j])) {
        if i == 0 {
          assert r[j] == u[j - 1];
          if u[j - 1] != x {
            assert u[j - 1] in t;
            var k :| 0 <= k < |t| && t[k] == u[j - 1];
            assert t[k] == xs[k + 1];
          }
        }
      }
    } else if |xs| > 0 {
      var r := [x] + xs;
      forall i, j | 0 <= i < j < |r| ensures le(key(r[i]), key(r[j])) {
        if i == 0 {
          assert le(key(xs[0]), key(r[j]));
        }
      }
    }
  }

  /** The result of sorting is in order. */
  lemma {:induction false} SortSorted<T, K(!new)>(xs: seq<T>, key: T -> K, le: (K, K) -> bool)
    requires TotalPreorder(le)
    ensures SortedBy(Sort(xs, key, le), key, le)
    decreases |xs|
  {
    if |xs| > 0 {
      SortSorted(xs[1..], key, le);
      InsertSorted(xs[0], Sort(xs[1..], key, le), key, le);
    }
  }

  /** Elements already in order are left in place. */
  lemma {:induction false} SortKeepsSorted<T, K(!new)>(xs: seq<T>, key: T -> K, le: (K, K) -> bool)
    requires SortedBy(xs, key, le)
    ensures Sort(xs, key, le) == xs
    decreases |xs|
  {
    if |xs| > 0 {
      SortKeepsSorted(xs[1..], key, le);
      assert xs == [xs[0]] + xs[1..];
    }
  }

  /** The elements whose key is equivalent to `k` (neither below the
      other), in order. */
  function SameKey<T, K>(xs: seq<T>, key: T -> K, le: (K, K) -> bool, k: K): seq<T>
    decreases |xs|
  {
    if |xs| == 0 then []
    else (if le(key(xs[0]), k) && le(k, key(xs[0])) then [xs[0]] else []) + SameKey(xs[1..], key, le, k)
  }

  /** Insertion passes over only keys below `x`'s, so `x` lands in front of
      every element with an equivalent key. */
  lemma {:induction false} InsertStable<T, K(!new)>(x: T, xs: seq<T>, key: T -> K, le: (K, K) -> bool, k: K)
    requires forall a, b :: le(a, k) && le(k, b) ==> le(a, b)
    ensures SameKey(Insert(x, xs, key, le), key, le, k)
            == (if le(key(x), k) && le(k, key(x)) then [x] else []) + SameKey(xs, key, le, k)
    decreases |xs|
  {
    var r := Insert(x, xs, key, le);
    if |xs| > 0 && !le(key(x), key(xs[0])) {
      InsertStable(x, xs[1..], key, le, k);
      assert r[0] == xs[0] && r[1..] == Insert(x, xs[1..], key, le);
      if le(key(x), k) && le(k, key(x)) {
        assert !(le(key(xs[0]), k) && le(k, key(xs[0])));
      }
    } else {
      assert r[0] == x && r[1..] == xs;
    }
  }

  /** `sorted` is stable: the elements with equivalent keys come out in the
      order they went in. */
  lemma {:induction false} SortStable<T, K(!new)>(xs: seq<T>, key: T -> K, le: (K, K) -> bool, k: K)
    requires TotalPreorder(le)
    ensures SameKey(Sort(xs, key, le), key, le, k) == SameKey(xs, key, le, k)
    decreases |xs|
  {
    if |xs| > 0 {
      SortStable(xs[1..], key, le, k);
      assert forall a, b :: le(a, k) && le(k, b) ==> le(a, b);
      InsertStable(xs[0], Sort(xs[1..], key, le), key, le, k);
    }
  }

  // -------------------------------------------------------------- group

  /** One `groupby` group: the shared key and the run of elements. */
  datatype Group<K, T> = Group(key: K, members: seq<T>)

  function Flatten<K, T>(gs: seq<Group<K, T>>): seq<T>
    decreases |gs|
  {
    if |gs| == 0 then [] else gs[0].members + Flatten(gs[1..])
  }

  /** `itertools.groupby(xs, key)`: maximal runs of equal keys, in order. */
  function GroupBy<T, K(==)>(xs: seq<T>, key: T -> K): (gs: seq<Group<K, T>>)
    ensures Flatten(gs) == xs
    ensures forall g :: 0 <= g < |gs| ==> |gs[g].members| > 0
    ensures forall g, m :: 0 <= g < |gs| && 0 <= m < |gs[g].members| ==> key(gs[g].members[m]) == gs[g].key
    ensures forall g :: 0 <= g < |gs| - 1 ==> gs[g].key != gs[g + 1].key
    ensures |xs| > 0 ==> |gs| > 0 && gs[0].key == key(xs[0])
    decreases |xs|
  {
    if |xs| == 0 then []
    else
      var rest := GroupBy(xs[1..], key);
      if |rest| > 0 && rest[0].key == key(xs[0]) then
        assert Flatten(rest) == rest[0].members + Flatten(rest[1..]);
        [Group(key(xs[0]), [xs[0]] + rest[0].members)] + rest[1..]
      else
        assert Flatten([Group(key(xs[0]), [xs[0]])] + rest) == [xs[0]] + Flatten(rest) by {
          assert ([Group(key(xs[0]), [xs[0]])] + rest)[1..] == rest;
        }
        [Group(key(xs[0]), [xs[0]])] + rest
  }

  /** A lower bound of every key is a lower bound of every group key. */
  lemma {:induction false} GroupKeysAbove<T, K>(xs: seq<T>, key: T -> K, le: (K, K) -> bool, k: K)
    requires forall j :: 0 <= j < |xs| ==> le(k, key(xs[j]))
    ensures forall g :: 0 <= g < |GroupBy(xs, key)| ==> le(k, GroupBy(xs, key)[g].key)
    decreases |xs|
  {
    if |xs| > 0 {
      GroupKeysAbove(xs[1..], key, le, k);
    }
  }

  /** Grouping elements sorted by key gives groups sorted by key. */
  lemma {:induction false} GroupKeysSorted<T, K>(xs: seq<T>, key: T -> K, le: (K, K) -> bool)
    requires SortedBy(xs, key, le)
    ensures forall g, h :: 0 <= g < h < |GroupBy(xs, key)| ==> le(GroupBy(xs, key)[g].key, GroupBy(xs, key)[h].key)
    decreases |xs|
  {
    if |xs| > 0 {
      var t := xs[1..];
      GroupKeysSorted(t, key, le);
      GroupKeysAbove(t, key, le, key(xs[0]));
    }
  }

  /** Grouping elements sorted by a total order on their keys gives one
      group per key. */
  lemma GroupSortedDistinct<T, K(!new)>(xs: seq<T>, key: T -> K, le: (K, K) -> bool)
    requires TotalPreorder(le) && (forall a, b :: le(a, b) && le(b, a) ==> a == b)
    requires SortedBy(xs, key, le)
    ensures forall g, h :: 0 <= g < h < |GroupBy(xs, key)| ==> GroupBy(xs, key)[g].key != GroupBy(xs, key)[h].key
  {
    GroupKeysSorted(xs, key, le);
    var gs := GroupBy(xs, key);
    forall g, h | 0 <= g < h < |gs| ensures gs[g].key != gs[h].key {
      assert g + 1 == h || (le(gs[g].key, gs[g + 1].key) && le(gs[g + 1].key, gs[h].key));
    }
  }
}
