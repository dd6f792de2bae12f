/** Grouping keyed rows and summing their counters: the model of pandas'
    `groupby(key).agg(sum)` (sorted by key) and of `reindex` onto a list of
    keys with zeros for the keys no row has. */
module Grouping {
  import opened Records

  ghost predicate StrictTotalOrder<K(!new)>(less: (K, K) -> bool) {
    && (forall a :: !less(a, a))
    && (forall a, b, c :: less(a, b) && less(b, c) ==> less(a, c))
    && (forall a, b :: a != b ==> less(a, b) || less(b, a))
  }

  /** The keys of `rows` strictly increase. */
  predicate Sorted<K>(rows: seq<Row<K>>, less: (K, K) -> bool) {
    forall i, j :: 0 <= i < j < |rows| ==> less(rows[i].key, rows[j].key)
  }

  /** Adds one keyed row to a table sorted by key: merged into the row with
      the same key, or inserted as a new row at its place in key order. */
  function Insert<K(==)>(rows: seq<Row<K>>, e: Row<K>, less: (K, K) -> bool): seq<Row<K>> {
    if rows == [] then [e]
    else if rows[0].key == e.key then [Row(e.key, rows[0].sums.Plus(e.sums))] + rows[1..]
    else if less(e.key, rows[0].key) then [e] + rows
    else [rows[0]] + Insert(rows[1..], e, less)
  }

  /** `groupby(key, sort=True).agg(sum)`: one row per distinct key, in key
      order, holding the sums of that key's rows. */
  function GroupSum<K(==)>(es: seq<Row<K>>, less: (K, K) -> bool): seq<Row<K>> {
    if es == [] then [] else Insert(GroupSum(es[1..], less), es[0], less)
  }

  lemma {:induction false} InsertKeys<K>(rows: seq<Row<K>>, e: Row<K>, less: (K, K) -> bool)
    ensures Keys(Insert(rows, e, less)) == Keys(rows) + {e.key}
  {
    if rows == [] {
      KeysOfCons(e, []);
      assert [e] + [] == [e];
    } else {
      KeysOfCons(rows[0], rows[1..]);
      assert [rows[0]] + rows[1..] == rows;
      if rows[0].key == e.key {
        KeysOfCons(Row(e.key, rows[0].sums.Plus(e.sums)), rows[1..]);
      } else if less(e.key, rows[0].key) {
        KeysOfCons(e, rows);
      } else {
        InsertKeys(rows[1..], e, less);
        KeysOfCons(rows[0], Insert(rows[1..], e, less));
      }
    }
  }

  lemma {:induction false} InsertSumOf<K>(rows: seq<Row<K>>, e: Row<K>, less: (K, K) -> bool, k: K, f: Counter)
    ensures SumOf(Insert(rows, e, less), k, f)
         == SumOf(rows, k, f) + (if k == e.key then Get(e.sums, f) else 0)
  {
    if rows != [] && rows[0].key != e.key && !less(e.key, rows[0].key) {
      InsertSumOf(rows[1..], e, less, k, f);
      assert ([rows[0]] + Insert(rows[1..], e, less))[1..] == Insert(rows[1..], e, less);
    } else if rows != [] && rows[0].key == e.key {
      assert ([Row(e.key, rows[0].sums.Plus(e.sums))] + rows[1..])[1..] == rows[1..];
    } else if rows != [] {
      assert ([e] + rows)[1..] == rows;
    }
  }

  lemma {:induction false} InsertTotal<K>(rows: seq<Row<K>>, e: Row<K>, less: (K, K) -> bool, f: Counter)
    ensures Total(Insert(rows, e, less), f) == Total(rows, f) + Get(e.sums, f)
  {
    if rows != [] && rows[0].key != e.key && !less(e.key, rows[0].key) {
      InsertTotal(rows[1..], e, less, f);
      assert ([rows[0]] + Insert(rows[1..], e, less))[1..] == Insert(rows[1..], e, less);
    } else if rows != [] && rows[0].key == e.key {
      assert ([Row(e.key, rows[0].sums.Plus(e.sums))] + rows[1..])[1..] == rows[1..];
    } else if rows != [] {
      assert ([e] + rows)[1..] == rows;
    }
  }

  lemma {:induction false} InsertSorted<K(!new)>(rows: seq<Row<K>>, e: Row<K>, less: (K, K) -> bool)
    requires StrictTotalOrder(less)
    requires Sorted(rows, less)
    ensures Sorted(Insert(rows, e, less), less)
  {
    if rows == [] {
    } else if rows[0].key == e.key {
    } else if less(e.key, rows[0].key) {
      var r := [e] + rows;
      forall i, j | 0 <= i < j < |r| ensures less(r[i].key, r[j].key) {
        if i == 0 && j > 1 {
          assert less(rows[0].key, rows[j - 1].key);
        }
      }
    } else {
      var h := rows[0];
      var t := Insert(rows[1..], e, less);
      InsertSorted(rows[1..], e, less);
      InsertKeys(rows[1..], e, less);
      assert less(h.key, e.key);
      var r := [h] + t;
      forall i, j | 0 <= i < j < |r| ensures less(r[i].key, r[j].key) {
        if i == 0 {
          assert r[j].key == t[j - 1].key;
          assert t[j - 1].key in Keys(t);
          if t[j - 1].key != e.key {
            var m :| 0 <= m < |rows[1..]| && rows[1..][m].key == t[j - 1].key;
            assert rows[m + 1].key == t[j - 1].key;
          }
        }
      }
    }
  }

  lemma SortedDistinct<K(!new)>(rows: seq<Row<K>>, less: (K, K) -> bool)
    requires StrictTotalOrder(less)
    requires Sorted(rows, less)
    ensures DistinctKeys(rows)
  {
  }

  /** The grouped table has exactly the keys of its input. */
  lemma {:induction false} GroupSumKeys<K>(es: seq<Row<K>>, less: (K, K) -> bool)
    ensures Keys(GroupSum(es, less)) == Keys(es)
  {
    if es == [] {
    } else {
      GroupSumKeys(es[1..], less);
      InsertKeys(GroupSum(es[1..], less), es[0], less);
      KeysOfCons(es[0], es[1..]);
      assert [es[0]] + es[1..] == es;
    }
  }

  /** Grouping keeps every key's sums. */
  lemma {:induction false} GroupSumSumOf<K>(es: seq<Row<K>>, less: (K, K) -> bool, k: K, f: Counter)
    ensures SumOf(GroupSum(es, less), k, f) == SumOf(es, k, f)
  {
    if es != [] {
      GroupSumSumOf(es[1..], less, k, f);
      InsertSumOf(GroupSum(es[1..], less), es[0], less, k, f);
    }
  }

  /** Grouping conserves the column sums. */
  lemma {:induction false} GroupSumTotal<K>(es: seq<Row<K>>, less: (K, K) -> bool, f: Counter)
    ensures Total(GroupSum(es, less), f) == Total(es, f)
  {
    if es != [] {
      GroupSumTotal(es[1..], less, f);
      InsertTotal(GroupSum(es[1..], less), es[0], less, f);
    }
  }

  /** The grouped table is strictly sorted by key. */
  lemma {:induction false} GroupSumSorted<K(!new)>(es: seq<Row<K>>, less: (K, K) -> bool)
    requires StrictTotalOrder(less)
    ensures Sorted(GroupSum(es, less), less)
  {
    if es != [] {
      GroupSumSorted(es[1..], less);
      InsertSorted(GroupSum(es[1..], less), es[0], less);
    }
  }

  /** Everything a caller needs to know about one grouped table: sorted
      distinct keys, exactly the input's keys, one row per key holding that
      key's sums, and the column sums conserved. */
  lemma GroupSumSpec<K(!new)>(es: seq<Row<K>>, less: (K, K) -> bool)
    requires StrictTotalOrder(less)
    ensures Sorted(GroupSum(es, less), less)
    ensures DistinctKeys(GroupSum(es, less))
    ensures Keys(GroupSum(es, less)) == Keys(es)
    ensures |GroupSum(es, less)| == |Keys(es)|
    ensures forall i, f :: 0 <= i < |GroupSum(es, less)| ==>
              Get(GroupSum(es, less)[i].sums, f) == SumOf(es, GroupSum(es, less)[i].key, f)
    ensures forall f :: Total(GroupSum(es, less), f) == Total(es, f)
  {
    var g := GroupSum(es, less);
    GroupSumSorted(es, less);
    SortedDistinct(g, less);
    GroupSumKeys(es, less);
    DistinctKeysCount(g);
    forall i, f | 0 <= i < |g| ensures Get(g[i].sums, f) == SumOf(es, g[i].key, f) {
      SumOfDistinct(g, i, f);
      GroupSumSumOf(es, less, g[i].key, f);
    }
    forall f ensures Total(g, f) == Total(es, f) {
      GroupSumTotal(es, less, f);
    }
  }

  /** The sums of the first row with key `k`, zero when there is none. */
  function Lookup<K(==)>(rows: seq<Row<K>>, k: K): Counts {
    if rows == [] then Zero
    else if rows[0].key == k then rows[0].sums
    else Lookup(rows[1..], k)
  }

  /** `reindex(ks, fill_value=0)`: one row per key of `ks`, in that order. */
  function Reindex<K(==)>(rows: seq<Row<K>>, ks: seq<K>): (r: seq<Row<K>>)
    ensures |r| == |ks|
  {
    seq(|ks|, i requires 0 <= i < |ks| => Row(ks[i], Lookup(rows, ks[i])))
  }

  function Elems<T>(s: seq<T>): set<T> {
    set x | x in s
  }

  predicate NoDuplicates<T(==)>(s: seq<T>) {
    forall i, j :: 0 <= i < j < |s| ==> s[i] != s[j]
  }

  /** In a table with distinct keys, looking a key up gives all its counts. */
  lemma {:induction false} LookupSumOf<K>(rows: seq<Row<K>>, k: K, f: Counter)
    requires DistinctKeys(rows)
    ensures Get(Lookup(rows, k), f) == SumOf(rows, k, f)
  {
    if rows != [] {
      if rows[0].key == k {
        SumOfDistinct(rows, 0, f);
      } else {
        LookupSumOf(rows[1..], k, f);
      }
    }
  }

  lemma {:induction false} ReindexSumIn<K>(rows: seq<Row<K>>, ks: seq<K>, f: Counter)
    requires DistinctKeys(rows)
    requires NoDuplicates(ks)
    ensures Total(Reindex(rows, ks), f) == SumIn(rows, Elems(ks), f)
  {
    if ks == [] {
      SumInEmpty(rows, f);
      assert Elems(ks) == {};
    } else {
      var rest := ks[1..];
      ReindexSumIn(rows, rest, f);
      assert Reindex(rows, ks)[1..] == Reindex(rows, rest);
      LookupSumOf(rows, ks[0], f);
      assert ks[0] !in Elems(rest);
      SumInAdd(rows, Elems(rest), ks[0], f);
      assert Elems(ks) == Elems(rest) + {ks[0]};
    }
  }

  /** Re-indexing a distinct-keyed table onto a list of keys covering all
      of its keys conserves the column sums. */
  lemma ReindexTotal<K>(rows: seq<Row<K>>, ks: seq<K>, f: Counter)
    requires DistinctKeys(rows)
    requires NoDuplicates(ks)
    requires Keys(rows) <= Elems(ks)
    ensures Total(Reindex(rows, ks), f) == Total(rows, f)
  {
    ReindexSumIn(rows, ks, f);
    SumInAll(rows, Elems(ks), f);
  }

  /** The ascending order of integer keys. */
  predicate IntLess(a: int, b: int) {
    a < b
  }

  lemma IntLessOrder()
    ensures StrictTotalOrder(IntLess)
  {
  }

  /** Python's string order: lexicographic by code point, a proper prefix
      first. */
  predicate StrLess(a: string, b: string) {
    if a == [] then b != []
    else if b == [] then false
    else if a[0] != b[0] then a[0] < b[0]
    else StrLess(a[1..], b[1..])
  }

  lemma {:induction false} StrLessIrreflexive(a: string)
    ensures !StrLess(a, a)
  {
    if a != [] {
      StrLessIrreflexive(a[1..]);
    }
  }

  lemma {:induction false} StrLessTransitive(a: string, b: string, c: string)
    requires StrLess(a, b) && StrLess(b, c)
    ensures StrLess(a, c)
  {
    if a != [] && b != [] && c != [] && a[0] == b[0] && b[0] == c[0] {
      StrLessTransitive(a[1..], b[1..], c[1..]);
    }
  }

  lemma {:induction false} StrLessTotal(a: string, b: string)
    requires a != b
    ensures StrLess(a, b) || StrLess(b, a)
  {
    if a != [] && b != [] && a[0] == b[0] {
      assert a == [a[0]] + a[1..] && b == [b[0]] + b[1..];
      StrLessTotal(a[1..], b[1..]);
    }
  }

  lemma StrLessOrder()
    ensures StrictTotalOrder(StrLess)
  {
    forall a ensures !StrLess(a, a) {
      StrLessIrreflexive(a);
    }
    forall a, b, c | StrLess(a, b) && StrLess(b, c) ensures StrLess(a, c) {
      StrLessTransitive(a, b, c);
    }
    forall a, b | a != b ensures StrLess(a, b) || StrLess(b, a) {
      StrLessTotal(a, b);
    }
  }
}
