/** The bike-share record, the three usage counters and the keyed row that
    every summary table is made of. */
module Records {

  datatype Option<T> = None | Some(value: T)

  /** A calendar date, as the loader's date coercion produces it. */
  datatype Date = Date(year: int, month: int, day: int)

  /** Gregorian leap years. */
  predicate IsLeapYear(y: int) {
    (y % 4 == 0 && y % 100 != 0) || y % 400 == 0
  }

  function DaysInMonth(y: int, m: int): (n: int)
    requires 1 <= m <= 12
    ensures 28 <= n <= 31
    ensures n == 29 <==> m == 2 && IsLeapYear(y)
    ensures n == 28 <==> m == 2 && !IsLeapYear(y)
  {
    if m == 2 then (if IsLeapYear(y) then 29 else 28)
    else if m == 4 || m == 6 || m == 9 || m == 11 then 30
    else 31
  }

  predicate ValidDate(d: Date) {
    1 <= d.month <= 12 && 1 <= d.day <= DaysInMonth(d.year, d.month)
  }

  /** One row of the dataset: the columns the aggregation helpers read. */
  datatype Record = Record(
    dteday: Date,
    hr: int,
    weekday: string,
    season: string,
    weathersit: string,
    temp: real,
    casual: int,
    registered: int,
    cnt: int)

  /** The three summed counters of a summary row. */
  datatype Counts = Counts(casual: int, registered: int, cnt: int) {
    function Plus(other: Counts): Counts {
      Counts(casual + other.casual, registered + other.registered, cnt + other.cnt)
    }
  }

  const Zero: Counts := Counts(0, 0, 0)

  /** Names one of the three counter columns. */
  datatype Counter = Casual | Registered | Cnt

  function Get(c: Counts, f: Counter): int {
    match f
    case Casual => c.casual
    case Registered => c.registered
    case Cnt => c.cnt
  }

  /** Two counter triples are equal when every counter agrees. */
  lemma CountsExt(a: Counts, b: Counts)
    requires forall f :: Get(a, f) == Get(b, f)
    ensures a == b
  {
    assert Get(a, Casual) == Get(b, Casual);
    assert Get(a, Registered) == Get(b, Registered);
    assert Get(a, Cnt) == Get(b, Cnt);
  }

  function CountsOf(r: Record): Counts {
    Counts(r.casual, r.registered, r.cnt)
  }

  /** A bucket key with its counters: a keyed record before grouping,
      a summary row after. */
  datatype Row<K> = Row(key: K, sums: Counts)

  /** The column sum of counter `f` over a table. */
  function Total<K>(rows: seq<Row<K>>, f: Counter): int {
    if rows == [] then 0 else Get(rows[0].sums, f) + Total(rows[1..], f)
  }

  /** Counter `f` summed over the rows whose key is `k`. */
  function SumOf<K(==)>(rows: seq<Row<K>>, k: K, f: Counter): int {
    if rows == [] then 0
    else (if rows[0].key == k then Get(rows[0].sums, f) else 0) + SumOf(rows[1..], k, f)
  }

  lemma SumOfCons<K>(r: Row<K>, rest: seq<Row<K>>, k: K, f: Counter)
    ensures SumOf([r] + rest, k, f) == (if r.key == k then Get(r.sums, f) else 0) + SumOf(rest, k, f)
  {
    assert ([r] + rest)[1..] == rest;
  }

  lemma SumOfTwo<K>(r0: Row<K>, r1: Row<K>, k: K, f: Counter)
    ensures SumOf([r0, r1], k, f)
         == (if r0.key == k then Get(r0.sums, f) else 0) + (if r1.key == k then Get(r1.sums, f) else 0)
  {
    SumOfCons(r0, [r1], k, f);
    SumOfCons(r1, [], k, f);
    assert [r0, r1] == [r0] + [r1] && [r1] == [r1] + [];
  }

  /** Counter `f` summed over the rows whose key lies in `ks`. */
  function SumIn<K(==)>(rows: seq<Row<K>>, ks: set<K>, f: Counter): int {
    if rows == [] then 0
    else (if rows[0].key in ks then Get(rows[0].sums, f) else 0) + SumIn(rows[1..], ks, f)
  }

  function Keys<K>(rows: seq<Row<K>>): set<K> {
    set i | 0 <= i < |rows| :: rows[i].key
  }

  predicate DistinctKeys<K(==)>(rows: seq<Row<K>>) {
    forall i, j :: 0 <= i < j < |rows| ==> rows[i].key != rows[j].key
  }

  /** Counter `f` summed over a list of records. */
  function RecordsTotal(rs: seq<Record>, f: Counter): int {
    if rs == [] then 0 else Get(CountsOf(rs[0]), f) + RecordsTotal(rs[1..], f)
  }

  /** Attaches to every record the bucket key `key` gives it. */
  function KeyBy<K>(rs: seq<Record>, key: Record -> K): (es: seq<Row<K>>)
    ensures |es| == |rs|
    ensures forall i :: 0 <= i < |rs| ==> es[i] == Row(key(rs[i]), CountsOf(rs[i]))
  {
    if rs == [] then [] else [Row(key(rs[0]), CountsOf(rs[0]))] + KeyBy(rs[1..], key)
  }

  /** Keying records neither adds nor loses counts. */
  lemma {:induction false} KeyByTotal<K>(rs: seq<Record>, key: Record -> K, f: Counter)
    ensures Total(KeyBy(rs, key), f) == RecordsTotal(rs, f)
  {
    if rs != [] {
      KeyByTotal(rs[1..], key, f);
      assert KeyBy(rs, key)[1..] == KeyBy(rs[1..], key);
    }
  }

  lemma {:induction false} KeysOfCons<K>(r: Row<K>, rows: seq<Row<K>>)
    ensures Keys([r] + rows) == {r.key} + Keys(rows)
  {
    var s := [r] + rows;
    forall k | k in Keys(s) ensures k in {r.key} + Keys(rows) {
      var i :| 0 <= i < |s| && s[i].key == k;
      if i > 0 { assert rows[i - 1].key == k; }
    }
    forall k | k in Keys(rows) ensures k in Keys(s) {
      var i :| 0 <= i < |rows| && rows[i].key == k;
      assert s[i + 1].key == k;
    }
    assert s[0].key == r.key;
  }

  /** A table whose keys are in `ks` has all its counts in `ks`. */
  lemma {:induction false} SumInAll<K>(rows: seq<Row<K>>, ks: set<K>, f: Counter)
    requires Keys(rows) <= ks
    ensures SumIn(rows, ks, f) == Total(rows, f)
  {
    if rows != [] {
      KeysOfCons(rows[0], rows[1..]);
      assert [rows[0]] + rows[1..] == rows;
      SumInAll(rows[1..], ks, f);
    }
  }

  /** Summing over one more key adds exactly that key's counts. */
  lemma {:induction false} SumInAdd<K>(rows: seq<Row<K>>, ks: set<K>, k: K, f: Counter)
    requires k !in ks
    ensures SumIn(rows, ks + {k}, f) == SumIn(rows, ks, f) + SumOf(rows, k, f)
  {
    if rows != [] {
      SumInAdd(rows[1..], ks, k, f);
    }
  }

  /** Summing over no key gives zero. */
  lemma {:induction false} SumInEmpty<K>(rows: seq<Row<K>>, f: Counter)
    ensures SumIn(rows, {}, f) == 0
  {
    if rows != [] {
      SumInEmpty(rows[1..], f);
    }
  }

  /** In a table with distinct keys, a row holds all of its key's counts. */
  lemma {:induction false} SumOfDistinct<K>(rows: seq<Row<K>>, i: int, f: Counter)
    requires DistinctKeys(rows)
    requires 0 <= i < |rows|
    ensures SumOf(rows, rows[i].key, f) == Get(rows[i].sums, f)
  {
    if i == 0 {
      SumOfAbsent(rows[1..], rows[0].key, f);
    } else {
      SumOfDistinct(rows[1..], i - 1, f);
    }
  }

  /** A key that no row has sums to zero. */
  lemma {:induction false} SumOfAbsent<K>(rows: seq<Row<K>>, k: K, f: Counter)
    requires k !in Keys(rows)
    ensures SumOf(rows, k, f) == 0
  {
    if rows != [] {
      KeysOfCons(rows[0], rows[1..]);
      assert [rows[0]] + rows[1..] == rows;
      SumOfAbsent(rows[1..], k, f);
    }
  }

  /** A table with distinct keys has as many rows as keys. */
  lemma {:induction false} DistinctKeysCount<K>(rows: seq<Row<K>>)
    requires DistinctKeys(rows)
    ensures |Keys(rows)| == |rows|
  {
    if rows != [] {
      KeysOfCons(rows[0], rows[1..]);
      assert [rows[0]] + rows[1..] == rows;
      DistinctKeysCount(rows[1..]);
      assert rows[0].key !in Keys(rows[1..]);
    }
  }

  /** The keys of keyed records are the keys of the records. */
  lemma KeyByKeys<K>(rs: seq<Record>, key: Record -> K)
    ensures forall k :: k in Keys(KeyBy(rs, key)) <==> exists i :: 0 <= i < |rs| && key(rs[i]) == k
  {
    var es := KeyBy(rs, key);
    forall k ensures k in Keys(es) <==> exists i :: 0 <= i < |rs| && key(rs[i]) == k {
      if exists i :: 0 <= i < |rs| && key(rs[i]) == k {
        var i :| 0 <= i < |rs| && key(rs[i]) == k;
        assert es[i].key == k;
      }
    }
  }
}
