/** pandas' ordered categorical column: re-typing a column of names against a
    fixed list of categories, and `sort_values` on such a column. */
module Categorical {
  import opened Records
  import opened Grouping

  /** The first position of `x` in `cats`; `|cats|` when `x` is not a
      category. */
  function IndexOf(cats: seq<string>, x: string): (i: nat)
    ensures i <= |cats|
    ensures i < |cats| ==> cats[i] == x
    ensures forall j :: 0 <= j < i ==> cats[j] != x
    ensures i == |cats| <==> x !in cats
  {
    if cats == [] then 0
    else if cats[0] == x then 0
    else 1 + IndexOf(cats[1..], x)
  }

  /** A name's position is where it first occurs in the category list. */
  lemma IndexOfFirst(cats: seq<string>, i: int)
    requires 0 <= i < |cats|
    requires forall j :: 0 <= j < i ==> cats[j] != cats[i]
    ensures IndexOf(cats, cats[i]) == i
  {
  }

  /** `pd.Categorical(names, categories=cats)` on one value: a name outside
      the categories becomes missing. */
  function AsCategory(cats: seq<string>, name: string): Option<string> {
    if name in cats then Some(name) else None
  }

  /** Re-types the key column of a grouped table; the rows stay where they are. */
  function Retype(rows: seq<Row<string>>, cats: seq<string>): (r: seq<Row<Option<string>>>)
    ensures |r| == |rows|
    ensures forall i :: 0 <= i < |rows| ==> r[i] == Row(AsCategory(cats, rows[i].key), rows[i].sums)
  {
    if rows == [] then []
    else [Row(AsCategory(cats, rows[0].key), rows[0].sums)] + Retype(rows[1..], cats)
  }

  /** The sort key of a categorical value: its category code, with missing
      values after every code (`na_position='last'`). */
  function Code(cats: seq<string>, k: Option<string>): nat {
    match k
    case None => |cats|
    case Some(name) => IndexOf(cats, name)
  }

  /** The rows are in non-decreasing category code. */
  predicate SortedByCode(cats: seq<string>, rows: seq<Row<Option<string>>>) {
    forall i, j :: 0 <= i < j < |rows| ==> Code(cats, rows[i].key) <= Code(cats, rows[j].key)
  }

  /** No category name appears on two rows (missing values may repeat). */
  predicate DistinctNames(rows: seq<Row<Option<string>>>) {
    forall i, j :: 0 <= i < j < |rows| && rows[i].key.Some? ==> rows[i].key != rows[j].key
  }

  /** The rows whose category code is `c`, in their order. */
  function WithCode(cats: seq<string>, rows: seq<Row<Option<string>>>, c: nat): seq<Row<Option<string>>> {
    if rows == [] then []
    else (if Code(cats, rows[0].key) == c then [rows[0]] else []) + WithCode(cats, rows[1..], c)
  }

  /** Puts `x` before the first row whose code is not smaller. */
  function InsertByCode(cats: seq<string>, x: Row<Option<string>>, s: seq<Row<Option<string>>>): seq<Row<Option<string>>> {
    if s == [] || Code(cats, x.key) <= Code(cats, s[0].key) then [x] + s
    else [s[0]] + InsertByCode(cats, x, s[1..])
  }

  /** `sort_values` on a categorical column, as a stable sort by category
      code. The default sort kind is not stable in general, but on a grouped
      and re-typed table every named row has its own code (at most one row
      per category), and with `na_position='last'` the missing rows are put
      after them in their input order; so the only rows that share a code
      are the missing ones, whose order a stable sort also keeps. */
  function SortByCode(cats: seq<string>, rows: seq<Row<Option<string>>>): seq<Row<Option<string>>> {
    if rows == [] then [] else InsertByCode(cats, rows[0], SortByCode(cats, rows[1..]))
  }

  lemma {:induction false} InsertByCodeMultiset(cats: seq<string>, x: Row<Option<string>>, s: seq<Row<Option<string>>>)
    ensures multiset(InsertByCode(cats, x, s)) == multiset(s) + multiset{x}
  {
    if !(s == [] || Code(cats, x.key) <= Code(cats, s[0].key)) {
      InsertByCodeMultiset(cats, x, s[1..]);
      assert s == [s[0]] + s[1..];
    }
  }

  lemma {:induction false} InsertByCodeSorted(cats: seq<string>, x: Row<Option<string>>, s: seq<Row<Option<string>>>)
    requires SortedByCode(cats, s)
    ensures SortedByCode(cats, InsertByCode(cats, x, s))
  {
    if !(s == [] || Code(cats, x.key) <= Code(cats, s[0].key)) {
      var t := InsertByCode(cats, x, s[1..]);
      InsertByCodeSorted(cats, x, s[1..]);
      InsertByCodeMultiset(cats, x, s[1..]);
      var r := [s[0]] + t;
      forall i, j | 0 <= i < j < |r| ensures Code(cats, r[i].key) <= Code(cats, r[j].key) {
        if i == 0 {
          assert r[j] == t[j - 1];
          assert t[j - 1] in multiset(t);
          assert t[j - 1] in multiset(s[1..]) || t[j - 1] == x;
          if t[j - 1] != x {
            var m :| 0 <= m < |s[1..]| && s[1..][m] == t[j - 1];
            assert s[m + 1] == t[j - 1];
          }
        }
      }
    }
  }

  /** The rows of code `c` in a sequence with a first row. */
  lemma WithCodeCons(cats: seq<string>, y: Row<Option<string>>, rest: seq<Row<Option<string>>>, c: nat)
    ensures WithCode(cats, [y] + rest, c) == (if Code(cats, y.key) == c then [y] else []) + WithCode(cats, rest, c)
  {
    assert ([y] + rest)[1..] == rest;
  }

  /** Stability: inserting keeps the order of the rows of every code. */
  lemma {:induction false} InsertByCodeStable(cats: seq<string>, x: Row<Option<string>>, s: seq<Row<Option<string>>>, c: nat)
    ensures WithCode(cats, InsertByCode(cats, x, s), c)
         == (if Code(cats, x.key) == c then [x] else []) + WithCode(cats, s, c)
  {
    if s == [] || Code(cats, x.key) <= Code(cats, s[0].key) {
      WithCodeCons(cats, x, s, c);
    } else {
      var t := InsertByCode(cats, x, s[1..]);
      assert InsertByCode(cats, x, s) == [s[0]] + t;
      InsertByCodeStable(cats, x, s[1..], c);
      WithCodeCons(cats, s[0], t, c);
      WithCodeCons(cats, s[0], s[1..], c);
      assert [s[0]] + s[1..] == s;
      var rest := WithCode(cats, s[1..], c);
      if Code(cats, x.key) == c {
        assert WithCode(cats, t, c) == [x] + rest;
        assert WithCode(cats, s, c) == rest;
      } else {
        assert WithCode(cats, t, c) == rest;
      }
    }
  }

  lemma {:induction false} InsertByCodeTotal(cats: seq<string>, x: Row<Option<string>>, s: seq<Row<Option<string>>>, f: Counter)
    ensures Total(InsertByCode(cats, x, s), f) == Get(x.sums, f) + Total(s, f)
  {
    if s == [] || Code(cats, x.key) <= Code(cats, s[0].key) {
      assert ([x] + s)[1..] == s;
    } else {
      InsertByCodeTotal(cats, x, s[1..], f);
      assert ([s[0]] + InsertByCode(cats, x, s[1..]))[1..] == InsertByCode(cats, x, s[1..]);
    }
  }

  lemma {:induction false} InsertByCodeDistinct(cats: seq<string>, x: Row<Option<string>>, s: seq<Row<Option<string>>>)
    requires DistinctNames(s)
    requires x.key.Some? ==> forall j :: 0 <= j < |s| ==> s[j].key != x.key
    ensures DistinctNames(InsertByCode(cats, x, s))
  {
    if !(s == [] || Code(cats, x.key) <= Code(cats, s[0].key)) {
      var t := InsertByCode(cats, x, s[1..]);
      InsertByCodeDistinct(cats, x, s[1..]);
      InsertByCodeMultiset(cats, x, s[1..]);
      var r := [s[0]] + t;
      forall i, j | 0 <= i < j < |r| && r[i].key.Some? ensures r[i].key != r[j].key {
        if i == 0 {
          assert r[j] == t[j - 1];
          assert t[j - 1] in multiset(t);
          assert t[j - 1] in multiset(s[1..]) || t[j - 1] == x;
          if t[j - 1] != x {
            var m :| 0 <= m < |s[1..]| && s[1..][m] == t[j - 1];
            assert s[m + 1] == t[j - 1];
          }
        }
      }
    }
  }

  /** The sort returns a permutation of its input. */
  lemma {:induction false} SortByCodeMultiset(cats: seq<string>, rows: seq<Row<Option<string>>>)
    ensures multiset(SortByCode(cats, rows)) == multiset(rows)
  {
    if rows != [] {
      SortByCodeMultiset(cats, rows[1..]);
      InsertByCodeMultiset(cats, rows[0], SortByCode(cats, rows[1..]));
      assert rows == [rows[0]] + rows[1..];
    }
  }

  /** The sort orders rows by category code, missing values last. */
  lemma {:induction false} SortByCodeSorted(cats: seq<string>, rows: seq<Row<Option<string>>>)
    ensures SortedByCode(cats, SortByCode(cats, rows))
  {
    if rows != [] {
      SortByCodeSorted(cats, rows[1..]);
      InsertByCodeSorted(cats, rows[0], SortByCode(cats, rows[1..]));
    }
  }

  /** The sort is stable: the rows of one code keep their input order. */
  lemma {:induction false} SortByCodeStable(cats: seq<string>, rows: seq<Row<Option<string>>>, c: nat)
    ensures WithCode(cats, SortByCode(cats, rows), c) == WithCode(cats, rows, c)
  {
    if rows != [] {
      SortByCodeStable(cats, rows[1..], c);
      InsertByCodeStable(cats, rows[0], SortByCode(cats, rows[1..]), c);
    }
  }

  /** The sort conserves the column sums. */
  lemma {:induction false} SortByCodeTotal(cats: seq<string>, rows: seq<Row<Option<string>>>, f: Counter)
    ensures Total(SortByCode(cats, rows), f) == Total(rows, f)
  {
    if rows != [] {
      SortByCodeTotal(cats, rows[1..], f);
      InsertByCodeTotal(cats, rows[0], SortByCode(cats, rows[1..]), f);
    }
  }

  /** The sort keeps category names distinct. */
  lemma {:induction false} SortByCodeDistinct(cats: seq<string>, rows: seq<Row<Option<string>>>)
    requires DistinctNames(rows)
    ensures DistinctNames(SortByCode(cats, rows))
  {
    if rows != [] {
      var t := SortByCode(cats, rows[1..]);
      SortByCodeDistinct(cats, rows[1..]);
      SortByCodeMultiset(cats, rows[1..]);
      if rows[0].key.Some? {
        forall j | 0 <= j < |t| ensures t[j].key != rows[0].key {
          assert t[j] in multiset(rows[1..]);
          var m :| 0 <= m < |rows[1..]| && rows[1..][m] == t[j];
          assert rows[m + 1] == t[j];
        }
      }
      InsertByCodeDistinct(cats, rows[0], t);
    }
  }

  /** Re-typing moves no counts. */
  lemma {:induction false} RetypeTotal(rows: seq<Row<string>>, cats: seq<string>, f: Counter)
    ensures Total(Retype(rows, cats), f) == Total(rows, f)
  {
    if rows != [] {
      RetypeTotal(rows[1..], cats, f);
      assert Retype(rows, cats)[1..] == Retype(rows[1..], cats);
    }
  }

  /** Distinct names stay distinct after re-typing. */
  lemma RetypeDistinct(rows: seq<Row<string>>, cats: seq<string>)
    requires DistinctKeys(rows)
    ensures DistinctNames(Retype(rows, cats))
  {
  }

  /** In a code-sorted table with distinct names, the named rows come in
      strictly increasing category position and before every missing one. */
  lemma CategoryOrder(cats: seq<string>, rows: seq<Row<Option<string>>>)
    requires SortedByCode(cats, rows)
    requires DistinctNames(rows)
    requires forall i :: 0 <= i < |rows| && rows[i].key.Some? ==> rows[i].key.value in cats
    ensures forall i, j :: 0 <= i < j < |rows| && rows[j].key.Some? ==>
              rows[i].key.Some? && IndexOf(cats, rows[i].key.value) < IndexOf(cats, rows[j].key.value)
  {
    forall i, j | 0 <= i < j < |rows| && rows[j].key.Some?
      ensures rows[i].key.Some? && IndexOf(cats, rows[i].key.value) < IndexOf(cats, rows[j].key.value)
    {
      assert Code(cats, rows[i].key) <= Code(cats, rows[j].key);
    }
  }

  /** The sort keeps exactly the keys of its input. */
  lemma SortByCodeKeys(cats: seq<string>, rows: seq<Row<Option<string>>>)
    ensures Keys(SortByCode(cats, rows)) == Keys(rows)
  {
    var t := SortByCode(cats, rows);
    SortByCodeMultiset(cats, rows);
    forall k | k in Keys(t) ensures k in Keys(rows) {
      var i :| 0 <= i < |t| && t[i].key == k;
      assert t[i] in multiset(rows);
      var j :| 0 <= j < |rows| && rows[j] == t[i];
    }
    forall k | k in Keys(rows) ensures k in Keys(t) {
      var i :| 0 <= i < |rows| && rows[i].key == k;
      assert rows[i] in multiset(t);
      var j :| 0 <= j < |t| && t[j] == rows[i];
    }
  }

  /** A named row of the sorted table is a named row of its input. */
  lemma SortByCodeRow(cats: seq<string>, rows: seq<Row<Option<string>>>, i: int)
    requires 0 <= i < |SortByCode(cats, rows)|
    ensures exists j :: 0 <= j < |rows| && rows[j] == SortByCode(cats, rows)[i]
  {
    SortByCodeMultiset(cats, rows);
    assert SortByCode(cats, rows)[i] in multiset(rows);
  }

  /** After re-typing, a category name is a key exactly when it was a key
      before. */
  lemma RetypeKeys(rows: seq<Row<string>>, cats: seq<string>)
    ensures forall d :: Some(d) in Keys(Retype(rows, cats)) <==> d in cats && d in Keys(rows)
  {
    var t := Retype(rows, cats);
    forall d ensures Some(d) in Keys(t) <==> d in cats && d in Keys(rows) {
      if Some(d) in Keys(t) {
        var i :| 0 <= i < |t| && t[i].key == Some(d);
        assert rows[i].key == d;
      }
      if d in cats && d in Keys(rows) {
        var i :| 0 <= i < |rows| && rows[i].key == d;
        assert t[i].key == Some(d);
      }
    }
  }
}
