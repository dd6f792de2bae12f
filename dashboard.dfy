/** The six aggregation helpers of the bike-share dashboard. Each one turns
    the (already date-filtered) records into one summary table whose rows
    hold the sums of `casual`, `registered` and `cnt` per bucket. */
module Dashboard {
  import opened Records
  import opened Grouping
  import opened Categorical
  import opened Binning
  import opened Months

  const WeekdayNames: seq<string> :=
    ["Monday", "Tuesday", "Wednesday", "Thursday", "Friday", "Saturday", "Sunday"]
  const SeasonNames: seq<string> := ["Spring", "Summer", "Fall", "Winter"]
  const WeatherNames: seq<string> := ["Clear", "Mist", "Light Snow", "Heavy Rain"]

  // The bucket each helper puts a record in.
  function HourOf(r: Record): int { r.hr }
  function WeekdayOf(r: Record): string { r.weekday }
  function SeasonOf(r: Record): string { r.season }
  function WeathersitOf(r: Record): string { r.weathersit }
  function MonthKey(r: Record): int { MonthIndex(r.dteday) }
  function BandOf(r: Record): Option<Band> { Cut(r.temp) }

  // ---------------------------------------------------------------------
  // create_monthly_users_df

  /** The `month` column of a monthly row: its '%b %Y' text, kept as the
      (year, month) pair the text spells. */
  datatype MonthLabel = MonthLabel(year: int, month: int)

  /** The `month` column of the bin of month number `m`. The bin's `dteday`
      column, after `reset_index`, is `MonthEnd(m)`: the last day of the
      month, which is how `resample('M')` labels a bin. */
  function BinLabel(m: int): MonthLabel {
    MonthLabel(YearOf(m), MonthOf(m))
  }

  /** The number of the earliest month any record falls in. */
  function EarliestMonth(rs: seq<Record>): int
    requires rs != []
  {
    if |rs| == 1 then MonthKey(rs[0])
    else
      var m := EarliestMonth(rs[1..]);
      if MonthKey(rs[0]) <= m then MonthKey(rs[0]) else m
  }

  /** The earliest month is the month of some record and no record's month
      is earlier. */
  lemma {:induction false} EarliestMonthSpec(rs: seq<Record>)
    requires rs != []
    ensures var m := EarliestMonth(rs);
      && (forall i :: 0 <= i < |rs| ==> m <= MonthKey(rs[i]))
      && (exists i :: 0 <= i < |rs| && MonthKey(rs[i]) == m)
  {
    if |rs| > 1 {
      EarliestMonthSpec(rs[1..]);
      var i :| 0 <= i < |rs[1..]| && MonthKey(rs[1..][i]) == EarliestMonth(rs[1..]);
      assert rs[i + 1] == rs[1..][i];
      forall k | 1 <= k < |rs| ensures EarliestMonth(rs) <= MonthKey(rs[k]) {
        assert rs[k] == rs[1..][k - 1];
      }
      if EarliestMonth(rs) != MonthKey(rs[0]) {
        assert MonthKey(rs[i + 1]) == EarliestMonth(rs);
      }
    } else {
      assert MonthKey(rs[0]) == EarliestMonth(rs);
    }
  }

  /** The number of the latest month any record falls in. */
  function LatestMonth(rs: seq<Record>): int
    requires rs != []
  {
    if |rs| == 1 then MonthKey(rs[0])
    else
      var m := LatestMonth(rs[1..]);
      if m <= MonthKey(rs[0]) then MonthKey(rs[0]) else m
  }

  /** The latest month is the month of some record and no record's month
      is later. */
  lemma {:induction false} LatestMonthSpec(rs: seq<Record>)
    requires rs != []
    ensures var m := LatestMonth(rs);
      && (forall i :: 0 <= i < |rs| ==> MonthKey(rs[i]) <= m)
      && (exists i :: 0 <= i < |rs| && MonthKey(rs[i]) == m)
  {
    if |rs| > 1 {
      LatestMonthSpec(rs[1..]);
      var i :| 0 <= i < |rs[1..]| && MonthKey(rs[1..][i]) == LatestMonth(rs[1..]);
      assert rs[i + 1] == rs[1..][i];
      forall k | 1 <= k < |rs| ensures MonthKey(rs[k]) <= LatestMonth(rs) {
        assert rs[k] == rs[1..][k - 1];
      }
      if LatestMonth(rs) != MonthKey(rs[0]) {
        assert MonthKey(rs[i + 1]) == LatestMonth(rs);
      }
    } else {
      assert MonthKey(rs[0]) == LatestMonth(rs);
    }
  }

  /** `df.resample('M', on='dteday').agg(sum)`: one bin per calendar month
      from the earliest record's month to the latest's, empty months
      included, keyed by month number; no bins at all for no records. */
  function MonthlyUsers(rs: seq<Record>): seq<Row<int>> {
    if rs == [] then []
    else MonthTable(MonthGroups(rs), EarliestMonth(rs), LatestMonth(rs))
  }

  /** The per-month sums of the months that have records. */
  function MonthGroups(rs: seq<Record>): seq<Row<int>> {
    GroupSum(KeyBy(rs, MonthKey), IntLess)
  }

  /** The bins of months `lo` to `hi` over the per-month sums `g`. */
  function MonthTable(g: seq<Row<int>>, lo: int, hi: int): (t: seq<Row<int>>)
    ensures |t| == if lo <= hi then hi - lo + 1 else 0
  {
    Reindex(g, Range(lo, hi))
  }

  lemma MonthTableRow(g: seq<Row<int>>, lo: int, hi: int, i: int, f: Counter)
    requires 0 <= i <= hi - lo
    ensures MonthTable(g, lo, hi)[i].key == lo + i
    ensures Get(MonthTable(g, lo, hi)[i].sums, f) == Get(Lookup(g, lo + i), f)
  {
  }

  /** The label of a bin names the month of the bin's own `dteday`. */
  lemma BinLabelOfEnd(m: int)
    ensures MonthIndex(MonthEnd(m)) == m
    ensures BinLabel(m) == MonthLabel(MonthEnd(m).year, MonthEnd(m).month)
  {
  }

  /** The monthly table has one row per month from the earliest record's to
      the latest record's, in chronological order with no gaps. */
  lemma MonthlyBins(rs: seq<Record>)
    ensures rs == [] ==> MonthlyUsers(rs) == []
    ensures rs != [] ==>
      var t := MonthlyUsers(rs);
      && |t| == LatestMonth(rs) - EarliestMonth(rs) + 1
      && (forall i :: 0 <= i < |t| ==> t[i].key == EarliestMonth(rs) + i)
  {
    if rs != [] {
      EarliestMonthSpec(rs);
      LatestMonthSpec(rs);
      forall i | 0 <= i < |MonthlyUsers(rs)|
        ensures MonthlyUsers(rs)[i].key == EarliestMonth(rs) + i
      {
        MonthlyRow(rs, i, Cnt);
      }
    }
  }

  /** Rows of a grouped table with distinct keys hold their key's sums. */
  lemma GroupedLookup<K(!new)>(es: seq<Row<K>>, less: (K, K) -> bool, k: K, f: Counter)
    requires StrictTotalOrder(less)
    ensures Get(Lookup(GroupSum(es, less), k), f) == SumOf(es, k, f)
  {
    GroupSumSpec(es, less);
    LookupSumOf(GroupSum(es, less), k, f);
    GroupSumSumOf(es, less, k, f);
  }

  /** Row `i` of a non-empty monthly table is month `lo + i` with the
      grouped sums of that month (zero when the month has none). */
  lemma MonthlyRow(rs: seq<Record>, i: int, f: Counter)
    requires rs != []
    requires 0 <= i < |MonthlyUsers(rs)|
    ensures MonthlyUsers(rs)[i].key == EarliestMonth(rs) + i
    ensures Get(MonthlyUsers(rs)[i].sums, f) == Get(Lookup(MonthGroups(rs), EarliestMonth(rs) + i), f)
  {
    MonthTableRow(MonthGroups(rs), EarliestMonth(rs), LatestMonth(rs), i, f);
  }

  lemma MonthGroupsLookup(rs: seq<Record>, m: int, f: Counter)
    ensures Get(Lookup(MonthGroups(rs), m), f) == SumOf(KeyBy(rs, MonthKey), m, f)
  {
    IntLessOrder();
    GroupedLookup(KeyBy(rs, MonthKey), IntLess, m, f);
  }

  /** Each monthly row sums exactly the records of its month. */
  lemma MonthlySums(rs: seq<Record>, i: int, f: Counter)
    requires rs != []
    requires 0 <= i < |MonthlyUsers(rs)|
    ensures Get(MonthlyUsers(rs)[i].sums, f) == SumOf(KeyBy(rs, MonthKey), EarliestMonth(rs) + i, f)
  {
    MonthlyRow(rs, i, f);
    MonthGroupsLookup(rs, EarliestMonth(rs) + i, f);
  }

  /** A month between the first and the last with no record still has a
      row, with zero sums. */
  lemma MonthlyEmptyMonth(rs: seq<Record>, i: int)
    requires rs != []
    requires 0 <= i < |MonthlyUsers(rs)|
    requires forall j :: 0 <= j < |rs| ==> MonthKey(rs[j]) != EarliestMonth(rs) + i
    ensures MonthlyUsers(rs)[i].sums == Zero
  {
    var es := KeyBy(rs, MonthKey);
    KeyByKeys(rs, MonthKey);
    forall f ensures Get(MonthlyUsers(rs)[i].sums, f) == Get(Zero, f) {
      MonthlySums(rs, i, f);
      SumOfAbsent(es, EarliestMonth(rs) + i, f);
    }
    CountsExt(MonthlyUsers(rs)[i].sums, Zero);
  }

  /** Conservation: the monthly table's column sums are the sums over all
      records. */
  lemma MonthlyTotal(rs: seq<Record>, f: Counter)
    ensures Total(MonthlyUsers(rs), f) == RecordsTotal(rs, f)
  {
    if rs != [] {
      var es := KeyBy(rs, MonthKey);
      var g := MonthGroups(rs);
      var ks := Range(EarliestMonth(rs), LatestMonth(rs));
      IntLessOrder();
      GroupSumSpec(es, IntLess);
      KeyByKeys(rs, MonthKey);
      EarliestMonthSpec(rs);
      LatestMonthSpec(rs);
      assert Keys(g) <= Elems(ks) by {
        forall k | k in Keys(g) ensures k in Elems(ks) {
          var j :| 0 <= j < |rs| && MonthKey(rs[j]) == k;
          assert ks[k - EarliestMonth(rs)] == k;
        }
      }
      assert NoDuplicates(ks);
      ReindexTotal(g, ks, f);
      KeyByTotal(rs, MonthKey, f);
    }
  }

  /** Every record lands in the row of its own month; when its date is
      valid, that row is labelled with the record's year and month and dated
      on the last day of that month, not before the record. */
  lemma MonthlyRecordBin(rs: seq<Record>, j: int)
    requires 0 <= j < |rs|
    ensures var i := MonthKey(rs[j]) - EarliestMonth(rs);
      && 0 <= i < |MonthlyUsers(rs)|
      && MonthlyUsers(rs)[i].key == MonthIndex(rs[j].dteday)
    ensures ValidDate(rs[j].dteday) ==>
      && BinLabel(MonthIndex(rs[j].dteday)) == MonthLabel(rs[j].dteday.year, rs[j].dteday.month)
      && MonthEnd(MonthIndex(rs[j].dteday)).year == rs[j].dteday.year
      && MonthEnd(MonthIndex(rs[j].dteday)).month == rs[j].dteday.month
      && rs[j].dteday.day <= MonthEnd(MonthIndex(rs[j].dteday)).day
  {
    EarliestMonthSpec(rs);
    LatestMonthSpec(rs);
    var i := MonthKey(rs[j]) - EarliestMonth(rs);
    MonthlyRow(rs, i, Cnt);
    if ValidDate(rs[j].dteday) {
      MonthEndOfDate(rs[j].dteday);
    }
  }

  // ---------------------------------------------------------------------
  // create_weekday_users_df, create_seasonly_users_df, create_weathersit_users_df

  /** `groupby(key).agg(sum).reset_index()` followed by re-typing the key
      column as a categorical over `cats`. */
  function NamedUsers(rs: seq<Record>, key: Record -> string, cats: seq<string>): seq<Row<Option<string>>> {
    Retype(GroupSum(KeyBy(rs, key), StrLess), cats)
  }

  /** One re-typed grouped table: one row per distinct name, category names
      kept and every other name missing, the named rows in alphabetical
      order with their names' sums, and the column sums conserved. */
  lemma NamedUsersSpec(rs: seq<Record>, key: Record -> string, cats: seq<string>)
    ensures var t := NamedUsers(rs, key, cats);
      && DistinctNames(t)
      && |t| == |Keys(KeyBy(rs, key))|
      && (forall d :: Some(d) in Keys(t) <==> d in cats && exists i :: 0 <= i < |rs| && key(rs[i]) == d)
      && (forall i, f :: 0 <= i < |t| && t[i].key.Some? ==>
            Get(t[i].sums, f) == SumOf(KeyBy(rs, key), t[i].key.value, f))
      && (forall i, j :: 0 <= i < j < |t| && t[i].key.Some? && t[j].key.Some? ==>
            StrLess(t[i].key.value, t[j].key.value))
      && (forall f :: Total(t, f) == RecordsTotal(rs, f))
  {
    NamedRows(rs, key, cats);
    NamedKeys(rs, key, cats);
    forall f ensures Total(NamedUsers(rs, key, cats), f) == RecordsTotal(rs, f) {
      NamedTotal(rs, key, cats, f);
    }
  }

  lemma NamedRows(rs: seq<Record>, key: Record -> string, cats: seq<string>)
    ensures var t := NamedUsers(rs, key, cats);
      && DistinctNames(t)
      && |t| == |Keys(KeyBy(rs, key))|
      && (forall i, f :: 0 <= i < |t| && t[i].key.Some? ==>
            Get(t[i].sums, f) == SumOf(KeyBy(rs, key), t[i].key.value, f))
      && (forall i, j :: 0 <= i < j < |t| && t[i].key.Some? && t[j].key.Some? ==>
            StrLess(t[i].key.value, t[j].key.value))
  {
    var g := GroupSum(KeyBy(rs, key), StrLess);
    StrLessOrder();
    GroupSumSpec(KeyBy(rs, key), StrLess);
    RetypeDistinct(g, cats);
  }

  lemma NamedKeys(rs: seq<Record>, key: Record -> string, cats: seq<string>)
    ensures forall d :: Some(d) in Keys(NamedUsers(rs, key, cats)) <==>
      d in cats && exists i :: 0 <= i < |rs| && key(rs[i]) == d
  {
    var g := GroupSum(KeyBy(rs, key), StrLess);
    StrLessOrder();
    GroupSumSpec(KeyBy(rs, key), StrLess);
    RetypeKeys(g, cats);
    KeyByKeys(rs, key);
  }

  lemma NamedTotal(rs: seq<Record>, key: Record -> string, cats: seq<string>, f: Counter)
    ensures Total(NamedUsers(rs, key, cats), f) == RecordsTotal(rs, f)
  {
    var g := GroupSum(KeyBy(rs, key), StrLess);
    StrLessOrder();
    GroupSumSpec(KeyBy(rs, key), StrLess);
    RetypeTotal(g, cats, f);
    KeyByTotal(rs, key, f);
  }

  /** Weekday table: grouped, re-typed, then `sort_values('weekday')`. */
  function WeekdayUsers(rs: seq<Record>): seq<Row<Option<string>>> {
    SortByCode(WeekdayNames, NamedUsers(rs, WeekdayOf, WeekdayNames))
  }

  /** The weekday table has one row per distinct weekday name in the input;
      the named rows follow Monday, Tuesday, ..., Sunday and come before the
      rows of names outside the seven (which are missing); a day with no
      record has no row; each named row sums its day's records; the column
      sums are conserved. */
  lemma WeekdayTable(rs: seq<Record>)
    ensures var t := WeekdayUsers(rs);
      && |t| == |Keys(KeyBy(rs, WeekdayOf))|
      && (forall i, j :: 0 <= i < j < |t| && t[j].key.Some? ==>
            && t[i].key.Some?
            && IndexOf(WeekdayNames, t[i].key.value) < IndexOf(WeekdayNames, t[j].key.value))
      && (forall d :: Some(d) in Keys(t) <==>
            d in WeekdayNames && exists i :: 0 <= i < |rs| && rs[i].weekday == d)
      && (forall i, f :: 0 <= i < |t| && t[i].key.Some? ==>
            Get(t[i].sums, f) == SumOf(KeyBy(rs, WeekdayOf), t[i].key.value, f))
      && (forall f :: Total(t, f) == RecordsTotal(rs, f))
  {
    var n := NamedUsers(rs, WeekdayOf, WeekdayNames);
    var t := WeekdayUsers(rs);
    NamedUsersSpec(rs, WeekdayOf, WeekdayNames);
    SortByCodeSorted(WeekdayNames, n);
    SortByCodeDistinct(WeekdayNames, n);
    SortByCodeKeys(WeekdayNames, n);
    CategoryOrder(WeekdayNames, t);
    forall i, f | 0 <= i < |t| && t[i].key.Some?
      ensures Get(t[i].sums, f) == SumOf(KeyBy(rs, WeekdayOf), t[i].key.value, f)
    {
      SortByCodeRow(WeekdayNames, n, i);
    }
    forall f ensures Total(t, f) == RecordsTotal(rs, f) {
      SortByCodeTotal(WeekdayNames, n, f);
    }
    assert |t| == |n| by {
      SortByCodeMultiset(WeekdayNames, n);
      assert |multiset(t)| == |multiset(n)|;
    }
  }

  /** When every record carries one of the seven names, no weekday row is
      missing its name. */
  lemma WeekdayAllNamed(rs: seq<Record>)
    requires forall i :: 0 <= i < |rs| ==> rs[i].weekday in WeekdayNames
    ensures forall i :: 0 <= i < |WeekdayUsers(rs)| ==> WeekdayUsers(rs)[i].key.Some?
  {
    var n := NamedUsers(rs, WeekdayOf, WeekdayNames);
    var g := GroupSum(KeyBy(rs, WeekdayOf), StrLess);
    StrLessOrder();
    GroupSumSpec(KeyBy(rs, WeekdayOf), StrLess);
    KeyByKeys(rs, WeekdayOf);
    forall i | 0 <= i < |WeekdayUsers(rs)| ensures WeekdayUsers(rs)[i].key.Some? {
      SortByCodeRow(WeekdayNames, n, i);
      var j :| 0 <= j < |n| && n[j] == WeekdayUsers(rs)[i];
      assert g[j].key in Keys(KeyBy(rs, WeekdayOf));
    }
  }

  /** Season table: grouped and re-typed, with no sort. */
  function SeasonUsers(rs: seq<Record>): seq<Row<Option<string>>> {
    NamedUsers(rs, SeasonOf, SeasonNames)
  }

  /** The season table has one row per distinct season name; a name among
      Spring, Summer, Fall and Winter is a key exactly when some record has
      it; the rows keep the group-by's alphabetical order (the category order
      is attached but not sorted by); each named row sums its season's
      records; the column sums are conserved. */
  lemma SeasonTable(rs: seq<Record>)
    ensures var t := SeasonUsers(rs);
      && |t| == |Keys(KeyBy(rs, SeasonOf))|
      && (forall d :: Some(d) in Keys(t) <==>
            d in SeasonNames && exists i :: 0 <= i < |rs| && rs[i].season == d)
      && (forall i, j :: 0 <= i < j < |t| && t[i].key.Some? && t[j].key.Some? ==>
            StrLess(t[i].key.value, t[j].key.value))
      && (forall i, f :: 0 <= i < |t| && t[i].key.Some? ==>
            Get(t[i].sums, f) == SumOf(KeyBy(rs, SeasonOf), t[i].key.value, f))
      && (forall f :: Total(t, f) == RecordsTotal(rs, f))
  {
    NamedUsersSpec(rs, SeasonOf, SeasonNames);
  }

  /** Weather table: grouped and re-typed, with no sort. */
  function WeathersitUsers(rs: seq<Record>): seq<Row<Option<string>>> {
    NamedUsers(rs, WeathersitOf, WeatherNames)
  }

  /** The weather table: as the season table, over Clear, Mist, Light Snow
      and Heavy Rain. */
  lemma WeatherTable(rs: seq<Record>)
    ensures var t := WeathersitUsers(rs);
      && |t| == |Keys(KeyBy(rs, WeathersitOf))|
      && (forall d :: Some(d) in Keys(t) <==>
            d in WeatherNames && exists i :: 0 <= i < |rs| && rs[i].weathersit == d)
      && (forall i, j :: 0 <= i < j < |t| && t[i].key.Some? && t[j].key.Some? ==>
            StrLess(t[i].key.value, t[j].key.value))
      && (forall i, f :: 0 <= i < |t| && t[i].key.Some? ==>
            Get(t[i].sums, f) == SumOf(KeyBy(rs, WeathersitOf), t[i].key.value, f))
      && (forall f :: Total(t, f) == RecordsTotal(rs, f))
  {
    NamedUsersSpec(rs, WeathersitOf, WeatherNames);
  }

  // ---------------------------------------------------------------------
  // create_hourly_users_df

  function HourlyUsers(rs: seq<Record>): seq<Row<int>> {
    GroupSum(KeyBy(rs, HourOf), IntLess)
  }

  /** The hourly table has one row per distinct hour present, hours strictly
      ascending, each row summing its hour's records; the column sums are
      conserved. */
  lemma HourlyTable(rs: seq<Record>)
    ensures var t := HourlyUsers(rs);
      && (forall i, j :: 0 <= i < j < |t| ==> t[i].key < t[j].key)
      && (forall h :: h in Keys(t) <==> exists i :: 0 <= i < |rs| && rs[i].hr == h)
      && |t| == |Keys(KeyBy(rs, HourOf))|
      && (forall i, f :: 0 <= i < |t| ==> Get(t[i].sums, f) == SumOf(KeyBy(rs, HourOf), t[i].key, f))
      && (forall f :: Total(t, f) == RecordsTotal(rs, f))
  {
    IntLessOrder();
    GroupSumSpec(KeyBy(rs, HourOf), IntLess);
    KeyByKeys(rs, HourOf);
    forall f ensures Total(HourlyUsers(rs), f) == RecordsTotal(rs, f) {
      KeyByTotal(rs, HourOf, f);
    }
  }

  // ---------------------------------------------------------------------
  // create_temp_users_df

  /** The order of the band categories. */
  function BandRank(b: Band): nat {
    match b
    case Band0To10 => 0
    case Band10To20 => 1
    case Band20To30 => 2
    case Band30To40 => 3
  }

  predicate BandLess(a: Band, b: Band) {
    BandRank(a) < BandRank(b)
  }

  lemma BandLessOrder()
    ensures StrictTotalOrder(BandLess)
  {
  }

  /** The `temp` column. */
  function Temps(rs: seq<Record>): (ts: seq<real>)
    ensures |ts| == |rs|
    ensures forall i :: 0 <= i < |rs| ==> ts[i] == rs[i].temp
  {
    if rs == [] then [] else [rs[0].temp] + Temps(rs[1..])
  }

  /** The `temp_range` column the helper writes. */
  function TempRangeColumn(rs: seq<Record>): (col: seq<Option<Band>>)
    ensures |col| == |rs|
  {
    CutColumn(Temps(rs))
  }

  /** Keys each record by its `temp_range` value, dropping the records whose
      value is missing (the group-by's `dropna`). */
  function BandEntries(rs: seq<Record>, col: seq<Option<Band>>): seq<Row<Band>>
    requires |col| == |rs|
  {
    if rs == [] then []
    else if col[0].Some? then [Row(col[0].value, CountsOf(rs[0]))] + BandEntries(rs[1..], col[1..])
    else BandEntries(rs[1..], col[1..])
  }

  /** `groupby('temp_range').agg(sum)` on a categorical column with the
      default `observed=False`: one row per category, in category order,
      zero for a category no record has. */
  function GroupByBand(rs: seq<Record>, col: seq<Option<Band>>): seq<Row<Band>>
    requires |col| == |rs|
  {
    Reindex(GroupSum(BandEntries(rs, col), BandLess), Bands)
  }

  /** The temperature table the helper returns. */
  function TempUsers(rs: seq<Record>): seq<Row<Band>> {
    GroupByBand(rs, TempRangeColumn(rs))
  }

  /** The records with a temperature in [0, 40]. */
  function InRange(rs: seq<Record>): seq<Record> {
    if rs == [] then []
    else if 0.0 <= rs[0].temp <= 40.0 then [rs[0]] + InRange(rs[1..])
    else InRange(rs[1..])
  }

  lemma {:induction false} BandEntriesSumOf(rs: seq<Record>, col: seq<Option<Band>>, b: Band, f: Counter)
    requires |col| == |rs|
    requires forall i :: 0 <= i < |rs| ==> col[i] == BandOf(rs[i])
    ensures SumOf(BandEntries(rs, col), b, f) == SumOf(KeyBy(rs, BandOf), Some(b), f)
  {
    if rs != [] {
      var rest := BandEntries(rs[1..], col[1..]);
      forall i | 0 <= i < |rs[1..]| ensures col[1..][i] == BandOf(rs[1..][i]) {
        assert col[1..][i] == col[i + 1] && rs[1..][i] == rs[i + 1];
      }
      BandEntriesSumOf(rs[1..], col[1..], b, f);
      var head := Row(BandOf(rs[0]), CountsOf(rs[0]));
      assert KeyBy(rs, BandOf) == [head] + KeyBy(rs[1..], BandOf);
      SumOfCons(head, KeyBy(rs[1..], BandOf), Some(b), f);
      if col[0].Some? {
        SumOfCons(Row(col[0].value, CountsOf(rs[0])), rest, b, f);
      }
    }
  }

  lemma {:induction false} BandEntriesTotal(rs: seq<Record>, col: seq<Option<Band>>, f: Counter)
    requires |col| == |rs|
    requires forall i :: 0 <= i < |rs| ==> col[i] == BandOf(rs[i])
    ensures Total(BandEntries(rs, col), f) == RecordsTotal(InRange(rs), f)
  {
    if rs != [] {
      BandEntriesTotal(rs[1..], col[1..], f);
      CutMissing(rs[0].temp);
      var rest := BandEntries(rs[1..], col[1..]);
      if col[0].Some? {
        assert ([Row(col[0].value, CountsOf(rs[0]))] + rest)[1..] == rest;
        assert ([rs[0]] + InRange(rs[1..]))[1..] == InRange(rs[1..]);
      }
    }
  }

  /** The temperature table always has the four bands, in band order; each
      row sums the records whose temperature the cut puts in its band (zero
      for an empty band); its column sums are the sums over the records with
      a temperature in [0, 40], so out-of-range records are dropped from
      this table only. */
  lemma TempTable(rs: seq<Record>)
    ensures var t := TempUsers(rs);
      && |t| == 4
      && (forall i :: 0 <= i < 4 ==> t[i].key == Bands[i])
      && (forall i, f :: 0 <= i < 4 ==> Get(t[i].sums, f) == SumOf(KeyBy(rs, BandOf), Some(Bands[i]), f))
      && (forall f :: Total(t, f) == RecordsTotal(InRange(rs), f))
  {
    var col := TempRangeColumn(rs);
    var es := BandEntries(rs, col);
    var g := GroupSum(es, BandLess);
    BandLessOrder();
    GroupSumSpec(es, BandLess);
    forall i, f | 0 <= i < 4 ensures Get(TempUsers(rs)[i].sums, f) == SumOf(KeyBy(rs, BandOf), Some(Bands[i]), f) {
      GroupedLookup(es, BandLess, Bands[i], f);
      BandEntriesSumOf(rs, col, Bands[i], f);
    }
    forall f ensures Total(TempUsers(rs), f) == RecordsTotal(InRange(rs), f) {
      assert Keys(g) <= Elems(Bands) by {
        forall k | k in Keys(g) ensures k in Elems(Bands) {
          match k
          case Band0To10 => assert Bands[0] == k;
          case Band10To20 => assert Bands[1] == k;
          case Band20To30 => assert Bands[2] == k;
          case Band30To40 => assert Bands[3] == k;
        }
      }
      ReindexTotal(g, Bands, f);
      BandEntriesTotal(rs, col, f);
    }
  }

  /** No records: the five grouped tables are empty and the temperature
      table is its four bands, all zero. */
  lemma EmptyTables()
    ensures MonthlyUsers([]) == [] && WeekdayUsers([]) == [] && HourlyUsers([]) == []
    ensures SeasonUsers([]) == [] && WeathersitUsers([]) == []
    ensures TempUsers([]) == [Row(Band0To10, Zero), Row(Band10To20, Zero), Row(Band20To30, Zero), Row(Band30To40, Zero)]
  {
    TempTable([]);
    forall i | 0 <= i < 4 ensures TempUsers([])[i].sums == Zero {
      forall f ensures Get(TempUsers([])[i].sums, f) == Get(Zero, f) {
      }
      CountsExt(TempUsers([])[i].sums, Zero);
    }
  }

  // ---------------------------------------------------------------------
  // A worked example

  /** Two January 2012 records: a Thursday at 5 degrees and a Friday at 15. */
  function Example(): seq<Record> {
    [Record(Date(2012, 1, 5), 0, "Thursday", "Spring", "Clear", 5.0, 2, 3, 5),
     Record(Date(2012, 1, 6), 0, "Friday", "Spring", "Clear", 15.0, 1, 1, 2)]
  }

  /** The example gives one monthly row, January 2012, with both records'
      sums. */
  lemma ExampleMonthly()
    ensures MonthlyUsers(Example()) == [Row(MonthIndex(Date(2012, 1, 5)), Counts(3, 4, 7))]
  {
    var rs := Example();
    var m := MonthIndex(Date(2012, 1, 5));
    assert rs[1..] == [rs[1]];
    assert MonthKey(rs[0]) == m && MonthKey(rs[1]) == m;
    assert EarliestMonth(rs) == m;
    assert LatestMonth(rs) == m;
    MonthlyBins(rs);
    var t := MonthlyUsers(rs);
    var es := KeyBy(rs, MonthKey);
    assert es == [Row(m, Counts(2, 3, 5)), Row(m, Counts(1, 1, 2))];
    assert es[1..][1..] == [];
    forall f ensures Get(t[0].sums, f) == Get(Counts(3, 4, 7), f) {
      MonthlySums(rs, 0, f);
      assert SumOf(es[1..], m, f) == Get(Counts(1, 1, 2), f);
    }
    CountsExt(t[0].sums, Counts(3, 4, 7));
    assert t == [Row(m, Counts(3, 4, 7))];
  }

  /** The example's month is labelled January 2012 and dated the 31st. */
  lemma ExampleMonthBin()
    ensures BinLabel(MonthIndex(Date(2012, 1, 5))) == MonthLabel(2012, 1)
    ensures MonthEnd(MonthIndex(Date(2012, 1, 5))) == Date(2012, 1, 31)
  {
    var d := Date(2012, 1, 5);
    MonthEndOfDate(d);
    var e := MonthEnd(MonthIndex(d));
    assert e.year == 2012 && e.month == 1;
    assert e.day == DaysInMonth(2012, 1) == 31;
  }

  /** The example gives all four temperature rows: the first two bands hold
      one record each and the other two are zero. */
  lemma ExampleTemp()
    ensures TempUsers(Example()) ==
      [Row(Band0To10, Counts(2, 3, 5)), Row(Band10To20, Counts(1, 1, 2)),
       Row(Band20To30, Zero), Row(Band30To40, Zero)]
  {
    ExampleTempOf(Example());
  }

  lemma ExampleTempOf(rs: seq<Record>)
    requires rs == Example()
    ensures TempUsers(rs) ==
      [Row(Band0To10, Counts(2, 3, 5)), Row(Band10To20, Counts(1, 1, 2)),
       Row(Band20To30, Zero), Row(Band30To40, Zero)]
  {
    var t := TempUsers(rs);
    CutIsInterval(5.0, Band0To10);
    CutIsInterval(15.0, Band10To20);
    var r0 := Row(Some(Band0To10), Counts(2, 3, 5));
    var r1 := Row(Some(Band10To20), Counts(1, 1, 2));
    assert KeyBy(rs, BandOf) == [r0, r1];
    TempTable(rs);
    BandRowOfTwo(t[0], Band0To10, Counts(2, 3, 5), r0, r1);
    BandRowOfTwo(t[1], Band10To20, Counts(1, 1, 2), r0, r1);
    BandRowOfTwo(t[2], Band20To30, Zero, r0, r1);
    BandRowOfTwo(t[3], Band30To40, Zero, r0, r1);
  }

  /** A band row summing two keyed records. */
  lemma BandRowOfTwo(t: Row<Band>, b: Band, c: Counts, r0: Row<Option<Band>>, r1: Row<Option<Band>>)
    requires t.key == b
    requires forall f :: Get(t.sums, f) == SumOf([r0, r1], Some(b), f)
    requires forall f :: (if r0.key == Some(b) then Get(r0.sums, f) else 0)
                       + (if r1.key == Some(b) then Get(r1.sums, f) else 0) == Get(c, f)
    ensures t == Row(b, c)
  {
    forall f ensures Get(t.sums, f) == Get(c, f) {
      SumOfTwo(r0, r1, Some(b), f);
    }
    CountsExt(t.sums, c);
  }

  /** The group-by alone puts Friday before Thursday. */
  lemma ExampleWeekdayGroups()
    ensures NamedUsers(Example(), WeekdayOf, WeekdayNames) ==
      [Row(Some("Friday"), Counts(1, 1, 2)), Row(Some("Thursday"), Counts(2, 3, 5))]
  {
    var rs := Example();
    var es := KeyBy(rs, WeekdayOf);
    assert es == [Row("Thursday", Counts(2, 3, 5)), Row("Friday", Counts(1, 1, 2))];
    assert es[1..] == [Row("Friday", Counts(1, 1, 2))];
    assert StrLess("Friday", "Thursday") && !StrLess("Thursday", "Friday");
    assert GroupSum(es[1..], StrLess) == [Row("Friday", Counts(1, 1, 2))];
    var g := GroupSum(es, StrLess);
    assert g == Insert([Row("Friday", Counts(1, 1, 2))], Row("Thursday", Counts(2, 3, 5)), StrLess);
    assert g == [Row("Friday", Counts(1, 1, 2)), Row("Thursday", Counts(2, 3, 5))];
  }

  lemma ThursdayIndex()
    ensures IndexOf(WeekdayNames, "Thursday") == 3
  {
    IndexOfFirst(WeekdayNames, 3);
  }

  lemma FridayIndex()
    ensures IndexOf(WeekdayNames, "Friday") == 4
  {
    IndexOfFirst(WeekdayNames, 4);
  }

  /** Thursday and Friday are the fourth and fifth weekday categories. */
  lemma WeekdayCodes()
    ensures Code(WeekdayNames, Some("Thursday")) == 3
    ensures Code(WeekdayNames, Some("Friday")) == 4
  {
    ThursdayIndex();
    FridayIndex();
  }

  /** The sort swaps two rows out of category order. */
  lemma SortTwo(cats: seq<string>, x: Row<Option<string>>, y: Row<Option<string>>)
    requires Code(cats, y.key) < Code(cats, x.key)
    ensures SortByCode(cats, [x, y]) == [y, x]
  {
    assert [x, y][1..] == [y];
    assert SortByCode(cats, [y]) == [y];
    assert InsertByCode(cats, x, [y]) == [y] + InsertByCode(cats, x, []);
  }

  /** The sort by category order then puts Thursday first. */
  lemma ExampleWeekday()
    ensures WeekdayUsers(Example()) ==
      [Row(Some("Thursday"), Counts(2, 3, 5)), Row(Some("Friday"), Counts(1, 1, 2))]
  {
    ExampleWeekdayGroups();
    WeekdayCodes();
    SortTwo(WeekdayNames, Row(Some("Friday"), Counts(1, 1, 2)), Row(Some("Thursday"), Counts(2, 3, 5)));
  }

  /** The season table is not in category order: a Spring and a Fall record
      give Fall first. */
  lemma ExampleSeasonOrder()
    ensures var rs := [Record(Date(2012, 4, 1), 0, "Sunday", "Spring", "Clear", 12.0, 1, 2, 3),
                       Record(Date(2012, 10, 1), 0, "Monday", "Fall", "Mist", 18.0, 4, 5, 9)];
      SeasonUsers(rs) == [Row(Some("Fall"), Counts(4, 5, 9)), Row(Some("Spring"), Counts(1, 2, 3))]
  {
    var rs := [Record(Date(2012, 4, 1), 0, "Sunday", "Spring", "Clear", 12.0, 1, 2, 3),
               Record(Date(2012, 10, 1), 0, "Monday", "Fall", "Mist", 18.0, 4, 5, 9)];
    var es := KeyBy(rs, SeasonOf);
    assert es == [Row("Spring", Counts(1, 2, 3)), Row("Fall", Counts(4, 5, 9))];
    assert es[1..] == [Row("Fall", Counts(4, 5, 9))];
    assert StrLess("Fall", "Spring") && !StrLess("Spring", "Fall");
    assert GroupSum(es[1..], StrLess) == [Row("Fall", Counts(4, 5, 9))];
    var g := GroupSum(es, StrLess);
    assert g == Insert([Row("Fall", Counts(4, 5, 9))], Row("Spring", Counts(1, 2, 3)), StrLess);
    assert g == [Row("Fall", Counts(4, 5, 9)), Row("Spring", Counts(1, 2, 3))];
  }

  /** The data frame `create_temp_users_df` is given: its records and the
      `temp_range` column, absent until the helper first runs. */
  class Frame {
    var records: seq<Record>
    var tempRange: Option<seq<Option<Band>>>

    constructor (rs: seq<Record>)
      ensures records == rs && tempRange == None
    {
      records := rs;
      tempRange := None;
    }

    /** Writes (or overwrites) the `temp_range` column into this frame, then
        groups by it. The records themselves are left as they were. */
    method CreateTempUsers() returns (table: seq<Row<Band>>)
      modifies this
      ensures records == old(records)
      ensures tempRange == Some(TempRangeColumn(records))
      ensures table == TempUsers(records)
    {
      tempRange := Some(TempRangeColumn(records));
      table := GroupByBand(records, tempRange.value);
    }
  }

  /** The dashboard's six calls on one frame, in its order: the five other
      helpers only read the frame, and the column the temperature helper
      adds does not change what any helper computes. */
  method RunHelpers(df: Frame)
    returns (monthly: seq<Row<int>>, weekday: seq<Row<Option<string>>>, hourly: seq<Row<int>>,
             seasonly: seq<Row<Option<string>>>, weathersit: seq<Row<Option<string>>>, temp: seq<Row<Band>>)
    modifies df
    ensures df.records == old(df.records)
    ensures df.tempRange == Some(TempRangeColumn(df.records))
    ensures monthly == MonthlyUsers(df.records) && weekday == WeekdayUsers(df.records)
    ensures hourly == HourlyUsers(df.records) && seasonly == SeasonUsers(df.records)
    ensures weathersit == WeathersitUsers(df.records) && temp == TempUsers(df.records)
  {
    monthly := MonthlyUsers(df.records);
    weekday := WeekdayUsers(df.records);
    hourly := HourlyUsers(df.records);
    seasonly := SeasonUsers(df.records);
    weathersit := WeathersitUsers(df.records);
    temp := df.CreateTempUsers();
  }
}
