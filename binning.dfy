/** The temperature bands of the dashboard: `pd.cut(temp, bins=[0, 10, 20,
    30, 40], labels=[...], include_lowest=True)` on one value. */
module Binning {
  import opened Records

  datatype Band = Band0To10 | Band10To20 | Band20To30 | Band30To40 {
    /** The label the dashboard gives the band. */
    function Label(): string {
      match this
      case Band0To10 => "0-10°C"
      case Band10To20 => "10-20°C"
      case Band20To30 => "20-30°C"
      case Band30To40 => "30-40°C"
    }
  }

  /** The bin edges. */
  const Bins: seq<real> := [0.0, 10.0, 20.0, 30.0, 40.0]

  /** The categories of the cut, in the order of the labels. */
  const Bands: seq<Band> := [Band0To10, Band10To20, Band20To30, Band30To40]

  /** `searchsorted(edges, x, side='left')`: the first position whose edge is
      not below `x`, that is the number of edges below `x` when the edges
      ascend. */
  function SearchSortedLeft(edges: seq<real>, x: real): (i: nat)
    ensures i <= |edges|
    ensures forall j :: 0 <= j < i ==> edges[j] < x
    ensures i < |edges| ==> x <= edges[i]
  {
    if edges == [] then 0
    else if edges[0] < x then 1 + SearchSortedLeft(edges[1..], x)
    else 0
  }

  /** The band of one temperature, or None for a value the cut leaves
      missing. With right-closed bins a value lands in the bin whose upper
      edge is the first edge not below it; `include_lowest` moves a value
      equal to the lowest edge into the first bin; position 0 (below every
      edge) and position `|Bins|` (above every edge) are missing. */
  function Cut(x: real): Option<Band> {
    var ids := if x == Bins[0] then 1 else SearchSortedLeft(Bins, x);
    if ids == 0 || ids == |Bins| then None else Some(Bands[ids - 1])
  }

  /** The band of each position of a temperature column. */
  function CutColumn(temps: seq<real>): (col: seq<Option<Band>>)
    ensures |col| == |temps|
    ensures forall i :: 0 <= i < |temps| ==> col[i] == Cut(temps[i])
  {
    if temps == [] then [] else [Cut(temps[0])] + CutColumn(temps[1..])
  }

  /** The lower edge of a band, as an interval closed at the top. */
  function Lower(b: Band): real {
    match b
    case Band0To10 => 0.0
    case Band10To20 => 10.0
    case Band20To30 => 20.0
    case Band30To40 => 30.0
  }

  function Upper(b: Band): real {
    Lower(b) + 10.0
  }

  /** The bands as intervals: [0, 10], (10, 20], (20, 30], (30, 40]. The
      first is closed at 0 because of `include_lowest`. */
  predicate InBand(x: real, b: Band) {
    (if b == Band0To10 then Lower(b) <= x else Lower(b) < x) && x <= Upper(b)
  }

  /** The cut puts a value in a band exactly when the value lies in that
      band's interval. */
  lemma CutIsInterval(x: real, b: Band)
    ensures Cut(x) == Some(b) <==> InBand(x, b)
  {
    SearchSortedFacts(x);
  }

  /** Exactly the values outside [0, 40] are left without a band. */
  lemma CutMissing(x: real)
    ensures Cut(x) == None <==> x < 0.0 || x > 40.0
  {
    SearchSortedFacts(x);
  }

  /** Where `x` lands among the five edges. */
  lemma SearchSortedFacts(x: real)
    ensures var i := SearchSortedLeft(Bins, x);
      && (x <= 0.0 <==> i == 0)
      && (0.0 < x <= 10.0 <==> i == 1)
      && (10.0 < x <= 20.0 <==> i == 2)
      && (20.0 < x <= 30.0 <==> i == 3)
      && (30.0 < x <= 40.0 <==> i == 4)
      && (40.0 < x <==> i == 5)
  {
    var i := SearchSortedLeft(Bins, x);
    assert Bins[0] == 0.0 && Bins[1] == 10.0 && Bins[2] == 20.0 && Bins[3] == 30.0 && Bins[4] == 40.0;
    if i < 5 {
      assert x <= Bins[i];
    }
    if i > 0 {
      assert Bins[i - 1] < x;
    }
  }

  /** The boundary behaviour: 0 and 10 in the first band, 40 in the last,
      -1 and 41 in none. */
  lemma CutBoundaries()
    ensures Cut(0.0) == Some(Band0To10)
    ensures Cut(10.0) == Some(Band0To10)
    ensures Cut(10.5) == Some(Band10To20)
    ensures Cut(40.0) == Some(Band30To40)
    ensures Cut(-1.0) == None
    ensures Cut(41.0) == None
  {
    CutIsInterval(0.0, Band0To10);
    CutIsInterval(10.0, Band0To10);
    CutIsInterval(10.5, Band10To20);
    CutIsInterval(40.0, Band30To40);
    CutMissing(-1.0);
    CutMissing(41.0);
  }
}
