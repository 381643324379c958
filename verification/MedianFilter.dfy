/** The sliding median that smooths the row offsets of a swipe. */
module MedianFilter {

  // ---------- what a median is, stated without sorting ----------

  function CountBelow(w: seq<int>, v: int): nat {
    if w == [] then 0 else (if w[0] < v then 1 else 0) + CountBelow(w[1..], v)
  }

  function CountAtMost(w: seq<int>, v: int): nat {
    if w == [] then 0 else (if w[0] <= v then 1 else 0) + CountAtMost(w[1..], v)
  }

  /** v is an element that stands at place k, counted from the smallest. */
  predicate HasRank(w: seq<int>, k: nat, v: int) { v in w && CountBelow(w, v) <= k < CountAtMost(w, v) }

  lemma {:induction false} NextValueUp(w: seq<int>, v: int, u: int)
    requires v < u
    ensures CountAtMost(w, v) <= CountBelow(w, u)
  {
    if w != [] { NextValueUp(w[1..], v, u); }
  }

  /** At most one value has a given rank. */
  lemma RankIsUnique(w: seq<int>, k: nat, v: int, u: int)
    requires HasRank(w, k, v) && HasRank(w, k, u)
    ensures v == u
  {
    if v < u { NextValueUp(w, v, u); }
    if u < v { NextValueUp(w, u, v); }
  }

  // ---------- sorting, as the C library's qsort leaves a buffer ----------

  predicate Ascending(s: seq<int>) { forall i, j :: 0 <= i < j < |s| ==> s[i] <= s[j] }

  function Insert(s: seq<int>, x: int): (r: seq<int>)
    ensures |r| == |s| + 1
    ensures forall v :: v in r <==> v == x || v in s
  {
    if s == [] || x <= s[0] then [x] + s else [s[0]] + Insert(s[1..], x)
  }

  function Sorted(s: seq<int>): (r: seq<int>)
    ensures |r| == |s|
  {
    if s == [] then [] else Insert(Sorted(s[1..]), s[0])
  }

  lemma {:induction false} InsertKeepsOrder(s: seq<int>, x: int)
    requires Ascending(s)
    ensures Ascending(Insert(s, x))
  {
    if s != [] && s[0] < x {
      var rest := Insert(s[1..], x);
      InsertKeepsOrder(s[1..], x);
      forall i | 0 <= i < |rest| ensures s[0] <= rest[i] {
        assert rest[i] in rest;
      }
    }
  }

  lemma {:induction false} InsertCounts(s: seq<int>, x: int, v: int)
    ensures CountBelow(Insert(s, x), v) == CountBelow(s, v) + if x < v then 1 else 0
    ensures CountAtMost(Insert(s, x), v) == CountAtMost(s, v) + if x <= v then 1 else 0
  {
    if s == [] || x <= s[0] {
      assert ([x] + s)[1..] == s;
    } else {
      InsertCounts(s[1..], x, v);
      assert ([s[0]] + Insert(s[1..], x))[1..] == Insert(s[1..], x);
    }
  }

  lemma {:induction false} SortedIsSorted(s: seq<int>, v: int)
    ensures Ascending(Sorted(s)) && (v in Sorted(s) <==> v in s)
    ensures CountBelow(Sorted(s), v) == CountBelow(s, v) && CountAtMost(Sorted(s), v) == CountAtMost(s, v)
  {
    if s != [] {
      SortedIsSorted(s[1..], v);
      InsertKeepsOrder(Sorted(s[1..]), s[0]);
      InsertCounts(Sorted(s[1..]), s[0], v);
    }
  }

  lemma {:induction false} FewBelow(s: seq<int>, v: int, k: nat)
    requires forall i :: k <= i < |s| ==> s[i] >= v
    ensures CountBelow(s, v) <= k
  {
    if s != [] {
      FewBelow(s[1..], v, if k == 0 then 0 else k - 1);
    }
  }

  lemma {:induction false} ManyAtMost(s: seq<int>, v: int, k: nat)
    requires k < |s| && forall i :: 0 <= i <= k ==> s[i] <= v
    ensures CountAtMost(s, v) > k
  {
    if k > 0 { ManyAtMost(s[1..], v, k - 1); }
  }

  /** Place k of the sorted window has rank k in the window. */
  lemma SortedGivesRank(w: seq<int>, k: nat)
    requires k < |w|
    ensures HasRank(w, k, Sorted(w)[k])
  {
    hide Sorted, CountBelow, CountAtMost;
    var v := Sorted(w)[k];
    SortedIsSorted(w, v);
    FewBelow(Sorted(w), v, k);
    ManyAtMost(Sorted(w), v, k);
  }

  // ---------- the filter ----------

  function Lowest(i: nat, reach: nat): nat { if i < reach then 0 else i - reach }

  function Highest(i: nat, reach: nat, size: nat): nat
    requires i < size
  {
    if i + reach >= size then size - 1 else i + reach
  }

  /** The elements around i, cut at both ends of the data. */
  function Window(s: seq<int>, i: nat, filterSize: nat): (w: seq<int>)
    requires i < |s| && filterSize > 0
    ensures 1 <= |w| <= filterSize
    ensures forall v :: v in w ==> v in s
  {
    var reach := (filterSize - 1) / 2;
    s[Lowest(i, reach)..Highest(i, reach, |s|) + 1]
  }

  /** Every output is the middle element of its window of inputs. */
  predicate IsMedianFiltered(before: seq<int>, after: seq<int>, filterSize: nat)
    requires filterSize > 0
  {
    && |after| == |before|
    && forall i :: 0 <= i < |before| ==> IsMedianAt(before, after[i], i, filterSize)
  }

  predicate IsMedianAt(before: seq<int>, v: int, i: nat, filterSize: nat)
    requires i < |before| && filterSize > 0
  {
    HasRank(Window(before, i, filterSize), |Window(before, i, filterSize)| / 2, v)
  }

  /** The filtered row is determined, and stays within any bounds of the data. */
  lemma FilterIsDetermined(before: seq<int>, a: seq<int>, b: seq<int>, filterSize: nat)
    requires filterSize > 0 && IsMedianFiltered(before, a, filterSize) && IsMedianFiltered(before, b, filterSize)
    ensures a == b
  {
    forall i | 0 <= i < |before| ensures a[i] == b[i] {
      assert IsMedianAt(before, a[i], i, filterSize) && IsMedianAt(before, b[i], i, filterSize);
      RankIsUnique(Window(before, i, filterSize), |Window(before, i, filterSize)| / 2, a[i], b[i]);
    }
  }

  lemma FilterKeepsBounds(before: seq<int>, after: seq<int>, filterSize: nat, low: int, high: int)
    requires filterSize > 0 && IsMedianFiltered(before, after, filterSize)
    requires forall i :: 0 <= i < |before| ==> low <= before[i] <= high
    ensures forall i :: 0 <= i < |after| ==> low <= after[i] <= high
  {
    forall i | 0 <= i < |after| ensures low <= after[i] <= high {
      assert IsMedianAt(before, after[i], i, filterSize);
      assert after[i] in before;
    }
  }

  /** The median of one window, by sorting a copy of it. */
  method MedianAt(data: array<int>, size: nat, i: nat, filterSize: nat, sortbuf: array<int>) returns (m: int)
    requires i < size <= data.Length && 0 < filterSize == sortbuf.Length && sortbuf != data
    modifies sortbuf
    ensures IsMedianAt(data[..size], m, i, filterSize)
  {
    hide Sorted, IsMedianAt, Window;
    ghost var before := data[..size];
    ghost var w := Window(before, i, filterSize);
    WindowInPlace(before, i, filterSize);
    MedianOfSorted(before, i, filterSize);
    var reach := (filterSize - 1) / 2;
    var i1 := if i < reach then 0 else i - reach;
    var i2 := if i + reach >= size then size - 1 else i + reach;
    var count := i2 - i1 + 1;
    forall k | 0 <= k < count { sortbuf[k] := data[i1 + k]; }
    assert sortbuf[..count] == w;
    var ordered := Sorted(sortbuf[..count]);
    forall k | 0 <= k < count { sortbuf[k] := ordered[k]; }
    assert data[..size] == before && |w| == count;
    return sortbuf[count / 2];
  }

  /** median_filter: all medians are taken of the original data, although they replace it at the end. */
  method Filter(data: array<int>, size: nat, filterSize: nat)
    requires size <= data.Length && filterSize > 0
    modifies data
    ensures IsMedianFiltered(old(data[..size]), data[..size], filterSize)
    ensures data[size..] == old(data[size..])
  {
    hide IsMedianAt;
    ghost var before := data[..size];
    var result := new int[size];
    var sortbuf := new int[filterSize];
    var i := 0;
    while i < size
      invariant 0 <= i <= size
      invariant data[..] == old(data[..]) && data[..size] == before
      invariant forall k :: 0 <= k < i ==> IsMedianAt(before, result[k], k, filterSize)
    {
      result[i] := MedianAt(data, size, i, filterSize, sortbuf);
      i := i + 1;
    }
    forall k | 0 <= k < size { data[k] := result[k]; }
  }

  lemma WindowInPlace(before: seq<int>, i: nat, filterSize: nat)
    requires i < |before| && filterSize > 0
    ensures var reach := (filterSize - 1) / 2;
            var i1 := if i < reach then 0 else i - reach;
            var i2 := if i + reach >= |before| then |before| - 1 else i + reach;
            Window(before, i, filterSize) == before[i1..i2 + 1] && i2 + 1 - i1 <= filterSize
  {
  }

  lemma MedianOfSorted(before: seq<int>, i: nat, filterSize: nat)
    requires i < |before| && filterSize > 0
    ensures var w := Window(before, i, filterSize);
            |w| / 2 < |w| && IsMedianAt(before, Sorted(w)[|w| / 2], i, filterSize)
  {
    var w := Window(before, i, filterSize);
    SortedGivesRank(w, |w| / 2);
  }
}
