/**
 Sorting the grid points and splitting them
 (crates/cspace-bullet/src/convex_hull_computer.rs:590-680, 941-982, 1698-1804).
 */
module GridSort {

  /** A quantized input point; `index` is where the caller had it. */
  datatype Point32 = Point32(x: int, y: int, z: int, index: int)

  /** Lexicographic on (y, x, z); the index is ignored. */
  predicate Less(p: Point32, q: Point32) {
    p.y < q.y || (p.y == q.y && (p.x < q.x || (p.x == q.x && p.z < q.z)))
  }

  /** The points share a grid cell. */
  predicate SameCell(p: Point32, q: Point32) { p.x == q.x && p.y == q.y && p.z == q.z }

  predicate Leq(p: Point32, q: Point32) { !Less(q, p) }

  ghost predicate Sorted(s: seq<Point32>) {
    forall i, j :: 0 <= i < j < |s| ==> Leq(s[i], s[j])
  }

  lemma LeqTransitive(p: Point32, q: Point32, r: Point32)
    requires Leq(p, q) && Leq(q, r)
    ensures Leq(p, r)
  {}

  // ---- quick sort --------------------------------------------------------

  ghost predicate LeqIn(s: seq<Point32>, lo: int, hi: int, x: Point32) {
    forall k :: 0 <= lo <= k < hi && k < |s| ==> Leq(s[k], x)
  }

  ghost predicate GeqIn(s: seq<Point32>, lo: int, hi: int, x: Point32) {
    forall k :: 0 <= lo <= k < hi && k < |s| ==> Leq(x, s[k])
  }

  ghost predicate SortedIn(s: seq<Point32>, lo: int, hi: int) {
    forall i, j :: 0 <= lo <= i < j < hi && j < |s| ==> Leq(s[i], s[j])
  }

  /** `t` permutes `s`, inside [lo, hi) only. */
  ghost predicate PermutesIn(s: seq<Point32>, t: seq<Point32>, lo: int, hi: int) {
    && 0 <= lo <= hi <= |s| == |t|
    && multiset(s) == multiset(t)
    && forall k :: 0 <= k < lo || hi <= k < |s| ==> t[k] == s[k]
  }

  lemma SwapKeeps(s: seq<Point32>, i: nat, j: nat)
    requires i < |s| && j < |s|
    ensures multiset(s[i := s[j]][j := s[i]]) == multiset(s)
  {}

  /** The upward scan stops at the first element not below the pivot. */
  method ScanUp(a: array<Point32>, pivot: Point32, from: int, ghost stopper: int) returns (i: int)
    requires 0 <= from <= stopper < a.Length && Leq(pivot, a[stopper])
    ensures from <= i <= stopper && Leq(pivot, a[i])
    ensures forall k :: from <= k < i ==> Leq(a[k], pivot)
  {
    i := from;
    while Less(a[i], pivot)
      invariant from <= i <= stopper
      invariant forall k :: from <= k < i ==> Leq(a[k], pivot)
      decreases stopper - i
    {
      i := i + 1;
    }
  }

  /** The downward scan stops at the first element not above the pivot. */
  method ScanDown(a: array<Point32>, pivot: Point32, from: int, ghost stopper: int) returns (j: int)
    requires 0 <= stopper <= from < a.Length && Leq(a[stopper], pivot)
    ensures stopper <= j <= from && Leq(a[j], pivot)
    ensures forall k :: j < k <= from ==> Leq(pivot, a[k])
  {
    j := from;
    while Less(pivot, a[j])
      invariant stopper <= j <= from
      invariant forall k :: j < k <= from ==> Leq(pivot, a[k])
      decreases j - stopper
    {
      j := j - 1;
    }
  }

  /** `data.swap(i, j)`. */
  method Swap(a: array<Point32>, i: int, j: int)
    requires 0 <= i < a.Length && 0 <= j < a.Length
    modifies a
    ensures a[i] == old(a[j]) && a[j] == old(a[i])
    ensures forall k :: 0 <= k < a.Length && k != i && k != j ==> a[k] == old(a[k])
    ensures multiset(a[..]) == old(multiset(a[..]))
  {
    SwapKeeps(a[..], i, j);
    a[i], a[j] := a[j], a[i];
  }

  /** The pivot scan: both inner scans stop inside the segment, because each side always still has a stopper. */
  method Partition(a: array<Point32>, lo: int, hi: int) returns (i: int, j: int, ghost x: Point32)
    requires 0 <= lo < hi < a.Length
    modifies a
    ensures lo - 1 <= j < i <= hi + 1 && lo < i && j < hi
    ensures forall k :: lo <= k < i ==> Leq(a[k], x)
    ensures forall k :: j < k <= hi ==> Leq(x, a[k])
    ensures forall k :: 0 <= k < lo || hi < k < a.Length ==> a[k] == old(a[k])
    ensures multiset(a[..]) == old(multiset(a[..]))
  {
    i, j := lo, hi;
    var pivot := a[(lo + hi) / 2];
    x := pivot;
    ghost var left, right := (lo + hi) / 2, (lo + hi) / 2;
    assert Leq(pivot, pivot);
    hide Less, Leq;
    while i <= j
      invariant lo <= i <= hi + 1 && lo - 1 <= j <= hi
      invariant forall k :: lo <= k < i ==> Leq(a[k], pivot)
      invariant forall k :: j < k <= hi ==> Leq(pivot, a[k])
      invariant i <= j ==> i <= right <= hi && Leq(pivot, a[right])
      invariant i <= j ==> lo <= left <= j && Leq(a[left], pivot)
      invariant (i == lo && j == hi) || (lo < i && j < hi)
      invariant forall k :: 0 <= k < lo || hi < k < a.Length ==> a[k] == old(a[k])
      invariant multiset(a[..]) == old(multiset(a[..]))
      decreases j - i
    {
      i := ScanUp(a, pivot, i, right);
      j := ScanDown(a, pivot, j, left);
      if i <= j {
        Swap(a, i, j);
        left, right := i, j;
        i := i + 1;
        j := j - 1;
      }
    }
  }

  method SortSegment(a: array<Point32>, lo: int, hi: int)
    requires 0 <= lo < hi < a.Length
    modifies a
    ensures PermutesIn(old(a[..]), a[..], lo, hi + 1)
    ensures SortedIn(a[..], lo, hi + 1)
    decreases hi - lo
  {
    hide Leq, PermutesIn, SortedIn, LeqIn, GeqIn;
    ghost var s0 := a[..];
    var i, j, x := Partition(a, lo, hi);
    ghost var s1 := a[..];
    PartitionLeaves(s0, s1, lo, i, j, hi, x);
    if lo < j {
      SortSegment(a, lo, j);
    } else {
      NothingToSort(s1, lo, j + 1);
    }
    ghost var s2 := a[..];
    if i < hi {
      SortSegment(a, i, hi);
    } else {
      NothingToSort(s2, i, hi + 1);
    }
    SidesSorted(s0, s1, s2, a[..], lo, i, j, hi, x);
  }

  lemma NothingToSort(s: seq<Point32>, lo: int, hi: int)
    requires 0 <= lo <= hi <= lo + 1 && hi <= |s|
    ensures PermutesIn(s, s, lo, hi) && SortedIn(s, lo, hi)
  {}

  lemma PartitionLeaves(s: seq<Point32>, t: seq<Point32>, lo: int, i: int, j: int, hi: int, x: Point32)
    requires 0 <= lo < hi < |s| == |t| && lo - 1 <= j < i <= hi + 1 && lo < i && j < hi
    requires multiset(s) == multiset(t)
    requires forall k :: 0 <= k < lo || hi < k < |s| ==> t[k] == s[k]
    requires forall k :: lo <= k < i ==> Leq(t[k], x)
    requires forall k :: j < k <= hi ==> Leq(x, t[k])
    ensures PermutesIn(s, t, lo, hi + 1) && LeqIn(t, lo, i, x) && GeqIn(t, j + 1, hi + 1, x)
  {}

  /** Sorting the two sides of a partition sorts the segment. */
  lemma SidesSorted(s0: seq<Point32>, s1: seq<Point32>, s2: seq<Point32>, s3: seq<Point32>,
                    lo: int, i: int, j: int, hi: int, x: Point32)
    requires 0 <= lo < hi < |s1| && lo - 1 <= j < i <= hi + 1 && lo < i && j < hi
    requires PermutesIn(s0, s1, lo, hi + 1) && LeqIn(s1, lo, i, x) && GeqIn(s1, j + 1, hi + 1, x)
    requires PermutesIn(s1, s2, lo, j + 1) && SortedIn(s2, lo, j + 1)
    requires PermutesIn(s2, s3, i, hi + 1) && SortedIn(s3, i, hi + 1)
    ensures PermutesIn(s0, s3, lo, hi + 1) && SortedIn(s3, lo, hi + 1)
  {
    hide Less, Leq;
    BoundsKept(s1, s2, lo, j + 1, x);
    BoundsKept(s2, s3, i, hi + 1, x);
    forall a, b | lo <= a < b <= hi ensures Leq(s3[a], s3[b]) {
      assert b <= j ==> s3[a] == s2[a] && s3[b] == s2[b];
      assert b > j && a < i ==> Leq(s3[a], x) && Leq(x, s3[b]);
      if b > j && a < i {
        LeqTransitive(s3[a], x, s3[b]);
      }
    }
  }

  /** A bound on a segment survives permuting it. */
  lemma BoundsKept(s: seq<Point32>, t: seq<Point32>, lo: int, hi: int, x: Point32)
    requires PermutesIn(s, t, lo, hi)
    ensures LeqIn(s, lo, hi, x) ==> LeqIn(t, lo, hi, x)
    ensures GeqIn(s, lo, hi, x) ==> GeqIn(t, lo, hi, x)
  {
    hide Leq;
    OutsideKept(s, t, lo, hi);
    forall k | lo <= k < hi ensures exists m :: lo <= m < hi && s[m] == t[k] {
      var l, r := s[lo..hi], t[lo..hi];
      assert r[k - lo] in multiset(r);
      assert r[k - lo] in l;
      var m :| 0 <= m < |l| && l[m] == r[k - lo];
      assert s[lo + m] == t[k];
    }
  }

  /** What did not move outside, and the same elements overall, leave the same elements inside. */
  lemma OutsideKept(s: seq<Point32>, t: seq<Point32>, lo: nat, hi: nat)
    requires PermutesIn(s, t, lo, hi)
    ensures multiset(s[lo..hi]) == multiset(t[lo..hi])
  {
    assert s[..lo] == t[..lo] && s[hi..] == t[hi..];
    ThreeParts(s, lo, hi);
    ThreeParts(t, lo, hi);
    var m, n := multiset(s[lo..hi]), multiset(t[lo..hi]);
    forall e: Point32 ensures m[e] == n[e] {
      assert multiset(s)[e] == multiset(s[..lo])[e] + m[e] + multiset(s[hi..])[e];
      assert multiset(t)[e] == multiset(t[..lo])[e] + n[e] + multiset(t[hi..])[e];
    }
  }

  lemma ThreeParts(s: seq<Point32>, lo: nat, hi: nat)
    requires lo <= hi <= |s|
    ensures multiset(s) == multiset(s[..lo]) + multiset(s[lo..hi]) + multiset(s[hi..])
  {
    assert s == s[..lo] + s[lo..hi] + s[hi..];
  }

  /** Terminates, stays in bounds, permutes and orders by (y, x, z). */
  method QuickSort(a: array<Point32>)
    modifies a
    ensures Sorted(a[..])
    ensures multiset(a[..]) == old(multiset(a[..]))
  {
    if a.Length > 1 {
      SortSegment(a, 0, a.Length - 1);
    }
  }

  // ---- splitting ---------------------------------------------------------

  /** How the recursion put a partial hull together. Vertex ids are positions in the sorted order. */
  datatype Partial =
    | Empty
    | Single(v: nat)
    | Stacked(low: nat, high: nat)
    | Segment(first: nat, second: nat)
    | Merged(left: Partial, right: Partial)
  {
    function Vertices(): seq<nat> {
      match this
      case Empty => []
      case Single(v) => [v]
      case Stacked(v, w) => [v, w]
      case Segment(v, w) => [v, w]
      case Merged(l, r) => l.Vertices() + r.Vertices()
    }
  }

  ghost predicate InRange(s: seq<nat>, n: nat) { forall k :: 0 <= k < |s| ==> s[k] < n }

  /** Every vertex of the one lies strictly before every vertex of the other. */
  ghost predicate Before(pts: seq<Point32>, s: seq<nat>, t: seq<nat>)
    requires InRange(s, |pts|) && InRange(t, |pts|)
  {
    forall a, b :: 0 <= a < |s| && 0 <= b < |t| ==> Less(pts[s[a]], pts[t[b]])
  }

  /** Each merge joins strictly separated halves, a stack really is vertical and a segment really is not. */
  ghost predicate Separated(pts: seq<Point32>, h: Partial) {
    match h
    case Empty => true
    case Single(v) => v < |pts|
    case Stacked(v, w) =>
      v < |pts| && w < |pts| && pts[v].x == pts[w].x && pts[v].y == pts[w].y && pts[v].z < pts[w].z
    case Segment(v, w) =>
      v < |pts| && w < |pts| && (pts[v].x != pts[w].x || pts[v].y != pts[w].y) && Less(pts[v], pts[w])
    case Merged(l, r) =>
      && Separated(pts, l) && Separated(pts, r)
      && InRange(l.Vertices(), |pts|) && InRange(r.Vertices(), |pts|)
      && Before(pts, l.Vertices(), r.Vertices())
  }

  /** `k` opens a run of equal cells in a range starting at `start`. */
  predicate Opens(pts: seq<Point32>, start: nat, k: nat)
    requires start <= k < |pts|
  {
    k == start || !SameCell(pts[k - 1], pts[k])
  }

  /** The openers of [start, end), in order: the first copy of every cell. */
  ghost function Firsts(pts: seq<Point32>, start: nat, end: nat): (s: seq<nat>)
    requires start <= end <= |pts|
    ensures forall k :: 0 <= k < |s| ==> start <= s[k] < end
  {
    if start == end then []
    else Firsts(pts, start, end - 1) + (if Opens(pts, start, end - 1) then [end - 1] else [])
  }

  lemma {:induction false} FirstsOpen(pts: seq<Point32>, start: nat, end: nat, k: nat)
    requires start <= end <= |pts| && k < |Firsts(pts, start, end)|
    ensures Opens(pts, start, Firsts(pts, start, end)[k])
    ensures forall j :: 0 <= j < k ==> Firsts(pts, start, end)[j] < Firsts(pts, start, end)[k]
  {
    var s, t := Firsts(pts, start, end), Firsts(pts, start, end - 1);
    if k < |t| {
      FirstsOpen(pts, start, end - 1, k);
    } else {
      assert s[k] == end - 1;
    }
  }

  lemma {:induction false} OpenersAreFirst(pts: seq<Point32>, start: nat, end: nat, k: nat)
    requires start <= k < end <= |pts| && Opens(pts, start, k)
    ensures k in Firsts(pts, start, end)
  {
    if k < end - 1 {
      OpenersAreFirst(pts, start, end - 1, k);
    }
  }

  /** Skipping the copies of the split point drops no cell. */
  lemma {:induction false} FirstsSplit(pts: seq<Point32>, start: nat, split0: nat, split1: nat, end: nat)
    requires start < split0 <= split1 <= end <= |pts|
    requires forall k :: split0 <= k < split1 ==> SameCell(pts[k], pts[split0 - 1])
    requires split1 < end ==> !SameCell(pts[split1], pts[split0 - 1])
    ensures Firsts(pts, start, end) == Firsts(pts, start, split0) + Firsts(pts, split1, end)
    decreases end, 1
  {
    if end > split1 {
      FirstsSplitInner(pts, start, split0, split1, end);
    } else if end > split0 {
      assert SameCell(pts[end - 1], pts[split0 - 1]);
      assert end - 1 > split0 ==> SameCell(pts[end - 2], pts[split0 - 1]);
      FirstsSplit(pts, start, split0, end - 1, end - 1);
      assert Firsts(pts, end, end) == Firsts(pts, end - 1, end - 1) == [];
    }
  }

  lemma {:induction false} FirstsSplitInner(pts: seq<Point32>, start: nat, split0: nat, split1: nat, end: nat)
    requires start < split0 <= split1 < end <= |pts|
    requires forall k :: split0 <= k < split1 ==> SameCell(pts[k], pts[split0 - 1])
    requires !SameCell(pts[split1], pts[split0 - 1])
    ensures Firsts(pts, start, end) == Firsts(pts, start, split0) + Firsts(pts, split1, end)
    decreases end, 0
  {
    SplitOpens(pts, start, split0, split1, end);
    hide Firsts, Opens, SameCell;
    FirstsStep(pts, start, end);
    FirstsStep(pts, split1, end);
    var l, r := Firsts(pts, start, split0), Firsts(pts, split1, end - 1);
    var x := if Opens(pts, start, end - 1) then [end - 1] else [];
    if end == split1 + 1 {
      FirstsSplit(pts, start, split0, split1, split1);
    } else {
      FirstsSplitInner(pts, start, split0, split1, end - 1);
    }
    assert (l + r) + x == l + (r + x);
  }

  lemma FirstsStep(pts: seq<Point32>, start: nat, end: nat)
    requires start < end <= |pts|
    ensures Firsts(pts, start, end) == Firsts(pts, start, end - 1) + (if Opens(pts, start, end - 1) then [end - 1] else [])
    ensures Firsts(pts, start, start) == []
  {}

  /** Beyond the split point a vertex opens a run in the right half exactly when it does in the whole range. */
  lemma SplitOpens(pts: seq<Point32>, start: nat, split0: nat, split1: nat, end: nat)
    requires start < split0 <= split1 < end <= |pts|
    requires forall k :: split0 <= k < split1 ==> SameCell(pts[k], pts[split0 - 1])
    requires !SameCell(pts[split1], pts[split0 - 1])
    ensures Opens(pts, start, end - 1) == Opens(pts, split1, end - 1)
  {
    assert split1 > split0 ==> SameCell(pts[split1 - 1], pts[split0 - 1]);
  }

  /** The recursion keeps the first copy of every cell and merges only strictly separated halves. */
  method ComputeInternal(pts: seq<Point32>, start: nat, end: nat) returns (hull: Partial)
    requires start <= end <= |pts| && Sorted(pts)
    ensures hull.Vertices() == Firsts(pts, start, end)
    ensures Separated(pts, hull)
    decreases end - start
  {
    var n := end - start;
    if n == 0 {
      return Empty;
    }
    if n == 1 {
      assert Firsts(pts, start, end) == [start] by { assert Firsts(pts, start, start) == []; }
      return Single(start);
    }
    if n == 2 {
      hull := ComputePair(pts, start);
      return;
    }
    hide Less, SameCell;
    var split0 := start + n / 2;
    var p := pts[split0 - 1];
    var split1 := split0;
    while split1 < end && SameCell(pts[split1], p)
      invariant split0 <= split1 <= end
      invariant forall k :: split0 <= k < split1 ==> SameCell(pts[k], p)
    {
      split1 := split1 + 1;
    }
    var left := ComputeInternal(pts, start, split0);
    var right := ComputeInternal(pts, split1, end);
    FirstsSplit(pts, start, split0, split1, end);
    StrictlySplit(pts, start, split0, split1, end);
    hull := Merged(left, right);
  }

  /** The two-point case: a stack, a segment, or one point kept out of two copies. */
  method ComputePair(pts: seq<Point32>, start: nat) returns (hull: Partial)
    requires start + 2 <= |pts| && Sorted(pts)
    ensures hull.Vertices() == Firsts(pts, start, start + 2)
    ensures Separated(pts, hull)
  {
    var v, w := start, start + 1;
    TwoPoints(pts, start);
    if !SameCell(pts[v], pts[w]) {
      if pts[v].x - pts[w].x == 0 && pts[v].y - pts[w].y == 0 {
        if pts[v].z > pts[w].z {
          v, w := w, v;
        }
        return Stacked(v, w);
      }
      return Segment(v, w);
    }
    return Single(start);
  }

  lemma TwoPoints(pts: seq<Point32>, start: nat)
    requires start + 2 <= |pts| && Sorted(pts)
    ensures Leq(pts[start], pts[start + 1])
    ensures Firsts(pts, start, start + 2) == if SameCell(pts[start], pts[start + 1]) then [start] else [start, start + 1]
  {
    assert Firsts(pts, start, start) == [];
    assert Firsts(pts, start, start + 1) == [start];
  }

  /** What the left half keeps lies strictly before what the right half keeps. */
  lemma StrictlySplit(pts: seq<Point32>, start: nat, split0: nat, split1: nat, end: nat)
    requires start < split0 <= split1 <= end <= |pts| && Sorted(pts)
    requires split1 < end ==> !SameCell(pts[split1], pts[split0 - 1])
    ensures InRange(Firsts(pts, start, split0), |pts|) && InRange(Firsts(pts, split1, end), |pts|)
    ensures Before(pts, Firsts(pts, start, split0), Firsts(pts, split1, end))
  {
    var l, r := Firsts(pts, start, split0), Firsts(pts, split1, end);
    forall a, b | 0 <= a < |l| && 0 <= b < |r| ensures Less(pts[l[a]], pts[r[b]]) {
      StrictlyApart(pts, l[a], split0 - 1, split1, r[b]);
    }
  }

  lemma StrictlyApart(pts: seq<Point32>, a: nat, b: nat, c: nat, d: nat)
    requires a <= b < c <= d < |pts| && Sorted(pts) && !SameCell(pts[b], pts[c])
    ensures Less(pts[a], pts[d])
  {
    assert a < b ==> Leq(pts[a], pts[b]);
    assert Leq(pts[b], pts[c]);
    assert c < d ==> Leq(pts[c], pts[d]);
  }

  /** Exactly one retained vertex per distinct grid cell. */
  lemma {:induction false} OnePerCell(pts: seq<Point32>, n: nat, k: nat)
    requires k < n <= |pts| && Sorted(pts)
    ensures exists j :: j in Firsts(pts, 0, n) && j <= k && SameCell(pts[j], pts[k])
    ensures forall i, j :: i in Firsts(pts, 0, n) && j in Firsts(pts, 0, n) && SameCell(pts[i], pts[j]) ==> i == j
  {
    var j := RunStart(pts, k);
    OpenersAreFirst(pts, 0, n, j);
    var s := Firsts(pts, 0, n);
    forall i, j | i in s && j in s && i < j ensures !SameCell(pts[i], pts[j]) {
      var b :| 0 <= b < |s| && s[b] == j;
      FirstsOpen(pts, 0, n, b);
      StrictlyApart(pts, i, j - 1, j, j);
    }
  }

  /** The opener of the run `k` lies in. */
  lemma RunStart(pts: seq<Point32>, k: nat) returns (j: nat)
    requires k < |pts|
    ensures j <= k && Opens(pts, 0, j) && SameCell(pts[j], pts[k])
  {
    if Opens(pts, 0, k) {
      j := k;
    } else {
      j := RunStart(pts, k - 1);
    }
  }

  /** `quick_sort` followed by the recursion over everything. */
  method SortAndSplit(data: array<Point32>) returns (hull: Partial)
    modifies data
    ensures Sorted(data[..]) && multiset(data[..]) == old(multiset(data[..]))
    ensures hull.Vertices() == Firsts(data[..], 0, data.Length) && Separated(data[..], hull)
  {
    QuickSort(data);
    hull := ComputeInternal(data[..], 0, data.Length);
  }
}
