/** Telemetry frames, sliding windows and the out-of-order buffer
    (models/src/alg_models/data/window.py, models/src/alg_models/schemas.py). */
module Windows {
  import opened Arith
  import Sorting

  datatype Point = Point(entity: string, metric: string, ts: nat, quality: string, value: real)

  datatype Key = Key(entity: string, metric: string, ts: nat, quality: string)

  function KeyOf(p: Point): Key { Key(p.entity, p.metric, p.ts, p.quality) }

  function Time(p: Point): real { p.ts as real }

  ghost predicate Ordered(points: seq<Point>) {
    forall i, j :: 0 <= i < j < |points| ==> points[i].ts <= points[j].ts
  }

  ghost predicate DistinctKeys(points: seq<Point>) {
    forall i, j :: 0 <= i < j < |points| ==> !SameKey(points[i], points[j])
  }

  /** The same entity, metric, time and quality. */
  predicate SameKey(p: Point, q: Point) {
    p.entity == q.entity && p.metric == q.metric && p.ts == q.ts && p.quality == q.quality
  }

  /** What a TelemetryFrame may hold. */
  ghost predicate ValidFrame(points: seq<Point>) {
    Ordered(points) && DistinctKeys(points)
  }

  /** The validator of TelemetryFrame: accepts exactly the frames that are in order and without
      duplicates. */
  method Validate(points: seq<Point>) returns (ok: bool)
    ensures ok <==> ValidFrame(points)
  {
    var prev: int := -1;
    var seen: set<Key> := {};
    for i := 0 to |points|
      invariant ValidFrame(points[..i])
      invariant seen == set k | 0 <= k < i :: KeyOf(points[k])
      invariant prev == if i == 0 then -1 else points[i - 1].ts
    {
      if points[i].ts < prev {
        assert points[i - 1].ts > points[i].ts;
        return false;
      }
      if KeyOf(points[i]) in seen {
        return false;
      }
      seen := seen + {KeyOf(points[i])};
      prev := points[i].ts;
    }
    assert points[..|points|] == points;
    ok := true;
  }

  // ---- windows ----

  /** The points of a half-open interval of time, in order. */
  function Between(points: seq<Point>, lo: nat, hi: nat): seq<Point> {
    if points == [] then []
    else
      var p := points[|points| - 1];
      Between(points[..|points| - 1], lo, hi) + if lo <= p.ts < hi then [p] else []
  }

  datatype Window = Window(start: nat, end: nat, points: seq<Point>)

  /** One window from `w` on, and one more every stride, as long as they start no later than `last`;
      empty ones are left out. */
  function NaiveWindows(points: seq<Point>, w: nat, stride: nat, width: nat, last: nat): seq<Window>
    requires stride >= 1
    decreases if w <= last then last - w + 1 else 0
  {
    if w > last then []
    else
      WindowAt(points, w, width) + NaiveWindows(points, w + stride, stride, width, last)
  }

  /** The window that starts at `w`, if it holds anything. */
  function WindowAt(points: seq<Point>, w: nat, width: nat): seq<Window> {
    var inside := Between(points, w, w + width);
    if inside == [] then [] else [Window(w, w + width, inside)]
  }

  /** Where the points of an interval lie when they are in order. */
  ghost predicate Bounds(points: seq<Point>, i: nat, lo: nat) {
    i <= |points| && (forall k :: 0 <= k < i ==> points[k].ts < lo)
    && (forall k :: i <= k < |points| ==> lo <= points[k].ts)
  }

  /** The points from `i` up to `j` are exactly those of the interval. */
  ghost predicate Spans(points: seq<Point>, i: nat, j: nat, lo: nat, hi: nat) {
    && i <= j <= |points|
    && (forall k :: 0 <= k < i ==> points[k].ts < lo)
    && (forall k :: i <= k < j ==> lo <= points[k].ts < hi)
    && forall k :: j <= k < |points| ==> hi <= points[k].ts
  }

  lemma {:induction false} SpansOfFront(points: seq<Point>, i: nat, j: nat, lo: nat, hi: nat)
    requires Spans(points, i, j, lo, hi) && points != []
    ensures var n := |points| - 1; Spans(points[..n], Min(i, n), Min(j, n), lo, hi)
  {
  }

  lemma {:induction false} BetweenIsASlice(points: seq<Point>, i: nat, j: nat, lo: nat, hi: nat)
    requires Spans(points, i, j, lo, hi) && lo <= hi
    ensures Between(points, lo, hi) == points[i..j]
  {
    if points != [] {
      var n := |points| - 1;
      SpansOfFront(points, i, j, lo, hi);
      BetweenIsASlice(points[..n], Min(i, n), Min(j, n), lo, hi);
      if j <= n {
        SliceOfFront(points, i, j);
      } else if i <= n {
        SliceToTheEnd(points, i);
      }
    }
  }

  lemma {:induction false} SliceOfFront<T>(s: seq<T>, i: nat, j: nat)
    requires i <= j < |s|
    ensures s[..|s| - 1][i..j] == s[i..j]
  {
  }

  lemma {:induction false} SliceToTheEnd<T>(s: seq<T>, i: nat)
    requires i < |s|
    ensures s[..|s| - 1][i..|s| - 1] + [s[|s| - 1]] == s[i..|s|]
  {
  }

  method SkipBefore(points: seq<Point>, from: nat, lo: nat) returns (i: nat)
    requires Ordered(points) && from <= |points|
    requires forall k :: 0 <= k < from ==> points[k].ts < lo
    ensures from <= i && Bounds(points, i, lo)
  {
    i := from;
    while i < |points| && points[i].ts < lo
      invariant from <= i <= |points|
      invariant forall k :: 0 <= k < i ==> points[k].ts < lo
    {
      i := i + 1;
    }
  }

  ghost predicate AllBefore(points: seq<Point>, i: nat, w: nat) {
    i <= |points| && forall k :: 0 <= k < i ==> points[k].ts < w
  }

  /** The source's scan: the lower end never moves back, and yet the windows are those of the naive
      filter, one for every aligned start from the one at or before the first point. */
  method SlidingWindows(points: seq<Point>, stride: nat, width: nat) returns (out: seq<Window>)
    requires ValidFrame(points) && stride >= 1 && width >= 1
    ensures points == [] ==> out == []
    ensures points != [] ==>
              out == NaiveWindows(points, points[0].ts / stride * stride, stride, width, points[|points| - 1].ts)
  {
    if |points| == 0 {
      return [];
    }
    out := Scan(points, points[0].ts / stride * stride, stride, width, points[|points| - 1].ts);
  }

  method Scan(points: seq<Point>, first: nat, stride: nat, width: nat, last: nat) returns (out: seq<Window>)
    requires Ordered(points) && stride >= 1 && width >= 1
    ensures out == NaiveWindows(points, first, stride, width, last)
  {
    out := [];
    var w, i := first, 0;
    ghost var whole := NaiveWindows(points, w, stride, width, last);
    NothingAdded(whole);
    while w <= last
      invariant AllBefore(points, i, w)
      invariant whole == out + NaiveWindows(points, w, stride, width, last)
      decreases if w <= last then last - w + 1 else 0
    {
      var here;
      i, here := NextWindow(points, i, w, width);
      OneWindowMore(points, w, stride, width, last, out, here);
      out := out + here;
      w := w + stride;
    }
    NothingAdded(out);
  }

  lemma {:induction false} NothingAdded<T>(s: seq<T>)
    ensures [] + s == s && s + [] == s
  {
  }

  lemma {:induction false} OneWindowMore(points: seq<Point>, w: nat, stride: nat, width: nat, last: nat,
                                         out: seq<Window>, here: seq<Window>)
    requires stride >= 1 && w <= last && here == WindowAt(points, w, width)
    ensures out + NaiveWindows(points, w, stride, width, last)
         == (out + here) + NaiveWindows(points, w + stride, stride, width, last)
  {
    var rest := NaiveWindows(points, w + stride, stride, width, last);
    assert NaiveWindows(points, w, stride, width, last) == here + rest;
    assert out + (here + rest) == (out + here) + rest;
  }

  /** Moves the lower end up to the window and reads on to its end. */
  method NextWindow(points: seq<Point>, from: nat, w: nat, width: nat) returns (i: nat, here: seq<Window>)
    requires Ordered(points) && AllBefore(points, from, w)
    ensures forall later :: later >= w ==> AllBefore(points, i, later)
    ensures here == WindowAt(points, w, width)
  {
    i := SkipBefore(points, from, w);
    var j := SkipBefore(points, i, w + width);
    BetweenIsASlice(points, i, j, w, w + width);
    here := if j > i then [Window(w, w + width, points[i..j])] else [];
  }

  // ---- coverage ----

  ghost predicate Covered(windows: seq<Window>, p: Point) {
    exists k :: 0 <= k < |windows| && p in windows[k].points
  }

  lemma {:induction false} BetweenHas(points: seq<Point>, lo: nat, hi: nat, p: Point)
    ensures p in Between(points, lo, hi) <==> p in points && lo <= p.ts < hi
  {
    if points != [] {
      BetweenHas(points[..|points| - 1], lo, hi, p);
      assert points == points[..|points| - 1] + [points[|points| - 1]];
    }
  }

  lemma {:induction false} CoveredOneMore(head: seq<Window>, tail: seq<Window>, p: Point)
    ensures Covered(head + tail, p) <==> Covered(head, p) || Covered(tail, p)
  {
    if Covered(head, p) {
      var k :| 0 <= k < |head| && p in head[k].points;
      assert (head + tail)[k] == head[k];
    }
    if Covered(tail, p) {
      var k :| 0 <= k < |tail| && p in tail[k].points;
      assert (head + tail)[|head| + k] == tail[k];
    }
  }

  lemma {:induction false} OneWindowCovers(w: Window, p: Point)
    ensures Covered([w], p) <==> p in w.points
  {
    if p in w.points {
      assert p in [w][0].points;
    }
  }

  /** What a window is: it starts a whole number of strides after the first and no later than the last
      point, is as wide as asked, and holds, at least one, the points of its time. */
  ghost predicate IsWindow(points: seq<Point>, w: nat, stride: nat, width: nat, last: nat, win: Window) {
    && (exists k: nat :: win.start == w + k * stride)
    && win.start <= last && win.end == win.start + width && win.points != []
    && forall p :: p in win.points <==> p in points && win.start <= p.ts < win.start + width
  }

  lemma {:induction false} WindowsAreWindows(
      points: seq<Point>, w: nat, stride: nat, width: nat, last: nat, win: Window)
    requires stride >= 1 && win in NaiveWindows(points, w, stride, width, last)
    ensures IsWindow(points, w, stride, width, last, win)
    decreases if w <= last then last - w + 1 else 0
  {
    if win in WindowAt(points, w, width) {
      forall p
        ensures p in win.points <==> p in points && w <= p.ts < w + width
      {
        BetweenHas(points, w, w + width, p);
      }
      assert win.start == w + 0 * stride;
    } else {
      WindowsAreWindows(points, w + stride, stride, width, last, win);
      var k: nat :| win.start == w + stride + k * stride;
      assert win.start == w + (k + 1) * stride;
    }
  }

  /** The `k`-th start from `w` on has time `t` in its window. */
  ghost predicate Near(w: nat, stride: nat, width: nat, t: nat, k: nat) {
    w + k * stride <= t < w + k * stride + width
  }

  ghost predicate SomeNear(w: nat, stride: nat, width: nat, t: nat) {
    exists k: nat :: Near(w, stride, width, t, k)
  }

  lemma {:induction false} NearShift(w: nat, stride: nat, width: nat, t: nat, k: nat)
    ensures Near(w + stride, stride, width, t, k) <==> Near(w, stride, width, t, k + 1)
  {
    assert (k + 1) * stride == k * stride + stride;
  }

  lemma {:induction false} NearOneMore(w: nat, stride: nat, width: nat, t: nat)
    ensures SomeNear(w, stride, width, t) <==> w <= t < w + width || SomeNear(w + stride, stride, width, t)
  {
    if SomeNear(w, stride, width, t) {
      var k: nat :| Near(w, stride, width, t, k);
      if k > 0 {
        NearShift(w, stride, width, t, k - 1);
      }
    }
    if w <= t < w + width {
      assert Near(w, stride, width, t, 0);
    }
    if SomeNear(w + stride, stride, width, t) {
      var k: nat :| Near(w + stride, stride, width, t, k);
      NearShift(w, stride, width, t, k);
    }
  }

  /** A point is in some window of the scan if and only if some aligned start is close enough before
      it. */
  lemma {:induction false} CoveredIffNear(
      points: seq<Point>, w: nat, stride: nat, width: nat, last: nat, p: Point)
    requires stride >= 1 && p in points && p.ts <= last
    ensures Covered(NaiveWindows(points, w, stride, width, last), p) <==> SomeNear(w, stride, width, p.ts)
    decreases if w <= last then last - w + 1 else 0
  {
    if w <= last {
      var inside := Between(points, w, w + width);
      CoveredOneMore(WindowAt(points, w, width), NaiveWindows(points, w + stride, stride, width, last), p);
      BetweenHas(points, w, w + width, p);
      OneWindowCovers(Window(w, w + width, inside), p);
      CoveredIffNear(points, w + stride, stride, width, last, p);
      NearOneMore(w, stride, width, p.ts);
    }
  }

  lemma {:induction false} FirstAndLast(points: seq<Point>, p: Point)
    requires Ordered(points) && p in points
    ensures points[0].ts <= p.ts <= points[|points| - 1].ts
  {
    var i :| 0 <= i < |points| && points[i] == p;
  }

  /** Which points the scan covers: those less than a width after an aligned time. In particular all
      of them when the stride does not exceed the width. */
  lemma {:induction false} CoverageOfTheScan(points: seq<Point>, stride: nat, width: nat, p: Point)
    requires ValidFrame(points) && points != [] && stride >= 1 && width >= 1 && p in points
    ensures var windows := NaiveWindows(points, points[0].ts / stride * stride, stride, width,
                                        points[|points| - 1].ts);
            Covered(windows, p) <==> p.ts % stride < width
    ensures stride <= width ==> p.ts % stride < width
  {
    var first, last := points[0].ts / stride, points[|points| - 1].ts;
    FirstAndLast(points, p);
    CoveredIffNear(points, first * stride, stride, width, last, p);
    NearestStart(first, points[0].ts, stride, width, p.ts);
  }

  lemma {:induction false} NearestStart(first: nat, t0: nat, stride: nat, width: nat, t: nat)
    requires stride >= 1 && first == t0 / stride && t0 <= t
    ensures SomeNear(first * stride, stride, width, t) <==> t % stride < width
  {
    var q, r := t / stride, t % stride;
    assert t == q * stride + r;
    FirstNoLater(t0, t, stride);
    if r < width {
      LastStartIsNear(first, q, stride, width, t, r);
    }
    if SomeNear(first * stride, stride, width, t) {
      var k: nat :| Near(first * stride, stride, width, t, k);
      NearIsClose(first, q, stride, width, t, r, k);
    }
  }

  lemma {:induction false} FirstNoLater(t0: nat, t: nat, stride: nat)
    requires stride >= 1 && t0 <= t
    ensures t0 / stride <= t / stride
  {
    var first, q := t0 / stride, t / stride;
    assert t0 == first * stride + t0 % stride && t == q * stride + t % stride;
    assert (q + 1) * stride == q * stride + stride;
    if q < first {
      MulMono(q + 1, first, stride);
    }
  }

  lemma {:induction false} LastStartIsNear(first: nat, q: nat, stride: nat, width: nat, t: nat, r: nat)
    requires first <= q && t == q * stride + r && r < width
    ensures SomeNear(first * stride, stride, width, t)
  {
    var k := q - first;
    assert first * stride + k * stride == q * stride by {
      assert (first + k) * stride == first * stride + k * stride;
    }
    assert Near(first * stride, stride, width, t, k);
  }

  lemma {:induction false} NearIsClose(first: nat, q: nat, stride: nat, width: nat, t: nat, r: nat, k: nat)
    requires t == q * stride + r && r < stride && Near(first * stride, stride, width, t, k)
    ensures r < width
  {
    var n := first + k;
    assert n * stride == first * stride + k * stride;
    assert (q + 1) * stride == q * stride + stride;
    if n > q {
      MulMono(q + 1, n, stride);
    } else {
      MulMono(n, q, stride);
    }
  }

  // ---- the out-of-order buffer ----

  datatype Acceptance =
    | Accepted
    | OutOfOrder(ts: nat, tolerance: nat, earliest: int)
    | Duplicate(key: Key)

  function Newest(points: seq<Point>): nat {
    if points == [] then 0
    else
      var before := Newest(points[..|points| - 1]);
      if points[|points| - 1].ts > before then points[|points| - 1].ts else before
  }

  lemma {:induction false} NewestIsNewest(points: seq<Point>)
    ensures forall i :: 0 <= i < |points| ==> points[i].ts <= Newest(points)
    ensures points != [] ==> exists i :: 0 <= i < |points| && points[i].ts == Newest(points)
  {
    if points != [] {
      var n := |points| - 1;
      NewestIsNewest(points[..n]);
      forall i | 0 <= i < |points|
        ensures points[i].ts <= Newest(points)
      {
        if i < n {
          assert points[..n][i].ts <= Newest(points[..n]);
        }
      }
      if points[n].ts <= Newest(points[..n]) && n > 0 {
        var i :| 0 <= i < n && points[..n][i].ts == Newest(points[..n]);
        assert points[i].ts == Newest(points);
      } else {
        assert points[n].ts == Newest(points);
      }
    }
  }

  /** No point is more than the tolerance behind one accepted before it. */
  ghost predicate WithinTolerance(points: seq<Point>, tolerance: nat) {
    forall i, j :: 0 <= i < j < |points| ==> points[i].ts <= points[j].ts + tolerance
  }

  lemma {:induction false} AcceptOneMore(points: seq<Point>, p: Point, tolerance: nat)
    requires DistinctKeys(points) && WithinTolerance(points, tolerance)
    requires points != [] ==> Newest(points) <= p.ts + tolerance
    requires forall i :: 0 <= i < |points| ==> KeyOf(points[i]) != KeyOf(p)
    ensures DistinctKeys(points + [p]) && WithinTolerance(points + [p], tolerance)
    ensures Newest(points + [p]) == if points == [] || p.ts > Newest(points) then p.ts else Newest(points)
  {
    NewestIsNewest(points);
    var more := points + [p];
    assert more[..|points|] == points && more[|points|] == p;
    assert Newest(more) == if p.ts > Newest(points) then p.ts else Newest(points);
  }

  /** A duplicate is no newer than what it duplicates. */
  lemma {:induction false} KnownIsNoNewer(points: seq<Point>, p: Point)
    ensures Known(points, KeyOf(p)) ==> points != [] && p.ts <= Newest(points)
  {
    NewestIsNewest(points);
  }

  predicate Known(points: seq<Point>, key: Key) {
    exists i :: 0 <= i < |points|
                && points[i].entity == key.entity && points[i].metric == key.metric
                && points[i].ts == key.ts && points[i].quality == key.quality
  }

  class OutOfOrderBuffer {
    const tolerance: nat
    var newest: nat
    var points: seq<Point>

    ghost predicate Valid()
      reads this
    {
      newest == Newest(points) && DistinctKeys(points) && WithinTolerance(points, tolerance)
    }

    constructor (tolerance: nat)
      ensures Valid() && this.tolerance == tolerance && points == []
    {
      this.tolerance, newest, points := tolerance, 0, [];
    }

    /** Accepts a point exactly if it is not too late for what is buffered and not a duplicate. */
    method Accept(p: Point) returns (r: Acceptance)
      requires Valid()
      modifies this
      ensures Valid()
      ensures points == if r.Accepted? then old(points) + [p] else old(points)
      ensures r.OutOfOrder? <==> old(points) != [] && p.ts + tolerance < Newest(old(points))
      ensures r.OutOfOrder? ==> r == OutOfOrder(p.ts, tolerance, Newest(old(points)) - tolerance)
      ensures r.Duplicate? <==> !r.OutOfOrder? && Known(old(points), KeyOf(p))
      ensures r.Duplicate? ==> r.key == KeyOf(p)
    {
      KnownIsNoNewer(points, p);
      if |points| == 0 {
        newest := p.ts;
      } else {
        if p.ts < newest - tolerance {
          return OutOfOrder(p.ts, tolerance, newest - tolerance);
        }
        newest := if p.ts > newest then p.ts else newest;
      }
      if Known(points, KeyOf(p)) {
        return Duplicate(KeyOf(p));
      }
      AcceptOneMore(points, p, tolerance);
      points := points + [p];
      r := Accepted;
    }

    /** Hands out what was accepted as a valid frame and starts afresh. */
    method Drain() returns (frame: seq<Point>)
      requires Valid()
      modifies this
      ensures Valid() && points == []
      ensures ValidFrame(frame) && multiset(frame) == multiset(old(points))
    {
      frame := Sorting.SortBy(points, Time);
      SortedIsAFrame(points, frame);
      points := [];
      newest := 0;
    }
  }

  lemma {:induction false} SortedIsAFrame(points: seq<Point>, frame: seq<Point>)
    requires DistinctKeys(points) && multiset(frame) == multiset(points) && Sorting.Sorted(frame, Time)
    ensures ValidFrame(frame)
  {
    forall i, j | 0 <= i < j < |frame|
      ensures frame[i].ts <= frame[j].ts
    {
      assert Time(frame[i]) <= Time(frame[j]);
    }
    Sorting.SameMembers(points, frame);
    assert Sorting.Distinct(points);
    Sorting.DistinctPermutation(points, frame);
    forall i, j | 0 <= i < j < |frame|
      ensures KeyOf(frame[i]) != KeyOf(frame[j])
    {
      assert frame[i] in points && frame[j] in points;
      var a :| 0 <= a < |points| && points[a] == frame[i];
      var b :| 0 <= b < |points| && points[b] == frame[j];
      assert a != b;
    }
  }
}
