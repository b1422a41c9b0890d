/** Time intervals of the attendance calculator and the two pairwise helpers
    `get_intersection` and `areIntersect` (job_task/task_3.py). */
module Intervals {

  datatype Option<T> = None | Some(value: T)

  /** A `(start, end)` pair of integer timestamps in seconds. Nothing forces
      `start <= end`: an inverted pair is processed like any other. */
  datatype Interval = Interval(start: int, end: int)

  predicate WellFormed(i: Interval) {
    i.start <= i.end
  }

  /** `x` lies in the closed range `[i.start, i.end]`, the convention of every comparison. */
  predicate InClosed(x: int, i: Interval) {
    i.start <= x <= i.end
  }

  /** The two closed ranges have a point in common. */
  ghost predicate SharePoint(a: Interval, b: Interval) {
    exists x :: InClosed(x, a) && InClosed(x, b)
  }

  predicate Within(inner: Interval, outer: Interval) {
    outer.start <= inner.start && inner.end <= outer.end
  }

  /** The seconds `start, start + 1, ..., end - 1`, i.e. Python's `range(start, end)`;
      its size is the duration `end - start` of a well-formed interval. */
  function HalfOpen(i: Interval): (r: set<int>)
    ensures i.start < i.end ==> i.start in r && i.end - 1 in r
    ensures i.end !in r && i.start - 1 !in r
    ensures i.end <= i.start ==> r == {}
  {
    set x | i.start <= x < i.end && InHalfOpen(x, i)
  }

  /** Membership in `HalfOpen(i)`. The comprehension above needs the explicit
      bounds to be finite and this predicate to have a trigger. */
  predicate InHalfOpen(x: int, i: Interval) {
    i.start <= x < i.end
  }

  function Max(a: int, b: int): int { if a >= b then a else b }

  function Min(a: int, b: int): int { if a <= b then a else b }

  /** `get_intersection`: the common part of two intervals, or None when they
      share no point. */
  function GetIntersection(a: Interval, b: Interval): (r: Option<Interval>)
    ensures r.Some? ==> WellFormed(r.value) && Within(r.value, a) && Within(r.value, b)
    ensures r.Some? ==> forall x :: InClosed(x, r.value) <==> InClosed(x, a) && InClosed(x, b)
    ensures r.None? ==> forall x :: !(InClosed(x, a) && InClosed(x, b))
  {
    var newStart := Max(a.start, b.start);
    var newEnd := Min(a.end, b.end);
    if newStart <= newEnd then Some(Interval(newStart, newEnd)) else None
  }

  /** An optional interval as a list of zero or one intervals: what the
      intersection passes append when `get_intersection` finds one. */
  function Found(o: Option<Interval>): seq<Interval> {
    if o.Some? then [o.value] else []
  }

  /** `areIntersect`: an endpoint of `a` lies in the closed range of `b`.
      The test looks at the endpoints of `a` only. */
  predicate AreIntersect(a: Interval, b: Interval)
    ensures AreIntersect(a, b) && WellFormed(a) ==> GetIntersection(a, b).Some?
    ensures WellFormed(b) && a.start < b.start && b.end < a.end ==> !AreIntersect(a, b)
  {
    b.start <= a.start <= b.end || b.start <= a.end <= b.end
  }

  /** The union `(min(starts), max(ends))` that the merge loop appends. */
  function Hull(a: Interval, b: Interval): (r: Interval)
    ensures Within(a, r) && Within(b, r)
    ensures forall o :: Within(a, o) && Within(b, o) ==> Within(r, o)
  {
    Interval(Min(a.start, b.start), Max(a.end, b.end))
  }

  /** The symmetric overlap test: `areIntersect` tried in both directions. */
  predicate Overlap(a: Interval, b: Interval) {
    AreIntersect(a, b) || AreIntersect(b, a)
  }

  /** The intersection is missing exactly when the larger start passes the smaller end. */
  lemma GetIntersectionNone(a: Interval, b: Interval)
    ensures GetIntersection(a, b).None? <==> !SharePoint(a, b)
    ensures GetIntersection(a, b).None? <==> Max(a.start, b.start) > Min(a.end, b.end)
  {
    if GetIntersection(a, b).Some? {
      var c := GetIntersection(a, b).value;
      assert InClosed(c.start, a) && InClosed(c.start, b);
    }
  }

  /** On the half-open ranges that measure durations, the intersection is exact too. */
  lemma GetIntersectionHalfOpen(a: Interval, b: Interval)
    ensures GetIntersection(a, b).Some? ==>
      HalfOpen(GetIntersection(a, b).value) == HalfOpen(a) * HalfOpen(b)
    ensures GetIntersection(a, b).None? ==> HalfOpen(a) * HalfOpen(b) == {}
  {
    if GetIntersection(a, b).None? {
      forall x | x in HalfOpen(a) * HalfOpen(b) ensures false {
        assert InClosed(x, a) && InClosed(x, b);
      }
    }
  }

  /** When `a` is well-formed, a positive `areIntersect` means a common point. */
  lemma AreIntersectSharesPoint(a: Interval, b: Interval)
    requires WellFormed(a) && AreIntersect(a, b)
    ensures SharePoint(a, b)
  {
    if InClosed(a.start, b) {
      assert InClosed(a.start, a);
    } else {
      assert InClosed(a.end, a) && InClosed(a.end, b);
    }
  }

  /** The only common-point case `areIntersect(a, b)` misses: `b` strictly inside `a`. */
  lemma AreIntersectMissesContainment(a: Interval, b: Interval)
    requires WellFormed(a) && WellFormed(b) && SharePoint(a, b)
    ensures !AreIntersect(a, b) <==> a.start < b.start && b.end < a.end
  {
    var x :| InClosed(x, a) && InClosed(x, b);
  }

  /** The symmetric test is exact on well-formed intervals. */
  lemma OverlapIffSharePoint(a: Interval, b: Interval)
    requires WellFormed(a) && WellFormed(b)
    ensures Overlap(a, b) <==> SharePoint(a, b)
  {
    if Overlap(a, b) {
      if AreIntersect(a, b) {
        AreIntersectSharesPoint(a, b);
      } else {
        AreIntersectSharesPoint(b, a);
        var x :| InClosed(x, b) && InClosed(x, a);
        assert InClosed(x, a) && InClosed(x, b);
      }
    } else if SharePoint(a, b) {
      AreIntersectMissesContainment(a, b);
    }
  }

  /** Two well-formed intervals with a common point: the hull's seconds are the union of theirs. */
  lemma HullHalfOpen(a: Interval, b: Interval)
    requires WellFormed(a) && WellFormed(b) && SharePoint(a, b)
    ensures HalfOpen(Hull(a, b)) == HalfOpen(a) + HalfOpen(b)
  {
    var p :| InClosed(p, a) && InClosed(p, b);
    forall x | x in HalfOpen(Hull(a, b)) ensures x in HalfOpen(a) + HalfOpen(b) {
      if x < p {
        if a.start <= x { assert x in HalfOpen(a); } else { assert x in HalfOpen(b); }
      } else {
        if x < a.end { assert x in HalfOpen(a); } else { assert x in HalfOpen(b); }
      }
    }
  }

  /** The number of seconds in a range: the duration when well-formed, none otherwise. */
  lemma {:induction false} HalfOpenSize(i: Interval)
    ensures |HalfOpen(i)| == if WellFormed(i) then i.end - i.start else 0
    decreases i.end - i.start
  {
    if i.end <= i.start {
      assert HalfOpen(i) == {};
    } else {
      var shorter := Interval(i.start, i.end - 1);
      HalfOpenSize(shorter);
      assert HalfOpen(i) == HalfOpen(shorter) + {i.end - 1};
    }
  }

  /** Union of the seconds of a list of intervals, accumulated left to right
      (`pupil_union = pupil_union.union(p_interval)`). */
  function Cover(l: seq<Interval>): (r: set<int>)
    ensures forall k :: 0 <= k < |l| ==> HalfOpen(l[k]) <= r
  {
    if l == [] then {}
    else
      var init := l[..|l| - 1];
      assert forall k :: 0 <= k < |init| ==> init[k] == l[k];
      Cover(init) + HalfOpen(l[|l| - 1])
  }

  /** A second is covered exactly when some interval of the list contains it. */
  lemma {:induction false} CoverMember(l: seq<Interval>, x: int)
    ensures x in Cover(l) <==> exists c :: c in l && x in HalfOpen(c)
  {
    if l != [] {
      var init := l[..|l| - 1];
      CoverMember(init, x);
      assert l == init + [l[|l| - 1]];
      if x in Cover(init) {
        var c :| c in init && x in HalfOpen(c);
        assert c in l;
      }
      if c :| c in l && x in HalfOpen(c) {
        if c != l[|l| - 1] {
          assert c in init;
        }
      }
    }
  }

  lemma {:induction false} CoverAppend(a: seq<Interval>, b: seq<Interval>)
    ensures Cover(a + b) == Cover(a) + Cover(b)
    decreases |b|
  {
    if b == [] {
      assert a + b == a;
    } else {
      var init := b[..|b| - 1];
      CoverAppend(a, init);
      assert (a + b)[..|a + b| - 1] == a + init;
    }
  }
}
