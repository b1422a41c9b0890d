/** The restart-on-change merge loop of `optimize_appearance` (job_task/task_3.py),
    as a specification on sequences: the pair scan, one merge step with the
    source's own pop indices, and the fixed point it reaches. Beside it, the
    step with the evidently intended indices and a symmetric overlap test. */
module MergeLoop {
  import opened Intervals

  /** A pair found by the scan: `key` indexes the list, `key1` indexes the slice
      `pl_tutors[key+1:]`, so the partner sits at `key + 1 + key1`. */
  datatype Match = Match(key: nat, key1: nat)

  /** `list.pop(i)` with its result discarded. */
  function Pop<T>(s: seq<T>, i: nat): (r: seq<T>)
    requires i < |s|
    ensures |r| == |s| - 1
    ensures multiset(r) + multiset{s[i]} == multiset(s)
    ensures forall k :: 0 <= k < i ==> r[k] == s[k]
    ensures forall k :: i <= k < |r| ==> r[k] == s[k + 1]
  {
    assert s == s[..i] + [s[i]] + s[i + 1..];
    s[..i] + s[i + 1..]
  }

  /** The scan meets a pair it merges at `(key, key1)`. */
  predicate Mergeable(l: seq<Interval>, touches: (Interval, Interval) -> bool, key: nat, key1: nat) {
    key + 1 + key1 < |l| && touches(l[key], l[key + 1 + key1])
  }

  /** No pair `i < j` of the list satisfies `touches(l[i], l[j])`. */
  ghost predicate Settled(l: seq<Interval>, touches: (Interval, Interval) -> bool) {
    forall key: nat, key1: nat :: !Mergeable(l, touches, key, key1)
  }

  /** `(k, k1)` comes before `m` in the scan order of the two nested loops. */
  predicate Precedes(k: nat, k1: nat, m: Match) {
    k < m.key || (k == m.key && k1 < m.key1)
  }

  /** The inner loop `for key1, plt1 in enumerate(pl_tutors[key+1:])`, from `key1` on. */
  function FindPartner(l: seq<Interval>, touches: (Interval, Interval) -> bool, key: nat, key1: nat): (r: Option<nat>)
    decreases |l| - key1
    ensures r.Some? ==> key1 <= r.value && Mergeable(l, touches, key, r.value)
    ensures forall k1: nat :: key1 <= k1 && (r.None? || k1 < r.value) ==> !Mergeable(l, touches, key, k1)
  {
    if key + 1 + key1 >= |l| then None
    else if touches(l[key], l[key + 1 + key1]) then Some(key1)
    else FindPartner(l, touches, key, key1 + 1)
  }

  /** The outer loop `for key, plt in enumerate(pl_tutors[:-1])`, from `key` on:
      the first pair in scan order that `touches` accepts. */
  function FindPair(l: seq<Interval>, touches: (Interval, Interval) -> bool, key: nat): (r: Option<Match>)
    decreases |l| - key
    ensures r.Some? ==> key <= r.value.key && Mergeable(l, touches, r.value.key, r.value.key1)
    ensures forall k: nat, k1: nat :: key <= k && (r.None? || Precedes(k, k1, r.value)) ==>
              !Mergeable(l, touches, k, k1)
  {
    if key + 1 >= |l| then None
    else match FindPartner(l, touches, key, 0)
      case Some(key1) => Some(Match(key, key1))
      case None => FindPair(l, touches, key + 1)
  }

  /** A pair the scan accepts, with no accepted pair before it, is what `FindPair` returns. */
  lemma FirstInScanOrder(l: seq<Interval>, touches: (Interval, Interval) -> bool, m: Match)
    requires Mergeable(l, touches, m.key, m.key1)
    requires forall k: nat, k1: nat :: Precedes(k, k1, m) ==> !Mergeable(l, touches, k, k1)
    ensures FindPair(l, touches, 0) == Some(m)
  {
    var r := FindPair(l, touches, 0);
    assert !(r.None? || Precedes(m.key, m.key1, r.value));
    assert !Precedes(r.value.key, r.value.key1, m);
  }

  /** One changing pass as written: `temp.pop(key)`, then `temp.pop(key1)` on the
      already shortened list, then the union of the matched pair is appended. */
  function MergeStep(l: seq<Interval>, m: Match): (r: seq<Interval>)
    requires m.key + 1 + m.key1 < |l|
    ensures |r| == |l| - 1
    ensures forall c :: c in r ==> c in l || c == Hull(l[m.key], l[m.key + 1 + m.key1])
  {
    var first := Pop(l, m.key);
    var second := Pop(first, m.key1);
    assert forall c :: c in second ==> c in first by {
      forall c | c in second ensures c in first {
        assert c in multiset(second);
      }
    }
    assert forall c :: c in first ==> c in l by {
      forall c | c in first ensures c in l {
        assert c in multiset(first);
      }
    }
    second + [Hull(l[m.key], l[m.key + 1 + m.key1])]
  }

  /** The index in the original list that the second pop really removes. */
  function SecondPopped(m: Match): nat {
    if m.key1 < m.key then m.key1 else m.key1 + 1
  }

  /** What a step removes: `l[key]` and `l[SecondPopped(m)]`, which is the matched
      partner `l[key + 1 + key1]` only when `key == 0`. */
  lemma MergeStepRemoves(l: seq<Interval>, m: Match)
    requires m.key + 1 + m.key1 < |l|
    ensures SecondPopped(m) < |l| && SecondPopped(m) != m.key
    ensures SecondPopped(m) == m.key + 1 + m.key1 <==> m.key == 0
    ensures multiset(MergeStep(l, m)) + multiset{l[m.key], l[SecondPopped(m)]} ==
            multiset(l) + multiset{Hull(l[m.key], l[m.key + 1 + m.key1])}
  {
    var first := Pop(l, m.key);
    var second := Pop(first, m.key1);
    var h := Hull(l[m.key], l[m.key + 1 + m.key1]);
    assert first[m.key1] == l[SecondPopped(m)];
    assert MergeStep(l, m) == second + [h];
    assert multiset(MergeStep(l, m)) == multiset(second) + multiset{h};
  }

  /** The `while True` loop as written: merge the first accepted pair until a
      full scan finds none. */
  function Merged(l: seq<Interval>): (r: seq<Interval>)
    decreases |l|
    ensures Settled(r, AreIntersect)
    ensures |r| <= |l|
  {
    match FindPair(l, AreIntersect, 0)
    case None => l
    case Some(m) => Merged(MergeStep(l, m))
  }

  /** Every interval the loop produces is well-formed and inside `outer` when
      every input interval is. */
  lemma {:induction false} MergedStaysInside(l: seq<Interval>, outer: Interval)
    requires forall c :: c in l ==> WellFormed(c) && Within(c, outer)
    ensures forall c :: c in Merged(l) ==> WellFormed(c) && Within(c, outer)
    decreases |l|
  {
    match FindPair(l, AreIntersect, 0)
    case None =>
    case Some(m) =>
      MergedStaysInside(MergeStep(l, m), outer);
  }

  /** Well-formedness alone is kept as well. */
  lemma {:induction false} MergedWellFormed(l: seq<Interval>)
    requires forall c :: c in l ==> WellFormed(c)
    ensures forall c :: c in Merged(l) ==> WellFormed(c)
    decreases |l|
  {
    match FindPair(l, AreIntersect, 0)
    case None =>
    case Some(m) =>
      var a, b := l[m.key], l[m.key + 1 + m.key1];
      assert WellFormed(Hull(a, b));
      MergedWellFormed(MergeStep(l, m));
  }

  /** Covered seconds only shrink: the appended union adds nothing the matched
      pair did not cover, while the wrongly popped interval may be lost. */
  lemma MergeStepCoverShrinks(l: seq<Interval>, m: Match)
    requires forall c :: c in l ==> WellFormed(c)
    requires Mergeable(l, AreIntersect, m.key, m.key1)
    ensures Cover(MergeStep(l, m)) <= Cover(l)
  {
    var a, b := l[m.key], l[m.key + 1 + m.key1];
    AreIntersectSharesPoint(a, b);
    HullHalfOpen(a, b);
    forall x | x in Cover(MergeStep(l, m)) ensures x in Cover(l) {
      CoverMember(MergeStep(l, m), x);
      var c :| c in MergeStep(l, m) && x in HalfOpen(c);
      if c == Hull(a, b) {
        if x in HalfOpen(a) {
          CoverMember(l, x);
        } else {
          assert x in HalfOpen(b);
          CoverMember(l, x);
        }
      } else {
        CoverMember(l, x);
      }
    }
  }

  lemma {:induction false} MergedCoverShrinks(l: seq<Interval>)
    requires forall c :: c in l ==> WellFormed(c)
    ensures Cover(Merged(l)) <= Cover(l)
    decreases |l|
  {
    match FindPair(l, AreIntersect, 0)
    case None =>
    case Some(m) =>
      var next := MergeStep(l, m);
      var a, b := l[m.key], l[m.key + 1 + m.key1];
      assert WellFormed(Hull(a, b));
      MergeStepCoverShrinks(l, m);
      MergedCoverShrinks(next);
  }

  /** The step with the evidently intended indices: after `pop(key)` the partner
      `key + 1 + key1` has moved down to `key + key1`. */
  function IntendedMergeStep(l: seq<Interval>, m: Match): (r: seq<Interval>)
    requires m.key + 1 + m.key1 < |l|
    ensures |r| == |l| - 1
    ensures multiset(r) + multiset{l[m.key], l[m.key + 1 + m.key1]} ==
            multiset(l) + multiset{Hull(l[m.key], l[m.key + 1 + m.key1])}
  {
    var first := Pop(l, m.key);
    assert first[m.key + m.key1] == l[m.key + 1 + m.key1];
    Pop(first, m.key + m.key1) + [Hull(l[m.key], l[m.key + 1 + m.key1])]
  }

  /** What the intended step keeps: every interval except the matched pair,
      which the union replaces. */
  lemma IntendedMergeStepMembers(l: seq<Interval>, m: Match)
    requires m.key + 1 + m.key1 < |l|
    ensures var h := Hull(l[m.key], l[m.key + 1 + m.key1]);
      h in IntendedMergeStep(l, m) &&
      (forall c :: c in IntendedMergeStep(l, m) ==> c in l || c == h) &&
      (forall c :: c in l && c != l[m.key] && c != l[m.key + 1 + m.key1] ==> c in IntendedMergeStep(l, m))
  {
    var r := IntendedMergeStep(l, m);
    var a, b := l[m.key], l[m.key + 1 + m.key1];
    var h := Hull(a, b);
    assert multiset(r) + multiset{a, b} == multiset(l) + multiset{h};
    assert h in multiset(r) + multiset{a, b};
    forall c | c in r ensures c in l || c == h {
      assert c in multiset(l) + multiset{h};
    }
    forall c | c in l && c != a && c != b ensures c in r {
      assert c in multiset(r) + multiset{a, b};
    }
  }

  /** The intended step keeps exactly the covered seconds when the pair overlaps. */
  lemma IntendedMergeStepKeepsCover(l: seq<Interval>, m: Match)
    requires forall c :: c in l ==> WellFormed(c)
    requires Mergeable(l, Overlap, m.key, m.key1)
    ensures Cover(IntendedMergeStep(l, m)) == Cover(l)
    ensures forall c :: c in IntendedMergeStep(l, m) ==> WellFormed(c)
  {
    var a, b := l[m.key], l[m.key + 1 + m.key1];
    var h := Hull(a, b);
    var r := IntendedMergeStep(l, m);
    IntendedMergeStepMembers(l, m);
    OverlapIffSharePoint(a, b);
    HullHalfOpen(a, b);
    forall x | x in Cover(l) ensures x in Cover(r) {
      CoverMember(l, x);
      CoverMember(r, x);
      var c :| c in l && x in HalfOpen(c);
      if c == a || c == b {
        assert x in HalfOpen(h);
      } else {
        assert c in r;
      }
    }
    forall x | x in Cover(r) ensures x in Cover(l) {
      CoverMember(r, x);
      CoverMember(l, x);
      var c :| c in r && x in HalfOpen(c);
      if c == h {
        assert a in l && b in l;
      }
    }
  }

  /** The merge loop with both corrections: symmetric test, intended pop indices. */
  function IntendedMerged(l: seq<Interval>): (r: seq<Interval>)
    decreases |l|
    ensures Settled(r, Overlap)
    ensures |r| <= |l|
  {
    match FindPair(l, Overlap, 0)
    case None => l
    case Some(m) => IntendedMerged(IntendedMergeStep(l, m))
  }

  /** The corrected loop keeps the covered seconds and well-formedness. */
  lemma {:induction false} IntendedMergedKeepsCover(l: seq<Interval>)
    requires forall c :: c in l ==> WellFormed(c)
    ensures Cover(IntendedMerged(l)) == Cover(l)
    ensures forall c :: c in IntendedMerged(l) ==> WellFormed(c)
    decreases |l|
  {
    match FindPair(l, Overlap, 0)
    case None =>
    case Some(m) =>
      IntendedMergeStepKeepsCover(l, m);
      IntendedMergedKeepsCover(IntendedMergeStep(l, m));
  }
}
