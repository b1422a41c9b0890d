/** `optimize_appearance` (job_task/task_3.py): decode the flat lists, intersect
    lesson x pupil, then x tutor, merge, and sum the durations. The pipeline is
    given once as a specification function, `AppearanceOf`, and once as the
    imperative method `OptimizeAppearance` with the source's loops. */
module Attendance {
  import opened Intervals
  import opened MergeLoop

  /** `[s1, e1, s2, e2, ...]` read as the pairs `(s1, e1), (s2, e2), ...`. */
  function Decode(xs: seq<int>): (r: seq<Interval>)
    requires |xs| % 2 == 0
    ensures |r| == |xs| / 2
    ensures forall k :: 0 <= k < |r| ==> r[k] == Interval(xs[2 * k], xs[2 * k + 1])
    decreases |xs|
  {
    if xs == [] then [] else [Interval(xs[0], xs[1])] + Decode(xs[2..])
  }

  /** The flat encoding the caller supplies. */
  function Flatten(l: seq<Interval>): (xs: seq<int>)
    ensures |xs| == 2 * |l|
  {
    if l == [] then [] else [l[0].start, l[0].end] + Flatten(l[1..])
  }

  lemma {:induction false} DecodeFlatten(l: seq<Interval>)
    ensures Decode(Flatten(l)) == l
  {
    if l != [] {
      DecodeFlatten(l[1..]);
      assert Flatten(l)[2..] == Flatten(l[1..]);
    }
  }

  lemma {:induction false} FlattenDecode(xs: seq<int>)
    requires |xs| % 2 == 0
    ensures Flatten(Decode(xs)) == xs
    decreases |xs|
  {
    if xs != [] {
      FlattenDecode(xs[2..]);
      assert Decode(xs)[1..] == Decode(xs[2..]);
    }
  }

  /** The intersections of `a` with each of `bs`, in order, skipping the empty ones. */
  function Intersections(a: Interval, bs: seq<Interval>): (r: seq<Interval>)
    ensures |r| <= |bs|
    ensures forall c :: c in r ==> WellFormed(c) && Within(c, a)
  {
    if bs == [] then []
    else
      Intersections(a, bs[..|bs| - 1]) + Found(GetIntersection(a, bs[|bs| - 1]))
  }

  /** Each interval of `lp` intersected with every tutor interval, in `lp`-major
      order: the second pass. */
  function Candidates(lp: seq<Interval>, tutors: seq<Interval>): (r: seq<Interval>)
    ensures |r| <= |lp| * |tutors|
  {
    if lp == [] then []
    else
      var init := Candidates(lp[..|lp| - 1], tutors);
      assert |init| <= |lp| * |tutors| - |tutors| by {
        assert (|lp| - 1) * |tutors| == |lp| * |tutors| - |tutors|;
      }
      init + Intersections(lp[|lp| - 1], tutors)
  }

  /** `sum([plt[1] - plt[0] for plt in pl_tutors])`: never negative over
      well-formed intervals, and 0 when every interval has zero length. */
  function Total(l: seq<Interval>): (r: int)
    ensures (forall c :: c in l ==> WellFormed(c)) ==> r >= 0
    ensures (forall c :: c in l ==> c.start == c.end) ==> r == 0
  {
    if l == [] then 0
    else
      var init := l[..|l| - 1];
      assert forall c :: c in init ==> c in l;
      assert l[|l| - 1] in l;
      Total(init) + (l[|l| - 1].end - l[|l| - 1].start)
  }

  /** What the source indexes without failing: even flat lists, and a lesson of
      at least two numbers unless all three lists are empty. */
  predicate ValidInput(lesson: seq<int>, pupil: seq<int>, tutor: seq<int>) {
    |pupil| % 2 == 0 && |tutor| % 2 == 0 &&
    (|lesson| >= 2 || (lesson == [] && pupil == [] && tutor == []))
  }

  function LessonOf(lesson: seq<int>): Interval
    requires |lesson| >= 2
  {
    Interval(lesson[0], lesson[1])
  }

  lemma {:induction false} IntersectionsInside(a: Interval, bs: seq<Interval>)
    ensures forall c :: c in Intersections(a, bs) ==>
      WellFormed(c) && Within(c, a) && exists b :: b in bs && Within(c, b)
  {
    if bs != [] {
      var init, last := bs[..|bs| - 1], bs[|bs| - 1];
      IntersectionsInside(a, init);
      forall c | c in Intersections(a, bs)
        ensures WellFormed(c) && Within(c, a) && exists b :: b in bs && Within(c, b)
      {
        if c in Intersections(a, init) {
          var b :| b in init && Within(c, b);
          assert b in bs;
        } else {
          assert Within(c, last);
        }
      }
    }
  }

  lemma {:induction false} CandidatesInsidePairs(lp: seq<Interval>, tutors: seq<Interval>)
    ensures forall c :: c in Candidates(lp, tutors) ==>
      WellFormed(c) && (exists p :: p in lp && Within(c, p)) && exists t :: t in tutors && Within(c, t)
  {
    if lp != [] {
      var init, last := lp[..|lp| - 1], lp[|lp| - 1];
      CandidatesInsidePairs(init, tutors);
      IntersectionsInside(last, tutors);
      forall c | c in Candidates(lp, tutors)
        ensures WellFormed(c) && (exists p :: p in lp && Within(c, p)) && exists t :: t in tutors && Within(c, t)
      {
        if c in Candidates(init, tutors) {
          var p :| p in init && Within(c, p);
          assert p in lp;
        } else {
          assert c in Intersections(last, tutors);
          assert Within(c, last);
        }
      }
    }
  }

  /** After both intersection passes every candidate is well-formed and lies in
      the lesson, in some pupil interval and in some tutor interval. */
  lemma CandidatesInside(lesson: Interval, pupils: seq<Interval>, tutors: seq<Interval>)
    ensures forall c :: c in Candidates(Intersections(lesson, pupils), tutors) ==>
      WellFormed(c) && Within(c, lesson) &&
      (exists p :: p in pupils && Within(c, p)) && (exists t :: t in tutors && Within(c, t))
  {
    var lp := Intersections(lesson, pupils);
    IntersectionsInside(lesson, pupils);
    CandidatesInsidePairs(lp, tutors);
    forall c | c in Candidates(lp, tutors)
      ensures Within(c, lesson) && exists p :: p in pupils && Within(c, p)
    {
      var q :| q in lp && Within(c, q);
      var p :| p in pupils && Within(q, p);
      assert Within(c, p);
    }
  }

  /** The value `optimize_appearance` returns. It is never negative: every
      candidate comes out of `get_intersection` well-formed, and the merge keeps that. */
  function AppearanceOf(lesson: seq<int>, pupil: seq<int>, tutor: seq<int>): (r: int)
    requires ValidInput(lesson, pupil, tutor)
    ensures r >= 0
  {
    if lesson == [] && pupil == [] && tutor == [] then 0
    else
      var les := LessonOf(lesson);
      var lp := Intersections(les, Decode(pupil));
      if lp == [] then 0
      else
        var cands := Candidates(lp, Decode(tutor));
        CandidatesInside(les, Decode(pupil), Decode(tutor));
        MergedWellFormed(cands);
        Total(Merged(cands))
  }

  lemma {:induction false} CandidatesWithoutTutors(lp: seq<Interval>)
    ensures Candidates(lp, []) == []
  {
    if lp != [] {
      CandidatesWithoutTutors(lp[..|lp| - 1]);
    }
  }

  /** An empty pupil list or an empty tutor list gives 0. */
  lemma NoPupilOrTutorGivesZero(lesson: seq<int>, pupil: seq<int>, tutor: seq<int>)
    requires ValidInput(lesson, pupil, tutor)
    requires pupil == [] || tutor == []
    ensures AppearanceOf(lesson, pupil, tutor) == 0
  {
    if !(lesson == [] && pupil == [] && tutor == []) {
      var lp := Intersections(LessonOf(lesson), Decode(pupil));
      if lp != [] {
        assert pupil != [];
        CandidatesWithoutTutors(lp);
        assert Decode(tutor) == [];
      }
    }
  }

  /** A lesson that no pupil interval meets gives 0 whatever the tutor did. */
  lemma PupilOutsideLessonGivesZero(lesson: seq<int>, pupil: seq<int>, tutor: seq<int>)
    requires ValidInput(lesson, pupil, tutor) && |lesson| >= 2
    requires forall p :: p in Decode(pupil) ==> GetIntersection(LessonOf(lesson), p).None?
    ensures AppearanceOf(lesson, pupil, tutor) == 0
  {
    var lp := Intersections(LessonOf(lesson), Decode(pupil));
    IntersectionsInside(LessonOf(lesson), Decode(pupil));
    if lp != [] {
      assert lp[0] in lp;
      var p :| p in Decode(pupil) && Within(lp[0], p);
      assert InClosed(lp[0].start, p) && InClosed(lp[0].start, LessonOf(lesson));
    }
  }

  /** A lesson that no tutor interval meets gives 0 whatever the pupil did. */
  lemma TutorOutsideLessonGivesZero(lesson: seq<int>, pupil: seq<int>, tutor: seq<int>)
    requires ValidInput(lesson, pupil, tutor) && |lesson| >= 2
    requires forall t :: t in Decode(tutor) ==> GetIntersection(LessonOf(lesson), t).None?
    ensures AppearanceOf(lesson, pupil, tutor) == 0
  {
    var les := LessonOf(lesson);
    var cands := Candidates(Intersections(les, Decode(pupil)), Decode(tutor));
    CandidatesInside(les, Decode(pupil), Decode(tutor));
    if cands != [] {
      var c := cands[0];
      assert c in cands;
      var t :| t in Decode(tutor) && Within(c, t);
      GetIntersectionNone(les, t);
      assert InClosed(c.start, les) && InClosed(c.start, t);
    }
  }

  /** A lesson that ends no later than it starts gives 0: every summed interval
      lies inside it and so has no length. */
  lemma DegenerateLessonGivesZero(lesson: seq<int>, pupil: seq<int>, tutor: seq<int>)
    requires ValidInput(lesson, pupil, tutor) && |lesson| >= 2
    requires lesson[0] >= lesson[1]
    ensures AppearanceOf(lesson, pupil, tutor) == 0
  {
    var les := LessonOf(lesson);
    var cands := Candidates(Intersections(les, Decode(pupil)), Decode(tutor));
    CandidatesInside(les, Decode(pupil), Decode(tutor));
    MergedStaysInside(cands, les);
  }

  /** What is summed: well-formed intervals inside the lesson that no further
      scan would merge, covering no second outside lesson, pupil and tutor presence. */
  lemma FinalIntervals(lesson: seq<int>, pupil: seq<int>, tutor: seq<int>)
    requires ValidInput(lesson, pupil, tutor) && |lesson| >= 2
    ensures var final := Merged(Candidates(Intersections(LessonOf(lesson), Decode(pupil)), Decode(tutor)));
      Settled(final, AreIntersect) &&
      (forall c :: c in final ==> WellFormed(c) && Within(c, LessonOf(lesson))) &&
      Cover(final) <= Cover(Decode(pupil)) * Cover(Decode(tutor)) &&
      (Intersections(LessonOf(lesson), Decode(pupil)) != [] ==> AppearanceOf(lesson, pupil, tutor) == Total(final))
  {
    var les := LessonOf(lesson);
    var cands := Candidates(Intersections(les, Decode(pupil)), Decode(tutor));
    CandidatesInside(les, Decode(pupil), Decode(tutor));
    MergedStaysInside(cands, les);
    MergedCoverShrinks(cands);
    CandidatesCover(les, Decode(pupil), Decode(tutor));
  }

  lemma {:induction false} IntersectionsCover(a: Interval, bs: seq<Interval>)
    ensures Cover(Intersections(a, bs)) == HalfOpen(a) * Cover(bs)
  {
    if bs != [] {
      var init, last := bs[..|bs| - 1], bs[|bs| - 1];
      IntersectionsCover(a, init);
      GetIntersectionHalfOpen(a, last);
      var found := GetIntersection(a, last);
      var tail := Found(found);
      CoverAppend(Intersections(a, init), tail);
      if found.Some? {
        assert Cover(tail) == HalfOpen(found.value) by {
          assert tail[..0] == [];
        }
      }
    }
  }

  lemma {:induction false} CandidatesPairsCover(lp: seq<Interval>, tutors: seq<Interval>)
    ensures Cover(Candidates(lp, tutors)) == Cover(lp) * Cover(tutors)
  {
    if lp != [] {
      var init, last := lp[..|lp| - 1], lp[|lp| - 1];
      CandidatesPairsCover(init, tutors);
      IntersectionsCover(last, tutors);
      CoverAppend(Candidates(init, tutors), Intersections(last, tutors));
    }
  }

  /** The candidates cover exactly the seconds of the lesson during which the
      pupil and the tutor are both present. */
  lemma CandidatesCover(lesson: Interval, pupils: seq<Interval>, tutors: seq<Interval>)
    ensures Cover(Candidates(Intersections(lesson, pupils), tutors)) ==
            HalfOpen(lesson) * Cover(pupils) * Cover(tutors)
  {
    IntersectionsCover(lesson, pupils);
    CandidatesPairsCover(Intersections(lesson, pupils), tutors);
  }

  /** The first pass (lesson x pupil), appending each non-empty intersection to `temp`. */
  method LessonPupilPass(les: Interval, pupils: seq<Interval>) returns (temp: seq<Interval>)
    ensures temp == Intersections(les, pupils)
  {
    temp := [];
    for i := 0 to |pupils|
      invariant temp == Intersections(les, pupils[..i])
    {
      assert pupils[..i + 1][..i] == pupils[..i];
      var pupilLesson := GetIntersection(les, pupils[i]);
      if pupilLesson.Some? {
        temp := temp + [pupilLesson.value];
      }
    }
    assert pupils[..|pupils|] == pupils;
  }

  /** The second pass, nested: every lesson-pupil piece against every tutor interval. */
  method TutorPass(temp: seq<Interval>, tutors: seq<Interval>) returns (plTutors: seq<Interval>)
    ensures plTutors == Candidates(temp, tutors)
  {
    plTutors := [];
    for i := 0 to |temp|
      invariant plTutors == Candidates(temp[..i], tutors)
    {
      assert temp[..i + 1][..i] == temp[..i];
      for j := 0 to |tutors|
        invariant plTutors == Candidates(temp[..i], tutors) + Intersections(temp[i], tutors[..j])
      {
        assert tutors[..j + 1][..j] == tutors[..j];
        var pupilLessonTutor := GetIntersection(temp[i], tutors[j]);
        if pupilLessonTutor.Some? {
          plTutors := plTutors + [pupilLessonTutor.value];
        }
      }
      assert tutors[..|tutors|] == tutors;
    }
    assert temp[..|temp|] == temp;
  }

  /** One scan of the `while True` loop (the two nested `for` loops with their
      `break`s): the first pair in scan order that `areIntersect` accepts. */
  method ScanForPair(plTutors: seq<Interval>) returns (found: Option<Match>)
    ensures found == FindPair(plTutors, AreIntersect, 0)
    ensures found.Some? ==> Mergeable(plTutors, AreIntersect, found.value.key, found.value.key1)
    ensures found.None? ==> Settled(plTutors, AreIntersect)
  {
    found := None;
    var key := 0;
    while key + 1 < |plTutors|
      invariant found.None?
      invariant forall k: nat, k1: nat :: k < key ==> !Mergeable(plTutors, AreIntersect, k, k1)
    {
      var key1 := 0;
      while key + 1 + key1 < |plTutors|
        invariant found.None?
        invariant forall k1: nat :: k1 < key1 ==> !Mergeable(plTutors, AreIntersect, key, k1)
      {
        if AreIntersect(plTutors[key], plTutors[key + 1 + key1]) {
          found := Some(Match(key, key1));
          FirstInScanOrder(plTutors, AreIntersect, found.value);
          break;
        }
        key1 := key1 + 1;
      }
      if found.Some? {
        break;
      }
      key := key + 1;
    }
  }

  /** The `while True` loop: on the pair the scan finds, `temp.pop(key)`,
      `temp.pop(key1)`, append the union and restart; stop after a scan that
      finds nothing. */
  method MergeRepeated(candidates: seq<Interval>) returns (plTutors: seq<Interval>)
    ensures plTutors == Merged(candidates)
    ensures Settled(plTutors, AreIntersect)
  {
    plTutors := candidates;
    while true
      invariant Merged(plTutors) == Merged(candidates)
      decreases |plTutors|
    {
      var found := ScanForPair(plTutors);
      if found.None? {
        break;
      }
      var key, key1 := found.value.key, found.value.key1;
      var plt, plt1 := plTutors[key], plTutors[key + 1 + key1];
      var temp := plTutors;
      temp := Pop(temp, key);
      temp := Pop(temp, key1);
      temp := temp + [Hull(plt, plt1)];
      plTutors := temp;
    }
  }

  /** `optimize_appearance`: the early returns, the two passes, the merge loop, the sum. */
  method OptimizeAppearance(lesson: seq<int>, pupil: seq<int>, tutor: seq<int>) returns (total: int)
    requires ValidInput(lesson, pupil, tutor)
    ensures total == AppearanceOf(lesson, pupil, tutor)
    ensures total >= 0
  {
    if lesson == [] && pupil == [] && tutor == [] {
      return 0;
    }
    var les := LessonOf(lesson);
    var pupils := Decode(pupil);
    var tutors := Decode(tutor);
    var temp := LessonPupilPass(les, pupils);
    if temp == [] {
      return 0;
    }
    var plTutors := TutorPass(temp, tutors);
    plTutors := MergeRepeated(plTutors);
    total := Total(plTutors);
  }
}
