/** The data embedded in job_task/task_3.py and the inputs that exhibit the two
    merge-loop defects, evaluated on the model. */
module Scenarios {
  import opened Intervals
  import opened MergeLoop
  import opened Attendance
  import opened Reference

  lemma IntersectionsSnoc(a: Interval, bs: seq<Interval>, b: Interval)
    ensures Intersections(a, bs + [b]) == Intersections(a, bs) + Found(GetIntersection(a, b))
  {
    assert (bs + [b])[..|bs|] == bs;
  }

  lemma CandidatesSnoc(lp: seq<Interval>, p: Interval, tutors: seq<Interval>)
    ensures Candidates(lp + [p], tutors) == Candidates(lp, tutors) + Intersections(p, tutors)
  {
    assert (lp + [p])[..|lp|] == lp;
  }

  lemma TotalSnoc(l: seq<Interval>, c: Interval)
    ensures Total(l + [c]) == Total(l) + (c.end - c.start)
  {
    assert (l + [c])[..|l|] == l;
  }

  lemma Intersections1(a: Interval, b0: Interval)
    ensures Intersections(a, [b0]) == Found(GetIntersection(a, b0))
  {
    IntersectionsSnoc(a, [], b0);
    assert [] + [b0] == [b0];
  }

  lemma Intersections2(a: Interval, b0: Interval, b1: Interval)
    ensures Intersections(a, [b0, b1]) == Found(GetIntersection(a, b0)) + Found(GetIntersection(a, b1))
  {
    Intersections1(a, b0);
    IntersectionsSnoc(a, [b0], b1);
    assert [b0] + [b1] == [b0, b1];
  }

  lemma Intersections3(a: Interval, b0: Interval, b1: Interval, b2: Interval)
    ensures Intersections(a, [b0, b1, b2]) ==
      Found(GetIntersection(a, b0)) + Found(GetIntersection(a, b1)) + Found(GetIntersection(a, b2))
  {
    Intersections2(a, b0, b1);
    IntersectionsSnoc(a, [b0, b1], b2);
    assert [b0, b1] + [b2] == [b0, b1, b2];
  }

  lemma IntersectionsWithin(a: Interval, b: Interval)
    requires WellFormed(a) && Within(a, b)
    ensures Intersections(a, [b]) == [a]
  {
    Intersections1(a, b);
  }

  lemma Candidates1(p0: Interval, tutors: seq<Interval>)
    ensures Candidates([p0], tutors) == Intersections(p0, tutors)
  {
    CandidatesSnoc([], p0, tutors);
    assert [] + [p0] == [p0];
  }

  lemma Candidates2(p0: Interval, p1: Interval, tutors: seq<Interval>)
    ensures Candidates([p0, p1], tutors) == Intersections(p0, tutors) + Intersections(p1, tutors)
  {
    Candidates1(p0, tutors);
    CandidatesSnoc([p0], p1, tutors);
    assert [p0] + [p1] == [p0, p1];
  }

  lemma Candidates3(p0: Interval, p1: Interval, p2: Interval, tutors: seq<Interval>)
    ensures Candidates([p0, p1, p2], tutors) ==
      Intersections(p0, tutors) + Intersections(p1, tutors) + Intersections(p2, tutors)
  {
    Candidates2(p0, p1, tutors);
    CandidatesSnoc([p0, p1], p2, tutors);
    assert [p0, p1] + [p2] == [p0, p1, p2];
  }

  lemma Total1(a: Interval)
    ensures Total([a]) == a.end - a.start
  {
    TotalSnoc([], a);
    assert [] + [a] == [a];
  }

  lemma Total2(a: Interval, b: Interval)
    ensures Total([a, b]) == (a.end - a.start) + (b.end - b.start)
  {
    Total1(a);
    TotalSnoc([a], b);
    assert [a] + [b] == [a, b];
  }

  lemma Total4(a: Interval, b: Interval, c: Interval, d: Interval)
    ensures Total([a, b, c, d]) == (a.end - a.start) + (b.end - b.start) + (c.end - c.start) + (d.end - d.start)
  {
    Total2(a, b);
    TotalSnoc([a, b], c);
    assert [a, b] + [c] == [a, b, c];
    TotalSnoc([a, b, c], d);
    assert [a, b, c] + [d] == [a, b, c, d];
  }

  lemma Test1Pupil()
    ensures Intersections(Interval(1594663200, 1594666800),
                          Decode([1594663340, 1594663389, 1594663390, 1594663395, 1594663396, 1594666472])) ==
            [Interval(1594663340, 1594663389), Interval(1594663390, 1594663395), Interval(1594663396, 1594666472)]
  {
    assert Decode([1594663340, 1594663389, 1594663390, 1594663395, 1594663396, 1594666472]) ==
           [Interval(1594663340, 1594663389), Interval(1594663390, 1594663395), Interval(1594663396, 1594666472)];
    Intersections3(Interval(1594663200, 1594666800),
                   Interval(1594663340, 1594663389), Interval(1594663390, 1594663395), Interval(1594663396, 1594666472));
  }

  lemma Test1Tutor()
    ensures Candidates([Interval(1594663340, 1594663389), Interval(1594663390, 1594663395), Interval(1594663396, 1594666472)],
                       Decode([1594663290, 1594663430, 1594663443, 1594666473])) ==
            [Interval(1594663340, 1594663389), Interval(1594663390, 1594663395),
             Interval(1594663396, 1594663430), Interval(1594663443, 1594666472)]
  {
    var t0, t1 := Interval(1594663290, 1594663430), Interval(1594663443, 1594666473);
    assert Decode([1594663290, 1594663430, 1594663443, 1594666473]) == [t0, t1];
    Intersections2(Interval(1594663340, 1594663389), t0, t1);
    Intersections2(Interval(1594663390, 1594663395), t0, t1);
    Intersections2(Interval(1594663396, 1594666472), t0, t1);
    Candidates3(Interval(1594663340, 1594663389), Interval(1594663390, 1594663395), Interval(1594663396, 1594666472), [t0, t1]);
  }

  lemma Test1Settled()
    ensures Merged([Interval(1594663340, 1594663389), Interval(1594663390, 1594663395),
                    Interval(1594663396, 1594663430), Interval(1594663443, 1594666472)]) ==
            [Interval(1594663340, 1594663389), Interval(1594663390, 1594663395),
             Interval(1594663396, 1594663430), Interval(1594663443, 1594666472)]
  {
    var a, b, c, d := Interval(1594663340, 1594663389), Interval(1594663390, 1594663395),
                      Interval(1594663396, 1594663430), Interval(1594663443, 1594666472);
    assert FindPair([a, b, c, d], AreIntersect, 0) == None;
  }

  /** The first embedded test case: 3117 seconds. */
  lemma FirstEmbeddedTest()
    ensures AppearanceOf([1594663200, 1594666800],
                         [1594663340, 1594663389, 1594663390, 1594663395, 1594663396, 1594666472],
                         [1594663290, 1594663430, 1594663443, 1594666473]) == 3117
  {
    var a, b, c, d := Interval(1594663340, 1594663389), Interval(1594663390, 1594663395),
                      Interval(1594663396, 1594663430), Interval(1594663443, 1594666472);
    Test1Pupil();
    Test1Tutor();
    Test1Settled();
    Total4(a, b, c, d);
  }

  lemma Test3Passes()
    ensures Candidates(Intersections(Interval(1594692000, 1594695600), Decode([1594692033, 1594696347])),
                       Decode([1594692017, 1594692066, 1594692068, 1594696341])) ==
            [Interval(1594692033, 1594692066), Interval(1594692068, 1594695600)]
  {
    var t0, t1 := Interval(1594692017, 1594692066), Interval(1594692068, 1594696341);
    var q0 := Interval(1594692033, 1594695600);
    assert Decode([1594692033, 1594696347]) == [Interval(1594692033, 1594696347)];
    assert Decode([1594692017, 1594692066, 1594692068, 1594696341]) == [t0, t1];
    Intersections1(Interval(1594692000, 1594695600), Interval(1594692033, 1594696347));
    Intersections2(q0, t0, t1);
    Candidates1(q0, [t0, t1]);
  }

  /** The third embedded test case: 3565 seconds. */
  lemma ThirdEmbeddedTest()
    ensures AppearanceOf([1594692000, 1594695600], [1594692033, 1594696347],
                         [1594692017, 1594692066, 1594692068, 1594696341]) == 3565
  {
    var a, b := Interval(1594692033, 1594692066), Interval(1594692068, 1594695600);
    Test3Passes();
    assert Decode([1594692033, 1594696347]) == [Interval(1594692033, 1594696347)];
    Intersections1(Interval(1594692000, 1594695600), Interval(1594692033, 1594696347));
    assert FindPair([a, b], AreIntersect, 0) == None;
    Total2(a, b);
  }

  /** All three lists empty: the early return. */
  lemma EmptyInputGivesZero()
    ensures AppearanceOf([], [], []) == 0
  {
  }

  /** A pupil who is present only outside the lesson: 0, in both versions. */
  lemma PupilAfterLessonGivesZero()
    ensures AppearanceOf([0, 100], [200, 300], [0, 100]) == 0
    ensures EasyAppearance([0, 100], [200, 300], [0, 100]) == 0
  {
    assert Decode([200, 300]) == [Interval(200, 300)];
    Intersections1(Interval(0, 100), Interval(200, 300));
    IntendedMatchesEasy([0, 100], [200, 300], [0, 100]);
  }

  lemma LosingPupilPass()
    ensures Intersections(Interval(0, 100), Decode([0, 1, 10, 20, 15, 25])) ==
            [Interval(0, 1), Interval(10, 20), Interval(15, 25)]
  {
    var p0, p1, p2 := Interval(0, 1), Interval(10, 20), Interval(15, 25);
    assert Decode([0, 1, 10, 20, 15, 25]) == [p0, p1, p2];
    Intersections3(Interval(0, 100), p0, p1, p2);
  }

  lemma CandidatesWithin3(p0: Interval, p1: Interval, p2: Interval, t: Interval)
    requires WellFormed(p0) && WellFormed(p1) && WellFormed(p2)
    requires Within(p0, t) && Within(p1, t) && Within(p2, t)
    ensures Candidates([p0, p1, p2], [t]) == [p0, p1, p2]
  {
    IntersectionsWithin(p0, t);
    IntersectionsWithin(p1, t);
    IntersectionsWithin(p2, t);
    Candidates3(p0, p1, p2, [t]);
  }

  lemma LosingTutorPass()
    ensures Candidates([Interval(0, 1), Interval(10, 20), Interval(15, 25)], Decode([0, 100])) ==
            [Interval(0, 1), Interval(10, 20), Interval(15, 25)]
  {
    assert Decode([0, 100]) == [Interval(0, 100)];
    CandidatesWithin3(Interval(0, 1), Interval(10, 20), Interval(15, 25), Interval(0, 100));
  }

  lemma LosingPasses()
    ensures Intersections(Interval(0, 100), Decode([0, 1, 10, 20, 15, 25])) ==
            [Interval(0, 1), Interval(10, 20), Interval(15, 25)]
    ensures Candidates([Interval(0, 1), Interval(10, 20), Interval(15, 25)], Decode([0, 100])) ==
            [Interval(0, 1), Interval(10, 20), Interval(15, 25)]
  {
    LosingPupilPass();
    LosingTutorPass();
  }

  lemma LosingScan()
    ensures FindPair([Interval(0, 1), Interval(10, 20), Interval(15, 25)], AreIntersect, 0) == Some(Match(1, 0))
    ensures FindPair([Interval(15, 25), Interval(10, 25)], AreIntersect, 0) == Some(Match(0, 0))
    ensures FindPair([Interval(10, 25)], AreIntersect, 0) == None
  {
    assert !AreIntersect(Interval(0, 1), Interval(10, 20)) && !AreIntersect(Interval(0, 1), Interval(15, 25));
  }

  lemma AsWrittenLosesInterval()
    ensures Merged([Interval(0, 1), Interval(10, 20), Interval(15, 25)]) == [Interval(10, 25)]
  {
    var cands := [Interval(0, 1), Interval(10, 20), Interval(15, 25)];
    var next := [Interval(15, 25), Interval(10, 25)];
    LosingScan();
    assert MergeStep(cands, Match(1, 0)) == next;
    assert MergeStep(next, Match(0, 0)) == [Interval(10, 25)];
  }

  lemma IntendedScan()
    ensures FindPair([Interval(0, 1), Interval(10, 20), Interval(15, 25)], Overlap, 0) == Some(Match(1, 0))
    ensures FindPair([Interval(0, 1), Interval(10, 25)], Overlap, 0) == None
  {
    assert !Overlap(Interval(0, 1), Interval(10, 20)) && !Overlap(Interval(0, 1), Interval(15, 25));
    assert !Overlap(Interval(0, 1), Interval(10, 25));
  }

  lemma IntendedKeepsInterval()
    ensures IntendedMerged([Interval(0, 1), Interval(10, 20), Interval(15, 25)]) == [Interval(0, 1), Interval(10, 25)]
  {
    var cands := [Interval(0, 1), Interval(10, 20), Interval(15, 25)];
    IntendedScan();
    assert IntendedMergeStep(cands, Match(1, 0)) == [Interval(0, 1), Interval(10, 25)];
  }

  lemma LosingAsWritten()
    ensures AppearanceOf([0, 100], [0, 1, 10, 20, 15, 25], [0, 100]) == 15
  {
    LosingPasses();
    AsWrittenLosesInterval();
    Total1(Interval(10, 25));
  }

  lemma LosingIntended()
    ensures IntendedAppearance([0, 100], [0, 1, 10, 20, 15, 25], [0, 100]) == 16
  {
    LosingPasses();
    IntendedKeepsInterval();
    Total2(Interval(0, 1), Interval(10, 25));
  }

  /** The second pop removes `(0, 1)` instead of the matched `(15, 25)`: the
      pupil's first second in the lesson is lost, 15 instead of 16. */
  lemma PopIndexLosesInterval()
    ensures MergeStep([Interval(0, 1), Interval(10, 20), Interval(15, 25)], Match(1, 0)) ==
            [Interval(15, 25), Interval(10, 25)]
    ensures AppearanceOf([0, 100], [0, 1, 10, 20, 15, 25], [0, 100]) == 15
    ensures IntendedAppearance([0, 100], [0, 1, 10, 20, 15, 25], [0, 100]) == 16
    ensures EasyAppearance([0, 100], [0, 1, 10, 20, 15, 25], [0, 100]) == 16
  {
    LosingAsWritten();
    LosingIntended();
    IntendedMatchesEasy([0, 100], [0, 1, 10, 20, 15, 25], [0, 100]);
  }

  lemma ContainedPasses()
    ensures Intersections(Interval(0, 100), Decode([10, 20, 12, 13])) == [Interval(10, 20), Interval(12, 13)]
    ensures Candidates([Interval(10, 20), Interval(12, 13)], Decode([0, 100])) == [Interval(10, 20), Interval(12, 13)]
  {
    var les := Interval(0, 100);
    var p0, p1 := Interval(10, 20), Interval(12, 13);
    assert Decode([10, 20, 12, 13]) == [p0, p1];
    assert Decode([0, 100]) == [les];
    Intersections2(les, p0, p1);
    Intersections1(p0, les);
    Intersections1(p1, les);
    Candidates2(p0, p1, [les]);
  }

  lemma ContainedSettled()
    ensures Merged([Interval(10, 20), Interval(12, 13)]) == [Interval(10, 20), Interval(12, 13)]
  {
    var p0, p1 := Interval(10, 20), Interval(12, 13);
    assert FindPair([p0, p1], AreIntersect, 0) == None;
  }

  lemma ContainedAsWritten()
    ensures AppearanceOf([0, 100], [10, 20, 12, 13], [0, 100]) == 11
  {
    ContainedPasses();
    ContainedSettled();
    Total2(Interval(10, 20), Interval(12, 13));
  }

  lemma ContainedIntendedMerge()
    ensures IntendedMerged([Interval(10, 20), Interval(12, 13)]) == [Interval(10, 20)]
  {
    var p0, p1 := Interval(10, 20), Interval(12, 13);
    assert FindPair([p0, p1], Overlap, 0) == Some(Match(0, 0));
    assert IntendedMergeStep([p0, p1], Match(0, 0)) == [p0];
    assert FindPair([p0], Overlap, 0) == None;
  }

  lemma ContainedIntended()
    ensures IntendedAppearance([0, 100], [10, 20, 12, 13], [0, 100]) == 10
  {
    ContainedPasses();
    ContainedIntendedMerge();
    Total1(Interval(10, 20));
  }

  /** `(12, 13)` lies strictly inside `(10, 20)`; `areIntersect((10, 20), (12, 13))`
      is false, so both are summed: 11 instead of 10. */
  lemma ContainedIntervalCountedTwice()
    ensures AppearanceOf([0, 100], [10, 20, 12, 13], [0, 100]) == 11
    ensures IntendedAppearance([0, 100], [10, 20, 12, 13], [0, 100]) == 10
    ensures EasyAppearance([0, 100], [10, 20, 12, 13], [0, 100]) == 10
  {
    ContainedAsWritten();
    ContainedIntended();
    IntendedMatchesEasy([0, 100], [10, 20, 12, 13], [0, 100]);
  }
}
