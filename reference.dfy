/** `easy_appearance` (job_task/task_3.py): every interval as the set of its
    seconds `range(start, end)`, the pupil sets and the tutor sets united, and
    the size of their intersection with the lesson. Beside it, the pipeline of
    `optimize_appearance` with the corrected merge, proved to compute the same. */
module Reference {
  import opened Intervals
  import opened MergeLoop
  import opened Attendance

  /** The inputs the model covers: a lesson of exactly two numbers, read by
      `range(*lesson)` as a start and an end, and even flat lists. A one-number
      lesson (`range(stop)`) or a three-number one (a step) is outside it. */
  predicate EasyInput(lesson: seq<int>, pupil: seq<int>, tutor: seq<int>) {
    |lesson| == 2 && |pupil| % 2 == 0 && |tutor| % 2 == 0
  }

  lemma SubsetSize(a: set<int>, b: set<int>)
    requires a <= b
    ensures |a| <= |b|
  {
    assert b == a + (b - a);
  }

  /** The number of lesson seconds during which the pupil and the tutor are both
      present; never more than the lesson's own length. */
  function EasyAppearance(lesson: seq<int>, pupil: seq<int>, tutor: seq<int>): (r: nat)
    requires EasyInput(lesson, pupil, tutor)
    ensures r <= Max(0, lesson[1] - lesson[0])
  {
    var lessonSeconds := HalfOpen(LessonOf(lesson));
    var tutorUnion := Cover(Decode(tutor));
    var pupilUnion := Cover(Decode(pupil));
    SubsetSize(tutorUnion * pupilUnion * lessonSeconds, lessonSeconds);
    HalfOpenSize(LessonOf(lesson));
    |tutorUnion * pupilUnion * lessonSeconds|
  }

  /** No pupil presence or no tutor presence: nothing is counted. */
  lemma EasyZeroWithoutPupilOrTutor(lesson: seq<int>, pupil: seq<int>, tutor: seq<int>)
    requires EasyInput(lesson, pupil, tutor)
    requires pupil == [] || tutor == []
    ensures EasyAppearance(lesson, pupil, tutor) == 0
  {
    if pupil == [] {
      assert Cover(Decode(pupil)) == {};
    } else {
      assert Cover(Decode(tutor)) == {};
    }
  }

  /** The covered seconds depend only on which intervals occur, not on their order. */
  lemma CoverSameElements(a: seq<Interval>, b: seq<Interval>)
    requires forall c :: c in a <==> c in b
    ensures Cover(a) == Cover(b)
  {
    forall x ensures x in Cover(a) <==> x in Cover(b) {
      CoverMember(a, x);
      CoverMember(b, x);
    }
  }

  /** Reordering the pupil pairs or the tutor pairs does not change the result. */
  lemma EasyReorder(lesson: seq<int>, pupil: seq<int>, tutor: seq<int>, pupil': seq<int>, tutor': seq<int>)
    requires EasyInput(lesson, pupil, tutor) && EasyInput(lesson, pupil', tutor')
    requires multiset(Decode(pupil)) == multiset(Decode(pupil'))
    requires multiset(Decode(tutor)) == multiset(Decode(tutor'))
    ensures EasyAppearance(lesson, pupil, tutor) == EasyAppearance(lesson, pupil', tutor')
  {
    forall c ensures c in Decode(pupil) <==> c in Decode(pupil') {
      assert c in Decode(pupil) <==> c in multiset(Decode(pupil));
      assert c in Decode(pupil') <==> c in multiset(Decode(pupil'));
    }
    forall c ensures c in Decode(tutor) <==> c in Decode(tutor') {
      assert c in Decode(tutor) <==> c in multiset(Decode(tutor));
      assert c in Decode(tutor') <==> c in multiset(Decode(tutor'));
    }
    CoverSameElements(Decode(pupil), Decode(pupil'));
    CoverSameElements(Decode(tutor), Decode(tutor'));
  }

  /** Shrinking the lesson window never increases the result. */
  lemma EasyMonotone(lesson: seq<int>, lesson': seq<int>, pupil: seq<int>, tutor: seq<int>)
    requires EasyInput(lesson, pupil, tutor) && EasyInput(lesson', pupil, tutor)
    requires lesson[0] <= lesson'[0] && lesson'[1] <= lesson[1]
    ensures EasyAppearance(lesson', pupil, tutor) <= EasyAppearance(lesson, pupil, tutor)
  {
    var common := Cover(Decode(tutor)) * Cover(Decode(pupil));
    assert HalfOpen(LessonOf(lesson')) <= HalfOpen(LessonOf(lesson));
    SubsetSize(common * HalfOpen(LessonOf(lesson')), common * HalfOpen(LessonOf(lesson)));
  }

  /** Summed durations equal counted seconds once no two intervals share a point. */
  lemma {:induction false} SettledMeasure(l: seq<Interval>)
    requires forall c :: c in l ==> WellFormed(c)
    requires Settled(l, Overlap)
    ensures Total(l) == |Cover(l)|
  {
    if l != [] {
      var init, last := l[..|l| - 1], l[|l| - 1];
      forall key: nat, key1: nat ensures !Mergeable(init, Overlap, key, key1) {
        assert !Mergeable(l, Overlap, key, key1);
      }
      assert forall c :: c in init ==> c in l;
      SettledMeasure(init);
      forall x | x in Cover(init) ensures x !in HalfOpen(last) {
        CoverMember(init, x);
        var c :| c in init && x in HalfOpen(c);
        var i :| 0 <= i < |init| && init[i] == c;
        assert !Mergeable(l, Overlap, i, |l| - 2 - i);
        assert last in l;
        OverlapIffSharePoint(c, last);
      }
      assert last in l;
      HalfOpenSize(last);
      assert Cover(init) * HalfOpen(last) == {};
    }
  }

  /** `optimize_appearance` with the corrected merge loop (symmetric overlap
      test, second pop at `key + key1`). Unlike the loop as written, it never
      counts more seconds than the lesson lasts. */
  function IntendedAppearance(lesson: seq<int>, pupil: seq<int>, tutor: seq<int>): (r: int)
    requires ValidInput(lesson, pupil, tutor)
    ensures r >= 0
    ensures |lesson| >= 2 ==> r <= Max(0, lesson[1] - lesson[0])
  {
    if lesson == [] && pupil == [] && tutor == [] then 0
    else
      var les := LessonOf(lesson);
      var lp := Intersections(les, Decode(pupil));
      if lp == [] then 0
      else
        var cands := Candidates(lp, Decode(tutor));
        CandidatesInside(les, Decode(pupil), Decode(tutor));
        CandidatesCover(les, Decode(pupil), Decode(tutor));
        IntendedMergedKeepsCover(cands);
        SettledMeasure(IntendedMerged(cands));
        SubsetSize(Cover(IntendedMerged(cands)), HalfOpen(les));
        HalfOpenSize(les);
        Total(IntendedMerged(cands))
  }

  /** The corrected pipeline and the set-based version agree on every input with
      a two-number lesson and even lists. */
  lemma IntendedMatchesEasy(lesson: seq<int>, pupil: seq<int>, tutor: seq<int>)
    requires EasyInput(lesson, pupil, tutor)
    ensures IntendedAppearance(lesson, pupil, tutor) == EasyAppearance(lesson, pupil, tutor)
  {
    var les, pupils, tutors := LessonOf(lesson), Decode(pupil), Decode(tutor);
    var lp := Intersections(les, pupils);
    var cands := Candidates(lp, tutors);
    CandidatesCover(les, pupils, tutors);
    var counted := Cover(tutors) * Cover(pupils) * HalfOpen(les);
    assert Cover(cands) == counted;
    if lp == [] {
      IntersectionsCover(les, pupils);
      assert counted == {};
    } else {
      CandidatesInside(les, pupils, tutors);
      IntendedMergedKeepsCover(cands);
      SettledMeasure(IntendedMerged(cands));
    }
  }
}
