# Lesson attendance and first-zero index, modelled in Dafny

This project models two small Python functions.

- `job_task/task_3.py` computes how many seconds of a lesson a pupil and a
  tutor were both present. Each of the three parties is given as a flat list
  of timestamps in seconds, `[start1, end1, start2, end2, ...]`.
  - `optimize_appearance` decodes the lists into `(start, end)` pairs. It
    intersects the lesson with every pupil pair, then every result with every
    tutor pair (`get_intersection`). Then it repeatedly merges the first pair
    that `areIntersect` accepts, until a full scan finds none, and sums
    `end - start` over what is left.
  - `easy_appearance` computes the count from sets of seconds. Because of the
    two merge-loop defects below, the two functions can disagree.
- `job_task/task_1.py` returns `"OUT: "` followed by the index of the first
  `'0'` in a string, or `-1` when there is none.

The modules follow the source:

- `Intervals` (`intervals.dfy`): the interval value, `get_intersection`,
  `areIntersect`, the union of two intervals, and seconds as sets.
- `MergeLoop` (`merge.dfy`): the restart-on-change merge loop as a
  specification on sequences. It keeps the pop indices exactly as written.
  Beside it sits the corrected loop.
- `Attendance` (`attendance.dfy`): decoding, the two intersection passes, the
  specification function `AppearanceOf`, and the imperative method
  `OptimizeAppearance` with the source's loops. The method is proved equal to
  `AppearanceOf`.
- `Reference` (`reference.dfy`): `easy_appearance` on sets of seconds. It
  also holds the theorem that the corrected pipeline computes the same value
  as `easy_appearance` on every input with a lesson of exactly two numbers
  and even-length pupil and tutor lists.
- `Scenarios` (`scenarios.dfy`): the embedded test data, and the inputs that
  exhibit the two findings below.
- `FirstZero` (`first_zero.dfy`): `task` from `task_1.py`.

Two facts about the code shape the model:

- The code rejects neither inverted intervals (`start > end`) nor
  odd-length lists.
  - The model accepts inverted intervals and processes them as the code does.
  - An odd-length list makes the code fail with an index error. The model
    requires even length.
- The merge loop does not compute the union of overlapping intervals, in two
  ways (see "## Findings"). The model keeps both, and models the corrected
  loop beside them.

## Model

| member | source | states |
|---|---|---|
| `Intervals.GetIntersection` | job_task/task_3.py:62-86 | when present, the result is well-formed, lies inside both inputs, and contains exactly the points common to both; when absent, the inputs share no point |
| `Intervals.GetIntersectionNone` | job_task/task_3.py:81-86 | there is no intersection iff the inputs share no point, iff the larger start exceeds the smaller end |
| `Intervals.GetIntersectionHalfOpen` | job_task/task_3.py:81-86 | the intersection's seconds are exactly the seconds common to both inputs; with no intersection they share no second |
| `Intervals.AreIntersectSharesPoint` | job_task/task_3.py:59 | `areIntersect(a, b)` on a well-formed `a` implies a common point |
| `Intervals.AreIntersectMissesContainment` | job_task/task_3.py:59 | for well-formed intervals with a common point, `areIntersect(a, b)` is false iff `b` lies strictly inside `a` |
| `Intervals.OverlapIffSharePoint` | job_task/task_3.py:59 | for well-formed intervals, trying `areIntersect` in both directions is exactly "the intervals share a point" |
| `Intervals.Hull` | job_task/task_3.py:145-146 | the appended `(min(starts), max(ends))` contains both intervals and is the smallest interval that does |
| `Intervals.AreIntersect` | job_task/task_3.py:59 | when `a` is well-formed, an accepted pair always has an intersection; a well-formed `b` strictly inside `a` is never accepted |
| `Intervals.HalfOpen` | job_task/task_3.py:18-22 | `range(start, end)` holds `start` and `end - 1` when non-empty, never holds `end` or `start - 1`, and is empty when `end <= start` |
| `Intervals.Cover` | job_task/task_3.py:25-31 | the union of a list's ranges contains the range of every interval of the list |
| `Intervals.HullHalfOpen` | job_task/task_3.py:145-146 | for two well-formed intervals with a common point, the seconds of the union are the seconds of the one plus those of the other |
| `Intervals.HalfOpenSize` | job_task/task_3.py:18-22 | `range(start, end)` has `end - start` seconds when well-formed and none otherwise |
| `Intervals.CoverMember` | job_task/task_3.py:25-31 | a second is in the union of a list's ranges iff some interval of the list contains it |
| `Intervals.CoverAppend` | job_task/task_3.py:28-31 | the union over a concatenation is the union of the two unions |
| `MergeLoop.Pop` | job_task/task_3.py:143-144 | `list.pop(i)` removes exactly the element at `i` and shifts the rest down |
| `MergeLoop.FindPartner` | job_task/task_3.py:141-148 | the inner loop returns the first `key1` whose partner is accepted, and none before it is accepted |
| `MergeLoop.FindPair` | job_task/task_3.py:140-150 | the scan returns the first accepted pair in the order of the two nested loops, or none when no pair is accepted |
| `MergeLoop.FirstInScanOrder` | job_task/task_3.py:140-150 | an accepted pair with no accepted pair before it in scan order is the one the scan returns |
| `MergeLoop.MergeStep` | job_task/task_3.py:143-146 | one merge as written shortens the list by one and introduces no interval other than the union of the matched pair |
| `MergeLoop.MergeStepRemoves` | job_task/task_3.py:143-144 | the second pop removes `l[key1]` or `l[key1 + 1]`, which is the matched partner iff `key == 0`; as a multiset, the new list is the old one minus the two popped intervals plus the union |
| `MergeLoop.Merged` | job_task/task_3.py:137-153 | the loop ends with a list in which `areIntersect` accepts no pair `i < j`, and never lengthens the list |
| `MergeLoop.MergedStaysInside` | job_task/task_3.py:137-153 | the loop keeps every interval well-formed and inside any interval that contained all its inputs |
| `MergeLoop.MergedWellFormed` | job_task/task_3.py:137-153 | the loop keeps every interval well-formed |
| `MergeLoop.MergeStepCoverShrinks` | job_task/task_3.py:143-146 | a merge step as written never adds a covered second |
| `MergeLoop.MergedCoverShrinks` | job_task/task_3.py:137-153 | the loop as written never adds a covered second |
| `MergeLoop.IntendedMergeStep` | job_task/task_3.py:143-146 | the corrected step removes exactly the matched pair and adds their union |
| `MergeLoop.IntendedMergeStepMembers` | job_task/task_3.py:143-146 | after the corrected step every other interval is still present, the union is present, and nothing else is |
| `MergeLoop.IntendedMergeStepKeepsCover` | job_task/task_3.py:143-146 | the corrected step on an overlapping pair keeps exactly the covered seconds and keeps well-formedness |
| `MergeLoop.IntendedMerged` | job_task/task_3.py:137-153 | the corrected loop ends with no two intervals sharing a point |
| `MergeLoop.IntendedMergedKeepsCover` | job_task/task_3.py:137-153 | the corrected loop keeps exactly the covered seconds and keeps well-formedness |
| `Attendance.Decode` | job_task/task_3.py:112-115 | pair `k` is `(xs[2k], xs[2k+1])`, and there are half as many pairs as numbers |
| `Attendance.Flatten` | job_task/task_3.py:112-115 | the flat encoding has two numbers per pair |
| `Attendance.DecodeFlatten` | job_task/task_3.py:112-115 | decoding a flattened list gives the list back |
| `Attendance.FlattenDecode` | job_task/task_3.py:112-115 | flattening a decoded even-length list gives the numbers back |
| `Attendance.Intersections` | job_task/task_3.py:118-122 | the first pass yields at most one interval per pupil pair, each well-formed and inside the lesson |
| `Attendance.Candidates` | job_task/task_3.py:129-134 | the second pass yields at most one interval per pair of a lesson-pupil piece and a tutor interval |
| `Attendance.IntersectionsInside` | job_task/task_3.py:118-122 | every result of the first pass is well-formed and inside the lesson and inside some pupil interval |
| `Attendance.CandidatesInsidePairs` | job_task/task_3.py:129-134 | every result of the second pass is well-formed and inside some lesson-pupil piece and some tutor interval |
| `Attendance.CandidatesInside` | job_task/task_3.py:117-134 | after both passes every candidate is well-formed, inside the lesson, inside some pupil interval and inside some tutor interval |
| `Attendance.Total` | job_task/task_3.py:156 | the sum of durations is never negative when every interval is well-formed, and is 0 when every interval has zero length |
| `Attendance.AppearanceOf` | job_task/task_3.py:89-156 | the returned count of seconds is never negative, whatever the input, inverted intervals included |
| `Attendance.NoPupilOrTutorGivesZero` | job_task/task_3.py:106-134 | an empty pupil list or an empty tutor list gives 0 |
| `Attendance.PupilOutsideLessonGivesZero` | job_task/task_3.py:117-126 | when no pupil interval meets the lesson, the result is 0 whatever the tutor did |
| `Attendance.TutorOutsideLessonGivesZero` | job_task/task_3.py:117-134 | when no tutor interval meets the lesson, the result is 0 whatever the pupil did |
| `Attendance.DegenerateLessonGivesZero` | job_task/task_3.py:111-156 | a lesson that ends no later than it starts gives 0 |
| `Attendance.FinalIntervals` | job_task/task_3.py:137-156 | the summed intervals are well-formed, lie inside the lesson, are settled under `areIntersect`, and cover no second outside both the pupil's and the tutor's presence |
| `Attendance.IntersectionsCover` | job_task/task_3.py:118-122 | the first pass covers exactly the seconds of the lesson during which the pupil is present |
| `Attendance.CandidatesPairsCover` | job_task/task_3.py:129-134 | the second pass covers exactly the seconds common to the first pass and the tutor |
| `Attendance.CandidatesCover` | job_task/task_3.py:117-134 | the candidates cover exactly the lesson seconds during which both the pupil and the tutor are present |
| `Attendance.LessonPupilPass` | job_task/task_3.py:118-122 | the loop builds the first-pass list, `Intersections(lesson, pupils)` |
| `Attendance.TutorPass` | job_task/task_3.py:129-134 | the nested loops build the candidate list, `Candidates(temp, tutors)` |
| `Attendance.ScanForPair` | job_task/task_3.py:140-150 | the nested loops with their `break`s find the pair `FindPair` specifies; finding none means the list is settled |
| `Attendance.MergeRepeated` | job_task/task_3.py:137-153 | the `while True` loop reaches the fixed point `Merged` of its input, and the result is settled |
| `Attendance.OptimizeAppearance` | job_task/task_3.py:89-156 | the method returns `AppearanceOf` of its input, which is never negative |
| `Reference.EasyAppearance` | job_task/task_3.py:1-37 | the set-based count is never more than the lesson's length |
| `Reference.EasyZeroWithoutPupilOrTutor` | job_task/task_3.py:24-37 | an empty pupil list or an empty tutor list gives 0 |
| `Reference.CoverSameElements` | job_task/task_3.py:25-31 | the union depends only on which intervals occur |
| `Reference.EasyReorder` | job_task/task_3.py:18-31 | reordering the pupil pairs or the tutor pairs does not change the count |
| `Reference.EasyMonotone` | job_task/task_3.py:18-37 | narrowing the lesson never increases the count |
| `Reference.SettledMeasure` | job_task/task_3.py:156 | once no two well-formed intervals share a point, the sum of durations is the number of covered seconds |
| `Reference.IntendedAppearance` | job_task/task_3.py:89-156 | the pipeline with the corrected merge loop is never negative and never exceeds the lesson's length |
| `Reference.IntendedMatchesEasy` | job_task/task_3.py:1-37 | the pipeline with the corrected merge loop equals `easy_appearance` on every input with a two-number lesson and even lists |
| `Scenarios.FirstEmbeddedTest` | job_task/task_3.py:160-164 | the first embedded test case gives its expected 3117 |
| `Scenarios.ThirdEmbeddedTest` | job_task/task_3.py:170-174 | the third embedded test case gives its expected 3565 |
| `Scenarios.EmptyInputGivesZero` | job_task/task_3.py:107-108 | three empty lists give 0 |
| `Scenarios.PupilAfterLessonGivesZero` | job_task/task_3.py:125-126 | a pupil who arrives after the lesson gives 0 in both versions |
| `Scenarios.PopIndexLosesInterval` | job_task/task_3.py:143-144 | on the input below, the second pop drops `(0, 1)` and the code returns 15 where `easy_appearance` and the corrected loop give 16 |
| `Scenarios.ContainedIntervalCountedTwice` | job_task/task_3.py:142 | on the input below, an interval strictly inside another is never merged, and the code returns 11 where `easy_appearance` and the corrected loop give 10 |
| `FirstZero.Find` | job_task/task_1.py:16 | `find` for one character returns the first index holding it, or -1 when no index does |
| `FirstZero.NatText` | job_task/task_1.py:16 | `str` of a natural number is digits only, without a leading zero unless it is a single digit, and starts with a non-zero digit when the number is positive |
| `FirstZero.IntText` | job_task/task_1.py:16 | `str` of an integer is in canonical form: canonical digits, with a minus sign only before a non-zero number |
| `FirstZero.CanonicalIntTextUnique` | job_task/task_1.py:16 | two canonical integer texts that read as the same integer are the same text, so the canonical text of a number is unique |
| `FirstZero.NatTextRoundTrip` | job_task/task_1.py:16 | reading the decimal text of a natural number gives the number back |
| `FirstZero.IntTextRoundTrip` | job_task/task_1.py:16 | the text of any integer is well-formed and reads back as that integer, negatives included |
| `FirstZero.Task` | job_task/task_1.py:1-16 | the result is `"OUT: "` followed by the canonical text of an integer, which is the index of the first `'0'`, or -1 when the string has none; by `CanonicalIntTextUnique` this fixes the whole string |

## Left out

- The `__main__` blocks, which print or assert over the embedded tests, are not modelled. Console output is outside the model.
- The second embedded test case of `job_task/task_3.py` (expected 3577) is not evaluated in the model: with 14 pupil pairs, 12 candidates and nine merge steps, evaluating it on literal lists is beyond the solver's budget. The first and third cases are evaluated (`Scenarios.FirstEmbeddedTest`, `Scenarios.ThirdEmbeddedTest`).
- `job_task/task_2.py` is not part of this model. It makes HTTP requests, parses the returned HTML, and fills a shared dictionary from a thread pool; the network, the HTML parser and the concurrency are outside the model.
- `Attendance.OptimizeAppearance` and `Attendance.MergeRepeated` work on values (`seq`), not on Python lists mutated in place. `temp` is a copy of `pl_tutors` in the source, so there is no aliasing to lose.
- The scan and the pops sit in separate methods (`Attendance.ScanForPair`, `Attendance.MergeRepeated`). The order of operations is unchanged.
- `FirstZero.Find` models `str.find` for a one-character needle only, the only use in the source.
- Odd-length pupil or tutor lists, and a lesson list shorter than two numbers when not all three lists are empty, make the source raise an index error. Both are preconditions here, not modelled error results.
- `Reference.EasyAppearance` requires exactly two lesson numbers. The source also accepts other lengths, and the model does not cover them: with one number, `range(*lesson)` is `range(stop)`, the seconds from 0 up to that number; with three, the third is a step; with none or more than three, it fails.
- Python's dictionary input (`intervals['lesson']` and so on) becomes three separate sequence parameters.

## Findings

| source | as written | input that shows it | evidently intended | confidence | as-written member | corrected member |
|---|---|---|---|---|---|---|
| job_task/task_3.py:143-144 | after `temp.pop(key)`, `temp.pop(key1)` uses `key1`, an index into the slice `pl_tutors[key+1:]`, on the shortened list; for `key > 0` it removes a different interval than the matched one | lesson `[0, 100]`, pupil `[0, 1, 10, 20, 15, 25]`, tutor `[0, 100]`: `(0, 1)` is dropped, result 15 | pop the partner at `key + key1`, so that both matched intervals are replaced by their union; result 16 | high, not executed | `Scenarios.PopIndexLosesInterval` | `MergeLoop.IntendedMergeStepKeepsCover` |
| job_task/task_3.py:142 | `areIntersect(*plt, *plt1)` tests only whether an endpoint of `plt` lies in `plt1`, so the direct pair of an earlier interval and a later one strictly inside it is never accepted; unless a later merge appends a hull that contains the inner interval, the inner interval stays and its seconds are counted twice | lesson `[0, 100]`, pupil `[10, 20, 12, 13]`, tutor `[0, 100]`: result 11 | merge whenever the two intervals share a point (the test in both directions); result 10 | high, not executed | `Scenarios.ContainedIntervalCountedTwice` | `Intervals.OverlapIffSharePoint` |
