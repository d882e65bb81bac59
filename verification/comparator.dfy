/**
 The interview comparator: scores for each requested interview that exists,
 and a recommendation derived from the mean of those scores.
 */
module Comparator {
  import opened Wrappers
  import opened Interview
  import opened Evaluator
  import opened Storage

  const StrongCandidate := "Strong candidate with excellent technical skills and communication"
  const GoodCandidate := "Good candidate with solid foundation, some areas for improvement"
  const JuniorCandidate := "May need more experience, consider for junior positions"

  /** The two dictionaries of a comparison, both keyed by interview id. */
  datatype Comparison = Comparison(
    comparison: map<string, ScoreDict>,
    recommendations: map<string, string>)

  /** Sum of the values of a scores dictionary. */
  function SumValues(d: ScoreDict): real {
    if d == [] then 0.0 else SumValues(d[..|d| - 1]) + d[|d| - 1].value
  }

  /** The average of the values of a non-empty scores dictionary. */
  function Mean(d: ScoreDict): real
    requires |d| > 0
  {
    SumValues(d) / |d| as real
  }

  /**
   The scores a comparison uses: the cached dictionary when present and non-empty,
   otherwise a fresh evaluation of the transcript (an empty cached dictionary is
   falsy, so it is recomputed too).
   */
  function EffectiveScores(interview: InterviewRecord): (r: ScoreDict)
    ensures |r| > 0
    ensures interview.evaluationScores.Some? && |interview.evaluationScores.value| > 0
            ==> r == interview.evaluationScores.value
    ensures interview.evaluationScores.None? || |interview.evaluationScores.value| == 0
            ==> r == AsDict(Evaluate(interview.messages))
  {
    match interview.evaluationScores
    case Some(cached) => if |cached| > 0 then cached else AsDict(Evaluate(interview.messages))
    case None => AsDict(Evaluate(interview.messages))
  }

  /** The three-way recommendation on the mean score, with thresholds 0.8 and 0.6. */
  function Recommend(mean: real): (r: string)
    ensures r == StrongCandidate <==> 0.8 <= mean
    ensures r == GoodCandidate <==> 0.6 <= mean < 0.8
    ensures r == JuniorCandidate <==> mean < 0.6
  {
    if mean >= 0.8 then StrongCandidate
    else if mean >= 0.6 then GoodCandidate
    else JuniorCandidate
  }

  /** Rank of a recommendation: 0 for junior, 1 for good, 2 for strong. */
  function Rank(recommendation: string): nat {
    if recommendation == StrongCandidate then 2
    else if recommendation == GoodCandidate then 1
    else 0
  }

  /** A higher mean never earns a lower recommendation. */
  lemma RecommendMonotone(m1: real, m2: real)
    requires m1 <= m2
    ensures Rank(Recommend(m1)) <= Rank(Recommend(m2))
  {
  }

  /** The mean of an evaluation is the average of its four scores, so it lies in [0, 1]. */
  lemma MeanOfEvaluation(e: ScoreSet)
    requires InUnitInterval(e)
    ensures Mean(AsDict(e)) == (e.technicalDepth + e.communication + e.problemSolving + e.experience) / 4.0
    ensures 0.0 <= Mean(AsDict(e)) <= 1.0
  {
    var d := AsDict(e);
    assert d[..3][..2] == d[..2];
    assert d[..2][..1] == d[..1];
    assert d[..1][..0] == [];
    assert SumValues(d[..1]) == e.technicalDepth;
    assert SumValues(d[..2]) == e.technicalDepth + e.communication;
    assert SumValues(d[..3]) == e.technicalDepth + e.communication + e.problemSolving;
    assert SumValues(d) == e.technicalDepth + e.communication + e.problemSolving + e.experience;
  }

  /** An interview without cached scores and without any candidate turn is recommended for junior positions. */
  lemma SilentCandidateIsJunior(interview: InterviewRecord)
    requires interview.evaluationScores.None? || |interview.evaluationScores.value| == 0
    requires forall i :: 0 <= i < |interview.messages| ==> interview.messages[i].role != UserRole
    ensures RecommendationFor(interview) == JuniorCandidate
  {
    MeanOfEvaluation(ZeroScores);
  }

  /** The recommendation of a record: from the mean of the scores it is compared on. */
  function RecommendationFor(interview: InterviewRecord): string {
    Recommend(Mean(EffectiveScores(interview)))
  }

  /** The requested interviews that exist, in request order (repeats kept). */
  function FoundInterviews(s: Store, ids: seq<string>): (found: seq<InterviewRecord>)
    ensures |found| <= |ids|
  {
    if ids == [] then []
    else
      FoundInterviews(s, ids[..|ids| - 1])
      + (match Get(s, ids[|ids| - 1]) case Some(interview) => [interview] case None => [])
  }

  /** `x` is the stored record of one of the requested ids. */
  predicate RequestedAndStored(s: Store, ids: seq<string>, x: InterviewRecord) {
    exists j :: 0 <= j < |ids| && ids[j] in s.entries && s.entries[ids[j]] == x
  }

  /** The found interviews are exactly the stored records of the requested ids. */
  lemma {:induction false} FoundInterviewsExact(s: Store, ids: seq<string>)
    ensures forall x :: x in FoundInterviews(s, ids) <==> RequestedAndStored(s, ids, x)
  {
    if ids != [] {
      var init := ids[..|ids| - 1];
      var id := ids[|ids| - 1];
      FoundInterviewsExact(s, init);
      forall x | RequestedAndStored(s, init, x)
        ensures RequestedAndStored(s, ids, x)
      {
        var j :| 0 <= j < |init| && init[j] in s.entries && s.entries[init[j]] == x;
        assert ids[j] == init[j];
      }
      forall x | RequestedAndStored(s, ids, x)
        ensures x in FoundInterviews(s, ids)
      {
        var j :| 0 <= j < |ids| && ids[j] in s.entries && s.entries[ids[j]] == x;
        if j < |init| {
          assert init[j] == ids[j];
          assert RequestedAndStored(s, init, x);
        }
      }
    }
  }

  /** The ids of a list of records. */
  function IdsOf(found: seq<InterviewRecord>): set<string> {
    set i | 0 <= i < |found| :: found[i].id
  }

  /** No record after position `i` carries the same id as the one at `i`. */
  predicate LastWithItsId(found: seq<InterviewRecord>, i: int)
    requires 0 <= i < |found|
  {
    forall j :: i < j < |found| ==> found[j].id != found[i].id
  }

  /**
   The loop over the found interviews: each one files its scores and
   recommendation under its own id, a later one overwriting an earlier one.
   */
  function Tabulate(found: seq<InterviewRecord>): Comparison {
    if found == [] then Comparison(map[], map[])
    else
      var r := Tabulate(found[..|found| - 1]);
      var interview := found[|found| - 1];
      Comparison(
        r.comparison[interview.id := EffectiveScores(interview)],
        r.recommendations[interview.id := RecommendationFor(interview)])
  }

  /** Both dictionaries of the tabulation are keyed by exactly the ids of the found records. */
  lemma {:induction false} TabulateKeys(found: seq<InterviewRecord>)
    ensures Tabulate(found).comparison.Keys == IdsOf(found)
    ensures Tabulate(found).recommendations.Keys == IdsOf(found)
  {
    if found != [] {
      TabulateKeys(found[..|found| - 1]);
      IdsOfLast(found);
    }
  }

  /** The ids of a non-empty list are those of all but its last record, plus the last one's. */
  lemma IdsOfLast(found: seq<InterviewRecord>)
    requires found != []
    ensures IdsOf(found) == IdsOf(found[..|found| - 1]) + {found[|found| - 1].id}
  {
    var init := found[..|found| - 1];
    assert forall i :: 0 <= i < |init| ==> init[i] == found[i];
  }

  /** Under each id the comparison holds what the last found record with that id yields. */
  lemma {:induction false} TabulateLastWins(found: seq<InterviewRecord>, i: int)
    requires 0 <= i < |found| && LastWithItsId(found, i)
    ensures found[i].id in Tabulate(found).comparison
            && Tabulate(found).comparison[found[i].id] == EffectiveScores(found[i])
    ensures found[i].id in Tabulate(found).recommendations
            && Tabulate(found).recommendations[found[i].id] == RecommendationFor(found[i])
  {
    var n := |found| - 1;
    var init := found[..n];
    var r := Tabulate(init);
    assert Tabulate(found).comparison == r.comparison[found[n].id := EffectiveScores(found[n])];
    assert Tabulate(found).recommendations == r.recommendations[found[n].id := RecommendationFor(found[n])];
    if i < n {
      assert init[i] == found[i];
      assert found[n].id != found[i].id;
      assert LastWithItsId(init, i) by {
        assert forall j :: i < j < |init| ==> init[j] == found[j];
      }
      TabulateLastWins(init, i);
    }
  }

  /** Comparing a list of interview ids. */
  function Compare(s: Store, ids: seq<string>): Comparison {
    Tabulate(FoundInterviews(s, ids))
  }

  /** The last position of a record with id `k`, if any. */
  function LastIndexOf(found: seq<InterviewRecord>, k: string): (i: int)
    ensures -1 <= i < |found|
    ensures 0 <= i ==> found[i].id == k && LastWithItsId(found, i)
    ensures i == -1 ==> forall j :: 0 <= j < |found| ==> found[j].id != k
  {
    if found == [] then -1
    else if found[|found| - 1].id == k then |found| - 1
    else LastIndexOf(found[..|found| - 1], k)
  }

  /**
   In a store whose records sit under their own ids, the comparison covers exactly
   the requested ids that exist (missing ones skipped, repeats collapsed), each with
   its effective scores and the recommendation on their mean.
   */
  lemma CompareExact(s: Store, ids: seq<string>)
    requires WellKeyed(s)
    ensures Compare(s, ids).comparison.Keys == set j | 0 <= j < |ids| && ids[j] in s.entries :: ids[j]
    ensures Compare(s, ids).recommendations.Keys == Compare(s, ids).comparison.Keys
    ensures forall k :: k in Compare(s, ids).comparison ==>
              && Compare(s, ids).comparison[k] == EffectiveScores(s.entries[k])
              && Compare(s, ids).recommendations[k] == RecommendationFor(s.entries[k])
  {
    var found := FoundInterviews(s, ids);
    var r := Tabulate(found);
    FoundInterviewsExact(s, ids);
    TabulateKeys(found);
    var requested := set j | 0 <= j < |ids| && ids[j] in s.entries :: ids[j];
    forall k | k in IdsOf(found)
      ensures k in requested && k in s.entries
      ensures r.comparison[k] == EffectiveScores(s.entries[k])
      ensures r.recommendations[k] == RecommendationFor(s.entries[k])
    {
      var i := LastIndexOf(found, k);
      assert found[i] in found;
      var j :| 0 <= j < |ids| && ids[j] in s.entries && s.entries[ids[j]] == found[i];
      TabulateLastWins(found, i);
    }
    forall k | k in requested
      ensures k in IdsOf(found)
    {
      var j :| 0 <= j < |ids| && ids[j] in s.entries && ids[j] == k;
      assert RequestedAndStored(s, ids, s.entries[k]);
      var i :| 0 <= i < |found| && found[i] == s.entries[k];
    }
  }
}
