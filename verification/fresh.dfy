/**
 * The relative type's `add_submission` with the baseline it evidently means
 * to use: `compute_best_outcomes` run once the new id has joined its user's
 * history, so the new submission competes against its own outcomes like
 * every other last submission. Next to it, a concrete table on which the
 * code as written (`Engine.AddSubmission`, whose cached baseline is taken
 * before the id joins the history) leaves a score above the maximum.
 */
module Fresh {
  import opened Wrappers
  import opened Strategies
  import opened Pool
  import opened Engine

  /** The record as `add_submission` first stores it: derived fields unset. */
  function Pending(timestamp: int, username: Username, evals: seq<real>, tokened: bool): Record {
    Record(timestamp, username, evals, tokened, 0.0, None, 0.0, None)
  }

  /** The tables once the new id is stored and has joined its user's history, before any scoring. */
  function Joined(e: ScoreType, id: SubmissionId, timestamp: int, username: Username, evals: seq<real>, tokened: bool): (r: ScoreType)
    requires Valid(e) && e.policy.RelativePolicy? && Fits(e.policy, evals)
    ensures Tables(r) && r.policy == e.policy && id in r.pool && r.pool[id].evaluations == evals
    ensures r.pool == e.pool[id := Pending(timestamp, username, evals, tokened)]
  {
    Arrive(e, id, Pending(timestamp, username, evals, tokened), None)
  }

  /** The fresh baseline divides every stored vector, the new one included. */
  predicate AddableFresh(e: ScoreType, id: SubmissionId, timestamp: int, username: Username, evals: seq<real>, tokened: bool)
    requires Valid(e) && e.policy.RelativePolicy? && Fits(e.policy, evals)
  {
    var a := Joined(e, id, timestamp, username, evals, tokened);
    Divisible(CurrentBaseline(a), a.pool)
  }

  /** The record the corrected `compute_score` produces: scored against the baseline that includes it. */
  function FreshRecord(e: ScoreType, id: SubmissionId, timestamp: int, username: Username, evals: seq<real>, tokened: bool): (rec: Record)
    requires Valid(e) && e.policy.RelativePolicy? && Fits(e.policy, evals)
    requires AddableFresh(e, id, timestamp, username, evals, tokened)
    ensures PositiveBaseline(CurrentBaseline(Joined(e, id, timestamp, username, evals, tokened)), |evals|)
    ensures var s := RelativeScore(e.policy.multiplier, e.policy.publicTestcases, evals, CurrentBaseline(Joined(e, id, timestamp, username, evals, tokened)));
      rec == Stored(timestamp, username, evals, tokened, s)
  {
    var a := Joined(e, id, timestamp, username, evals, tokened);
    var b := CurrentBaseline(a);
    assert PositiveBaseline(b, |evals|) by {
      assert |evals| <= |b|;
    }
    Stored(timestamp, username, evals, tokened, RelativeScore(e.policy.multiplier, e.policy.publicTestcases, evals, b))
  }

  /** The joined tables with the scored record in place of the pending one. */
  function Placed(e: ScoreType, id: SubmissionId, timestamp: int, username: Username, evals: seq<real>, tokened: bool): (r: ScoreType)
    requires Valid(e) && e.policy.RelativePolicy? && Fits(e.policy, evals)
    requires AddableFresh(e, id, timestamp, username, evals, tokened)
    ensures var a := Joined(e, id, timestamp, username, evals, tokened);
      && Tables(r) && r == a.(pool := r.pool) && SameShape(a.pool, r.pool)
      && CurrentBaseline(r) == CurrentBaseline(a) && Divisible(CurrentBaseline(r), r.pool)
      && r.pool == a.pool[id := FreshRecord(e, id, timestamp, username, evals, tokened)]
  {
    var a := Joined(e, id, timestamp, username, evals, tokened);
    var rec := FreshRecord(e, id, timestamp, username, evals, tokened);
    ReplaceKeepsShape(a.pool, id, rec);
    Replace(a, id, rec)
  }

  lemma ReplaceKeepsShape(pool: Store, id: SubmissionId, rec: Record)
    requires id in pool && pool[id].evaluations == rec.evaluations && pool[id].username == rec.username
    ensures SameShape(pool, pool[id := rec])
  {
  }

  /** The tables with the record of `id` replaced by one with the same owner and outcomes. */
  function Replace(a: ScoreType, id: SubmissionId, rec: Record): (r: ScoreType)
    requires Tables(a) && a.policy.RelativePolicy? && Divisible(CurrentBaseline(a), a.pool)
    requires SameShape(a.pool, a.pool[id := rec])
    ensures Tables(r) && r == a.(pool := r.pool) && SameShape(a.pool, r.pool)
    ensures CurrentBaseline(r) == CurrentBaseline(a) && Divisible(CurrentBaseline(r), r.pool)
    ensures r.pool == a.pool[id := rec]
  {
    var r := a.(pool := a.pool[id := rec]);
    TablesFrame(a, r.pool);
    DivisibleFrame(CurrentBaseline(a), a.pool, r.pool);
    r
  }

  /**
   * Corrected relative `add_submission`: store the record `FreshRecord`
   * scores, then refresh every record and score against the same baseline.
   */
  function AddSubmissionFresh(e: ScoreType, id: SubmissionId, timestamp: int, username: Username, evals: seq<real>, tokened: bool): (r: ScoreType)
    requires Valid(e) && e.policy.RelativePolicy? && Fits(e.policy, evals)
    requires AddableFresh(e, id, timestamp, username, evals, tokened)
    ensures Valid(r) && r.policy == e.policy
    ensures var a := Joined(e, id, timestamp, username, evals, tokened);
      r.submissions == a.submissions && r.users == a.users && SameShape(a.pool, r.pool)
  {
    var s := Placed(e, id, timestamp, username, evals, tokened);
    RelativeRefresh(s, CurrentBaseline(s))
  }

  /** The corrected addition ends settled: every record and score agrees with the baseline that includes the new outcomes. */
  lemma AddSubmissionFreshSettles(e: ScoreType, id: SubmissionId, timestamp: int, username: Username, evals: seq<real>, tokened: bool)
    requires Valid(e) && e.policy.RelativePolicy? && Fits(e.policy, evals)
    requires AddableFresh(e, id, timestamp, username, evals, tokened)
    ensures Settled(AddSubmissionFresh(e, id, timestamp, username, evals, tokened))
  {
    RefreshSettles(Placed(e, id, timestamp, username, evals, tokened));
  }

  /**
   * The stored record carries the arguments, and its public score is the one
   * the baseline the tables end with gives: the corrected addition is
   * consistent with itself.
   */
  lemma AddSubmissionFreshRecord(e: ScoreType, id: SubmissionId, timestamp: int, username: Username, evals: seq<real>, tokened: bool)
    requires Valid(e) && e.policy.RelativePolicy? && Fits(e.policy, evals)
    requires AddableFresh(e, id, timestamp, username, evals, tokened)
    ensures var r := AddSubmissionFresh(e, id, timestamp, username, evals, tokened);
      && id in r.pool && r.pool[id].username == username && r.pool[id].evaluations == evals && r.pool[id].tokened == tokened
      && PositiveBaseline(CurrentBaseline(r), |evals|)
      && r.pool[id].publicScore == RelativeScore(e.policy.multiplier, e.policy.publicTestcases, evals, CurrentBaseline(r)).publicScore
  {
    var s := Placed(e, id, timestamp, username, evals, tokened);
    var r := AddSubmissionFresh(e, id, timestamp, username, evals, tokened);
    TablesFrame(s, r.pool);
    assert r.pool[id].publicScore == s.pool[id].publicScore;
  }

  /** The corrected addition leaves nothing for `compute_all_scores` to change. */
  lemma AddSubmissionFreshIsFixed(e: ScoreType, id: SubmissionId, timestamp: int, username: Username, evals: seq<real>, tokened: bool)
    requires Valid(e) && e.policy.RelativePolicy? && Fits(e.policy, evals)
    requires AddableFresh(e, id, timestamp, username, evals, tokened)
    ensures var r := AddSubmissionFresh(e, id, timestamp, username, evals, tokened);
      Computable(r) && ComputeAll(r) == r
  {
    var r := AddSubmissionFresh(e, id, timestamp, username, evals, tokened);
    AddSubmissionFreshSettles(e, id, timestamp, username, evals, tokened);
    ComputeAllRelative(r);
  }

  /** One relative test case worth 1.0 with a floor of 0.5, and no submission yet. */
  function Witness(): (e: ScoreType)
    ensures Valid(e) && e.policy.RelativePolicy? && e.maxScore == 1.0
  {
    Init(RelativePolicy(1.0, [Some(0.5)], [true]))
  }

  /** The only ratio of a one-test vector 1.0, against 0.5 and against 1.0. */
  lemma OneTestRescores()
    ensures PositiveBaseline([Some(0.5)], 1) && PositiveBaseline([Some(1.0)], 1)
    ensures RelativeRescore(1.0, [1.0], [Some(0.5)]) == 2.0
    ensures RelativeRescore(1.0, [1.0], [Some(1.0)]) == 1.0
  {
    assert Ratios([1.0], [Some(0.5)]) == [2.0];
    assert Ratios([1.0], [Some(1.0)]) == [1.0];
    assert SumOf([2.0]) == 2.0 + SumOf([]);
    assert SumOf([1.0]) == 1.0 + SumOf([]);
  }

  /** With no submission yet, the baseline `compute_score` caches is the floor. */
  lemma WitnessStale()
    ensures StaleBaseline(Witness(), 1, 0, "a", [1.0], false) == [Some(0.5)]
    ensures AddableRelative(Witness(), 1, 0, "a", [1.0], false)
  {
    assert Witness().users == [];
  }

  /** The arrival of submission 1 of "a" into the empty tables. */
  lemma WitnessArrival(rec: Record, cache: Option<seq<Option<real>>>)
    requires rec.username == "a" && rec.evaluations == [1.0]
    ensures var a := Arrive(Witness(), 1, rec, cache);
      && a.pool == map[1 := rec] && a.submissions == map["a" := [1]] && a.users == ["a"]
      && a.scores == map[] && a.bestOutcomes == cache
  {
    assert InsertByTime([], 1, map[1 := rec]) == [1];
  }

  /** The relative tail of `add_submission`: `update_scores` consumes the cached baseline. */
  lemma AddRelativeRefreshes(e: ScoreType, id: SubmissionId, rec: Record, stale: seq<Option<real>>)
    requires Valid(e) && e.policy.RelativePolicy? && Fits(e.policy, rec.evaluations)
    requires Divisible(stale, e.pool[id := rec])
    ensures Divisible(stale, Arrive(e, id, rec, Some(stale)).pool)
    ensures AddRelative(e, id, rec, stale) == RelativeRefresh(Arrive(e, id, rec, Some(stale)), stale)
  {
  }

  /** As written, the addition is the refresh of the arrival against the floor. */
  lemma WitnessAddition()
    ensures AddableRelative(Witness(), 1, 0, "a", [1.0], false)
    ensures var rec := AddedRecord(Witness(), 1, 0, "a", [1.0], false);
      && Divisible([Some(0.5)], Witness().pool[1 := rec])
      && AddSubmission(Witness(), 1, 0, "a", [1.0], false) == AddRelative(Witness(), 1, rec, [Some(0.5)])
  {
    WitnessStale();
  }

  /** A lone submission 1 of "a" with outcome 1.0, refreshed against a one-slot baseline. */
  lemma LoneRefresh(a: ScoreType, best: real)
    requires Tables(a) && a.policy == Witness().policy && a.pool.Keys == {1} && a.pool[1].evaluations == [1.0]
    requires a.submissions == map["a" := [1]] && best > 0.0
    ensures Divisible([Some(best)], a.pool)
    ensures var r := RelativeRefresh(a, [Some(best)]);
      r.pool[1].score == RelativeRescore(1.0, [1.0], [Some(best)]) && r.scores["a"] == Max(0.0, r.pool[1].score)
  {
    var r := RelativeRefresh(a, [Some(best)]);
    assert RunningBest([1], r.pool, true, 0.0) == RunningBest([], r.pool, true, Max(0.0, r.pool[1].score));
  }

  /** Once "a"'s outcome 1.0 is last in a history, the baseline is 1.0. */
  lemma LoneBaseline(t: ScoreType)
    requires Tables(t) && t.policy == Witness().policy && t.users == ["a"] && t.submissions == map["a" := [1]]
    requires 1 in t.pool && t.pool[1].evaluations == [1.0]
    ensures CurrentBaseline(t) == [Some(1.0)]
  {
    var floors := t.policy.floors;
    assert Baseline(floors, t.pool, t.submissions, []) == [Some(0.5)];
    assert Merge([Some(0.5)], [1.0]) == [Some(1.0)];
  }

  /** A record of outcome 1.0 scored other than 1.0 against a baseline of 1.0 is not settled. */
  lemma OffBaseline(t: ScoreType)
    requires Tables(t) && t.policy == Witness().policy && 1 in t.pool && t.pool[1].evaluations == [1.0]
    requires CurrentBaseline(t) == [Some(1.0)] && t.pool[1].score != 1.0
    ensures !Settled(t)
  {
    OneTestRescores();
  }

  /** The arrival of the scored record, with the floor cached. */
  function StaleArrival(): (a: ScoreType)
    ensures Tables(a) && a.policy == Witness().policy
    ensures a.pool.Keys == {1} && a.pool[1].evaluations == [1.0]
    ensures a.submissions == map["a" := [1]] && a.users == ["a"]
  {
    WitnessStale();
    var rec := AddedRecord(Witness(), 1, 0, "a", [1.0], false);
    WitnessArrival(rec, Some([Some(0.5)]));
    Arrive(Witness(), 1, rec, Some([Some(0.5)]))
  }

  /** As written, the addition is the refresh of that arrival against the floor. */
  lemma StaleDispatch()
    ensures AddableRelative(Witness(), 1, 0, "a", [1.0], false)
    ensures Divisible([Some(0.5)], StaleArrival().pool)
    ensures AddSubmission(Witness(), 1, 0, "a", [1.0], false) == RelativeRefresh(StaleArrival(), [Some(0.5)])
  {
    WitnessAddition();
    AddRelativeRefreshes(Witness(), 1, AddedRecord(Witness(), 1, 0, "a", [1.0], false), [Some(0.5)]);
  }

  /** The tables as written after the submission: "a" alone, scored 2.0 against the floor. */
  lemma StaleTables()
    ensures AddableRelative(Witness(), 1, 0, "a", [1.0], false)
    ensures var r := AddSubmission(Witness(), 1, 0, "a", [1.0], false);
      && r.users == ["a"] && r.submissions == map["a" := [1]]
      && 1 in r.pool && r.pool[1].evaluations == [1.0]
      && r.pool[1].score == 2.0 && r.scores["a"] == 2.0
  {
    StaleDispatch();
    LoneRefresh(StaleArrival(), 0.5);
    OneTestRescores();
  }

  /**
   * As written, user "a"'s first submission, a perfect outcome 1.0, is
   * measured against the floor alone: it scores 2.0 on a task worth 1.0, and
   * the tables are not settled, so a later `compute_all_scores` changes them.
   */
  lemma StaleBaselineOvershoots()
    ensures AddableRelative(Witness(), 1, 0, "a", [1.0], false)
    ensures var r := AddSubmission(Witness(), 1, 0, "a", [1.0], false);
      && r.scores["a"] == 2.0 > r.maxScore
      && !Settled(r)
  {
    StaleTables();
    var r := AddSubmission(Witness(), 1, 0, "a", [1.0], false);
    LoneBaseline(r);
    OffBaseline(r);
  }

  /** Corrected, "a"'s submission joins the baseline before it is scored. */
  lemma FreshJoined()
    ensures var a := Joined(Witness(), 1, 0, "a", [1.0], false);
      && a.pool.Keys == {1} && a.submissions == map["a" := [1]] && a.users == ["a"]
      && CurrentBaseline(a) == [Some(1.0)]
    ensures AddableFresh(Witness(), 1, 0, "a", [1.0], false)
  {
    var a := Joined(Witness(), 1, 0, "a", [1.0], false);
    WitnessArrival(Pending(0, "a", [1.0], false), None);
    LoneBaseline(a);
  }

  /** Corrected, the same submission is measured against itself and scores exactly the maximum. */
  lemma FreshBaselineFits()
    ensures AddableFresh(Witness(), 1, 0, "a", [1.0], false)
    ensures var r := AddSubmissionFresh(Witness(), 1, 0, "a", [1.0], false);
      r.scores["a"] == 1.0 == r.maxScore
  {
    FreshJoined();
    var p := Placed(Witness(), 1, 0, "a", [1.0], false);
    LoneRefresh(p, 1.0);
    OneTestRescores();
  }
}
