/**
 * The stateful part of `ScoreType`: the pool, the per-user histories and the
 * score table, and the operations `add_submission`, `add_token`,
 * `compute_all_scores` and `update_scores` for both the "alone" score types
 * (Sum and the subtask groups) and the relative one.
 */
module Engine {
  import opened Wrappers
  import opened Strategies
  import opened Pool

  type Histories = map<Username, seq<SubmissionId>>

  function Last(h: seq<SubmissionId>): SubmissionId
    requires |h| > 0
  {
    h[|h| - 1]
  }

  // ---------------------------------------------------------------------------
  // The relative baseline (`compute_best_outcomes`)
  // ---------------------------------------------------------------------------

  /** `max(best_outcomes[i], outcome)` in Python 2, where `None` orders below every number. */
  function MaxOpt(a: Option<real>, x: real): real {
    if a.None? then x else Max(a.value, x)
  }

  /** One step of the inner `for i, outcome in enumerate(...)` loop. */
  function Merge(best: seq<Option<real>>, evals: seq<real>): (r: seq<Option<real>>)
    requires |evals| <= |best|
    ensures |r| == |best|
  {
    seq(|best|, i requires 0 <= i < |best| => if i < |evals| then Some(MaxOpt(best[i], evals[i])) else best[i])
  }

  /** Every listed user has a history, and its ids are in the pool. */
  predicate Known(hist: Histories, pool: Store, users: seq<Username>) {
    forall k :: 0 <= k < |users| ==> users[k] in hist && InStore(hist[users[k]], pool)
  }

  /** Moreover each last outcome vector fits in `width` slots (else `best_outcomes[i]` raises `IndexError`). */
  predicate Listed(hist: Histories, pool: Store, users: seq<Username>, width: nat) {
    && Known(hist, pool, users)
    && forall k :: 0 <= k < |users| && |hist[users[k]]| > 0 ==> |pool[Last(hist[users[k]])].evaluations| <= width
  }

  /** Whether user `u`'s last submission has an outcome for testcase `i`. */
  predicate Reaches(hist: Histories, pool: Store, u: Username, i: nat)
    requires u in hist && InStore(hist[u], pool)
  {
    |hist[u]| > 0 && i < |pool[Last(hist[u])].evaluations|
  }

  /** That outcome. */
  function At(hist: Histories, pool: Store, u: Username, i: nat): real
    requires u in hist && InStore(hist[u], pool) && Reaches(hist, pool, u, i)
  {
    pool[Last(hist[u])].evaluations[i]
  }

  /**
   * `compute_best_outcomes`: the floors (`best_tokenized_outcomes`, a copy of
   * the second parameter that nothing ever updates) merged with the last
   * submission of every user, users taken in `users` order.
   */
  function Baseline(floors: seq<Option<real>>, pool: Store, hist: Histories, users: seq<Username>): (r: seq<Option<real>>)
    requires Listed(hist, pool, users, |floors|)
    ensures |r| == |floors|
    decreases |users|
  {
    if |users| == 0 then floors
    else
      var b := Baseline(floors, pool, hist, users[..|users| - 1]);
      var h := hist[users[|users| - 1]];
      if |h| == 0 then b else Merge(b, pool[Last(h)].evaluations)
  }

  /**
   * `b` is the best outcome for testcase `i`: present exactly when the floor or
   * some user's last submission provides one, at least each of those, and
   * equal to one of them.
   */
  predicate IsBaselineAt(b: Option<real>, floor: Option<real>, hist: Histories, pool: Store, users: seq<Username>, i: nat)
    requires Known(hist, pool, users)
  {
    && (b.Some? <==> floor.Some? || exists k :: 0 <= k < |users| && Reaches(hist, pool, users[k], i))
    && (b.Some? && floor.Some? ==> b.value >= floor.value)
    && (b.Some? ==> forall k :: 0 <= k < |users| && Reaches(hist, pool, users[k], i) ==> b.value >= At(hist, pool, users[k], i))
    && (b.Some? ==> (floor.Some? && b.value == floor.value)
                    || exists k :: 0 <= k < |users| && Reaches(hist, pool, users[k], i) && b.value == At(hist, pool, users[k], i))
  }

  lemma {:induction false} BaselineIsMaximum(floors: seq<Option<real>>, pool: Store, hist: Histories, users: seq<Username>, i: nat)
    requires Listed(hist, pool, users, |floors|) && i < |floors|
    ensures IsBaselineAt(Baseline(floors, pool, hist, users)[i], floors[i], hist, pool, users, i)
    decreases |users|
  {
    if |users| > 0 {
      var n := |users| - 1;
      var front := users[..n];
      var u := users[n];
      BaselineIsMaximum(floors, pool, hist, front, i);
      var b := Baseline(floors, pool, hist, front)[i];
      var r := Baseline(floors, pool, hist, users)[i];
      assert forall k :: 0 <= k < n ==> front[k] == users[k];
      if Reaches(hist, pool, u, i) {
        assert r == Some(MaxOpt(b, At(hist, pool, u, i)));
      } else {
        assert r == b;
      }
    }
  }

  /** Two pools with the same ids and the same outcome vectors. */
  predicate SameOutcomes(p1: Store, p2: Store) {
    p1.Keys == p2.Keys && forall id :: id in p1 ==> p1[id].evaluations == p2[id].evaluations
  }

  /** The baseline reads nothing but outcome vectors. */
  lemma {:induction false} BaselineFrame(floors: seq<Option<real>>, p1: Store, p2: Store, hist: Histories, users: seq<Username>)
    requires Listed(hist, p1, users, |floors|) && SameOutcomes(p1, p2)
    ensures Listed(hist, p2, users, |floors|)
    ensures Baseline(floors, p1, hist, users) == Baseline(floors, p2, hist, users)
    decreases |users|
  {
    if |users| > 0 {
      BaselineFrame(floors, p1, p2, hist, users[..|users| - 1]);
    }
  }

  // ---------------------------------------------------------------------------
  // The state of a score type
  // ---------------------------------------------------------------------------

  datatype EngineError = UnknownSubmission(id: SubmissionId)

  /**
   * An instance of a `ScoreType` subclass: the policy and its preloaded
   * maxima, `pool`, `submissions`, `scores`, and the relative type's cache
   * `best_outcomes`. `users` lists the keys of `submissions` in a fixed
   * order standing for the dict's iteration order; no result depends on it.
   */
  datatype ScoreType = ScoreType(policy: Policy, maxScore: real, maxPublicScore: real,
                                 pool: Store, submissions: Histories, users: seq<Username>,
                                 scores: map<Username, real>, bestOutcomes: Option<seq<Option<real>>>)

  /** Outcome vectors the score type reads without an `IndexError`: the sum zips, the groups index by testcase, the relative baseline has one slot per outcome. */
  predicate Fits(p: Policy, evals: seq<real>) {
    match p
    case SumPolicy(_, _) => true
    case GroupPolicy(_, _, pub) => |evals| >= |pub|
    case RelativePolicy(_, floors, _) => |evals| <= |floors|
  }

  predicate Distinct(us: seq<Username>) {
    forall i, j :: 0 <= i < j < |us| ==> us[i] != us[j]
  }

  /** The user that the record of `id` names has a history (`update_scores` looks it up). */
  predicate Owned(pool: Store, hist: Histories, id: SubmissionId)
    requires id in pool
  {
    pool[id].username in hist
  }

  /** The shape every operation keeps, also between `add_submission`'s steps. */
  predicate Tables(e: ScoreType) {
    && e.maxScore == MaxScoresOf(e.policy).score
    && e.maxPublicScore == MaxScoresOf(e.policy).publicScore
    && Distinct(e.users)
    && (forall u :: u in e.submissions ==> u in e.users)
    && (forall k :: 0 <= k < |e.users| ==> e.users[k] in e.submissions)
    && (forall u :: u in e.submissions ==> |e.submissions[u]| > 0 && InStore(e.submissions[u], e.pool))
    && (forall id :: id in e.pool ==> Owned(e.pool, e.submissions, id) && Fits(e.policy, e.pool[id].evaluations))
  }

  /** The state between operations: every user has a score and the cache is empty. */
  predicate Valid(e: ScoreType) {
    && Tables(e)
    && e.scores.Keys == e.submissions.Keys
    && e.bestOutcomes.None?
  }

  /** The constructor: empty tables and the preloaded maxima. */
  function Init(p: Policy): (e: ScoreType)
    ensures Valid(e) && e.policy == p
    ensures e.maxScore == MaxScoresOf(p).score && e.maxPublicScore == MaxScoresOf(p).publicScore
    ensures e.pool == map[] && e.submissions == map[] && e.scores == map[]
  {
    var c := MaxScoresOf(p);
    ScoreType(p, c.score, c.publicScore, map[], map[], [], map[], None)
  }

  lemma TablesListed(e: ScoreType)
    requires Tables(e) && e.policy.RelativePolicy?
    ensures Listed(e.submissions, e.pool, e.users, |e.policy.floors|)
  {
    forall k | 0 <= k < |e.users| && |e.submissions[e.users[k]]| > 0
      ensures |e.pool[Last(e.submissions[e.users[k]])].evaluations| <= |e.policy.floors|
    {
      var h := e.submissions[e.users[k]];
      assert h[|h| - 1] in e.pool;
    }
  }

  /** `compute_best_outcomes()` on the current tables. */
  function CurrentBaseline(e: ScoreType): (r: seq<Option<real>>)
    requires Tables(e) && e.policy.RelativePolicy?
    ensures |r| == |e.policy.floors|
  {
    TablesListed(e);
    Baseline(e.policy.floors, e.pool, e.submissions, e.users)
  }

  /** Two pools with the same ids, owners and outcome vectors. */
  predicate SameShape(p1: Store, p2: Store) {
    && SameOutcomes(p1, p2)
    && forall id :: id in p1 ==> p1[id].username == p2[id].username
  }

  /** Changing scores, details or token flags keeps the tables' shape and the baseline. */
  lemma TablesFrame(e: ScoreType, pool: Store)
    requires Tables(e) && SameShape(e.pool, pool)
    ensures Tables(e.(pool := pool))
    ensures e.policy.RelativePolicy? ==> CurrentBaseline(e.(pool := pool)) == CurrentBaseline(e)
  {
    var t := e.(pool := pool);
    forall u | u in t.submissions
      ensures InStore(t.submissions[u], pool)
    {
      assert InStore(e.submissions[u], e.pool);
    }
    forall id | id in pool
      ensures Owned(pool, t.submissions, id) && Fits(t.policy, pool[id].evaluations)
    {
      assert Owned(e.pool, e.submissions, id);
    }
    if e.policy.RelativePolicy? {
      TablesListed(e);
      BaselineFrame(e.policy.floors, e.pool, pool, e.submissions, e.users);
    }
  }

  /** The baseline is positive wherever some stored outcome vector divides by it. */
  predicate Divisible(best: seq<Option<real>>, pool: Store) {
    forall id :: id in pool ==>
      PositiveBaseline(best, if |pool[id].evaluations| <= |best| then |pool[id].evaluations| else |best|)
  }

  lemma DivisibleFrame(best: seq<Option<real>>, p1: Store, p2: Store)
    requires Divisible(best, p1) && SameOutcomes(p1, p2)
    ensures Divisible(best, p2)
  {
    forall id | id in p2
      ensures PositiveBaseline(best, if |p2[id].evaluations| <= |best| then |p2[id].evaluations| else |best|)
    {
      assert id in p1;
    }
  }

  // ---------------------------------------------------------------------------
  // update_scores
  // ---------------------------------------------------------------------------

  /** The relative rescoring loop: every record gets `sum(outcome / best) * multiplier`, unrounded. */
  function Rescore(m: real, pool: Store, best: seq<Option<real>>): (r: Store)
    requires Divisible(best, pool)
    ensures SameShape(pool, r)
    ensures forall id :: id in pool ==> r[id] == pool[id].(score := RelativeRescore(m, pool[id].evaluations, best))
  {
    map id | id in pool :: pool[id].(score := RelativeRescore(m, pool[id].evaluations, best))
  }

  /** The score table the best-score rule gives every user (for the relative type every submission counts). */
  function BestScores(hist: Histories, pool: Store, everyCounts: bool): (r: map<Username, real>)
    requires forall u :: u in hist ==> InStore(hist[u], pool)
    ensures r.Keys == hist.Keys
    ensures forall u :: u in hist ==> r[u] == BestScore(hist[u], pool, everyCounts)
  {
    map u | u in hist :: BestScore(hist[u], pool, everyCounts)
  }

  /** The relative score table reads scores, never token flags. */
  lemma BestScoresIgnoreFlags(hist: Histories, p1: Store, p2: Store)
    requires forall u :: u in hist ==> InStore(hist[u], p1) && InStore(hist[u], p2)
    requires forall id :: id in p1 && id in p2 ==> p1[id].score == p2[id].score
    ensures BestScores(hist, p1, true) == BestScores(hist, p2, true)
  {
    forall u | u in hist
      ensures BestScore(hist[u], p1, true) == BestScore(hist[u], p2, true)
    {
      var h := hist[u];
      assert InStore(h, p1) && InStore(h, p2);
      forall i | 0 <= i < |h|
        ensures p1[h[i]].score == p2[h[i]].score
      {
        var id := h[i];
        assert id in p1 && id in p2;
        assert p1[id].score == p2[id].score;
      }
      BestScoreFrame(h, p1, p2, true);
    }
  }

  /** `ScoreTypeRelative.update_scores` with baseline `best`: rescore every record, then every user. */
  function RelativeRefresh(e: ScoreType, best: seq<Option<real>>): (r: ScoreType)
    requires Tables(e) && e.policy.RelativePolicy? && Divisible(best, e.pool)
    ensures Tables(r) && r.scores.Keys == r.submissions.Keys && r.bestOutcomes.None?
    ensures SameShape(e.pool, r.pool)
    ensures r.pool == Rescore(e.policy.multiplier, e.pool, best)
    ensures Consistent(r)
    ensures r == e.(pool := r.pool, scores := r.scores, bestOutcomes := None)
  {
    var pool := Rescore(e.policy.multiplier, e.pool, best);
    TablesFrame(e, pool);
    e.(pool := pool, scores := BestScores(e.submissions, pool, true), bestOutcomes := None)
  }

  /** The baseline `update_scores` uses: the cached one if `compute_score` left it, else a fresh one. */
  function Cache(e: ScoreType): seq<Option<real>>
    requires Tables(e) && e.policy.RelativePolicy?
  {
    if e.bestOutcomes.Some? then e.bestOutcomes.value else CurrentBaseline(e)
  }

  /**
   * `update_scores(id)`. The alone types refresh the score of the user the
   * record of `id` names; the relative type refreshes everything and drops
   * the cache.
   */
  function UpdateScores(e: ScoreType, id: SubmissionId): (r: ScoreType)
    requires Tables(e)
    requires e.policy.Alone() ==> id in e.pool
    requires e.policy.RelativePolicy? ==> Divisible(Cache(e), e.pool)
    ensures Tables(r) && SameShape(e.pool, r.pool)
    ensures r.submissions == e.submissions && r.users == e.users && r.policy == e.policy
    ensures forall x :: x in e.pool ==> r.pool[x] == e.pool[x].(score := r.pool[x].score)
    ensures e.policy.Alone() ==> r.pool == e.pool && r.bestOutcomes == e.bestOutcomes
    ensures e.policy.Alone() ==> r.scores.Keys == e.scores.Keys + {e.pool[id].username}
    ensures e.policy.Alone() ==> var u := e.pool[id].username;
      && u in e.submissions && InStore(e.submissions[u], e.pool)
      && IsBest(r.scores[u], e.submissions[u], e.pool, false)
      && forall v :: v in e.scores && v != u ==> r.scores[v] == e.scores[v]
    ensures e.policy.RelativePolicy? ==> r.scores.Keys == r.submissions.Keys && r.bestOutcomes.None?
    ensures e.policy.RelativePolicy? ==> r.pool == Rescore(e.policy.multiplier, e.pool, Cache(e)) && Consistent(r)
    ensures e.policy.RelativePolicy? && e.bestOutcomes.None? ==> Settled(r)
  {
    if e.policy.Alone() then
      var u := e.pool[id].username;
      assert Owned(e.pool, e.submissions, id);
      BestScoreIsMaximum(e.submissions[u], e.pool, false);
      e.(scores := e.scores[u := BestScore(e.submissions[u], e.pool, false)])
    else
      if e.bestOutcomes.None? then RefreshSettles(e); RelativeRefresh(e, Cache(e))
      else RelativeRefresh(e, Cache(e))
  }

  // ---------------------------------------------------------------------------
  // add_submission
  // ---------------------------------------------------------------------------

  /** A record as stored after `compute_score` returned `s`. */
  function Stored(timestamp: int, username: Username, evals: seq<real>, tokened: bool, s: Scored): Record {
    Record(timestamp, username, evals, tokened, s.score, s.details, s.publicScore, s.publicDetails)
  }

  /** The pool `compute_score` sees: the new record is in, its derived fields still unset. */
  function Arrival(pool: Store, id: SubmissionId, timestamp: int, username: Username, evals: seq<real>, tokened: bool): Store {
    pool[id := Record(timestamp, username, evals, tokened, 0.0, None, 0.0, None)]
  }

  /**
   * The baseline the relative `compute_score` caches while adding a
   * submission: the new record is in the pool, but its id has not yet joined
   * any history.
   */
  function StaleBaseline(e: ScoreType, id: SubmissionId, timestamp: int, username: Username, evals: seq<real>, tokened: bool): (r: seq<Option<real>>)
    requires Tables(e) && e.policy.RelativePolicy? && Fits(e.policy, evals)
    ensures |r| == |e.policy.floors|
  {
    var arrival := Arrival(e.pool, id, timestamp, username, evals, tokened);
    TablesListed(e);
    assert Listed(e.submissions, arrival, e.users, |e.policy.floors|) by {
      forall k | 0 <= k < |e.users| && |e.submissions[e.users[k]]| > 0
        ensures |arrival[Last(e.submissions[e.users[k]])].evaluations| <= |e.policy.floors|
      {
      }
    }
    Baseline(e.policy.floors, arrival, e.submissions, e.users)
  }

  /** What the relative type demands before adding: the cached baseline divides every stored vector. */
  predicate AddableRelative(e: ScoreType, id: SubmissionId, timestamp: int, username: Username, evals: seq<real>, tokened: bool)
    requires Tables(e) && e.policy.RelativePolicy? && Fits(e.policy, evals)
  {
    Divisible(StaleBaseline(e, id, timestamp, username, evals, tokened), Arrival(e.pool, id, timestamp, username, evals, tokened))
  }

  /** The history of `username` before the new id joins it (absent users have none). */
  function HistoryOf(hist: Histories, username: Username): seq<SubmissionId> {
    if username in hist then hist[username] else []
  }

  /**
   * Lines 147-180 of `add_submission`: store `rec` under `id`, append `id` to
   * its user's history and move it into timestamp order, leaving `cache` in
   * `best_outcomes`.
   */
  function Arrive(e: ScoreType, id: SubmissionId, rec: Record, cache: Option<seq<Option<real>>>): (r: ScoreType)
    requires Valid(e) && Fits(e.policy, rec.evaluations)
    ensures Tables(r)
    ensures r.pool == e.pool[id := rec]
    ensures r.submissions == e.submissions[rec.username := InsertByTime(HistoryOf(e.submissions, rec.username), id, r.pool)]
    ensures r.users == if rec.username in e.submissions then e.users else e.users + [rec.username]
    ensures r.scores == e.scores && r.policy == e.policy && r.bestOutcomes == cache
  {
    var pool := e.pool[id := rec];
    var u := rec.username;
    var before := HistoryOf(e.submissions, u);
    var after := InsertByTime(before, id, pool);
    var hist := e.submissions[u := after];
    var users := if u in e.submissions then e.users else e.users + [u];
    var r := e.(pool := pool, submissions := hist, users := users, bestOutcomes := cache);
    assert Distinct(users);
    assert forall v :: v in hist ==> |hist[v]| > 0 && InStore(hist[v], pool) by {
      forall v | v in hist
        ensures |hist[v]| > 0 && InStore(hist[v], pool)
      {
        if v != u {
          assert InStore(e.submissions[v], e.pool);
        }
      }
    }
    assert forall x :: x in pool ==> Owned(pool, hist, x) by {
      forall x | x in pool
        ensures Owned(pool, hist, x)
      {
        if x != id {
          assert Owned(e.pool, e.submissions, x);
        }
      }
    }
    r
  }

  /** `add_submission` for the alone types, once `compute_score` has produced `rec`. */
  function AddAlone(e: ScoreType, id: SubmissionId, rec: Record): (r: ScoreType)
    requires Valid(e) && e.policy.Alone() && Fits(e.policy, rec.evaluations)
    ensures Valid(r) && r.policy == e.policy && r.pool == e.pool[id := rec]
    ensures r.submissions == Arrive(e, id, rec, None).submissions && r.users == Arrive(e, id, rec, None).users
    ensures SameShape(Arrive(e, id, rec, None).pool, r.pool)
    ensures r.scores == e.scores[rec.username := BestScore(r.submissions[rec.username], r.pool, false)]
  {
    var a := Arrive(e, id, rec, None);
    assert a.submissions.Keys == e.submissions.Keys + {rec.username};
    UpdateScores(a, id)
  }

  /** `add_submission` for the relative type, once `compute_score` has produced `rec` and cached `stale`. */
  function AddRelative(e: ScoreType, id: SubmissionId, rec: Record, stale: seq<Option<real>>): (r: ScoreType)
    requires Valid(e) && e.policy.RelativePolicy? && Fits(e.policy, rec.evaluations)
    requires Divisible(stale, e.pool[id := rec])
    ensures Valid(r) && r.policy == e.policy && SameShape(e.pool[id := rec], r.pool)
    ensures r.submissions == Arrive(e, id, rec, None).submissions && r.users == Arrive(e, id, rec, None).users
    ensures r.pool[id] == rec.(score := r.pool[id].score)
  {
    UpdateScores(Arrive(e, id, rec, Some(stale)), id)
  }

  /** The record `add_submission` stores under the new id, before any relative rescoring. */
  function AddedRecord(e: ScoreType, id: SubmissionId, timestamp: int, username: Username, evals: seq<real>, tokened: bool): (rec: Record)
    requires Valid(e) && Fits(e.policy, evals)
    requires e.policy.RelativePolicy? ==> AddableRelative(e, id, timestamp, username, evals, tokened)
    ensures rec.timestamp == timestamp && rec.username == username && rec.evaluations == evals && rec.tokened == tokened
  {
    if e.policy.Alone() then Stored(timestamp, username, evals, tokened, ComputeAlone(e.policy, evals))
    else
      var stale := StaleBaseline(e, id, timestamp, username, evals, tokened);
      assert PositiveBaseline(stale, |evals|) by {
        assert id in Arrival(e.pool, id, timestamp, username, evals, tokened);
      }
      Stored(timestamp, username, evals, tokened, RelativeScore(e.policy.multiplier, e.policy.publicTestcases, evals, stale))
  }

  /**
   * `add_submission(id, timestamp, username, evaluations, tokened)`, as
   * written: `compute_score` runs against the pool that already holds the new
   * record; the relative type caches the baseline it computed there, before
   * `id` joined its user's history, and `update_scores` reuses that cache.
   */
  function AddSubmission(e: ScoreType, id: SubmissionId, timestamp: int, username: Username, evals: seq<real>, tokened: bool): (r: ScoreType)
    requires Valid(e) && Fits(e.policy, evals)
    requires e.policy.RelativePolicy? ==> AddableRelative(e, id, timestamp, username, evals, tokened)
    ensures Valid(r) && r.policy == e.policy
    ensures var a := Arrive(e, id, AddedRecord(e, id, timestamp, username, evals, tokened), None);
      r.submissions == a.submissions && r.users == a.users && SameShape(a.pool, r.pool)
  {
    var rec := AddedRecord(e, id, timestamp, username, evals, tokened);
    if e.policy.Alone() then
      AddAlone(e, id, rec)
    else
      var stale := StaleBaseline(e, id, timestamp, username, evals, tokened);
      DivisibleFrame(stale, Arrival(e.pool, id, timestamp, username, evals, tokened), e.pool[id := rec]);
      AddRelative(e, id, rec, stale)
  }

  /** The arrival adds `id` once to the history of the record's user and touches no other history. */
  lemma ArriveHistory(e: ScoreType, id: SubmissionId, rec: Record)
    requires Valid(e) && Fits(e.policy, rec.evaluations)
    ensures var a := Arrive(e, id, rec, None);
      && multiset(a.submissions[rec.username]) == multiset(HistoryOf(e.submissions, rec.username)) + multiset{id}
      && (forall u :: u in e.submissions && u != rec.username ==> a.submissions[u] == e.submissions[u])
  {
  }

  /** The new id joins its user's history exactly once, and no other history changes. */
  lemma AddSubmissionHistory(e: ScoreType, id: SubmissionId, timestamp: int, username: Username, evals: seq<real>, tokened: bool)
    requires Valid(e) && Fits(e.policy, evals)
    requires e.policy.RelativePolicy? ==> AddableRelative(e, id, timestamp, username, evals, tokened)
    ensures var r := AddSubmission(e, id, timestamp, username, evals, tokened);
      && r.users == (if username in e.submissions then e.users else e.users + [username])
      && multiset(r.submissions[username]) == multiset(HistoryOf(e.submissions, username)) + multiset{id}
      && (forall u :: u in e.submissions && u != username ==> r.submissions[u] == e.submissions[u])
  {
    var rec := AddedRecord(e, id, timestamp, username, evals, tokened);
    ArriveHistory(e, id, rec);
  }

  /**
   * The stored record carries the arguments; the alone types keep the score
   * `compute_score` gave it, the relative type rescoring it at once.
   */
  lemma AddSubmissionRecord(e: ScoreType, id: SubmissionId, timestamp: int, username: Username, evals: seq<real>, tokened: bool)
    requires Valid(e) && Fits(e.policy, evals)
    requires e.policy.RelativePolicy? ==> AddableRelative(e, id, timestamp, username, evals, tokened)
    ensures var r := AddSubmission(e, id, timestamp, username, evals, tokened);
      && r.pool.Keys == e.pool.Keys + {id}
      && r.pool[id].timestamp == timestamp && r.pool[id].username == username
      && r.pool[id].evaluations == evals && r.pool[id].tokened == tokened
      && (e.policy.Alone() ==> r.pool[id].score == ComputeAlone(e.policy, evals).score)
  {
  }

  // ---------------------------------------------------------------------------
  // add_token
  // ---------------------------------------------------------------------------

  /** The pool after `self.pool[id]["tokened"] = True`; an unknown id leaves it alone (the `KeyError` is logged). */
  function Tokened(pool: Store, id: SubmissionId): (r: Store)
    ensures SameShape(pool, r)
    ensures forall x :: x in pool && x != id ==> r[x] == pool[x]
    ensures id in pool ==> r[id] == pool[id].(tokened := true)
  {
    if id in pool then pool[id := pool[id].(tokened := true)] else pool
  }

  /**
   * `add_token(id)`: mark the submission tokened, then `update_scores(id)`.
   * The alone types look the id up again there, so an unknown id ends in a
   * `KeyError`; the relative type never reads it and recomputes everything.
   */
  function AddToken(e: ScoreType, id: SubmissionId): (r: Result<ScoreType, EngineError>)
    requires Valid(e)
    requires e.policy.RelativePolicy? ==> Divisible(CurrentBaseline(e), e.pool)
    ensures r.Failure? <==> e.policy.Alone() && id !in e.pool
    ensures r.Success? ==> Valid(r.value) && r.value.policy == e.policy
    ensures r.Success? ==> r.value.submissions == e.submissions && r.value.users == e.users
    ensures r.Success? ==> SameShape(e.pool, r.value.pool)
    ensures r.Success? && id in e.pool ==> r.value.pool[id].tokened
    ensures r.Success? ==> forall x :: x in e.pool ==> r.value.pool[x].tokened == (e.pool[x].tokened || x == id)
  {
    if e.policy.Alone() && id !in e.pool then Failure(UnknownSubmission(id))
    else if e.policy.Alone() then Success(TokenAlone(e, id))
    else Success(TokenRelative(e, id))
  }

  /** `add_token` of an alone type on a known id: only the owner's score is recomputed. */
  function TokenAlone(e: ScoreType, id: SubmissionId): (r: ScoreType)
    requires Valid(e) && e.policy.Alone() && id in e.pool
    ensures Valid(r) && r.policy == e.policy && r.submissions == e.submissions && r.users == e.users
    ensures SameShape(e.pool, r.pool)
    ensures forall x :: x in e.pool ==> r.pool[x].tokened == (e.pool[x].tokened || x == id)
  {
    var t := e.(pool := Tokened(e.pool, id));
    TablesFrame(e, t.pool);
    assert Owned(e.pool, e.submissions, id);
    UpdateScores(t, id)
  }

  /** `add_token` of the relative type: the flag is set and everything is recomputed. */
  function TokenRelative(e: ScoreType, id: SubmissionId): (r: ScoreType)
    requires Valid(e) && e.policy.RelativePolicy? && Divisible(CurrentBaseline(e), e.pool)
    ensures Valid(r) && r.policy == e.policy && r.submissions == e.submissions && r.users == e.users
    ensures SameShape(e.pool, r.pool)
    ensures forall x :: x in e.pool ==> r.pool[x].tokened == (e.pool[x].tokened || x == id)
  {
    var t := e.(pool := Tokened(e.pool, id));
    TablesFrame(e, t.pool);
    DivisibleFrame(CurrentBaseline(e), e.pool, t.pool);
    UpdateScores(t, id)
  }

  // ---------------------------------------------------------------------------
  // compute_all_scores
  // ---------------------------------------------------------------------------

  /** What the relative type demands of the current tables: the fresh baseline divides every stored vector. */
  predicate Computable(e: ScoreType)
    requires Tables(e)
  {
    e.policy.RelativePolicy? ==> Divisible(CurrentBaseline(e), e.pool)
  }

  /** Every history lies in the pool, and the record of each last submission names a user with a history. */
  predicate Stocked(pool: Store, hist: Histories) {
    forall u :: u in hist ==> InStore(hist[u], pool) && (|hist[u]| > 0 ==> pool[Last(hist[u])].username in hist)
  }

  lemma TablesStocked(e: ScoreType)
    requires Tables(e)
    ensures Stocked(e.pool, e.submissions)
  {
    forall u | u in e.submissions && |e.submissions[u]| > 0
      ensures e.pool[Last(e.submissions[u])].username in e.submissions
    {
      assert Owned(e.pool, e.submissions, Last(e.submissions[u]));
    }
  }

  /**
   * The alone types' outer loop: `compute_score` only reads, and its results
   * are dropped, so each turn is `update_scores` on the user's last
   * submission, which refreshes the score of the user that record names.
   */
  function RefreshScores(pool: Store, hist: Histories, scores: map<Username, real>, us: seq<Username>): (r: map<Username, real>)
    requires Stocked(pool, hist) && forall k :: 0 <= k < |us| ==> us[k] in hist
    ensures scores.Keys <= r.Keys <= scores.Keys + hist.Keys
    decreases |us|
  {
    if |us| == 0 then scores
    else
      var h := hist[us[0]];
      var next := if |h| == 0 then scores else
        var v := pool[Last(h)].username;
        scores[v := BestScore(hist[v], pool, false)];
      RefreshScores(pool, hist, next, us[1..])
  }

  /**
   * One turn of the relative type's outer loop for user `u`: each
   * `compute_score` caches a fresh baseline (its result is dropped), then
   * `update_scores` on the last submission consumes the cache.
   */
  function RelativeRecompute(e: ScoreType, u: Username): (r: ScoreType)
    requires Valid(e) && e.policy.RelativePolicy? && Computable(e) && u in e.submissions
    ensures Valid(r) && Computable(r)
    ensures r == e.(pool := r.pool, scores := r.scores)
    ensures SameShape(e.pool, r.pool) && CurrentBaseline(r) == CurrentBaseline(e)
  {
    var h := e.submissions[u];
    if |h| == 0 then e
    else
      var r := UpdateScores(e.(bestOutcomes := Some(CurrentBaseline(e))), Last(h));
      TablesFrame(e, r.pool);
      DivisibleFrame(CurrentBaseline(e), e.pool, r.pool);
      r
  }

  function RelativeComputeOver(e: ScoreType, us: seq<Username>): (r: ScoreType)
    requires Valid(e) && e.policy.RelativePolicy? && Computable(e)
    requires forall k :: 0 <= k < |us| ==> us[k] in e.submissions
    ensures Valid(r) && Computable(r)
    ensures r == e.(pool := r.pool, scores := r.scores)
    ensures SameShape(e.pool, r.pool)
    decreases |us|
  {
    if |us| == 0 then e
    else
      var next := RelativeRecompute(e, us[0]);
      assert Valid(next) && Computable(next);
      assert next.submissions == e.submissions;
      var r := RelativeComputeOver(next, us[1..]);
      r
  }

  /** `compute_all_scores()`: one turn per user, in dict order. */
  function ComputeAll(e: ScoreType): (r: ScoreType)
    requires Valid(e) && Computable(e)
    ensures Valid(r) && Computable(r)
    ensures r == e.(pool := r.pool, scores := r.scores)
    ensures SameShape(e.pool, r.pool)
    ensures e.policy.Alone() ==> r.pool == e.pool
  {
    if e.policy.Alone() then
      TablesStocked(e);
      e.(scores := RefreshScores(e.pool, e.submissions, e.scores, e.users))
    else
      RelativeComputeOver(e, e.users)
  }

  // ---------------------------------------------------------------------------
  // Invariants of the score table
  // ---------------------------------------------------------------------------

  /** Every user's score is the best-score rule on their history (for the relative type every submission counts). */
  predicate Consistent(e: ScoreType)
    requires Tables(e)
  {
    e.scores == BestScores(e.submissions, e.pool, e.policy.RelativePolicy?)
  }

  /** Every id in a user's history is a record of that user: no id was reused by someone else. */
  predicate Coherent(e: ScoreType)
    requires Tables(e)
  {
    forall u, i :: u in e.submissions && 0 <= i < |e.submissions[u]| ==> e.pool[e.submissions[u][i]].username == u
  }

  /** Elements of an insertion are the old elements and the new id. */
  lemma InsertByTimeElements(h: seq<SubmissionId>, id: SubmissionId, pool: Store, i: nat)
    requires InStore(h, pool) && id in pool && i < |InsertByTime(h, id, pool)|
    ensures InsertByTime(h, id, pool)[i] == id || InsertByTime(h, id, pool)[i] in h
  {
    var r := InsertByTime(h, id, pool);
    assert r[i] in multiset(r);
  }

  /** A history that does not mention `id` keeps its best score when the record of `id` is replaced. */
  lemma UntouchedHistory(h: seq<SubmissionId>, pool: Store, id: SubmissionId, rec: Record, everyCounts: bool)
    requires InStore(h, pool) && id !in pool
    ensures InStore(h, pool[id := rec])
    ensures BestScore(h, pool[id := rec], everyCounts) == BestScore(h, pool, everyCounts)
    ensures forall i :: 0 <= i < |h| ==> pool[id := rec][h[i]] == pool[h[i]]
  {
    var p := pool[id := rec];
    assert forall i :: 0 <= i < |h| ==> h[i] != id && p[h[i]] == pool[h[i]];
    BestScoreFrame(h, pool, p, everyCounts);
  }

  lemma AddAloneConsistent(e: ScoreType, id: SubmissionId, rec: Record)
    requires Valid(e) && e.policy.Alone() && Fits(e.policy, rec.evaluations)
    requires Consistent(e) && id !in e.pool
    ensures Consistent(AddAlone(e, id, rec))
  {
    var r := AddAlone(e, id, rec);
    var a := Arrive(e, id, rec, None);
    assert r.submissions == a.submissions && r.pool == a.pool;
    assert a.submissions.Keys == e.submissions.Keys + {rec.username};
    assert InStore(a.submissions[rec.username], a.pool);
    ArrivalScores(e.scores, e.submissions, e.pool, id, rec, a.submissions);
  }

  /**
   * A new history for the record's user, every other history as it was: the
   * new user's score by the best-score rule, every other score as it was.
   */
  lemma ArrivalScores(scores: map<Username, real>, before: Histories, pool: Store, id: SubmissionId, rec: Record, hist: Histories)
    requires forall v :: v in before ==> InStore(before[v], pool)
    requires scores == BestScores(before, pool, false) && id !in pool
    requires hist.Keys == before.Keys + {rec.username}
    requires forall v :: v in hist && v != rec.username ==> hist[v] == before[v]
    requires InStore(hist[rec.username], pool[id := rec])
    ensures forall v :: v in hist ==> InStore(hist[v], pool[id := rec])
    ensures scores[rec.username := BestScore(hist[rec.username], pool[id := rec], false)]
      == BestScores(hist, pool[id := rec], false)
  {
    var u := rec.username;
    var p := pool[id := rec];
    forall v | v in hist
      ensures InStore(hist[v], p)
    {
      if v != u {
        UntouchedHistory(before[v], pool, id, rec, false);
      }
    }
    var next := scores[u := BestScore(hist[u], p, false)];
    var best := BestScores(hist, p, false);
    forall v | v in hist
      ensures next[v] == best[v]
    {
      if v != u {
        UntouchedHistory(before[v], pool, id, rec, false);
      }
    }
    assert next == best;
  }

  lemma AddAloneCoherent(e: ScoreType, id: SubmissionId, rec: Record)
    requires Valid(e) && e.policy.Alone() && Fits(e.policy, rec.evaluations)
    requires Coherent(e) && id !in e.pool
    ensures Coherent(AddAlone(e, id, rec))
  {
    var r := AddAlone(e, id, rec);
    var u := rec.username;
    var before := HistoryOf(e.submissions, u);
    assert r.submissions == e.submissions[u := InsertByTime(before, id, r.pool)];
    forall v, i | v in r.submissions && 0 <= i < |r.submissions[v]|
      ensures r.pool[r.submissions[v][i]].username == v
    {
      if v != u {
        UntouchedOwner(e, id, rec, v, i);
      } else {
        NewHistoryOwner(e, id, rec, i);
      }
    }
  }

  lemma UntouchedOwner(e: ScoreType, id: SubmissionId, rec: Record, v: Username, i: nat)
    requires Valid(e) && Coherent(e) && id !in e.pool
    requires v in e.submissions && i < |e.submissions[v]|
    ensures e.pool[id := rec][e.submissions[v][i]].username == v
  {
    var x := e.submissions[v][i];
    assert x in e.pool;
  }

  lemma NewHistoryOwner(e: ScoreType, id: SubmissionId, rec: Record, i: nat)
    requires Valid(e) && Coherent(e) && id !in e.pool
    requires i < |InsertByTime(HistoryOf(e.submissions, rec.username), id, e.pool[id := rec])|
    ensures e.pool[id := rec][InsertByTime(HistoryOf(e.submissions, rec.username), id, e.pool[id := rec])[i]].username == rec.username
  {
    var u := rec.username;
    var p := e.pool[id := rec];
    var before := HistoryOf(e.submissions, u);
    InsertByTimeElements(before, id, p, i);
    var x := InsertByTime(before, id, p)[i];
    if x != id {
      var j :| 0 <= j < |before| && before[j] == x;
      assert u in e.submissions;
      assert e.pool[x].username == u;
    }
  }

  /**
   * Alone types: adding a submission under a fresh id keeps every score equal
   * to the best-score rule, and keeps histories coherent.
   */
  lemma AddSubmissionConsistent(e: ScoreType, id: SubmissionId, timestamp: int, username: Username, evals: seq<real>, tokened: bool)
    requires Valid(e) && e.policy.Alone() && Fits(e.policy, evals)
    requires Consistent(e) && Coherent(e) && id !in e.pool
    ensures var r := AddSubmission(e, id, timestamp, username, evals, tokened);
      Consistent(r) && Coherent(r)
  {
    var rec := AddedRecord(e, id, timestamp, username, evals, tokened);
    assert AddSubmission(e, id, timestamp, username, evals, tokened) == AddAlone(e, id, rec);
    AddAloneConsistent(e, id, rec);
    AddAloneCoherent(e, id, rec);
  }

  /** With coherent histories each turn refreshes its own user: listed users get the best-score rule, others keep their score. */
  lemma {:induction false} RefreshScoresCoherent(pool: Store, hist: Histories, scores: map<Username, real>, us: seq<Username>)
    requires Stocked(pool, hist) && forall k :: 0 <= k < |us| ==> us[k] in hist
    requires forall u :: u in hist && |hist[u]| > 0 ==> pool[Last(hist[u])].username == u
    ensures var r := RefreshScores(pool, hist, scores, us);
      && (forall v :: v in scores && v !in us ==> r[v] == scores[v])
      && (forall v :: v in us && |hist[v]| > 0 ==> v in r && r[v] == BestScore(hist[v], pool, false))
    decreases |us|
  {
    if |us| > 0 {
      var h := hist[us[0]];
      var next := if |h| == 0 then scores else scores[us[0] := BestScore(h, pool, false)];
      RefreshScoresCoherent(pool, hist, next, us[1..]);
      assert RefreshScores(pool, hist, scores, us) == RefreshScores(pool, hist, next, us[1..]);
      forall v | v in us && |hist[v]| > 0
        ensures v in RefreshScores(pool, hist, scores, us)
        ensures RefreshScores(pool, hist, scores, us)[v] == BestScore(hist[v], pool, false)
      {
        if v != us[0] {
          assert v in us[1..];
        }
      }
    }
  }

  /**
   * Alone types: with coherent histories `compute_all_scores` makes every
   * score consistent and changes nothing but scores; on a consistent table it
   * changes nothing at all.
   */
  lemma ComputeAllAlone(e: ScoreType)
    requires Valid(e) && Computable(e) && e.policy.Alone() && Coherent(e)
    ensures var r := ComputeAll(e);
      && r == e.(scores := r.scores)
      && Consistent(r)
      && (Consistent(e) ==> r == e)
  {
    RefreshedTables(e);
  }

  /** The map the alone types' loop leaves behind: the best-score rule for every user. */
  lemma RefreshedTables(e: ScoreType)
    requires Valid(e) && e.policy.Alone() && Coherent(e)
    ensures Stocked(e.pool, e.submissions)
    ensures RefreshScores(e.pool, e.submissions, e.scores, e.users) == BestScores(e.submissions, e.pool, false)
  {
    TablesStocked(e);
    LastOwned(e);
    RefreshEveryone(e.pool, e.submissions, e.scores, e.users);
  }

  /** With coherent histories the last submission of every user is that user's own. */
  lemma LastOwned(e: ScoreType)
    requires Valid(e) && Coherent(e)
    ensures forall u :: u in e.submissions && |e.submissions[u]| > 0 ==> e.pool[Last(e.submissions[u])].username == u
    ensures forall k :: 0 <= k < |e.users| ==> e.users[k] in e.submissions
    ensures forall u :: u in e.submissions ==> u in e.users && |e.submissions[u]| > 0
    ensures e.scores.Keys <= e.submissions.Keys
  {
    forall u | u in e.submissions && |e.submissions[u]| > 0
      ensures e.pool[Last(e.submissions[u])].username == u
    {
      var h := e.submissions[u];
      assert e.pool[h[|h| - 1]].username == u;
    }
  }

  /** A loop over every user with a non-empty, coherent history rebuilds the whole best-score table. */
  lemma RefreshEveryone(pool: Store, hist: Histories, scores: map<Username, real>, us: seq<Username>)
    requires Stocked(pool, hist) && forall k :: 0 <= k < |us| ==> us[k] in hist
    requires forall u :: u in hist && |hist[u]| > 0 ==> pool[Last(hist[u])].username == u
    requires forall u :: u in hist ==> u in us && |hist[u]| > 0
    requires scores.Keys <= hist.Keys
    ensures RefreshScores(pool, hist, scores, us) == BestScores(hist, pool, false)
  {
    RefreshScoresCoherent(pool, hist, scores, us);
    var r := RefreshScores(pool, hist, scores, us);
    var b := BestScores(hist, pool, false);
    forall u | u in hist
      ensures u in r && r[u] == b[u]
    {
    }
    assert r.Keys == b.Keys;
  }

  // ---------------------------------------------------------------------------
  // The relative type
  // ---------------------------------------------------------------------------

  /** Every record is rescored against the current baseline and every score follows the best-score rule. */
  predicate Settled(e: ScoreType)
    requires Tables(e) && e.policy.RelativePolicy?
  {
    && Divisible(CurrentBaseline(e), e.pool)
    && e.pool == Rescore(e.policy.multiplier, e.pool, CurrentBaseline(e))
    && Consistent(e)
  }

  /** Refreshing against the current baseline settles the tables. */
  lemma RefreshSettles(e: ScoreType)
    requires Tables(e) && e.policy.RelativePolicy? && Divisible(CurrentBaseline(e), e.pool)
    ensures Settled(RelativeRefresh(e, CurrentBaseline(e)))
  {
    var r := RelativeRefresh(e, CurrentBaseline(e));
    TablesFrame(e, r.pool);
    DivisibleFrame(CurrentBaseline(e), e.pool, r.pool);
  }

  /** On settled tables a refresh changes nothing. */
  lemma SettledIsFixed(e: ScoreType)
    requires Valid(e) && e.policy.RelativePolicy? && Settled(e)
    ensures RelativeRefresh(e, CurrentBaseline(e)) == e
  {
    var r := RelativeRefresh(e, CurrentBaseline(e));
    assert r.pool == e.pool;
    assert r.scores == e.scores;
  }

  /** A turn of the relative outer loop is a refresh against the current baseline. */
  lemma RelativeRecomputeRefreshes(e: ScoreType, u: Username)
    requires Valid(e) && e.policy.RelativePolicy? && Computable(e) && u in e.submissions
    ensures RelativeRecompute(e, u) == RelativeRefresh(e, CurrentBaseline(e))
  {
    var c := e.(bestOutcomes := Some(CurrentBaseline(e)));
    TablesFrame(e, e.pool);
    assert RelativeRefresh(c, CurrentBaseline(e)) == RelativeRefresh(e, CurrentBaseline(e));
  }

  lemma {:induction false} RelativeComputeOverRefreshes(e: ScoreType, us: seq<Username>)
    requires Valid(e) && e.policy.RelativePolicy? && Computable(e)
    requires forall k :: 0 <= k < |us| ==> us[k] in e.submissions
    ensures |us| > 0 ==> RelativeComputeOver(e, us) == RelativeRefresh(e, CurrentBaseline(e))
    decreases |us|
  {
    if |us| > 1 {
      var next := RelativeRecompute(e, us[0]);
      assert next == RelativeRefresh(e, CurrentBaseline(e)) by {
        RelativeRecomputeRefreshes(e, us[0]);
      }
      assert next.submissions == e.submissions;
      var rest := us[1..];
      forall k | 0 <= k < |rest|
        ensures rest[k] in next.submissions
      {
        assert rest[k] == us[k + 1];
      }
      assert RelativeComputeOver(e, us) == RelativeComputeOver(next, rest);
      assert RelativeComputeOver(next, rest) == RelativeRefresh(next, CurrentBaseline(next)) by {
        RelativeComputeOverRefreshes(next, rest);
      }
      assert RelativeRefresh(next, CurrentBaseline(next)) == next by {
        RefreshSettles(e);
        SettledIsFixed(next);
      }
    } else if |us| == 1 {
      RelativeRecomputeRefreshes(e, us[0]);
    }
  }

  /**
   * Relative type: `compute_all_scores` refreshes every record and score
   * against the current baseline, and on settled tables changes nothing.
   */
  lemma ComputeAllRelative(e: ScoreType)
    requires Valid(e) && e.policy.RelativePolicy? && Computable(e)
    ensures |e.users| > 0 ==> ComputeAll(e) == RelativeRefresh(e, CurrentBaseline(e)) && Settled(ComputeAll(e))
    ensures Settled(e) ==> ComputeAll(e) == e
  {
    RelativeComputeOverRefreshes(e, e.users);
    RefreshSettles(e);
    if Settled(e) && |e.users| > 0 {
      SettledIsFixed(e);
    }
  }

  // ---------------------------------------------------------------------------
  // Tokens
  // ---------------------------------------------------------------------------

  /** What `add_token` does to an alone type's tables: flag the record, refresh its owner's score. */
  lemma AddTokenAloneUnfold(e: ScoreType, id: SubmissionId)
    requires Valid(e) && e.policy.Alone() && id in e.pool
    ensures AddToken(e, id) == Success(TokenAlone(e, id))
    ensures var p := e.pool[id := e.pool[id].(tokened := true)];
      var owner := e.pool[id].username;
      TokenAlone(e, id) == e.(pool := p, scores := e.scores[owner := BestScore(e.submissions[owner], p, false)])
  {
  }

  /**
   * Alone types: playing a token on a known submission sets its flag, keeps
   * the table consistent and coherent, and is a no-op when the flag was
   * already set.
   */
  lemma AddTokenAlone(e: ScoreType, id: SubmissionId)
    requires Valid(e) && e.policy.Alone() && id in e.pool && Consistent(e) && Coherent(e)
    ensures var r := AddToken(e, id);
      && r.Success?
      && r.value.pool == e.pool[id := e.pool[id].(tokened := true)]
      && r.value == e.(pool := r.value.pool, scores := r.value.scores)
      && Consistent(r.value) && Coherent(r.value)
      && (e.pool[id].tokened ==> r.value == e)
  {
    AddTokenAloneUnfold(e, id);
    TokenAloneConsistent(e, id);
    if e.pool[id].tokened {
      assert e.pool[id := e.pool[id].(tokened := true)] == e.pool;
    }
  }

  lemma TokenAloneConsistent(e: ScoreType, id: SubmissionId)
    requires Valid(e) && e.policy.Alone() && id in e.pool && Consistent(e) && Coherent(e)
    ensures Consistent(TokenAlone(e, id)) && Coherent(TokenAlone(e, id))
  {
    AddTokenAloneUnfold(e, id);
    FlaggedScores(e, id);
    TokenAloneCoherent(e, id);
  }

  /** Flagging `id` changes the best score of its owner only. */
  lemma FlaggedScores(e: ScoreType, id: SubmissionId)
    requires Valid(e) && e.policy.Alone() && id in e.pool && Consistent(e) && Coherent(e)
    ensures var p := e.pool[id := e.pool[id].(tokened := true)];
      var owner := e.pool[id].username;
      forall u :: u in e.submissions ==> InStore(e.submissions[u], p)
    ensures var p := e.pool[id := e.pool[id].(tokened := true)];
      var owner := e.pool[id].username;
      e.scores[owner := BestScore(e.submissions[owner], p, false)] == BestScores(e.submissions, p, false)
  {
    var owner := e.pool[id].username;
    var p := e.pool[id := e.pool[id].(tokened := true)];
    assert owner in e.submissions by {
      assert Owned(e.pool, e.submissions, id);
    }
    forall u | u in e.submissions
      ensures InStore(e.submissions[u], p)
    {
      assert InStore(e.submissions[u], e.pool);
    }
    var scores := e.scores[owner := BestScore(e.submissions[owner], p, false)];
    forall u | u in e.submissions
      ensures scores[u] == BestScore(e.submissions[u], p, false)
    {
      if u != owner {
        OtherHistoryUnflagged(e, id, u);
      }
    }
  }

  lemma TokenAloneCoherent(e: ScoreType, id: SubmissionId)
    requires Valid(e) && e.policy.Alone() && id in e.pool && Coherent(e)
    ensures Coherent(TokenAlone(e, id))
  {
    AddTokenAloneUnfold(e, id);
    var r := TokenAlone(e, id);
    forall u, i | u in r.submissions && 0 <= i < |r.submissions[u]|
      ensures r.pool[r.submissions[u][i]].username == u
    {
      var x := e.submissions[u][i];
      assert e.pool[x].username == u;
    }
  }

  /** A history of someone other than the owner of `id` keeps its best score when `id` is flagged. */
  lemma OtherHistoryUnflagged(e: ScoreType, id: SubmissionId, u: Username)
    requires Valid(e) && Coherent(e) && id in e.pool && u in e.submissions && u != e.pool[id].username
    ensures InStore(e.submissions[u], e.pool[id := e.pool[id].(tokened := true)])
    ensures BestScore(e.submissions[u], e.pool[id := e.pool[id].(tokened := true)], false)
      == BestScore(e.submissions[u], e.pool, false)
  {
    var h := e.submissions[u];
    var p := e.pool[id := e.pool[id].(tokened := true)];
    assert InStore(h, e.pool);
    assert forall i :: 0 <= i < |h| ==> h[i] != id && p[h[i]] == e.pool[h[i]];
    BestScoreFrame(h, e.pool, p, false);
  }

  /** What `add_token` does to the relative type's tables: flag the record if known, refresh against a fresh baseline. */
  lemma AddTokenRelativeUnfold(e: ScoreType, id: SubmissionId)
    requires Valid(e) && e.policy.RelativePolicy? && Computable(e)
    ensures Tables(e.(pool := Tokened(e.pool, id)))
    ensures CurrentBaseline(e.(pool := Tokened(e.pool, id))) == CurrentBaseline(e)
    ensures Divisible(CurrentBaseline(e), Tokened(e.pool, id))
    ensures AddToken(e, id) == Success(TokenRelative(e, id))
    ensures TokenRelative(e, id) == RelativeRefresh(e.(pool := Tokened(e.pool, id)), CurrentBaseline(e))
  {
    var t := e.(pool := Tokened(e.pool, id));
    TablesFrame(e, t.pool);
    DivisibleFrame(CurrentBaseline(e), e.pool, t.pool);
  }

  /** Playing the same token twice is playing it once, for every score type. */
  lemma AddTokenIdempotent(e: ScoreType, id: SubmissionId)
    requires Valid(e) && Computable(e) && AddToken(e, id).Success?
    ensures Computable(AddToken(e, id).value)
    ensures AddToken(AddToken(e, id).value, id) == AddToken(e, id)
  {
    if e.policy.RelativePolicy? {
      AddTokenRelativeUnfold(e, id);
      var r := TokenRelative(e, id);
      TokenRelativeTwice(e, id);
      assert Computable(r);
      AddTokenRelativeUnfold(r, id);
    } else {
      AddTokenAloneUnfold(e, id);
      var r := TokenAlone(e, id);
      TokenAloneTwice(e, id);
      AddTokenAloneUnfold(r, id);
    }
  }

  lemma TokenAloneTwice(e: ScoreType, id: SubmissionId)
    requires Valid(e) && e.policy.Alone() && id in e.pool
    ensures id in TokenAlone(e, id).pool
    ensures TokenAlone(TokenAlone(e, id), id) == TokenAlone(e, id)
  {
    AddTokenAloneUnfold(e, id);
    var r := TokenAlone(e, id);
    AddTokenAloneUnfold(r, id);
    var owner := r.pool[id].username;
    assert r.pool[id := r.pool[id].(tokened := true)] == r.pool;
    assert r.scores[owner := BestScore(r.submissions[owner], r.pool, false)] == r.scores;
  }

  lemma TokenRelativeTwice(e: ScoreType, id: SubmissionId)
    requires Valid(e) && e.policy.RelativePolicy? && Computable(e)
    ensures Divisible(CurrentBaseline(TokenRelative(e, id)), TokenRelative(e, id).pool)
    ensures TokenRelative(TokenRelative(e, id), id) == TokenRelative(e, id)
  {
    var r := TokenRelative(e, id);
    assert Settled(r) by {
      AddTokenRelativeUnfold(e, id);
      RefreshSettles(e.(pool := Tokened(e.pool, id)));
    }
    assert TokenRelative(r, id) == RelativeRefresh(r.(pool := Tokened(r.pool, id)), CurrentBaseline(r)) by {
      AddTokenRelativeUnfold(r, id);
    }
    assert r.(pool := Tokened(r.pool, id)) == r by {
      assert id in r.pool ==> r.pool[id].tokened by {
        if id in r.pool {
          assert id in e.pool;
        }
      }
      TokenedAgain(r.pool, id);
    }
    SettledIsFixed(r);
  }

  /** Flagging a submission whose flag is already set changes nothing. */
  lemma TokenedAgain(pool: Store, id: SubmissionId)
    requires id in pool ==> pool[id].tokened
    ensures Tokened(pool, id) == pool
  {
    if id in pool {
      assert pool[id].(tokened := true) == pool[id];
    }
  }

  /**
   * Relative type, as written: a token changes nothing but the flag. Because
   * `update_scores` tests `tokened is not None`, every submission already
   * counts, so the scores equal what `compute_all_scores` gives without it.
   */
  lemma RelativeTokenIrrelevant(e: ScoreType, id: SubmissionId)
    requires Valid(e) && e.policy.RelativePolicy? && Computable(e) && |e.users| > 0
    ensures AddToken(e, id).value.scores == ComputeAll(e).scores
  {
    var t := e.(pool := Tokened(e.pool, id));
    var b := CurrentBaseline(e);
    assert AddToken(e, id).value == RelativeRefresh(t, b) by {
      AddTokenRelativeUnfold(e, id);
    }
    assert ComputeAll(e) == RelativeRefresh(e, b) by {
      ComputeAllRelative(e);
    }
    AddTokenRelativeUnfold(e, id);
    RefreshIgnoresFlags(e, t, b);
  }

  /** The relative refresh reads outcome vectors, never token flags. */
  lemma RefreshIgnoresFlags(e: ScoreType, t: ScoreType, b: seq<Option<real>>)
    requires Tables(e) && Tables(t) && e.policy.RelativePolicy? && t.policy == e.policy
    requires SameOutcomes(e.pool, t.pool) && t.submissions == e.submissions
    requires Divisible(b, e.pool) && Divisible(b, t.pool)
    ensures RelativeRefresh(e, b).scores == RelativeRefresh(t, b).scores
  {
    var p1 := Rescore(e.policy.multiplier, e.pool, b);
    var p2 := Rescore(e.policy.multiplier, t.pool, b);
    TablesFrame(e, p1);
    TablesFrame(t, p2);
    BestScoresIgnoreFlags(e.submissions, p1, p2);
  }
}
