/**
 * The submission pool of `ScoreType`: one record per submission id, each
 * user's history of ids kept in timestamp order by the insertion-sort tail fix
 * of `add_submission`, and the best-score rule of `update_scores`.
 */
module Pool {
  import opened Wrappers
  import opened Strategies

  type SubmissionId = int
  type Username = string

  /** An entry of `self.pool`; the derived fields are filled by `compute_score` before anyone reads them. */
  datatype Record = Record(timestamp: int, username: Username, evaluations: seq<real>, tokened: bool,
                           score: real, details: Option<seq<Detail>>,
                           publicScore: real, publicDetails: Option<seq<Detail>>)

  type Store = map<SubmissionId, Record>

  predicate InStore(h: seq<SubmissionId>, pool: Store) {
    forall i :: 0 <= i < |h| ==> h[i] in pool
  }

  predicate SortedByTime(h: seq<SubmissionId>, pool: Store)
    requires InStore(h, pool)
  {
    forall i, j :: 0 <= i < j < |h| ==> pool[h[i]].timestamp <= pool[h[j]].timestamp
  }

  // ---------------------------------------------------------------------------
  // The insertion-sort tail fix
  // ---------------------------------------------------------------------------

  /** The `while i > 0 and ...` loop: swap position `i` leftwards while its left neighbour is strictly later. */
  function TailFix(h: seq<SubmissionId>, pool: Store, i: nat): (r: seq<SubmissionId>)
    requires InStore(h, pool) && i < |h|
    ensures |r| == |h| && multiset(r) == multiset(h) && InStore(r, pool)
    decreases i
  {
    if i > 0 && pool[h[i - 1]].timestamp > pool[h[i]].timestamp then
      SwapElements(h, pool, i);
      TailFix(h[i - 1 := h[i]][i := h[i - 1]], pool, i - 1)
    else h
  }

  /** Swapping two neighbours keeps the elements. */
  lemma SwapElements(h: seq<SubmissionId>, pool: Store, i: nat)
    requires InStore(h, pool) && 0 < i < |h|
    ensures var s := h[i - 1 := h[i]][i := h[i - 1]];
      multiset(s) == multiset(h) && InStore(s, pool)
  {
    var s := h[i - 1 := h[i]][i := h[i - 1]];
    assert s == h[..i - 1] + [h[i], h[i - 1]] + h[i + 1..];
    assert h == h[..i - 1] + [h[i - 1], h[i]] + h[i + 1..];
  }

  /** Append `id` to a history and move it left into timestamp order. */
  function InsertByTime(h: seq<SubmissionId>, id: SubmissionId, pool: Store): (r: seq<SubmissionId>)
    requires InStore(h, pool) && id in pool
    ensures |r| == |h| + 1 && multiset(r) == multiset(h) + multiset{id} && InStore(r, pool)
  {
    TailFix(h + [id], pool, |h|)
  }

  /** Sorted except that the element at `i` may be out of place, and it is not later than anything after it. */
  predicate SortedExcept(h: seq<SubmissionId>, pool: Store, i: nat)
    requires InStore(h, pool) && i < |h|
  {
    && (forall a, b :: 0 <= a < b < |h| && a != i && b != i ==> pool[h[a]].timestamp <= pool[h[b]].timestamp)
    && (forall b :: i < b < |h| ==> pool[h[i]].timestamp <= pool[h[b]].timestamp)
  }

  /** One swap of the tail fix moves the out-of-place element one step left. */
  lemma SwapKeepsSortedExcept(h: seq<SubmissionId>, pool: Store, i: nat)
    requires InStore(h, pool) && 0 < i < |h| && SortedExcept(h, pool, i)
    requires pool[h[i - 1]].timestamp > pool[h[i]].timestamp
    ensures InStore(h[i - 1 := h[i]][i := h[i - 1]], pool)
    ensures SortedExcept(h[i - 1 := h[i]][i := h[i - 1]], pool, i - 1)
  {
    var s := h[i - 1 := h[i]][i := h[i - 1]];
    forall a, b | 0 <= a < b < |s| && a != i - 1 && b != i - 1
      ensures pool[s[a]].timestamp <= pool[s[b]].timestamp
    {
      if b == i {
        assert s[b] == h[i - 1] && s[a] == h[a];
      } else if a == i {
        assert s[a] == h[i - 1] && s[b] == h[b];
      } else {
        assert s[a] == h[a] && s[b] == h[b];
      }
    }
    forall b | i - 1 < b < |s|
      ensures pool[s[i - 1]].timestamp <= pool[s[b]].timestamp
    {
      if b > i {
        assert s[b] == h[b];
      }
    }
  }

  lemma {:induction false} TailFixSorts(h: seq<SubmissionId>, pool: Store, i: nat)
    requires InStore(h, pool) && i < |h| && SortedExcept(h, pool, i)
    ensures SortedByTime(TailFix(h, pool, i), pool)
    decreases i
  {
    if i > 0 && pool[h[i - 1]].timestamp > pool[h[i]].timestamp {
      var swapped := h[i - 1 := h[i]][i := h[i - 1]];
      assert TailFix(h, pool, i) == TailFix(swapped, pool, i - 1);
      SwapKeepsSortedExcept(h, pool, i);
      TailFixSorts(swapped, pool, i - 1);
    } else {
      assert TailFix(h, pool, i) == h;
      SettledIsSorted(h, pool, i);
    }
  }

  /** Once the out-of-place element is not earlier than its left neighbour, the history is sorted. */
  lemma SettledIsSorted(h: seq<SubmissionId>, pool: Store, i: nat)
    requires InStore(h, pool) && i < |h| && SortedExcept(h, pool, i)
    requires i > 0 ==> pool[h[i - 1]].timestamp <= pool[h[i]].timestamp
    ensures SortedByTime(h, pool)
  {
    forall a, b | 0 <= a < b < |h|
      ensures pool[h[a]].timestamp <= pool[h[b]].timestamp
    {
      if b == i && a < i - 1 {
        assert pool[h[a]].timestamp <= pool[h[i - 1]].timestamp;
      }
    }
  }

  /** `add_submission` keeps a user's history sorted by timestamp, provided it was sorted. */
  lemma InsertByTimeSorted(h: seq<SubmissionId>, id: SubmissionId, pool: Store)
    requires InStore(h, pool) && id in pool && SortedByTime(h, pool)
    ensures SortedByTime(InsertByTime(h, id, pool), pool)
  {
    TailFixSorts(h + [id], pool, |h|);
  }

  /** Where the tail fix leaves the element that started at position `i`. */
  function TailFixPosition(h: seq<SubmissionId>, pool: Store, i: nat): (k: nat)
    requires InStore(h, pool) && i < |h|
    ensures k <= i
    decreases i
  {
    if i > 0 && pool[h[i - 1]].timestamp > pool[h[i]].timestamp then
      TailFixPosition(h[i - 1 := h[i]][i := h[i - 1]], pool, i - 1)
    else i
  }

  /** Splicing after one swap is splicing one place further left. */
  lemma SwapSplice(h: seq<SubmissionId>, i: nat, k: nat)
    requires k < i < |h|
    ensures var s := h[i - 1 := h[i]][i := h[i - 1]];
      s[..k] + [s[i - 1]] + s[k..i - 1] + s[i..] == h[..k] + [h[i]] + h[k..i] + h[i + 1..]
  {
    var s := h[i - 1 := h[i]][i := h[i - 1]];
    var l := s[..k] + [s[i - 1]] + s[k..i - 1] + s[i..];
    var r := h[..k] + [h[i]] + h[k..i] + h[i + 1..];
    assert |l| == |r|;
    forall j | 0 <= j < |l|
      ensures l[j] == r[j]
    {
      if j < k {
      } else if j == k {
      } else if j < i {
        assert l[j] == s[j - 1] == h[j - 1];
      } else if j == i {
        assert l[j] == s[i] == h[i - 1];
      } else {
        assert l[j] == s[j] == h[j];
      }
    }
  }

  /** The tail fix moves the element at `i` to its final position `k` and shifts `h[k..i]` one place right. */
  lemma {:induction false} TailFixShape(h: seq<SubmissionId>, pool: Store, i: nat)
    requires InStore(h, pool) && i < |h|
    ensures var k := TailFixPosition(h, pool, i);
      TailFix(h, pool, i) == h[..k] + [h[i]] + h[k..i] + h[i + 1..]
    decreases i
  {
    if i > 0 && pool[h[i - 1]].timestamp > pool[h[i]].timestamp {
      var swapped := h[i - 1 := h[i]][i := h[i - 1]];
      TailFixShape(swapped, pool, i - 1);
      SwapSplice(h, i, TailFixPosition(swapped, pool, i - 1));
    } else {
      assert h == h[..i] + [h[i]] + h[i..i] + h[i + 1..];
    }
  }

  /** Every element in `h[k..i]` is strictly later than `h[i]`, and `h[k - 1]` is not. */
  predicate StopsAt(h: seq<SubmissionId>, pool: Store, i: nat, k: nat)
    requires InStore(h, pool) && k <= i < |h|
  {
    && (forall j :: k <= j < i ==> pool[h[j]].timestamp > pool[h[i]].timestamp)
    && (k > 0 ==> pool[h[k - 1]].timestamp <= pool[h[i]].timestamp)
  }

  /**
   * Everything the element at `i` stepped over is strictly later than it, and
   * the element it stopped behind is not.
   */
  lemma {:induction false} TailFixStops(h: seq<SubmissionId>, pool: Store, i: nat)
    requires InStore(h, pool) && i < |h|
    ensures StopsAt(h, pool, i, TailFixPosition(h, pool, i))
    decreases i
  {
    if i > 0 && pool[h[i - 1]].timestamp > pool[h[i]].timestamp {
      var swapped := h[i - 1 := h[i]][i := h[i - 1]];
      TailFixStops(swapped, pool, i - 1);
      var k := TailFixPosition(h, pool, i);
      forall j | k <= j < i
        ensures pool[h[j]].timestamp > pool[h[i]].timestamp
      {
        if j < i - 1 {
          assert swapped[j] == h[j];
        }
      }
      if k > 0 {
        assert swapped[k - 1] == h[k - 1];
      }
    }
  }

  /**
   * `r` is `h` with `id` inserted at position `k`, after every submission not
   * later than `id` there and before the strictly later ones that follow.
   */
  predicate InsertedAt(h: seq<SubmissionId>, id: SubmissionId, pool: Store, r: seq<SubmissionId>, k: int)
    requires InStore(h, pool) && id in pool
  {
    && 0 <= k <= |h|
    && r == h[..k] + [id] + h[k..]
    && (forall j :: k <= j < |h| ==> pool[h[j]].timestamp > pool[id].timestamp)
    && (k > 0 ==> pool[h[k - 1]].timestamp <= pool[id].timestamp)
  }

  lemma AppendSplice(h: seq<SubmissionId>, id: SubmissionId, k: nat)
    requires k <= |h|
    ensures var g := h + [id];
      g[..k] + [g[|h|]] + g[k..|h|] + g[|h| + 1..] == h[..k] + [id] + h[k..]
  {
    var g := h + [id];
    assert g[..k] == h[..k];
    assert g[k..|h|] == h[k..];
    assert g[|h| + 1..] == [];
  }

  /** Where `add_submission` puts a new id in a history. */
  function InsertPosition(h: seq<SubmissionId>, id: SubmissionId, pool: Store): (k: nat)
    requires InStore(h, pool) && id in pool
    ensures k <= |h|
  {
    TailFixPosition(h + [id], pool, |h|)
  }

  lemma InsertSplices(h: seq<SubmissionId>, id: SubmissionId, pool: Store)
    requires InStore(h, pool) && id in pool
    ensures var k := InsertPosition(h, id, pool);
      InsertByTime(h, id, pool) == h[..k] + [id] + h[k..]
  {
    TailFixShape(h + [id], pool, |h|);
    AppendSplice(h, id, InsertPosition(h, id, pool));
  }

  lemma InsertStops(h: seq<SubmissionId>, id: SubmissionId, pool: Store)
    requires InStore(h, pool) && id in pool
    ensures var k := InsertPosition(h, id, pool);
      && (forall j :: k <= j < |h| ==> pool[h[j]].timestamp > pool[id].timestamp)
      && (k > 0 ==> pool[h[k - 1]].timestamp <= pool[id].timestamp)
  {
    var g := h + [id];
    TailFixStops(g, pool, |h|);
    assert g[|h|] == id;
    assert forall j :: 0 <= j < |h| ==> g[j] == h[j];
  }

  /** Inserting is stable: the old history keeps its order around the new id. */
  lemma InsertByTimeShape(h: seq<SubmissionId>, id: SubmissionId, pool: Store)
    requires InStore(h, pool) && id in pool
    ensures exists k :: InsertedAt(h, id, pool, InsertByTime(h, id, pool), k)
  {
    InsertSplices(h, id, pool);
    InsertStops(h, id, pool);
    assert InsertedAt(h, id, pool, InsertByTime(h, id, pool), InsertPosition(h, id, pool));
  }

  // ---------------------------------------------------------------------------
  // The best-score rule
  // ---------------------------------------------------------------------------

  function Max(a: real, b: real): real {
    if a >= b then a else b
  }

  /**
   * Whether a submission takes part in the maximum of `update_scores`.
   * `ScoreTypeAlone` tests `tokened`; `ScoreTypeRelative` tests `tokened is not None`,
   * which every stored boolean passes, so there every submission counts.
   */
  predicate Counts(r: Record, everyCounts: bool) {
    everyCounts || r.tokened
  }

  /** The `for submission_id in submission_ids` loop, running maximum in `acc`. */
  function RunningBest(h: seq<SubmissionId>, pool: Store, everyCounts: bool, acc: real): real
    requires InStore(h, pool)
  {
    if |h| == 0 then acc
    else
      var r := pool[h[0]];
      RunningBest(h[1..], pool, everyCounts, if Counts(r, everyCounts) then Max(acc, r.score) else acc)
  }

  /** `scores[username]`: the best of 0.0, the counted submissions and the last submission. */
  function BestScore(h: seq<SubmissionId>, pool: Store, everyCounts: bool): real
    requires InStore(h, pool)
  {
    var best := RunningBest(h, pool, everyCounts, 0.0);
    if |h| > 0 then Max(best, pool[h[|h| - 1]].score) else best
  }

  /** `b` is the maximum of 0, every counted submission's score, and the last submission's score. */
  predicate IsBest(b: real, h: seq<SubmissionId>, pool: Store, everyCounts: bool)
    requires InStore(h, pool)
  {
    && b >= 0.0
    && (forall i :: 0 <= i < |h| && Counts(pool[h[i]], everyCounts) ==> b >= pool[h[i]].score)
    && (|h| > 0 ==> b >= pool[h[|h| - 1]].score)
    && (b == 0.0 || exists i :: 0 <= i < |h| && (Counts(pool[h[i]], everyCounts) || i == |h| - 1) && b == pool[h[i]].score)
  }

  lemma {:induction false} RunningBestIsMaximum(h: seq<SubmissionId>, pool: Store, everyCounts: bool, acc: real)
    requires InStore(h, pool)
    ensures var b := RunningBest(h, pool, everyCounts, acc);
      && b >= acc
      && (forall i :: 0 <= i < |h| && Counts(pool[h[i]], everyCounts) ==> b >= pool[h[i]].score)
      && (b == acc || exists i :: 0 <= i < |h| && Counts(pool[h[i]], everyCounts) && b == pool[h[i]].score)
  {
    if |h| > 0 {
      var r := pool[h[0]];
      var acc' := if Counts(r, everyCounts) then Max(acc, r.score) else acc;
      RunningBestIsMaximum(h[1..], pool, everyCounts, acc');
      var b := RunningBest(h, pool, everyCounts, acc);
      assert b == RunningBest(h[1..], pool, everyCounts, acc');
      forall i | 0 <= i < |h| && Counts(pool[h[i]], everyCounts)
        ensures b >= pool[h[i]].score
      {
        if i > 0 {
          assert h[1..][i - 1] == h[i];
        }
      }
      if b != acc {
        if b == acc' {
          assert Counts(r, everyCounts) && b == r.score;
        } else {
          var j :| 0 <= j < |h[1..]| && Counts(pool[h[1..][j]], everyCounts) && b == pool[h[1..][j]].score;
          assert h[1..][j] == h[j + 1];
        }
      }
    }
  }

  /** The best-score rule computes exactly the maximum it describes. */
  lemma BestScoreIsMaximum(h: seq<SubmissionId>, pool: Store, everyCounts: bool)
    requires InStore(h, pool)
    ensures IsBest(BestScore(h, pool, everyCounts), h, pool, everyCounts)
  {
    RunningBestIsMaximum(h, pool, everyCounts, 0.0);
  }

  /** At most one value is that maximum, so `IsBest` characterises the best score. */
  lemma IsBestUnique(b: real, c: real, h: seq<SubmissionId>, pool: Store, everyCounts: bool)
    requires InStore(h, pool) && IsBest(b, h, pool, everyCounts) && IsBest(c, h, pool, everyCounts)
    ensures b == c
  {
  }

  /**
   * Two pools that agree on the scores of a history, and on its token flags
   * unless every submission counts, give it the same best score.
   */
  lemma BestScoreFrame(h: seq<SubmissionId>, p1: Store, p2: Store, everyCounts: bool)
    requires InStore(h, p1) && InStore(h, p2)
    requires forall i :: 0 <= i < |h| ==> p1[h[i]].score == p2[h[i]].score
    requires forall i :: 0 <= i < |h| && !everyCounts ==> p1[h[i]].tokened == p2[h[i]].tokened
    ensures BestScore(h, p1, everyCounts) == BestScore(h, p2, everyCounts)
  {
    var b := BestScore(h, p1, everyCounts);
    BestScoreIsMaximum(h, p1, everyCounts);
    BestScoreIsMaximum(h, p2, everyCounts);
    assert forall i :: 0 <= i < |h| ==> Counts(p1[h[i]], everyCounts) == Counts(p2[h[i]], everyCounts);
    assert IsBest(b, h, p2, everyCounts);
    IsBestUnique(b, BestScore(h, p2, everyCounts), h, p2, everyCounts);
  }
}
