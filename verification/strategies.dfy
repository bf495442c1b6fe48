/**
 * The five score types of `cms/grading/ScoreType.py` as pure functions of one
 * submission's outcome vector: `max_scores` and `compute_score` for the flat
 * sum, the three subtask-group reducers and the per-vector part of the
 * relative score type (its baseline is computed in the Engine module, since it
 * reads other submissions).
 *
 * Outcomes are exact reals; the documented assumption that they lie in [0, 1]
 * appears as a precondition of the bound lemmas only, never of the scoring
 * functions themselves.
 */
module Strategies {
  import opened Wrappers
  import opened Rounding

  /** The per-group aggregation of `ScoreTypeGroupMin`, `...Avg` and `...Mul`. */
  datatype Reducer = Min | Avg | Mul

  /** One entry `[name, weight, [testcase, ...]]` of the subtask-group parameters. */
  datatype Group = Group(name: string, weight: real, cases: seq<int>)

  /** A constructed score type: its parsed parameters and the public flag of every testcase. */
  datatype Policy =
    | SumPolicy(multiplier: real, publicTestcases: seq<bool>)
    | GroupPolicy(reducer: Reducer, groups: seq<Group>, publicTestcases: seq<bool>)
    | RelativePolicy(multiplier: real, floors: seq<Option<real>>, publicTestcases: seq<bool>)
  {
    /** Subclasses of `ScoreTypeAlone`: a submission's score depends on itself only. */
    predicate Alone() {
      !RelativePolicy?
    }
  }

  /** What a subtask-group detail line shows after the group name. */
  datatype Verdict = Pass | Fail | Points(value: real)

  /** One detail line `"<name>: <verdict>"`; the `%lg` rendering of points is not modelled. */
  datatype Detail = Detail(group: string, verdict: Verdict)

  /** The four values `compute_score` returns. */
  datatype Scored = Scored(score: real, details: Option<seq<Detail>>,
                           publicScore: real, publicDetails: Option<seq<Detail>>)

  /** The pair `max_scores` returns: overall and public-only maximum. */
  datatype Ceiling = Ceiling(score: real, publicScore: real)

  /**
   * Products and quotients of two variables are kept behind these two names,
   * so that the solver matches them as terms instead of reasoning about them
   * arithmetically where no arithmetic is needed.
   */
  function Times(a: real, b: real): real {
    a * b
  }

  function Quot(a: real, b: real): real
    requires b != 0.0
  {
    a / b
  }

  /** If `0 <= a <= 1` and `0 <= b <= c` then `0 <= a * b <= c`. */
  lemma ScaleBetween(a: real, b: real, c: real)
    requires 0.0 <= a <= 1.0 && 0.0 <= b <= c
    ensures 0.0 <= Times(a, b) <= c
  {
    assert a * b <= 1.0 * b;
  }

  /** Multiplying by a non-negative factor keeps an order. */
  lemma ScaleMonotone(a: real, b: real, m: real)
    requires a <= b && m >= 0.0
    ensures Times(a, m) <= Times(b, m)
  {
  }

  /** The documented (never enforced) assumption that outcomes lie in [0, 1]. */
  predicate InUnit(xs: seq<real>) {
    forall i :: 0 <= i < |xs| ==> 0.0 <= xs[i] <= 1.0
  }

  /** The outcome vector of a submission that solves all `n` testcases. */
  function Ones(n: nat): (r: seq<real>)
    ensures |r| == n && InUnit(r)
    ensures forall i :: 0 <= i < n ==> r[i] == 1.0
  {
    seq(n, _ => 1.0)
  }

  // ---------------------------------------------------------------------------
  // ScoreTypeSum (and the maximum of ScoreTypeRelative, which has the same loop)
  // ---------------------------------------------------------------------------

  /** Sum of `zip(evaluations, public_testcases)`, all pairs or only the public ones. */
  function ZipTotal(evals: seq<real>, pub: seq<bool>, onlyPublic: bool): real
    decreases |evals|
  {
    if |evals| == 0 || |pub| == 0 then 0.0
    else (if onlyPublic && !pub[0] then 0.0 else evals[0]) + ZipTotal(evals[1..], pub[1..], onlyPublic)
  }

  /** Number of public testcases. */
  function CountPublic(pub: seq<bool>): nat {
    if |pub| == 0 then 0 else (if pub[0] then 1 else 0) + CountPublic(pub[1..])
  }

  /** The loop of `max_scores`: `m` per testcase, and `m` per public testcase. */
  function PerTestcaseCeiling(pub: seq<bool>, m: real): Ceiling {
    if |pub| == 0 then Ceiling(0.0, 0.0)
    else
      var rest := PerTestcaseCeiling(pub[1..], m);
      Ceiling(rest.score + m, rest.publicScore + (if pub[0] then m else 0.0))
  }

  function SumMaxScores(m: real, pub: seq<bool>): Ceiling {
    var c := PerTestcaseCeiling(pub, m);
    Ceiling(Round2(c.score), Round2(c.publicScore))
  }

  /** `max_scores` itself: the loop totals rounded to two decimals. */
  lemma SumMaxScoresClosedForm(m: real, pub: seq<bool>)
    ensures SumMaxScores(m, pub) == Ceiling(Round2(Times(|pub| as real, m)), Round2(Times(CountPublic(pub) as real, m)))
  {
    PerTestcaseCeilingClosedForm(pub, m);
  }

  function SumScore(m: real, pub: seq<bool>, evals: seq<real>): Scored {
    Scored(Round2(Times(ZipTotal(evals, pub, false), m)), None, Round2(Times(ZipTotal(evals, pub, true), m)), None)
  }

  /** The maximum is `n * m` overall and `(public count) * m` for the public part. */
  lemma {:induction false} PerTestcaseCeilingClosedForm(pub: seq<bool>, m: real)
    ensures PerTestcaseCeiling(pub, m) == Ceiling(Times(|pub| as real, m), Times(CountPublic(pub) as real, m))
  {
    if |pub| > 0 {
      PerTestcaseCeilingClosedForm(pub[1..], m);
      var rest := PerTestcaseCeiling(pub[1..], m);
      var n := |pub[1..]| as real;
      var k := CountPublic(pub[1..]) as real;
      assert PerTestcaseCeiling(pub, m) == Ceiling(rest.score + m, rest.publicScore + (if pub[0] then m else 0.0));
      assert |pub| as real == n + 1.0;
      assert CountPublic(pub) as real == k + (if pub[0] then 1.0 else 0.0);
      TimesSucc(n, m);
      TimesSucc(k, m);
    }
  }

  lemma TimesSucc(a: real, m: real)
    ensures Times(a + 1.0, m) == Times(a, m) + m
  {
  }

  /** With outcomes in [0, 1]: 0 <= public sum <= sum <= number of testcases, and public sum <= public count. */
  lemma {:induction false} ZipTotalBounds(evals: seq<real>, pub: seq<bool>)
    requires InUnit(evals)
    ensures 0.0 <= ZipTotal(evals, pub, true) <= ZipTotal(evals, pub, false) <= |pub| as real
    ensures ZipTotal(evals, pub, true) <= CountPublic(pub) as real
  {
    if |evals| > 0 && |pub| > 0 {
      ZipTotalBounds(evals[1..], pub[1..]);
    }
  }

  /** A submission solving every testcase scores exactly the maximum, overall and public. */
  lemma {:induction false} ZipTotalOfOnes(pub: seq<bool>)
    ensures ZipTotal(Ones(|pub|), pub, false) == |pub| as real
    ensures ZipTotal(Ones(|pub|), pub, true) == CountPublic(pub) as real
  {
    if |pub| > 0 {
      ZipTotalOfOnes(pub[1..]);
      assert Ones(|pub|)[1..] == Ones(|pub| - 1);
    }
  }

  /** `ScoreTypeSum`: public score <= score <= max score, and public score <= max public score. */
  lemma SumScoreWithinMax(m: real, pub: seq<bool>, evals: seq<real>)
    requires InUnit(evals) && m >= 0.0
    ensures 0.0 <= SumScore(m, pub, evals).publicScore <= SumScore(m, pub, evals).score
    ensures SumScore(m, pub, evals).score <= SumMaxScores(m, pub).score
    ensures SumScore(m, pub, evals).publicScore <= SumMaxScores(m, pub).publicScore
  {
    var t, p := ZipTotal(evals, pub, false), ZipTotal(evals, pub, true);
    var n, k := |pub| as real, CountPublic(pub) as real;
    ZipTotalBounds(evals, pub);
    PerTestcaseCeilingClosedForm(pub, m);
    ScaleMonotone(0.0, p, m);
    ScaleMonotone(p, t, m);
    ScaleMonotone(t, n, m);
    ScaleMonotone(p, k, m);
    Round2NonNegative(Times(p, m));
    Round2Monotone(Times(p, m), Times(t, m));
    Round2Monotone(Times(t, m), Times(n, m));
    Round2Monotone(Times(p, m), Times(k, m));
  }

  /** `ScoreTypeSum`: the maximum is exactly the score of a fully correct submission. */
  lemma SumMaxIsPerfectScore(m: real, pub: seq<bool>)
    ensures SumScore(m, pub, Ones(|pub|)).score == SumMaxScores(m, pub).score
    ensures SumScore(m, pub, Ones(|pub|)).publicScore == SumMaxScores(m, pub).publicScore
  {
    ZipTotalOfOnes(pub);
    PerTestcaseCeilingClosedForm(pub, m);
  }

  // ---------------------------------------------------------------------------
  // Reducers of the subtask-group score types
  // ---------------------------------------------------------------------------

  function MinOf(xs: seq<real>): real
    requires |xs| > 0
  {
    if |xs| == 1 then xs[0]
    else var m := MinOf(xs[1..]); if xs[0] <= m then xs[0] else m
  }

  function SumOf(xs: seq<real>): real {
    if |xs| == 0 then 0.0 else xs[0] + SumOf(xs[1..])
  }

  function ProductOf(xs: seq<real>): real {
    if |xs| == 0 then 1.0 else Times(xs[0], ProductOf(xs[1..]))
  }

  /** `_compute_group_score` of each variant; `reduce` of a one-element list is that element. */
  function Reduce(r: Reducer, xs: seq<real>): real
    requires |xs| > 0
  {
    match r
    case Min => MinOf(xs)
    case Avg => Quot(SumOf(xs), |xs| as real)
    case Mul => ProductOf(xs)
  }

  /** `min` is a lower bound of the list that the list attains. */
  lemma {:induction false} MinOfIsMinimum(xs: seq<real>)
    requires |xs| > 0
    ensures forall i :: 0 <= i < |xs| ==> MinOf(xs) <= xs[i]
    ensures exists i :: 0 <= i < |xs| && MinOf(xs) == xs[i]
  {
    if |xs| > 1 {
      MinOfIsMinimum(xs[1..]);
      forall i | 1 <= i < |xs|
        ensures MinOf(xs) <= xs[i]
      {
        assert xs[i] == xs[1..][i - 1];
      }
      var j :| 0 <= j < |xs[1..]| && MinOf(xs[1..]) == xs[1..][j];
      if xs[0] <= MinOf(xs[1..]) {
        assert MinOf(xs) == xs[0];
      } else {
        assert MinOf(xs) == xs[j + 1];
      }
    } else {
      assert MinOf(xs) == xs[0];
    }
  }

  lemma {:induction false} SumOfBounds(xs: seq<real>)
    requires InUnit(xs)
    ensures 0.0 <= SumOf(xs) <= |xs| as real
  {
    if |xs| > 0 {
      SumOfBounds(xs[1..]);
    }
  }

  lemma {:induction false} ProductOfBounds(xs: seq<real>)
    requires InUnit(xs)
    ensures 0.0 <= ProductOf(xs) <= 1.0
  {
    if |xs| > 0 {
      ProductOfBounds(xs[1..]);
      var p := ProductOf(xs[1..]);
      assert 0.0 <= xs[0] <= 1.0;
      ScaleBetween(xs[0], p, 1.0);
    }
  }

  /** Every reducer maps outcomes in [0, 1] to a group value in [0, 1]. */
  lemma ReduceInUnit(r: Reducer, xs: seq<real>)
    requires |xs| > 0 && InUnit(xs)
    ensures 0.0 <= Reduce(r, xs) <= 1.0
  {
    match r
    case Min => MinOfIsMinimum(xs);
    case Avg =>
      SumOfBounds(xs);
      var n := |xs| as real;
      assert Quot(SumOf(xs), n) <= n / n;
    case Mul => ProductOfBounds(xs);
  }

  /** Every reducer maps a list of ones to one. */
  lemma {:induction false} ReduceOfOnes(r: Reducer, xs: seq<real>)
    requires |xs| > 0 && forall i :: 0 <= i < |xs| ==> xs[i] == 1.0
    ensures Reduce(r, xs) == 1.0
  {
    match r
    case Min => MinOfIsMinimum(xs);
    case Avg =>
      SumOfOnes(xs);
      var n := |xs| as real;
      assert Quot(n, n) == 1.0;
    case Mul => ProductOfOnes(xs);
  }

  lemma {:induction false} SumOfOnes(xs: seq<real>)
    requires forall i :: 0 <= i < |xs| ==> xs[i] == 1.0
    ensures SumOf(xs) == |xs| as real
  {
    if |xs| > 0 {
      SumOfOnes(xs[1..]);
    }
  }

  lemma {:induction false} ProductOfOnes(xs: seq<real>)
    requires forall i :: 0 <= i < |xs| ==> xs[i] == 1.0
    ensures ProductOf(xs) == 1.0
  {
    if |xs| > 0 {
      ProductOfOnes(xs[1..]);
    }
  }

  // ---------------------------------------------------------------------------
  // ScoreTypeSubtaskGroups
  // ---------------------------------------------------------------------------

  /** `[x for x in cases if 0 <= x < n]`. */
  function Usable(cases: seq<int>, n: int): (r: seq<int>)
    ensures forall x :: x in r <==> x in cases && 0 <= x < n
    ensures forall i :: 0 <= i < |r| ==> 0 <= r[i] < n
  {
    if |cases| == 0 then []
    else (if 0 <= cases[0] < n then [cases[0]] else []) + Usable(cases[1..], n)
  }

  /** `all([public_testcases[x] for x in cases])`. */
  predicate AllPublic(cases: seq<int>, pub: seq<bool>)
    requires forall i :: 0 <= i < |cases| ==> 0 <= cases[i] < |pub|
  {
    forall i :: 0 <= i < |cases| ==> pub[cases[i]]
  }

  /** `[evaluations[x] for x in cases]`. */
  function Pick(evals: seq<real>, cases: seq<int>): (r: seq<real>)
    requires forall i :: 0 <= i < |cases| ==> 0 <= cases[i] < |evals|
    ensures |r| == |cases|
    ensures forall i :: 0 <= i < |cases| ==> r[i] == evals[cases[i]]
  {
    seq(|cases|, i requires 0 <= i < |cases| => evals[cases[i]])
  }

  /** A group that survives the filtering: it is not skipped by either loop. */
  predicate Kept(g: Group, n: int) {
    |Usable(g.cases, n)| > 0
  }

  /** The groups the loops do not skip, in parameter order. */
  function KeptGroups(groups: seq<Group>, n: int): seq<Group> {
    if |groups| == 0 then []
    else (if Kept(groups[0], n) then [groups[0]] else []) + KeptGroups(groups[1..], n)
  }

  /** What `compute_score` derives for one non-skipped group. */
  datatype GroupScore = GroupScore(name: string, weight: real, public: bool, value: real, score: real)

  /** The detail line of a group: PASS/FAIL for a weight-0 group, its points otherwise. */
  function DetailOf(g: GroupScore): Detail {
    Detail(g.name,
           if g.weight == 0.0 then (if RoundHalfAway(g.value) == 1 then Pass else Fail)
           else Points(g.score))
  }

  /** The loop of `compute_score`, one entry per group that is not skipped. */
  function ScoreGroups(red: Reducer, groups: seq<Group>, pub: seq<bool>, evals: seq<real>): seq<GroupScore>
    requires |evals| >= |pub|
  {
    if |groups| == 0 then []
    else
      var g := groups[0];
      var cases := Usable(g.cases, |pub|);
      var rest := ScoreGroups(red, groups[1..], pub, evals);
      if |cases| == 0 then rest
      else
        var v := Reduce(red, Pick(evals, cases));
        [GroupScore(g.name, g.weight, AllPublic(cases, pub), v, Times(v, g.weight))] + rest
  }

  /** The groups counted as public, in order. */
  function PublicOnly(gs: seq<GroupScore>): seq<GroupScore> {
    if |gs| == 0 then []
    else (if gs[0].public then [gs[0]] else []) + PublicOnly(gs[1..])
  }

  function SumScores(gs: seq<GroupScore>): real {
    if |gs| == 0 then 0.0 else gs[0].score + SumScores(gs[1..])
  }

  function SumWeights(gs: seq<GroupScore>): real {
    if |gs| == 0 then 0.0 else gs[0].weight + SumWeights(gs[1..])
  }

  function Details(gs: seq<GroupScore>): (r: seq<Detail>)
    ensures |r| == |gs|
    ensures forall i :: 0 <= i < |gs| ==> r[i] == DetailOf(gs[i])
  {
    seq(|gs|, i requires 0 <= i < |gs| => DetailOf(gs[i]))
  }

  function GroupsScore(red: Reducer, groups: seq<Group>, pub: seq<bool>, evals: seq<real>): Scored
    requires |evals| >= |pub|
  {
    var gs := ScoreGroups(red, groups, pub, evals);
    var ps := PublicOnly(gs);
    Scored(Round2(SumScores(gs)), Some(Details(gs)), Round2(SumScores(ps)), Some(Details(ps)))
  }

  /** The loop of `max_scores`: each non-skipped group adds its weight, public ones to both sums. */
  function GroupCeilingSums(groups: seq<Group>, pub: seq<bool>): Ceiling {
    if |groups| == 0 then Ceiling(0.0, 0.0)
    else
      var g := groups[0];
      var cases := Usable(g.cases, |pub|);
      var rest := GroupCeilingSums(groups[1..], pub);
      if |cases| == 0 then rest
      else Ceiling(rest.score + g.weight, rest.publicScore + (if AllPublic(cases, pub) then g.weight else 0.0))
  }

  function GroupsMaxScores(groups: seq<Group>, pub: seq<bool>): Ceiling {
    var c := GroupCeilingSums(groups, pub);
    Ceiling(Round2(c.score), Round2(c.publicScore))
  }

  /** `s` is what `compute_score` derives for the group `g`, which the filtering keeps. */
  predicate ScoredAs(red: Reducer, g: Group, pub: seq<bool>, evals: seq<real>, s: GroupScore)
    requires |evals| >= |pub|
  {
    var cases := Usable(g.cases, |pub|);
    && |cases| > 0
    && s.name == g.name
    && s.weight == g.weight
    && s.public == AllPublic(cases, pub)
    && s.value == Reduce(red, Pick(evals, cases))
    && s.score == Times(s.value, g.weight)
  }

  lemma KeptGroupsAreGroups(groups: seq<Group>, n: int)
    ensures forall g :: g in KeptGroups(groups, n) ==> g in groups && Kept(g, n)
  {
  }

  /**
   * `compute_score` scores exactly the groups that are not skipped, in order:
   * entry i belongs to the i-th kept group, is public iff all its valid cases
   * are public, and contributes the reducer of its valid cases' outcomes times
   * its weight.
   */
  lemma {:induction false} ScoreGroupsShape(red: Reducer, groups: seq<Group>, pub: seq<bool>, evals: seq<real>)
    requires |evals| >= |pub|
    ensures |ScoreGroups(red, groups, pub, evals)| == |KeptGroups(groups, |pub|)|
    ensures forall i :: 0 <= i < |ScoreGroups(red, groups, pub, evals)| ==>
      ScoredAs(red, KeptGroups(groups, |pub|)[i], pub, evals, ScoreGroups(red, groups, pub, evals)[i])
  {
    if |groups| > 0 {
      ScoreGroupsShape(red, groups[1..], pub, evals);
      var gs := ScoreGroups(red, groups, pub, evals);
      var kept := KeptGroups(groups, |pub|);
      var rest := ScoreGroups(red, groups[1..], pub, evals);
      var krest := KeptGroups(groups[1..], |pub|);
      if Kept(groups[0], |pub|) {
        ScoreGroupsKeptStep(red, groups, pub, evals);
        ShiftScoredAs(red, kept, pub, evals, gs);
      } else {
        assert gs == rest && kept == krest;
      }
    }
  }

  /** A kept first group is scored first, and the rest is scored as the remaining groups. */
  lemma ScoreGroupsKeptStep(red: Reducer, groups: seq<Group>, pub: seq<bool>, evals: seq<real>)
    requires |evals| >= |pub| && |groups| > 0 && Kept(groups[0], |pub|)
    ensures var gs := ScoreGroups(red, groups, pub, evals);
      && |gs| > 0
      && gs[1..] == ScoreGroups(red, groups[1..], pub, evals)
      && ScoredAs(red, groups[0], pub, evals, gs[0])
    ensures var kept := KeptGroups(groups, |pub|);
      |kept| > 0 && kept[0] == groups[0] && kept[1..] == KeptGroups(groups[1..], |pub|)
  {
    var kept := KeptGroups(groups, |pub|);
    assert kept == [groups[0]] + KeptGroups(groups[1..], |pub|);
  }

  /** Pointwise agreement of the tails and of the heads is pointwise agreement. */
  lemma ShiftScoredAs(red: Reducer, kept: seq<Group>, pub: seq<bool>, evals: seq<real>, gs: seq<GroupScore>)
    requires |evals| >= |pub| && |gs| > 0 && |kept| == |gs|
    requires ScoredAs(red, kept[0], pub, evals, gs[0])
    requires forall i :: 0 <= i < |gs[1..]| ==> ScoredAs(red, kept[1..][i], pub, evals, gs[1..][i])
    ensures forall i :: 0 <= i < |gs| ==> ScoredAs(red, kept[i], pub, evals, gs[i])
  {
    forall i | 0 < i < |gs|
      ensures ScoredAs(red, kept[i], pub, evals, gs[i])
    {
      assert gs[i] == gs[1..][i - 1] && kept[i] == kept[1..][i - 1];
    }
  }

  lemma ConsSums(x: GroupScore, rest: seq<GroupScore>)
    ensures SumScores([x] + rest) == x.score + SumScores(rest)
    ensures SumWeights([x] + rest) == x.weight + SumWeights(rest)
    ensures x.public ==> PublicOnly([x] + rest) == [x] + PublicOnly(rest)
    ensures !x.public ==> PublicOnly([x] + rest) == PublicOnly(rest)
  {
    assert ([x] + rest)[1..] == rest;
    assert [] + PublicOnly(rest) == PublicOnly(rest);
  }

  /**
   * `max_scores` skips the same groups as `compute_score`: its totals are the
   * weights of exactly the groups that were scored, and of exactly those
   * scored as public.
   */
  lemma {:induction false} CeilingMatchesScoredGroups(red: Reducer, groups: seq<Group>, pub: seq<bool>, evals: seq<real>)
    requires |evals| >= |pub|
    ensures var gs := ScoreGroups(red, groups, pub, evals);
      GroupCeilingSums(groups, pub) == Ceiling(SumWeights(gs), SumWeights(PublicOnly(gs)))
  {
    if |groups| > 0 {
      CeilingMatchesScoredGroups(red, groups[1..], pub, evals);
      var gs := ScoreGroups(red, groups, pub, evals);
      var rest := ScoreGroups(red, groups[1..], pub, evals);
      if Kept(groups[0], |pub|) {
        assert gs == [gs[0]] + rest;
        ConsSums(gs[0], rest);
        if gs[0].public {
          ConsSums(gs[0], PublicOnly(rest));
        }
      }
    }
  }

  /** With outcomes in [0, 1] and a non-negative weight, a kept group scores between 0 and its weight. */
  lemma ScoredWithinWeight(red: Reducer, g: Group, pub: seq<bool>, evals: seq<real>, s: GroupScore)
    requires |evals| >= |pub| && InUnit(evals) && g.weight >= 0.0
    requires ScoredAs(red, g, pub, evals, s)
    ensures 0.0 <= s.score <= s.weight
  {
    var cases := Usable(g.cases, |pub|);
    var xs := Pick(evals, cases);
    assert InUnit(xs);
    ReduceInUnit(red, xs);
    ScaleBetween(s.value, g.weight, g.weight);
  }

  lemma {:induction false} SumsOrdered(gs: seq<GroupScore>)
    requires forall i :: 0 <= i < |gs| ==> 0.0 <= gs[i].score <= gs[i].weight
    ensures 0.0 <= SumScores(PublicOnly(gs)) <= SumScores(gs) <= SumWeights(gs)
    ensures SumScores(PublicOnly(gs)) <= SumWeights(PublicOnly(gs))
  {
    if |gs| > 0 {
      SumsOrdered(gs[1..]);
      assert gs == [gs[0]] + gs[1..];
      ConsSums(gs[0], gs[1..]);
      ConsSums(gs[0], PublicOnly(gs[1..]));
    }
  }

  /** Subtask groups: 0 <= public score <= score <= max score, and public score <= max public score. */
  lemma GroupsScoreWithinMax(red: Reducer, groups: seq<Group>, pub: seq<bool>, evals: seq<real>)
    requires |evals| >= |pub| && InUnit(evals)
    requires forall g :: g in groups ==> g.weight >= 0.0
    ensures var s := GroupsScore(red, groups, pub, evals);
      var c := GroupsMaxScores(groups, pub);
      0.0 <= s.publicScore <= s.score <= c.score && s.publicScore <= c.publicScore
  {
    var gs := ScoreGroups(red, groups, pub, evals);
    var ps := PublicOnly(gs);
    var kept := KeptGroups(groups, |pub|);
    ScoreGroupsShape(red, groups, pub, evals);
    KeptGroupsAreGroups(groups, |pub|);
    forall i | 0 <= i < |gs|
      ensures 0.0 <= gs[i].score <= gs[i].weight
    {
      assert kept[i] in kept;
      ScoredWithinWeight(red, kept[i], pub, evals, gs[i]);
    }
    SumsOrdered(gs);
    CeilingMatchesScoredGroups(red, groups, pub, evals);
    Round2NonNegative(SumScores(ps));
    Round2Monotone(SumScores(ps), SumScores(gs));
    Round2Monotone(SumScores(gs), SumWeights(gs));
    Round2Monotone(SumScores(ps), SumWeights(ps));
  }

  lemma {:induction false} SumsOfFullMarks(gs: seq<GroupScore>)
    requires forall i :: 0 <= i < |gs| ==> gs[i].score == gs[i].weight
    ensures SumScores(gs) == SumWeights(gs)
    ensures SumScores(PublicOnly(gs)) == SumWeights(PublicOnly(gs))
  {
    if |gs| > 0 {
      SumsOfFullMarks(gs[1..]);
      assert gs == [gs[0]] + gs[1..];
      ConsSums(gs[0], gs[1..]);
      ConsSums(gs[0], PublicOnly(gs[1..]));
    }
  }

  /** A kept group of a fully correct submission scores its whole weight. */
  lemma ScoredFullMarks(red: Reducer, g: Group, pub: seq<bool>, s: GroupScore)
    requires ScoredAs(red, g, pub, Ones(|pub|), s)
    ensures s.score == s.weight
  {
    var cases := Usable(g.cases, |pub|);
    var xs := Pick(Ones(|pub|), cases);
    ReduceOfOnes(red, xs);
  }

  /** Subtask groups: the maximum is exactly the score of a fully correct submission. */
  lemma GroupsMaxIsPerfectScore(red: Reducer, groups: seq<Group>, pub: seq<bool>)
    ensures var s := GroupsScore(red, groups, pub, Ones(|pub|));
      var c := GroupsMaxScores(groups, pub);
      s.score == c.score && s.publicScore == c.publicScore
  {
    var evals := Ones(|pub|);
    var gs := ScoreGroups(red, groups, pub, evals);
    var kept := KeptGroups(groups, |pub|);
    ScoreGroupsShape(red, groups, pub, evals);
    CeilingMatchesScoredGroups(red, groups, pub, evals);
    forall i | 0 <= i < |gs|
      ensures gs[i].score == gs[i].weight
    {
      ScoredFullMarks(red, kept[i], pub, gs[i]);
    }
    SumsOfFullMarks(gs);
  }

  /** A weight-0 group adds nothing and reads PASS exactly when its value rounds to 1; others show their points. */
  lemma DetailVerdict(g: GroupScore)
    requires g.score == Times(g.value, g.weight)
    ensures g.weight == 0.0 ==> g.score == 0.0
    ensures g.weight == 0.0 ==> (DetailOf(g).verdict == Pass <==> 0.5 <= g.value < 1.5)
    ensures g.weight == 0.0 ==> (DetailOf(g).verdict == Fail <==> !(0.5 <= g.value < 1.5))
    ensures g.weight != 0.0 ==> DetailOf(g).verdict == Points(g.score)
  {
    RoundsToOne(g.value);
  }

  /**
   * Subtask groups: one detail per kept group, named after it; the public
   * details are the details of the public groups; a weight-0 group adds
   * nothing to the score and reads PASS exactly when its value rounds to 1.
   */
  lemma GroupDetails(red: Reducer, groups: seq<Group>, pub: seq<bool>, evals: seq<real>)
    requires |evals| >= |pub|
    ensures var s := GroupsScore(red, groups, pub, evals);
      var gs := ScoreGroups(red, groups, pub, evals);
      var kept := KeptGroups(groups, |pub|);
      && s.details.Some? && s.publicDetails.Some?
      && s.publicDetails.value == Details(PublicOnly(gs))
      && |s.details.value| == |kept|
      && forall i :: 0 <= i < |kept| ==>
        && s.details.value[i].group == kept[i].name
        && (kept[i].weight == 0.0 ==>
              && gs[i].score == 0.0
              && (s.details.value[i].verdict == Pass <==> 0.5 <= gs[i].value < 1.5)
              && (s.details.value[i].verdict == Fail <==> !(0.5 <= gs[i].value < 1.5)))
        && (kept[i].weight != 0.0 ==> s.details.value[i].verdict == Points(gs[i].score))
  {
    var gs := ScoreGroups(red, groups, pub, evals);
    var kept := KeptGroups(groups, |pub|);
    ScoreGroupsShape(red, groups, pub, evals);
    forall i | 0 <= i < |gs|
      ensures gs[i].weight == kept[i].weight && gs[i].name == kept[i].name
      ensures gs[i].weight == 0.0 ==> gs[i].score == 0.0
      ensures gs[i].weight == 0.0 ==> (DetailOf(gs[i]).verdict == Pass <==> 0.5 <= gs[i].value < 1.5)
      ensures gs[i].weight == 0.0 ==> (DetailOf(gs[i]).verdict == Fail <==> !(0.5 <= gs[i].value < 1.5))
      ensures gs[i].weight != 0.0 ==> DetailOf(gs[i]).verdict == Points(gs[i].score)
    {
      assert ScoredAs(red, kept[i], pub, evals, gs[i]);
      DetailVerdict(gs[i]);
    }
  }

  // ---------------------------------------------------------------------------
  // ScoreTypeRelative, given the baseline ("best outcomes")
  // ---------------------------------------------------------------------------

  /** Every baseline entry the division reaches is present and strictly positive. */
  predicate PositiveBaseline(best: seq<Option<real>>, n: nat) {
    n <= |best| && forall i :: 0 <= i < n ==> best[i].Some? && best[i].value > 0.0
  }

  /** `[float(x) / y for x, y in zip(evaluations, best_outcomes)]`. */
  function Ratios(evals: seq<real>, best: seq<Option<real>>): (r: seq<real>)
    requires PositiveBaseline(best, if |evals| <= |best| then |evals| else |best|)
    ensures |r| == if |evals| <= |best| then |evals| else |best|
    ensures forall i :: 0 <= i < |r| ==> r[i] == Quot(evals[i], best[i].value)
  {
    var n := if |evals| <= |best| then |evals| else |best|;
    seq(n, i requires 0 <= i < n => Quot(evals[i], best[i].value))
  }

  /** `compute_score` of the relative type: the (public) sum of `outcome / best * multiplier`, rounded. */
  function RelativeScore(m: real, pub: seq<bool>, evals: seq<real>, best: seq<Option<real>>): Scored
    requires PositiveBaseline(best, if |evals| <= |best| then |evals| else |best|)
  {
    var rs := Ratios(evals, best);
    Scored(Round2(Times(ZipTotal(rs, pub, false), m)), None, Round2(Times(ZipTotal(rs, pub, true), m)), None)
  }

  /** The unrounded score `update_scores` stores: `sum(outcome / best) * multiplier`. */
  function RelativeRescore(m: real, evals: seq<real>, best: seq<Option<real>>): real
    requires PositiveBaseline(best, if |evals| <= |best| then |evals| else |best|)
  {
    Times(SumOf(Ratios(evals, best)), m)
  }

  lemma {:induction false} ZipTotalCovering(xs: seq<real>, pub: seq<bool>)
    requires |xs| <= |pub|
    ensures ZipTotal(xs, pub, false) == SumOf(xs)
  {
    if |xs| > 0 {
      ZipTotalCovering(xs[1..], pub[1..]);
    }
  }

  /**
   * When every testcase has a flag, `compute_score` and `update_scores` agree
   * up to rounding: the former is the latter rounded to two decimals.
   */
  lemma RelativeScoreIsRoundedRescore(m: real, pub: seq<bool>, evals: seq<real>, best: seq<Option<real>>)
    requires |evals| == |pub| && PositiveBaseline(best, |evals|)
    ensures RelativeScore(m, pub, evals, best).score == Round2(RelativeRescore(m, evals, best))
  {
    ZipTotalCovering(Ratios(evals, best), pub);
  }

  /** Ratios lie in [0, 1] when the baseline dominates every outcome. */
  lemma {:induction false} SumOfDominatedRatios(evals: seq<real>, best: seq<Option<real>>)
    requires |evals| <= |best| && PositiveBaseline(best, |evals|)
    requires forall i :: 0 <= i < |evals| ==> 0.0 <= evals[i] <= best[i].value
    ensures InUnit(Ratios(evals, best))
  {
    var rs := Ratios(evals, best);
    forall i | 0 <= i < |rs| ensures 0.0 <= rs[i] <= 1.0 {
      var b := best[i].value;
      assert Quot(evals[i], b) <= b / b;
    }
  }

  /**
   * Relative: if the baseline dominates every outcome of the submission, its
   * score lies between 0 and `max_scores`. (The cached baseline used while a
   * submission is added need not dominate it: see the Engine module.)
   */
  lemma RelativeScoreWithinMax(m: real, pub: seq<bool>, evals: seq<real>, best: seq<Option<real>>)
    requires |evals| == |pub| && PositiveBaseline(best, |evals|) && m >= 0.0
    requires forall i :: 0 <= i < |evals| ==> 0.0 <= evals[i] <= best[i].value
    ensures var s := RelativeScore(m, pub, evals, best);
      0.0 <= s.publicScore <= s.score <= SumMaxScores(m, pub).score
      && s.publicScore <= SumMaxScores(m, pub).publicScore
  {
    SumOfDominatedRatios(evals, best);
    SumScoreWithinMax(m, pub, Ratios(evals, best));
  }

  // ---------------------------------------------------------------------------
  // Dispatch over the score type
  // ---------------------------------------------------------------------------

  /** `max_scores`, preloaded by the constructor. */
  function MaxScoresOf(p: Policy): Ceiling {
    match p
    case SumPolicy(m, pub) => SumMaxScores(m, pub)
    case GroupPolicy(_, groups, pub) => GroupsMaxScores(groups, pub)
    case RelativePolicy(m, _, pub) => SumMaxScores(m, pub)
  }

  /** `compute_score` of the score types whose submissions are scored alone. */
  function ComputeAlone(p: Policy, evals: seq<real>): Scored
    requires p.Alone() && (p.GroupPolicy? ==> |evals| >= |p.publicTestcases|)
  {
    match p
    case SumPolicy(m, pub) => SumScore(m, pub, evals)
    case GroupPolicy(red, groups, pub) => GroupsScore(red, groups, pub, evals)
  }

  /** Parameters every bound below needs: a non-negative multiplier or non-negative weights. */
  predicate NonNegativeParameters(p: Policy) {
    match p
    case SumPolicy(m, _) => m >= 0.0
    case GroupPolicy(_, groups, _) => forall g :: g in groups ==> g.weight >= 0.0
    case RelativePolicy(m, _, _) => m >= 0.0
  }

  /** For the alone score types: 0 <= public score <= score <= preloaded maximum. */
  lemma AloneScoreWithinMax(p: Policy, evals: seq<real>)
    requires p.Alone() && (p.GroupPolicy? ==> |evals| >= |p.publicTestcases|) && InUnit(evals) && NonNegativeParameters(p)
    ensures var s := ComputeAlone(p, evals);
      0.0 <= s.publicScore <= s.score <= MaxScoresOf(p).score && s.publicScore <= MaxScoresOf(p).publicScore
  {
    match p
    case SumPolicy(m, pub) => SumScoreWithinMax(m, pub, evals);
    case GroupPolicy(red, groups, pub) => GroupsScoreWithinMax(red, groups, pub, evals);
  }
}
