/**
 * `ScoreTypes.get_score_type`: pick one of the five score types by name and
 * construct it from a task's parameters and public flags. The JSON text of
 * the parameters arrives already parsed, as a `Json` value; constructing a
 * score type reads that value into a `Policy`, and fails where the
 * constructor (`max_scores`, `initialize`) would raise on its shape.
 */
module Factory {
  import opened Wrappers
  import opened Strategies
  import opened Engine
  import Decimal

  /** A parsed JSON value. Objects never form valid parameters and are left out. */
  datatype Json = JNull | JBool(b: bool) | JInt(i: int) | JReal(r: real) | JString(s: string) | JArray(items: seq<Json>)

  /** The fields of a task `get_score_type` reads. */
  datatype Task = Task(scoreType: string, parameters: Json, publicTestcases: seq<bool>)

  datatype Submission = Submission(task: Task)

  datatype FactoryError =
    | AmbiguousSelector      // the `ValueError`: not exactly one selector given
    | UnknownScoreType       // the bare `KeyError`
    | BadParameters          // the constructor raised on the parameters or the public flags

  const SumName := "ScoreTypeSum"
  const GroupMinName := "ScoreTypeGroupMin"
  const GroupAvgName := "ScoreTypeGroupAvg"
  const GroupMulName := "ScoreTypeGroupMul"
  const RelativeName := "ScoreTypeRelative"

  predicate Known(name: string) {
    name in {SumName, GroupMinName, GroupAvgName, GroupMulName, RelativeName}
  }

  /** How many of the three selectors are not `None`. */
  function Selectors(submission: Option<Submission>, task: Option<Task>, name: Option<string>): nat {
    (if submission.Some? then 1 else 0) + (if task.Some? then 1 else 0) + (if name.Some? then 1 else 0)
  }

  // ---------------------------------------------------------------------------
  // Reading the parameters
  // ---------------------------------------------------------------------------

  /** A JSON number as a real. */
  function Number(j: Json): Option<real> {
    match j
    case JInt(i) => Some(i as real)
    case JReal(r) => Some(r)
    case _ => None
  }

  /** The relative floors: each `null` or a number. */
  function Floors(js: seq<Json>): (r: Option<seq<Option<real>>>)
    ensures r.Some? ==> |r.value| == |js|
  {
    if |js| == 0 then Some([])
    else
      var rest := Floors(js[1..]);
      if rest.None? then None
      else if js[0].JNull? then Some([None] + rest.value)
      else if Number(js[0]).Some? then Some([Some(Number(js[0]).value)] + rest.value)
      else None
  }

  /** A group's case list: integers only. */
  function Cases(js: seq<Json>): (r: Option<seq<int>>)
    ensures r.Some? ==> |r.value| == |js|
  {
    if |js| == 0 then Some([])
    else
      var rest := Cases(js[1..]);
      if rest.None? || !js[0].JInt? then None else Some([js[0].i] + rest.value)
  }

  /** The text `"%s" % name` gives for a group name that is a string, an integer, a boolean or `null`. */
  function NameText(j: Json): Option<string> {
    match j
    case JString(s) => Some(s)
    case JInt(i) => Some(Decimal.ShowInt(i))
    case JBool(b) => Some(if b then "True" else "False")
    case JNull => Some("None")
    case _ => None
  }

  /**
   * One group `[name, weight, [case, ...]]`, unpacked as `name, max_score,
   * cases = group`. The name is only ever rendered with `%s`, so it is kept
   * as that text.
   */
  function GroupOf(j: Json): Option<Group> {
    if j.JArray? && |j.items| == 3 && NameText(j.items[0]).Some? && Number(j.items[1]).Some? && j.items[2].JArray? then
      var cases := Cases(j.items[2].items);
      if cases.Some? then Some(Group(NameText(j.items[0]).value, Number(j.items[1]).value, cases.value)) else None
    else None
  }

  function Groups(js: seq<Json>): (r: Option<seq<Group>>)
    ensures r.Some? ==> |r.value| == |js|
  {
    if |js| == 0 then Some([])
    else
      var rest := Groups(js[1..]);
      var g := GroupOf(js[0]);
      if rest.None? || g.None? then None else Some([g.value] + rest.value)
  }

  function ReducerOf(name: string): Reducer
    requires name in {GroupMinName, GroupAvgName, GroupMulName}
  {
    if name == GroupMinName then Min else if name == GroupAvgName then Avg else Mul
  }

  /**
   * The constructor of the score type `name` on `parameters`: the sum takes a
   * number, the groups a list of groups (an empty string, which iterates
   * as no groups, reads as none), the relative type a pair of a number and
   * a list of floors.
   */
  function Construct(name: string, parameters: Json, pub: seq<bool>): (r: Result<Policy, FactoryError>)
    requires Known(name)
    ensures r.Failure? ==> r.error == BadParameters
    ensures r.Success? ==> r.value.publicTestcases == pub
    ensures r.Success? ==> (r.value.SumPolicy? <==> name == SumName) && (r.value.RelativePolicy? <==> name == RelativeName)
    ensures name == SumName ==> (r.Success? <==> Number(parameters).Some?)
    ensures name == RelativeName ==>
      (r.Success? <==> && parameters.JArray? && |parameters.items| >= 2 && Number(parameters.items[0]).Some?
                       && parameters.items[1].JArray? && Floors(parameters.items[1].items).Some?)
    ensures name in {GroupMinName, GroupAvgName, GroupMulName} ==>
      (r.Success? <==> (parameters.JArray? && Groups(parameters.items).Some?) || parameters == JString(""))
    ensures r.Success? && r.value.SumPolicy? ==> Number(parameters) == Some(r.value.multiplier)
    ensures r.Success? && r.value.RelativePolicy? ==>
      && parameters.JArray? && |parameters.items| >= 2
      && Number(parameters.items[0]) == Some(r.value.multiplier)
      && parameters.items[1].JArray? && Floors(parameters.items[1].items) == Some(r.value.floors)
    ensures r.Success? && r.value.GroupPolicy? ==>
      && name in {GroupMinName, GroupAvgName, GroupMulName} && r.value.reducer == ReducerOf(name)
      && if parameters.JArray? then Groups(parameters.items) == Some(r.value.groups)
         else parameters == JString("") && r.value.groups == []
  {
    if name == SumName then
      if Number(parameters).Some? then Success(SumPolicy(Number(parameters).value, pub)) else Failure(BadParameters)
    else if name == RelativeName then
      if parameters.JArray? && |parameters.items| >= 2 && Number(parameters.items[0]).Some?
         && parameters.items[1].JArray? && Floors(parameters.items[1].items).Some?
      then Success(RelativePolicy(Number(parameters.items[0]).value, Floors(parameters.items[1].items).value, pub))
      else Failure(BadParameters)
    else
      if parameters.JArray? && Groups(parameters.items).Some? then
        Success(GroupPolicy(ReducerOf(name), Groups(parameters.items).value, pub))
      else if parameters == JString("") then Success(GroupPolicy(ReducerOf(name), [], pub))
      else Failure(BadParameters)
  }

  /** The task a submission selector stands for, or else the task selector. */
  function Selected(submission: Option<Submission>, task: Option<Task>): Option<Task> {
    if submission.Some? then Some(submission.value.task) else task
  }

  /**
   * `get_score_type(submission, task, score_type)`. Exactly one selector must
   * be given. A bare name brings neither parameters nor public flags, so every
   * known name then fails in the constructor (`max_scores` iterates `None`).
   */
  function GetScoreType(submission: Option<Submission>, task: Option<Task>, name: Option<string>): (r: Result<ScoreType, FactoryError>)
    ensures r.Failure? && r.error == AmbiguousSelector <==> Selectors(submission, task, name) != 1
    ensures r.Success? ==> Valid(r.value) && r.value.pool == map[] && r.value.submissions == map[] && r.value.scores == map[]
    ensures r.Success? ==> name.None?
    ensures var t := Selected(submission, task);
      Selectors(submission, task, name) == 1 && t.Some? && Known(t.value.scoreType) ==>
        var p := Construct(t.value.scoreType, t.value.parameters, t.value.publicTestcases);
        && (r.Success? <==> p.Success?)
        && (r.Success? ==> r.value == Init(p.value))
  {
    if Selectors(submission, task, name) != 1 then Failure(AmbiguousSelector)
    else
      var t := Selected(submission, task);
      if t.None? then
        if Known(name.value) then Failure(BadParameters) else Failure(UnknownScoreType)
      else if !Known(t.value.scoreType) then Failure(UnknownScoreType)
      else
        var p := Construct(t.value.scoreType, t.value.parameters, t.value.publicTestcases);
        if p.Failure? then Failure(p.error) else Success(Init(p.value))
  }

  // ---------------------------------------------------------------------------
  // Writing the parameters back
  // ---------------------------------------------------------------------------

  /** The name under which a policy is registered. */
  function NameOf(p: Policy): (name: string)
    ensures Known(name)
  {
    match p
    case SumPolicy(_, _) => SumName
    case RelativePolicy(_, _, _) => RelativeName
    case GroupPolicy(red, _, _) => match red case Min => GroupMinName case Avg => GroupAvgName case Mul => GroupMulName
  }

  function FloorsJson(fs: seq<Option<real>>): (r: seq<Json>)
    ensures |r| == |fs|
  {
    if |fs| == 0 then [] else [if fs[0].None? then JNull else JReal(fs[0].value)] + FloorsJson(fs[1..])
  }

  function CasesJson(cs: seq<int>): (r: seq<Json>)
    ensures |r| == |cs|
  {
    if |cs| == 0 then [] else [JInt(cs[0])] + CasesJson(cs[1..])
  }

  function GroupsJson(gs: seq<Group>): (r: seq<Json>)
    ensures |r| == |gs|
  {
    if |gs| == 0 then []
    else [JArray([JString(gs[0].name), JReal(gs[0].weight), JArray(CasesJson(gs[0].cases))])] + GroupsJson(gs[1..])
  }

  /** The JSON parameters a task of policy `p` stores. */
  function ParametersOf(p: Policy): Json {
    match p
    case SumPolicy(m, _) => JReal(m)
    case GroupPolicy(_, groups, _) => JArray(GroupsJson(groups))
    case RelativePolicy(m, floors, _) => JArray([JReal(m), JArray(FloorsJson(floors))])
  }

  lemma {:induction false} FloorsRoundTrip(fs: seq<Option<real>>)
    ensures Floors(FloorsJson(fs)) == Some(fs)
  {
    if |fs| > 0 {
      FloorsRoundTrip(fs[1..]);
      assert FloorsJson(fs)[1..] == FloorsJson(fs[1..]);
      assert fs == [fs[0]] + fs[1..];
    }
  }

  lemma {:induction false} CasesRoundTrip(cs: seq<int>)
    ensures Cases(CasesJson(cs)) == Some(cs)
  {
    if |cs| > 0 {
      CasesRoundTrip(cs[1..]);
      assert CasesJson(cs)[1..] == CasesJson(cs[1..]);
      assert cs == [cs[0]] + cs[1..];
    }
  }

  lemma {:induction false} GroupsRoundTrip(gs: seq<Group>)
    ensures Groups(GroupsJson(gs)) == Some(gs)
  {
    if |gs| > 0 {
      GroupsRoundTrip(gs[1..]);
      CasesRoundTrip(gs[0].cases);
      assert GroupsJson(gs)[1..] == GroupsJson(gs[1..]);
      assert GroupOf(GroupsJson(gs)[0]) == Some(gs[0]);
      assert gs == [gs[0]] + gs[1..];
    }
  }

  /** Every policy is constructed back from the task that stores it, whichever selector reaches the task. */
  lemma GetScoreTypeRoundTrip(p: Policy)
    ensures GetScoreType(None, Some(Task(NameOf(p), ParametersOf(p), p.publicTestcases)), None) == Success(Init(p))
    ensures GetScoreType(Some(Submission(Task(NameOf(p), ParametersOf(p), p.publicTestcases))), None, None) == Success(Init(p))
  {
    ConstructRoundTrip(p);
  }

  /** A numeric group name, which `"%s"` renders as its decimal digits, constructs like a string name. */
  lemma IntegerGroupName(k: int, weight: real, cases: seq<int>)
    ensures GroupOf(JArray([JInt(k), JReal(weight), JArray(CasesJson(cases))])) == Some(Group(Decimal.ShowInt(k), weight, cases))
  {
    CasesRoundTrip(cases);
  }

  /** The parameters a policy stores construct that policy again. */
  lemma ConstructRoundTrip(p: Policy)
    ensures Construct(NameOf(p), ParametersOf(p), p.publicTestcases) == Success(p)
  {
    match p
    case SumPolicy(_, _) =>
    case GroupPolicy(_, groups, _) => GroupsRoundTrip(groups);
    case RelativePolicy(_, floors, _) => FloorsRoundTrip(floors);
  }

  /**
   * The outcome of a single selector: a submission acts as its task, a bare
   * name always fails, and an unregistered name is a `KeyError`.
   */
  lemma SelectorOutcomes(submission: Submission, task: Task, name: string)
    ensures GetScoreType(Some(submission), None, None) == GetScoreType(None, Some(submission.task), None)
    ensures GetScoreType(None, None, Some(name)) == Failure(if Known(name) then BadParameters else UnknownScoreType)
    ensures !Known(task.scoreType) ==> GetScoreType(None, Some(task), None) == Failure(UnknownScoreType)
  {
  }
}
