/**
 * The simple subtask description of the loader: a task configuration with
 * `subtasks_parameters` splits its tests into a group of sample tests worth
 * nothing and one group holding every other test, worth the whole score.
 */
module SimpleSubtasks {
  import opened Wrappers
  import opened Decimal
  import opened Rebuild
  import opened TestFormat

  /** The `subtasks_parameters` entry: `total_value`, `public_tests`, and the optional `sample_tests` text. */
  datatype Parameters = Parameters(totalValue: real, publicTests: bool, sampleTests: Option<string>)

  /** One group of the `NamedGroup` parameters; its `type` is always `"sum"`. */
  datatype NamedGroup = NamedGroup(score: real, public: seq<string>, private: seq<string>, hidden: seq<string>)

  /** The tests with their public flags set, and the two groups. */
  datatype Outcome = Outcome(tests: seq<Test>, samples: NamedGroup, main: NamedGroup)

  // ---------------------------------------------------------------------------
  // Reading the sample numbers
  // ---------------------------------------------------------------------------

  /** `subtasks.get("sample_tests", "")`. */
  function SampleText(p: Parameters): string {
    if p.sampleTests.Some? then p.sampleTests.value else ""
  }

  /** `int(t.strip()) - 1` for every piece: the 1-based sample numbers made 0-based. */
  function ParseSamples(pieces: seq<string>): (r: Result<seq<int>, LoadError>)
    ensures r.Success? ==> |r.value| == |pieces|
    ensures r.Failure? ==> r.error == ValueError
  {
    if |pieces| == 0 then Success([])
    else
      var v := ParseInt(Strip(pieces[0]));
      if v.None? then Failure(ValueError)
      else
        var rest := ParseSamples(pieces[1..]);
        if rest.Failure? then rest else Success([v.value - 1] + rest.value)
  }

  /** The sample list as the loader reads it: the stripped text split on commas. */
  function SamplesAsWritten(text: string): Result<seq<int>, LoadError> {
    ParseSamples(Split(Strip(text), ','))
  }

  /** The sample list with blank text read as no samples at all. */
  function Samples(text: string): (r: Result<seq<int>, LoadError>)
    ensures Strip(text) == "" ==> r == Success([])
    ensures Strip(text) != "" ==> r == SamplesAsWritten(text)
  {
    if Strip(text) == "" then Success([]) else SamplesAsWritten(text)
  }

  // ---------------------------------------------------------------------------
  // Marking tests public
  // ---------------------------------------------------------------------------

  /** Where `tests[i]` points in a list of `n`: negative indices count from the end. */
  function Position(i: int, n: nat): (r: Option<nat>)
    ensures r.Some? ==> r.value < n
  {
    if 0 <= i < n then Some(i) else if i < 0 && i + n >= 0 then Some(i + n) else None
  }

  /** `if is_public: for test in tests: test["public"] = True`. */
  function MarkAll(tests: seq<Test>, isPublic: bool): (r: seq<Test>)
    ensures |r| == |tests|
    ensures forall j :: 0 <= j < |r| ==> r[j] == tests[j].(public := tests[j].public || isPublic)
  {
    if |tests| == 0 then []
    else [tests[0].(public := tests[0].public || isPublic)] + MarkAll(tests[1..], isPublic)
  }

  /** `for i in samples: tests[i]["public"] = True`, failing at the first index out of range. */
  function MarkSamples(tests: seq<Test>, samples: seq<int>): (r: Result<seq<Test>, LoadError>)
    ensures r.Success? ==> |r.value| == |tests|
    ensures r.Failure? ==> r.error == IndexError
    decreases |samples|
  {
    if |samples| == 0 then Success(tests)
    else
      var pos := Position(samples[0], |tests|);
      if pos.None? then Failure(IndexError)
      else MarkSamples(tests[pos.value := tests[pos.value].(public := true)], samples[1..])
  }

  /** The positions the samples point at. */
  function Hits(samples: seq<int>, n: nat): set<nat> {
    if |samples| == 0 then {}
    else
      var pos := Position(samples[0], n);
      (if pos.Some? then {pos.value} else {}) + Hits(samples[1..], n)
  }

  predicate InRange(samples: seq<int>, n: nat) {
    forall k :: 0 <= k < |samples| ==> Position(samples[k], n).Some?
  }

  /**
   * Marking succeeds exactly when every sample points into the list; then a
   * test is public when it was, or when a sample points at it, and nothing
   * else about it changes.
   */
  lemma {:induction false} MarkSamplesSpec(tests: seq<Test>, samples: seq<int>)
    ensures MarkSamples(tests, samples).Success? <==> InRange(samples, |tests|)
    ensures MarkSamples(tests, samples).Success? ==>
      forall j :: 0 <= j < |tests| ==>
        MarkSamples(tests, samples).value[j] == tests[j].(public := tests[j].public || j in Hits(samples, |tests|))
    decreases |samples|
  {
    if |samples| > 0 {
      var n := |tests|;
      var pos := Position(samples[0], n);
      assert InRange(samples, n) <==> pos.Some? && InRange(samples[1..], n) by {
        if pos.Some? && InRange(samples[1..], n) {
          forall k | 1 <= k < |samples|
            ensures Position(samples[k], n).Some?
          {
            assert samples[k] == samples[1..][k - 1];
          }
        }
      }
      if pos.Some? {
        var marked := tests[pos.value := tests[pos.value].(public := true)];
        MarkSamplesSpec(marked, samples[1..]);
      }
    }
  }

  // ---------------------------------------------------------------------------
  // The two groups
  // ---------------------------------------------------------------------------

  /** `[i for i in xrange(n) if not i in samples]`. */
  function MainIndices(n: nat, samples: seq<int>): (r: seq<int>)
    ensures forall i :: i in r <==> 0 <= i < n && i !in samples
    ensures forall k :: 0 <= k < |r| ==> 0 <= r[k] < n
    ensures forall a, b :: 0 <= a < b < |r| ==> r[a] < r[b]
  {
    if n == 0 then []
    else
      var init := MainIndices(n - 1, samples);
      if n - 1 in samples then init
      else
        assert forall a :: 0 <= a < |init| ==> init[a] < n - 1;
        init + [n - 1]
  }

  /** `rebuild_list` of test numbers, none negative: always their names. */
  function Rebuilt(ns: seq<int>): (r: seq<string>)
    requires forall k :: 0 <= k < |ns| ==> ns[k] >= 0
    ensures RebuildList(Some(Nums(ns))) == Success(r)
    ensures r == Names(ns)
  {
    RebuildNumbers(ns);
    RebuildList(Some(Nums(ns))).value
  }

  /**
   * Everything after the sample numbers are read: mark the tests, build the
   * sample group from the samples and the main group from every other test,
   * public when `public_tests` is set and private otherwise.
   */
  function Describe(p: Parameters, tests: seq<Test>, parsed: Result<seq<int>, LoadError>): (r: Result<Outcome, LoadError>)
  {
    if parsed.Failure? then Failure(parsed.error)
    else
      var samples := parsed.value;
      var marked := MarkSamples(MarkAll(tests, p.publicTests), samples);
      if marked.Failure? then Failure(marked.error)
      else
        var samplesPublic := RebuildList(Some(Nums(samples)));
        if samplesPublic.Failure? then Failure(samplesPublic.error)
        else
          var main := MainIndices(|tests|, samples);
          var pub := Rebuilt(if p.publicTests then main else []);
          var priv := Rebuilt(if p.publicTests then [] else main);
          Success(Outcome(marked.value, NamedGroup(0.0, samplesPublic.value, [], []), NamedGroup(p.totalValue, pub, priv, [])))
  }

  /** Lines 349-371 of the loader as written: the sample text is split even when blank. */
  function DescribeAsWritten(p: Parameters, tests: seq<Test>): Result<Outcome, LoadError> {
    Describe(p, tests, SamplesAsWritten(SampleText(p)))
  }

  /** The simple subtask description, with a missing or blank `sample_tests` meaning no samples. */
  function SimpleSubtasks(p: Parameters, tests: seq<Test>): Result<Outcome, LoadError> {
    Describe(p, tests, Samples(SampleText(p)))
  }

  // ---------------------------------------------------------------------------
  // Properties
  // ---------------------------------------------------------------------------

  /** Without `sample_tests` the loader as written reads `int("")` and raises, whatever the tests. */
  lemma MissingSamplesRaise(v: real, isPublic: bool, tests: seq<Test>)
    ensures DescribeAsWritten(Parameters(v, isPublic, None), tests) == Failure(ValueError)
  {
    assert Strip("") == "";
    assert Split("", ',') == [""];
    assert ParseInt("") == None;
  }

  /** Without `sample_tests` there are no samples, and every test goes to the main group. */
  lemma MissingSamplesAreNone(v: real, isPublic: bool, tests: seq<Test>)
    ensures var r := SimpleSubtasks(Parameters(v, isPublic, None), tests);
      && r.Success?
      && r.value.samples == NamedGroup(0.0, [], [], [])
      && MainIndices(|tests|, []) == seq(|tests|, i => i)
  {
    assert Strip("") == "";
    MainIndicesAll(|tests|);
    RebuildNumbers([]);
  }

  /** The correction changes nothing when the sample text is not blank. */
  lemma CorrectionOnlyBlank(p: Parameters, tests: seq<Test>)
    requires Strip(SampleText(p)) != ""
    ensures SimpleSubtasks(p, tests) == DescribeAsWritten(p, tests)
  {
  }

  lemma {:induction false} MainIndicesAll(n: nat)
    ensures MainIndices(n, []) == seq(n, i => i)
  {
    if n > 0 {
      MainIndicesAll(n - 1);
    }
  }

  /** Numbers joined by commas survive `strip` and split back into their numerals. */
  lemma SplitNumerals(ns: seq<int>)
    requires |ns| > 0 && forall k :: 0 <= k < |ns| ==> ns[k] >= 0
    ensures var text := Join(Numerals(ns), ',');
      Strip(text) == text && |text| > 0 && Split(text, ',') == Numerals(ns)
  {
    var ds := Numerals(ns);
    var text := Join(ds, ',');
    JoinEnds(ds, ',');
    assert IsDigit(ds[0][0]) && IsDigit(ds[|ds| - 1][|ds[|ds| - 1]| - 1]);
    StripNothing(text);
    forall k | 0 <= k < |ds|
      ensures ',' !in ds[k]
    {
      NoComma(ds[k]);
    }
    SplitJoin(ds, ',');
  }

  /** Sample numbers written out `1,2,...` are read back 0-based. */
  lemma SamplesRoundTrip(ns: seq<int>)
    requires |ns| > 0 && forall k :: 0 <= k < |ns| ==> ns[k] >= 0
    ensures Samples(Join(Numerals(ns), ',')) == Success(Lowered(ns))
  {
    SplitNumerals(ns);
    ParseNumerals(ns);
  }

  /** `str(n)` for each number. */
  function Numerals(ns: seq<int>): (r: seq<string>)
    requires forall k :: 0 <= k < |ns| ==> ns[k] >= 0
    ensures |r| == |ns| && forall k :: 0 <= k < |ns| ==> r[k] == ShowNat(ns[k])
  {
    if |ns| == 0 then [] else [ShowNat(ns[0])] + Numerals(ns[1..])
  }

  lemma NoComma(s: string)
    requires AllDigits(s)
    ensures ',' !in s
  {
    assert forall k :: 0 <= k < |s| ==> IsDigit(s[k]) && s[k] != ',';
  }

  /** The text `join` builds starts with its first piece and ends with its last. */
  lemma {:induction false} JoinEnds(pieces: seq<string>, sep: char)
    requires |pieces| >= 1 && forall k :: 0 <= k < |pieces| ==> |pieces[k]| > 0
    ensures var s := Join(pieces, sep);
      |s| > 0 && s[0] == pieces[0][0] && s[|s| - 1] == pieces[|pieces| - 1][|pieces[|pieces| - 1]| - 1]
  {
    if |pieces| > 1 {
      var rest := pieces[1..];
      assert rest[|rest| - 1] == pieces[|pieces| - 1];
      JoinEnds(rest, sep);
      var t := Join(rest, sep);
      assert Join(pieces, sep) == pieces[0] + [sep] + t;
    }
  }

  /** The numbers made 0-based. */
  function Lowered(ns: seq<int>): (r: seq<int>)
    ensures |r| == |ns| && forall k :: 0 <= k < |ns| ==> r[k] == ns[k] - 1
  {
    if |ns| == 0 then [] else [ns[0] - 1] + Lowered(ns[1..])
  }

  lemma ParseNumeral(n: int)
    requires n >= 0
    ensures ParseInt(Strip(ShowNat(n))) == Some(n)
  {
    var d := ShowNat(n);
    assert Strip(d) == d by {
      assert IsDigit(d[0]) && IsDigit(d[|d| - 1]);
      StripNothing(d);
    }
    ShowNatValue(n);
    ParseDigits(d, n);
  }

  lemma {:induction false} ParseNumerals(ns: seq<int>)
    requires forall k :: 0 <= k < |ns| ==> ns[k] >= 0
    ensures ParseSamples(Numerals(ns)) == Success(Lowered(ns))
  {
    if |ns| > 0 {
      assert forall k :: 0 <= k < |ns| - 1 ==> ns[1..][k] == ns[k + 1];
      ParseNumerals(ns[1..]);
      ParseNumeral(ns[0]);
      assert Numerals(ns)[1..] == Numerals(ns[1..]);
    }
  }

  // ---------------------------------------------------------------------------
  // What the description produces
  // ---------------------------------------------------------------------------

  predicate NonNegative(ns: seq<int>) {
    forall k :: 0 <= k < |ns| ==> ns[k] >= 0
  }

  /** The sample group's names can be built exactly when no sample number is below one. */
  lemma RebuildSamples(samples: seq<int>)
    ensures RebuildList(Some(Nums(samples))).Success? <==> NonNegative(samples)
    ensures NonNegative(samples) ==> RebuildList(Some(Nums(samples))).value == Names(samples)
  {
    if NonNegative(samples) {
      RebuildNumbers(samples);
    } else {
      var k :| 0 <= k < |samples| && samples[k] < 0;
      RebuildNegative(samples, k);
    }
  }

  /**
   * The description succeeds exactly when every sample points into the list
   * of tests and none is below one; a sample past either end raises
   * `IndexError` first, and a sample numbered zero or less `ValueError`.
   */
  lemma DescribeOutcome(p: Parameters, tests: seq<Test>, samples: seq<int>)
    ensures Describe(p, tests, Success(samples)).Success? <==> InRange(samples, |tests|) && NonNegative(samples)
    ensures Describe(p, tests, Success(samples)).Failure? ==>
      Describe(p, tests, Success(samples)).error == if InRange(samples, |tests|) then ValueError else IndexError
  {
    MarkSamplesSpec(MarkAll(tests, p.publicTests), samples);
    RebuildSamples(samples);
    NumbersOnlyValueError(samples);
  }

  /**
   * On success the sample group is worth nothing and lists the samples, and
   * the main group is worth `total_value` and lists every other test, in
   * its public list when `public_tests` is set and in its private list
   * otherwise.
   */
  lemma DescribeGroups(p: Parameters, tests: seq<Test>, samples: seq<int>)
    requires Describe(p, tests, Success(samples)).Success?
    ensures var r := Describe(p, tests, Success(samples)).value; var main := Names(MainIndices(|tests|, samples));
      && r.samples == NamedGroup(0.0, Names(samples), [], [])
      && r.main == NamedGroup(p.totalValue, if p.publicTests then main else [], if p.publicTests then [] else main, [])
  {
    RebuildSamples(samples);
  }

  /** A sample in range and not below zero points at its own position. */
  lemma {:induction false} HitsOfIndices(samples: seq<int>, n: nat)
    requires forall k :: 0 <= k < |samples| ==> 0 <= samples[k] < n
    ensures forall j: nat :: j in Hits(samples, n) <==> j in samples
  {
    if |samples| > 0 {
      HitsOfIndices(samples[1..], n);
      assert samples == [samples[0]] + samples[1..];
    }
  }

  /**
   * On success a test ends up public exactly when it was, when
   * `public_tests` is set, or when it is a sample; nothing else about it
   * changes.
   */
  lemma DescribeMarks(p: Parameters, tests: seq<Test>, samples: seq<int>)
    requires Describe(p, tests, Success(samples)).Success?
    ensures var r := Describe(p, tests, Success(samples)).value;
      && |r.tests| == |tests|
      && forall j :: 0 <= j < |tests| ==>
        r.tests[j] == tests[j].(public := tests[j].public || p.publicTests || j in samples)
  {
    var n := |tests|;
    DescribeOutcome(p, tests, samples);
    MarkSamplesSpec(MarkAll(tests, p.publicTests), samples);
    forall k | 0 <= k < |samples|
      ensures 0 <= samples[k] < n
    {
      assert Position(samples[k], n).Some?;
    }
    HitsOfIndices(samples, n);
  }

  /** Distinct numbers have distinct names: `int` reads each back. */
  lemma Pad3Injective(a: int, b: int)
    requires Pad3(a) == Pad3(b)
    ensures a == b
  {
    ParsePad3(a);
    ParsePad3(b);
  }

  /** A number's name is among the names of a list exactly when the number is in the list. */
  lemma NamesMember(ns: seq<int>, i: int)
    ensures Pad3(i) in Names(ns) <==> i in ns
  {
    if Pad3(i) in Names(ns) {
      var k :| 0 <= k < |ns| && Names(ns)[k] == Pad3(i);
      Pad3Injective(ns[k], i);
    }
    if i in ns {
      var k :| 0 <= k < |ns| && ns[k] == i;
      assert Names(ns)[k] == Pad3(i);
    }
  }

  /**
   * On success every test lands in exactly one place: the sample group
   * lists it when it is a sample, and the main group lists it, in exactly
   * one of its public and private lists, when it is not.
   */
  lemma DescribePartition(p: Parameters, tests: seq<Test>, samples: seq<int>, i: int)
    requires Describe(p, tests, Success(samples)).Success?
    requires 0 <= i < |tests|
    ensures var r := Describe(p, tests, Success(samples)).value;
      && (Pad3(i) in r.samples.public <==> i in samples)
      && (Pad3(i) in r.main.public <==> i !in samples && p.publicTests)
      && (Pad3(i) in r.main.private <==> i !in samples && !p.publicTests)
  {
    DescribeGroups(p, tests, samples);
    NamesMember(samples, i);
    NamesMember(MainIndices(|tests|, samples), i);
  }
}
