/**
 * The simple loader's `*` / `*.a` test format: every test input `name` sits
 * next to its expected output `name.a`. Given the paths found under the
 * task's `tests` directory, index them by file name, decide whether the
 * listing is in this format, and if so number the tests in name order.
 */
module TestFormat {
  import opened Wrappers

  /** One test of the task: its index, the input and output paths, and whether it is public. */
  datatype Test = Test(idx: nat, input: string, output: string, public: bool)

  // ---------------------------------------------------------------------------
  // File names
  // ---------------------------------------------------------------------------

  /** `os.path.split(path)[-1]`: the text after the last slash. */
  function Base(path: string): (r: string)
    ensures '/' !in r && |r| <= |path|
    ensures |r| > 0 ==> r[|r| - 1] == path[|path| - 1]
  {
    if |path| == 0 || path[|path| - 1] == '/' then ""
    else Base(path[..|path| - 1]) + [path[|path| - 1]]
  }

  /** The file name of a path in a directory is the name itself. */
  lemma {:induction false} BaseOfJoin(dir: string, name: string)
    requires '/' !in name
    ensures Base(dir + "/" + name) == name
    decreases |name|
  {
    var p := dir + "/" + name;
    if |name| == 0 {
      assert p[|p| - 1] == '/';
    } else {
      var q, c := name[..|name| - 1], name[|name| - 1];
      assert '/' !in q && c != '/' && name == q + [c] by {
        assert forall k :: 0 <= k < |q| ==> q[k] == name[k];
      }
      assert p[..|p| - 1] == dir + "/" + q && p[|p| - 1] == c;
      BaseOfJoin(dir, q);
    }
  }

  /**
   * `dict((os.path.split(t)[-1], t) for t in full_names)`: each path under
   * its file name; a later path with the same name replaces an earlier one.
   */
  function Index(paths: seq<string>): (d: map<string, string>)
    ensures forall p :: p in paths ==> Base(p) in d
    ensures forall k :: k in d ==> d[k] in paths && Base(d[k]) == k
  {
    if |paths| == 0 then map[]
    else
      var init := paths[..|paths| - 1];
      var last := paths[|paths| - 1];
      assert forall p :: p in init ==> p in paths;
      Index(init)[Base(last) := last]
  }

  /** A path stays indexed under its name when no later path has the same name. */
  lemma {:induction false} IndexLastWins(paths: seq<string>, i: nat)
    requires i < |paths|
    requires forall j :: i < j < |paths| ==> Base(paths[j]) != Base(paths[i])
    ensures Index(paths)[Base(paths[i])] == paths[i]
  {
    if i < |paths| - 1 {
      var init := paths[..|paths| - 1];
      assert init[i] == paths[i];
      IndexLastWins(init, i);
    }
  }

  // ---------------------------------------------------------------------------
  // Python's order on strings
  // ---------------------------------------------------------------------------

  /** `a < b` on byte strings: the first differing character decides, and a proper prefix comes first. */
  predicate Below(a: string, b: string) {
    if |a| == 0 then |b| > 0
    else if |b| == 0 then false
    else if a[0] != b[0] then a[0] < b[0]
    else Below(a[1..], b[1..])
  }

  lemma {:induction false} BelowIrreflexive(a: string)
    ensures !Below(a, a)
  {
    if |a| > 0 {
      BelowIrreflexive(a[1..]);
    }
  }

  lemma {:induction false} BelowTransitive(a: string, b: string, c: string)
    requires Below(a, b) && Below(b, c)
    ensures Below(a, c)
  {
    if |a| > 0 && a[0] == b[0] && b[0] == c[0] {
      BelowTransitive(a[1..], b[1..], c[1..]);
    }
  }

  lemma {:induction false} BelowTotal(a: string, b: string)
    requires a != b
    ensures Below(a, b) || Below(b, a)
  {
    if |a| > 0 && |b| > 0 && a[0] == b[0] {
      assert a == [a[0]] + a[1..] && b == [b[0]] + b[1..];
      BelowTotal(a[1..], b[1..]);
    }
  }

  lemma BelowAsymmetric(a: string, b: string)
    requires Below(a, b)
    ensures !Below(b, a)
  {
    if Below(b, a) {
      BelowTransitive(a, b, a);
      BelowIrreflexive(a);
    }
  }

  // ---------------------------------------------------------------------------
  // Sorting the file names
  // ---------------------------------------------------------------------------

  predicate StrictlySorted(s: seq<string>) {
    forall i, j :: 0 <= i < j < |s| ==> Below(s[i], s[j])
  }

  /** Put `x` into its place in a sorted list, unless it is already there. */
  function Insert(x: string, s: seq<string>): (r: seq<string>)
    requires StrictlySorted(s)
    ensures StrictlySorted(r)
    ensures forall y :: y in r <==> y == x || y in s
  {
    if |s| == 0 then [x]
    else if x == s[0] then s
    else if Below(x, s[0]) then
      assert forall j :: 0 <= j < |s| ==> Below(x, s[j]) by {
        forall j | 0 <= j < |s|
          ensures Below(x, s[j])
        {
          if j > 0 {
            BelowTransitive(x, s[0], s[j]);
          }
        }
      }
      [x] + s
    else
      BelowTotal(x, s[0]);
      var t := Insert(x, s[1..]);
      assert forall y :: y in s[1..] ==> Below(s[0], y);
      [s[0]] + t
  }

  /** The distinct names of `xs` in increasing order: what `sorted` makes of a dict's keys. */
  function SortDistinct(xs: seq<string>): (r: seq<string>)
    ensures StrictlySorted(r)
    ensures forall y :: y in r <==> y in xs
  {
    if |xs| == 0 then [] else Insert(xs[0], SortDistinct(xs[1..]))
  }

  /** Two strictly sorted lists with the same elements are the same list: the order is determined. */
  lemma {:induction false} SortedUnique(a: seq<string>, b: seq<string>)
    requires StrictlySorted(a) && StrictlySorted(b)
    requires forall y :: y in a <==> y in b
    ensures a == b
    decreases |a|
  {
    if |a| > 0 {
      assert a[0] in b;
    }
    if |b| > 0 {
      assert b[0] in a;
    }
    if |a| > 0 && |b| > 0 {
      if a[0] != b[0] {
        assert b[0] in a && a[0] in b;
        var i :| 0 <= i < |a| && a[i] == b[0];
        var j :| 0 <= j < |b| && b[j] == a[0];
        assert Below(a[0], b[0]) && Below(b[0], a[0]);
        BelowAsymmetric(a[0], b[0]);
      }
      forall y
        ensures y in a[1..] <==> y in b[1..]
      {
        if y in a[1..] {
          TailMember(a, b, y);
        }
        if y in b[1..] {
          TailMember(b, a, y);
        }
      }
      SortedUnique(a[1..], b[1..]);
    }
  }

  /** Past a common first name, a name in one sorted list's tail is in the other's tail. */
  lemma TailMember(a: seq<string>, b: seq<string>, y: string)
    requires StrictlySorted(a) && StrictlySorted(b) && |a| > 0 && |b| > 0 && a[0] == b[0]
    requires forall z :: z in a <==> z in b
    requires y in a[1..]
    ensures y in b[1..]
  {
    var i :| 0 <= i < |a| - 1 && a[1..][i] == y;
    assert Below(a[0], a[i + 1]);
    BelowIrreflexive(a[0]);
    assert y in b;
    var j :| 0 <= j < |b| && b[j] == y;
    assert j != 0;
    assert b[1..][j - 1] == y;
  }

  // ---------------------------------------------------------------------------
  // The `*` / `*.a` detector
  // ---------------------------------------------------------------------------

  predicate EndsA(name: string) {
    |name| >= 2 && name[|name| - 2..] == ".a"
  }

  /** `name[:-2]` for a name ending in `.a`. */
  function Stem(name: string): string
    requires EndsA(name)
  {
    name[..|name| - 2]
  }

  /** One name's check: an output needs its input, an input needs its output. */
  predicate Paired(d: map<string, string>, name: string) {
    if EndsA(name) then Stem(name) in d else name + ".a" in d
  }

  /** Every name of the listing has its partner. */
  predicate FormatA(d: map<string, string>) {
    forall name :: name in d ==> Paired(d, name)
  }

  /** The detector loop over the names in iteration order `order`: `detected` starts set, and an unpaired name clears it. */
  function DetectLoop(d: map<string, string>, order: seq<string>, detected: bool): bool {
    if |order| == 0 then detected
    else DetectLoop(d, order[1..], detected && Paired(d, order[0]))
  }

  /** The loop leaves `detected` set exactly when it started set and every visited name is paired. */
  lemma {:induction false} DetectLoopAll(d: map<string, string>, order: seq<string>, detected: bool)
    ensures DetectLoop(d, order, detected) <==> detected && forall k :: 0 <= k < |order| ==> Paired(d, order[k])
  {
    if |order| > 0 {
      DetectLoopAll(d, order[1..], detected && Paired(d, order[0]));
      assert forall k :: 1 <= k < |order| ==> order[k] == order[1..][k - 1];
    }
  }

  /** Whatever order the keys are visited in, the loop detects the format exactly when every name is paired. */
  lemma DetectLoopIff(d: map<string, string>, order: seq<string>)
    requires forall y :: y in order <==> y in d
    ensures DetectLoop(d, order, true) <==> FormatA(d)
  {
    DetectLoopAll(d, order, true);
  }

  // ---------------------------------------------------------------------------
  // Numbering the tests
  // ---------------------------------------------------------------------------

  /** The names that are not outputs, in the order given. */
  function Inputs(names: seq<string>): (r: seq<string>)
    ensures forall y :: y in r <==> y in names && !EndsA(y)
  {
    if |names| == 0 then []
    else if EndsA(names[0]) then Inputs(names[1..])
    else [names[0]] + Inputs(names[1..])
  }

  /** Every input name of the listing, paired with its output. */
  predicate Complete(d: map<string, string>, names: seq<string>) {
    forall k :: 0 <= k < |names| ==> names[k] in d && (!EndsA(names[k]) ==> names[k] + ".a" in d)
  }

  /** The loop over the sorted names: one test per input name, numbered from `idx` on. */
  function Enumerate(d: map<string, string>, names: seq<string>, idx: nat): (r: seq<Test>)
    requires Complete(d, names)
    ensures |r| == |Inputs(names)|
  {
    if |names| == 0 then []
    else
      var n := names[0];
      if EndsA(n) then Enumerate(d, names[1..], idx)
      else [Test(idx, d[n], d[n + ".a"], false)] + Enumerate(d, names[1..], idx + 1)
  }

  /** Test `i` is the `i`-th input name's: numbered consecutively, private, input and output looked up by name. */
  lemma {:induction false} EnumerateTests(d: map<string, string>, names: seq<string>, idx: nat)
    requires Complete(d, names)
    ensures forall i :: 0 <= i < |Inputs(names)| ==>
      && Inputs(names)[i] in d && Inputs(names)[i] + ".a" in d
      && Enumerate(d, names, idx)[i] == Test(idx + i, d[Inputs(names)[i]], d[Inputs(names)[i] + ".a"], false)
  {
    if |names| > 0 {
      var n := names[0];
      var ins, ins' := Inputs(names), Inputs(names[1..]);
      if EndsA(n) {
        EnumerateTests(d, names[1..], idx);
        assert ins == ins' && Enumerate(d, names, idx) == Enumerate(d, names[1..], idx);
      } else {
        EnumerateTests(d, names[1..], idx + 1);
        var r, r' := Enumerate(d, names, idx), Enumerate(d, names[1..], idx + 1);
        assert r == [Test(idx, d[n], d[n + ".a"], false)] + r' && ins == [n] + ins';
        assert n in d && n + ".a" in d;
        forall i | 1 <= i < |ins|
          ensures ins[i] in d && ins[i] + ".a" in d && r[i] == Test(idx + i, d[ins[i]], d[ins[i] + ".a"], false)
        {
          assert r[i] == r'[i - 1] && ins[i] == ins'[i - 1];
        }
      }
    }
  }

  /** The names of a listing, sorted: the key order of `sorted(tests_dict.items())`. */
  function SortedNames(paths: seq<string>): (r: seq<string>)
    ensures StrictlySorted(r)
    ensures forall y :: y in r <==> y in Index(paths)
  {
    var bases := seq(|paths|, k requires 0 <= k < |paths| => Base(paths[k]));
    var r := SortDistinct(bases);
    assert forall y :: y in Index(paths) ==> y in bases by {
      forall y | y in Index(paths)
        ensures y in bases
      {
        var p := Index(paths)[y];
        var k :| 0 <= k < |paths| && paths[k] == p;
        assert bases[k] == y;
      }
    }
    r
  }

  /**
   * The `*` / `*.a` branch of the loader: `None` when the listing is not in
   * this format, otherwise one private test per input name in name order.
   */
  function PairTests(paths: seq<string>): (r: Option<seq<Test>>)
  {
    var d := Index(paths);
    var names := SortedNames(paths);
    if DetectLoop(d, names, true) then
      DetectLoopIff(d, names);
      Some(Enumerate(d, names, 0))
    else None
  }

  /** The input names of a listing in sorted order: the names the tests are made from. */
  function TestNames(paths: seq<string>): seq<string> {
    Inputs(SortedNames(paths))
  }

  /** The test names are exactly the listing's names that are not outputs, each once, in increasing order. */
  lemma TestNamesSpec(paths: seq<string>)
    ensures StrictlySorted(TestNames(paths))
    ensures forall y :: y in TestNames(paths) <==> y in Index(paths) && !EndsA(y)
  {
    InputsSorted(SortedNames(paths));
  }

  /** The format is detected exactly when every name has its partner. */
  lemma PairTestsDetects(paths: seq<string>)
    ensures PairTests(paths).Some? <==> FormatA(Index(paths))
  {
    DetectLoopIff(Index(paths), SortedNames(paths));
  }

  /**
   * When detected, test `i` takes the `i`-th test name: its index is `i`, it
   * is private, and its input and output are the paths indexed under the
   * name and under the name with `.a` appended.
   */
  lemma PairTestsNumbers(paths: seq<string>)
    requires FormatA(Index(paths))
    ensures PairTests(paths).Some?
    ensures var d := Index(paths); var r := PairTests(paths).value; var ns := TestNames(paths);
      && |r| == |ns|
      && forall i :: 0 <= i < |r| ==> ns[i] in d && ns[i] + ".a" in d && r[i] == Test(i, d[ns[i]], d[ns[i] + ".a"], false)
  {
    var d, names := Index(paths), SortedNames(paths);
    PairTestsDetected(paths);
    EnumerateTests(d, names, 0);
  }

  lemma PairTestsDetected(paths: seq<string>)
    requires FormatA(Index(paths))
    ensures Complete(Index(paths), SortedNames(paths))
    ensures PairTests(paths) == Some(Enumerate(Index(paths), SortedNames(paths), 0))
  {
    DetectLoopIff(Index(paths), SortedNames(paths));
  }

  /** Each test's input is a file called by the test's name, and its output the file with `.a` appended. */
  lemma PairTestsFiles(paths: seq<string>)
    requires FormatA(Index(paths))
    ensures PairTests(paths).Some?
    ensures var r := PairTests(paths).value; var ns := TestNames(paths);
      && |r| == |ns|
      && forall i :: 0 <= i < |r| ==> Base(r[i].input) == ns[i] && Base(r[i].output) == ns[i] + ".a"
  {
    PairTestsNumbers(paths);
  }

  /** Keeping some names of a sorted list keeps it sorted. */
  lemma {:induction false} InputsSorted(names: seq<string>)
    requires StrictlySorted(names)
    ensures StrictlySorted(Inputs(names))
  {
    if |names| > 0 {
      InputsSorted(names[1..]);
      var ins := Inputs(names);
      if !EndsA(names[0]) {
        forall j | 1 <= j < |ins|
          ensures Below(ins[0], ins[j])
        {
          assert ins[j] in names[1..];
        }
      }
    }
  }

  /** An empty `tests` directory passes the detector and yields no tests. */
  lemma EmptyListing()
    ensures PairTests([]) == Some([])
  {
  }
}
