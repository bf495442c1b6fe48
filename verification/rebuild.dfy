/**
 * `rebuild_list` from the simple loader: expand a list of test numbers and
 * ranges such as `3` or `"2-5"` into the zero-padded names `"003"`,
 * `"002"`, ..., `"005"` that the group score types read.
 */
module Rebuild {
  import opened Wrappers
  import opened Decimal

  /** An entry of the list `rebuild_list` reads: a number, or text such as `"2-5"`. */
  datatype Item = Num(n: int) | Text(s: string)

  /** The exceptions the loader's list handling raises. */
  datatype LoadError =
    | ValueError   // `int()` on something that is not a numeral
    | IndexError   // a test number outside the list of tests
    | OverflowError  // `xrange` bounds or length beyond a C long

  /** The range of a C `long` on a 64-bit Unix build of Python 2. */
  const LongMin: int := -0x8000_0000_0000_0000
  const LongMax: int := 0x7fff_ffff_ffff_ffff

  /**
   * Whether `xrange(start, stop)` can be built: both arguments convert to a
   * C `long`, and the number of items, `stop - start` when positive, fits one too.
   */
  predicate XrangeFits(start: int, stop: int) {
    LongMin <= start <= LongMax && LongMin <= stop <= LongMax && stop - start <= LongMax
  }

  /** `str(s)`. */
  function Show(it: Item): string {
    match it
    case Num(n) => ShowInt(n)
    case Text(s) => s
  }

  /** `["%03d" % i for i in xrange(lo, hi + 1)]`. */
  function PadRange(lo: int, hi: int): (r: seq<string>)
    ensures |r| == if lo <= hi then hi - lo + 1 else 0
    ensures forall k :: 0 <= k < |r| ==> r[k] == Pad3(lo + k)
    decreases hi - lo
  {
    if lo > hi then [] else [Pad3(lo)] + PadRange(lo + 1, hi)
  }

  /**
   * The names for the pieces of an entry split on `-`: a single piece is one
   * number, otherwise the first two pieces bound a range and any further
   * pieces are ignored. Both bounds are read before `xrange` is built.
   */
  function Pieces(numbers: seq<string>): (r: Result<seq<string>, LoadError>)
    requires |numbers| >= 1
    ensures r.Failure? ==> r.error == ValueError || r.error == OverflowError
    ensures r.Failure? && r.error == OverflowError ==>
      |numbers| >= 2 && ParseInt(numbers[0]).Some? && ParseInt(numbers[1]).Some?
      && !XrangeFits(ParseInt(numbers[0]).value, ParseInt(numbers[1]).value + 1)
  {
    if |numbers| == 1 then
      var v := ParseInt(numbers[0]);
      if v.None? then Failure(ValueError) else Success([Pad3(v.value)])
    else
      var lo := ParseInt(numbers[0]);
      var hi := ParseInt(numbers[1]);
      if lo.None? || hi.None? then Failure(ValueError)
      else if !XrangeFits(lo.value, hi.value + 1) then Failure(OverflowError)
      else Success(PadRange(lo.value, hi.value))
  }

  /** The names one entry expands to: `str(s).strip().split('-')`, then its pieces. */
  function Expand(it: Item): (r: Result<seq<string>, LoadError>)
    ensures r.Failure? ==> r.error == ValueError || r.error == OverflowError
  {
    Pieces(Split(Strip(Show(it)), '-'))
  }

  /** Every entry's outcome, in input order. */
  function Outcomes(items: seq<Item>): (r: seq<Result<seq<string>, LoadError>>)
    ensures |r| == |items| && forall k :: 0 <= k < |items| ==> r[k] == Expand(items[k])
  {
    if |items| == 0 then [] else [Expand(items[0])] + Outcomes(items[1..])
  }

  /** The loop of `rebuild_list` over the entries' outcomes: the first failure raises, otherwise the names accumulate in order. */
  function Concat(rs: seq<Result<seq<string>, LoadError>>): (r: Result<seq<string>, LoadError>)
    ensures r.Failure? ==> exists k :: 0 <= k < |rs| && rs[k] == Failure(r.error)
  {
    if |rs| == 0 then Success([])
    else if rs[0].Failure? then Failure(rs[0].error)
    else
      var t := Concat(rs[1..]);
      if t.Failure? then (assert rs[1..][0] in rs[1..]; t) else Success(rs[0].value + t.value)
  }

  /** `rebuild_list(entries)`: `None` is the empty list. */
  function RebuildList(entries: Option<seq<Item>>): (r: Result<seq<string>, LoadError>)
    ensures entries.None? ==> r == Success([])
    ensures r.Failure? ==> r.error == ValueError || r.error == OverflowError
  {
    if entries.None? then Success([]) else Concat(Outcomes(entries.value))
  }

  // ---------------------------------------------------------------------------
  // The list as a concatenation of expansions
  // ---------------------------------------------------------------------------

  predicate AllSucceed(rs: seq<Result<seq<string>, LoadError>>) {
    forall k :: 0 <= k < |rs| ==> rs[k].Success?
  }

  /** The concatenation of every entry's names, in input order. */
  function Flatten(rs: seq<Result<seq<string>, LoadError>>): seq<string>
    requires AllSucceed(rs)
  {
    if |rs| == 0 then [] else rs[0].value + Flatten(rs[1..])
  }

  /** The loop succeeds exactly when every entry expands, and then returns their concatenation. */
  lemma {:induction false} ConcatFlattens(rs: seq<Result<seq<string>, LoadError>>)
    ensures Concat(rs).Success? <==> AllSucceed(rs)
    ensures AllSucceed(rs) ==> Concat(rs).value == Flatten(rs)
  {
    if |rs| > 0 {
      ConcatFlattens(rs[1..]);
      assert AllSucceed(rs) <==> rs[0].Success? && AllSucceed(rs[1..]) by {
        if rs[0].Success? && AllSucceed(rs[1..]) {
          forall k | 1 <= k < |rs|
            ensures rs[k].Success?
          {
            assert rs[k] == rs[1..][k - 1];
          }
        }
      }
    }
  }

  /** Running the loop over two lists one after the other is running it over their concatenation. */
  lemma {:induction false} ConcatAppend(xs: seq<Result<seq<string>, LoadError>>, ys: seq<Result<seq<string>, LoadError>>)
    ensures Concat(xs + ys).Success? <==> Concat(xs).Success? && Concat(ys).Success?
    ensures Concat(xs + ys).Success? ==> Concat(xs + ys).value == Concat(xs).value + Concat(ys).value
  {
    if |xs| == 0 {
      assert xs + ys == ys;
    } else {
      ConcatAppend(xs[1..], ys);
      assert (xs + ys)[0] == xs[0];
      assert (xs + ys)[1..] == xs[1..] + ys;
      if xs[0].Success? && Concat(xs[1..] + ys).Success? {
        assert xs[0].value + (Concat(xs[1..]).value + Concat(ys).value)
            == (xs[0].value + Concat(xs[1..]).value) + Concat(ys).value;
      }
    }
  }

  lemma OutcomesAppend(xs: seq<Item>, ys: seq<Item>)
    ensures Outcomes(xs + ys) == Outcomes(xs) + Outcomes(ys)
  {
    var l := Outcomes(xs + ys);
    var r := Outcomes(xs) + Outcomes(ys);
    forall k | 0 <= k < |l|
      ensures l[k] == r[k]
    {
      if k < |xs| {
        assert (xs + ys)[k] == xs[k];
      } else {
        assert (xs + ys)[k] == ys[k - |xs|];
      }
    }
  }

  /** `rebuild_list` succeeds exactly when every entry expands, and then returns their names concatenated in input order. */
  lemma RebuildIsConcatenation(items: seq<Item>)
    ensures RebuildList(Some(items)).Success? <==> forall k :: 0 <= k < |items| ==> Expand(items[k]).Success?
    ensures RebuildList(Some(items)).Success? ==> RebuildList(Some(items)).value == Flatten(Outcomes(items))
  {
    ConcatFlattens(Outcomes(items));
  }

  /** Rebuilding two lists one after the other is rebuilding their concatenation. */
  lemma RebuildAppend(xs: seq<Item>, ys: seq<Item>)
    ensures RebuildList(Some(xs + ys)).Success? <==> RebuildList(Some(xs)).Success? && RebuildList(Some(ys)).Success?
    ensures RebuildList(Some(xs + ys)).Success? ==>
      RebuildList(Some(xs + ys)).value == RebuildList(Some(xs)).value + RebuildList(Some(ys)).value
  {
    OutcomesAppend(xs, ys);
    ConcatAppend(Outcomes(xs), Outcomes(ys));
  }

  // ---------------------------------------------------------------------------
  // One entry
  // ---------------------------------------------------------------------------

  lemma DigitsHaveNoDash(s: string)
    requires AllDigits(s)
    ensures '-' !in s
  {
    assert forall k :: 0 <= k < |s| ==> IsDigit(s[k]) && s[k] != '-';
  }

  /** What `strip` keeps lies inside the text, so a character absent from the text is absent from it. */
  lemma StripKeepsAbsence(s: string, c: char)
    requires c !in s
    ensures c !in Strip(s)
  {
    StripCharacterised(s);
    assert forall k :: 0 <= k < |Strip(s)| ==> Strip(s)[k] == s[Cut(s) + k];
  }

  /** Text without a dash stays one piece, and `int` reads the piece as it reads the text. */
  lemma SplitNoDash(t: string)
    requires '-' !in t
    ensures Split(Strip(t), '-') == [Strip(t)]
    ensures ParseInt(Strip(t)) == ParseInt(t)
  {
    StripKeepsAbsence(t, '-');
    SplitPiece(Strip(t), '-');
    StripIdempotent(t);
  }

  /** Two digit runs joined by a dash are left alone by `strip` and split back into the two runs. */
  lemma SplitDigitRuns(x: string, y: string)
    requires AllDigits(x) && AllDigits(y) && |y| > 0
    ensures Split(Strip(x + "-" + y), '-') == [x, y]
  {
    var s := x + "-" + y;
    assert s == Join([x, y], '-');
    assert s[0] == (if |x| > 0 then x[0] else '-');
    assert s[|s| - 1] == y[|y| - 1];
    assert !IsSpace(s[0]) && !IsSpace(s[|s| - 1]) by {
      assert IsDigit(y[|y| - 1]);
      if |x| > 0 {
        assert IsDigit(x[0]);
      }
    }
    StripNothing(s);
    DigitsHaveNoDash(x);
    DigitsHaveNoDash(y);
    SplitJoin([x, y], '-');
  }

  /** Two pieces that read as numbers bound a range, unless `xrange` overflows on them. */
  lemma PiecesRange(x: string, y: string, a: int, b: int)
    requires ParseInt(x) == Some(a) && ParseInt(y) == Some(b)
    ensures Pieces([x, y]) == if XrangeFits(a, b + 1) then Success(PadRange(a, b)) else Failure(OverflowError)
  {
  }

  /** An entry without a dash is one number: `"%03d" % int(token)`. */
  lemma ExpandSingle(t: string)
    requires '-' !in t
    ensures Expand(Text(t)) == if ParseInt(t).Some? then Success([Pad3(ParseInt(t).value)]) else Failure(ValueError)
  {
    SplitNoDash(t);
  }

  /**
   * The entry `"a-b"` expands to the names of `a`, `a+1`, ..., `b`, none when
   * `a > b`, and raises `OverflowError` exactly when `b + 1` exceeds a C `long`.
   */
  lemma ExpandRange(a: nat, b: nat)
    ensures Expand(Text(ShowNat(a) + "-" + ShowNat(b)))
         == if a <= LongMax && b + 1 <= LongMax then Success(PadRange(a, b)) else Failure(OverflowError)
  {
    var x, y := ShowNat(a), ShowNat(b);
    SplitDigitRuns(x, y);
    ParseShowInt(a);
    ParseShowInt(b);
    PiecesRange(x, y, a, b);
  }

  /** A negative number's text is its sign and its magnitude's digits, which split at the sign. */
  lemma SplitNegative(n: int)
    requires n < 0
    ensures Split(Strip(Show(Num(n))), '-') == ["", ShowNat(-n)]
  {
    SplitDigitRuns("", ShowNat(-n));
    assert "" + "-" + ShowNat(-n) == ShowInt(n);
  }

  /** A number is its own name; a negative number is split at its sign and fails. */
  lemma ExpandNumber(n: int)
    ensures Expand(Num(n)) == if n >= 0 then Success([Pad3(n)]) else Failure(ValueError)
  {
    if n >= 0 {
      DigitsHaveNoDash(ShowNat(n));
      SplitNoDash(ShowNat(n));
      ParseShowInt(n);
    } else {
      SplitNegative(n);
      assert ParseInt("") == None;
    }
  }

  // ---------------------------------------------------------------------------
  // Lists of test numbers
  // ---------------------------------------------------------------------------

  function Nums(ns: seq<int>): (r: seq<Item>)
    ensures |r| == |ns| && forall k :: 0 <= k < |ns| ==> r[k] == Num(ns[k])
  {
    if |ns| == 0 then [] else [Num(ns[0])] + Nums(ns[1..])
  }

  /** `["%03d" % n for n in ns]`. */
  function Names(ns: seq<int>): (r: seq<string>)
    ensures |r| == |ns| && forall k :: 0 <= k < |ns| ==> r[k] == Pad3(ns[k])
  {
    if |ns| == 0 then [] else [Pad3(ns[0])] + Names(ns[1..])
  }

  /** The loop over entries that each give one name collects those names. */
  lemma {:induction false} ConcatSingles(rs: seq<Result<seq<string>, LoadError>>, ns: seq<int>)
    requires |rs| == |ns| && forall k :: 0 <= k < |rs| ==> rs[k] == Success([Pad3(ns[k])])
    ensures Concat(rs) == Success(Names(ns))
  {
    if |rs| > 0 {
      ConcatSingles(rs[1..], ns[1..]);
    }
  }

  /**
   * A list of non-negative test numbers becomes their names, one each, in
   * order, and `int` reads every name back as its number.
   */
  lemma RebuildNumbers(ns: seq<int>)
    requires forall k :: 0 <= k < |ns| ==> ns[k] >= 0
    ensures RebuildList(Some(Nums(ns))) == Success(Names(ns))
    ensures forall k :: 0 <= k < |ns| ==> ParseInt(Names(ns)[k]) == Some(ns[k])
  {
    var rs := Outcomes(Nums(ns));
    forall k | 0 <= k < |ns|
      ensures rs[k] == Success([Pad3(ns[k])])
    {
      ExpandNumber(ns[k]);
    }
    ConcatSingles(rs, ns);
    forall k | 0 <= k < |ns|
      ensures ParseInt(Names(ns)[k]) == Some(ns[k])
    {
      ParsePad3(ns[k]);
    }
  }

  /** A list of numbers never overflows: a number is one piece, or a sign and its digits. */
  lemma NumbersOnlyValueError(ns: seq<int>)
    ensures RebuildList(Some(Nums(ns))).Failure? ==> RebuildList(Some(Nums(ns))).error == ValueError
  {
    var rs := Outcomes(Nums(ns));
    forall j | 0 <= j < |rs|
      ensures rs[j].Failure? ==> rs[j].error == ValueError
    {
      ExpandNumber(ns[j]);
    }
  }

  /** A list holding a negative number fails. */
  lemma RebuildNegative(ns: seq<int>, k: nat)
    requires k < |ns| && ns[k] < 0
    ensures RebuildList(Some(Nums(ns))) == Failure(ValueError)
  {
    ExpandNumber(ns[k]);
    RebuildIsConcatenation(Nums(ns));
    assert !Expand(Nums(ns)[k]).Success?;
    NumbersOnlyValueError(ns);
  }

  /** `int` reads every name of a range back as its number. */
  lemma PadRangeReadsBack(lo: int, hi: int, k: nat)
    requires k < |PadRange(lo, hi)|
    ensures ParseInt(PadRange(lo, hi)[k]) == Some(lo + k)
  {
    var n := lo + k;
    assert PadRange(lo, hi)[k] == Pad3(n);
    ParsePad3(n);
  }
}
