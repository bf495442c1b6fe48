/**
 * The Python string primitives `rebuild_list` and the simple-subtask reader
 * rely on, over byte strings: `str.strip()`, `str.split(sep)`, `int(s)`,
 * `str(n)` and `"%03d" % n`.
 */
module Decimal {
  import opened Wrappers

  // ---------------------------------------------------------------------------
  // strip
  // ---------------------------------------------------------------------------

  /** The ASCII whitespace `str.strip()` removes from a byte string. */
  predicate IsSpace(c: char) {
    c == ' ' || c == '\t' || c == '\n' || c == '\r' || c as int == 11 || c as int == 12
  }

  function StripLeft(s: string): (r: string)
    ensures |r| <= |s|
    ensures |r| > 0 ==> !IsSpace(r[0])
  {
    if |s| > 0 && IsSpace(s[0]) then StripLeft(s[1..]) else s
  }

  function StripRight(s: string): (r: string)
    ensures |r| <= |s|
    ensures |r| > 0 ==> !IsSpace(r[|r| - 1])
  {
    if |s| > 0 && IsSpace(s[|s| - 1]) then StripRight(s[..|s| - 1]) else s
  }

  /** `lstrip` keeps a suffix. */
  lemma {:induction false} StripLeftSuffix(s: string)
    ensures StripLeft(s) == s[|s| - |StripLeft(s)|..]
  {
    if |s| > 0 && IsSpace(s[0]) {
      StripLeftSuffix(s[1..]);
    }
  }

  /** `rstrip` keeps a prefix. */
  lemma {:induction false} StripRightPrefix(s: string)
    ensures StripRight(s) == s[..|StripRight(s)|]
  {
    if |s| > 0 && IsSpace(s[|s| - 1]) {
      StripRightPrefix(s[..|s| - 1]);
    }
  }

  /** Everything `StripLeft` cuts is whitespace. */
  lemma {:induction false} StripLeftCuts(s: string)
    ensures forall i :: 0 <= i < |s| - |StripLeft(s)| ==> IsSpace(s[i])
  {
    if |s| > 0 && IsSpace(s[0]) {
      StripLeftCuts(s[1..]);
      assert forall i :: 1 <= i < |s| - |StripLeft(s)| ==> s[i] == s[1..][i - 1];
    }
  }

  /** Everything `StripRight` cuts is whitespace. */
  lemma {:induction false} StripRightCuts(s: string)
    ensures forall i :: |StripRight(s)| <= i < |s| ==> IsSpace(s[i])
  {
    if |s| > 0 && IsSpace(s[|s| - 1]) {
      StripRightCuts(s[..|s| - 1]);
      assert forall i :: |StripRight(s)| <= i < |s| - 1 ==> s[i] == s[..|s| - 1][i];
    }
  }

  /** `s.strip()`. */
  function Strip(s: string): string {
    StripRight(StripLeft(s))
  }

  /** How much whitespace `strip` cuts from the front of `s`. */
  function Cut(s: string): nat {
    |s| - |StripLeft(s)|
  }

  /** What `strip` keeps is the infix of `s` after the cut, with non-whitespace ends. */
  lemma StripInfix(s: string)
    ensures Cut(s) + |Strip(s)| <= |s| && Strip(s) == s[Cut(s)..Cut(s) + |Strip(s)|]
    ensures |Strip(s)| > 0 ==> !IsSpace(Strip(s)[0]) && !IsSpace(Strip(s)[|Strip(s)| - 1])
  {
    var l := StripLeft(s);
    var r := StripRight(l);
    StripLeftSuffix(s);
    StripRightPrefix(l);
    assert l == s[Cut(s)..];
    assert r == l[..|r|];
    if |r| > 0 {
      assert r[0] == l[0];
    }
  }

  /** Everything `strip` cuts, on either side, is whitespace. */
  lemma StripCutsSpace(s: string)
    ensures forall k :: 0 <= k < Cut(s) ==> IsSpace(s[k])
    ensures forall k :: Cut(s) + |Strip(s)| <= k < |s| ==> IsSpace(s[k])
  {
    var l := StripLeft(s);
    var i := Cut(s);
    StripLeftCuts(s);
    StripRightCuts(l);
    StripLeftSuffix(s);
    assert l == s[i..];
    forall k | i + |Strip(s)| <= k < |s|
      ensures IsSpace(s[k])
    {
      assert s[k] == l[k - i];
    }
  }

  /**
   * `strip` removes exactly the whitespace at both ends: the result is the
   * infix of `s` after the cut, its ends are not whitespace, and everything
   * cut on either side is.
   */
  lemma StripCharacterised(s: string)
    ensures Cut(s) + |Strip(s)| <= |s| && Strip(s) == s[Cut(s)..Cut(s) + |Strip(s)|]
    ensures |Strip(s)| > 0 ==> !IsSpace(Strip(s)[0]) && !IsSpace(Strip(s)[|Strip(s)| - 1])
    ensures forall k :: 0 <= k < Cut(s) ==> IsSpace(s[k])
    ensures forall k :: Cut(s) + |Strip(s)| <= k < |s| ==> IsSpace(s[k])
  {
    StripInfix(s);
    StripCutsSpace(s);
  }

  /** A string whose ends are not whitespace is left as it is. */
  lemma StripNothing(s: string)
    requires |s| > 0 ==> !IsSpace(s[0]) && !IsSpace(s[|s| - 1])
    ensures Strip(s) == s
  {
    assert StripLeft(s) == s;
  }

  /** Stripping twice is stripping once. */
  lemma StripIdempotent(s: string)
    ensures Strip(Strip(s)) == Strip(s)
  {
    var r := Strip(s);
    StripRightPrefix(StripLeft(s));
    assert StripLeft(r) == r;
  }

  // ---------------------------------------------------------------------------
  // split and join
  // ---------------------------------------------------------------------------

  /** `s.split(sep)`: the pieces between occurrences of `sep`; never empty. */
  function Split(s: string, sep: char): (r: seq<string>)
    ensures |r| >= 1
    ensures forall k :: 0 <= k < |r| ==> sep !in r[k]
  {
    if |s| == 0 then [""]
    else
      var rest := Split(s[1..], sep);
      if s[0] == sep then [""] + rest
      else [[s[0]] + rest[0]] + rest[1..]
  }

  /** `sep.join(pieces)`. */
  function Join(pieces: seq<string>, sep: char): string
    requires |pieces| >= 1
  {
    if |pieces| == 1 then pieces[0] else pieces[0] + [sep] + Join(pieces[1..], sep)
  }

  lemma {:induction false} JoinSplit(s: string, sep: char)
    ensures Join(Split(s, sep), sep) == s
    decreases |s|
  {
    if |s| > 0 {
      var rest := Split(s[1..], sep);
      JoinSplit(s[1..], sep);
      if s[0] != sep {
        var r := Split(s, sep);
        assert r[1..] == rest[1..];
        if |rest| == 1 {
          assert Join(r, sep) == [s[0]] + rest[0];
        } else {
          assert Join(r, sep) == [s[0]] + rest[0] + [sep] + Join(rest[1..], sep);
          assert Join(rest, sep) == rest[0] + [sep] + Join(rest[1..], sep);
        }
        assert s == [s[0]] + s[1..];
      } else {
        assert s == [sep] + s[1..];
      }
    }
  }

  lemma {:induction false} SplitPiece(p: string, sep: char)
    requires sep !in p
    ensures Split(p, sep) == [p]
    decreases |p|
  {
    if |p| > 0 {
      SplitPiece(p[1..], sep);
      assert p == [p[0]] + p[1..];
    }
  }

  lemma {:induction false} SplitJoinCons(p: string, sep: char, rest: seq<string>)
    requires sep !in p && |rest| >= 1
    ensures Split(p + [sep] + Join(rest, sep), sep) == [p] + Split(Join(rest, sep), sep)
    decreases |p|
  {
    var tail := Join(rest, sep);
    if |p| == 0 {
      assert p + [sep] + tail == [sep] + tail;
      assert (p + [sep] + tail)[1..] == tail;
    } else {
      SplitJoinCons(p[1..], sep, rest);
      var s := p + [sep] + tail;
      assert s[0] == p[0] && s[1..] == p[1..] + [sep] + tail;
      assert Split(s[1..], sep) == [p[1..]] + Split(tail, sep);
      assert [p[0]] + p[1..] == p;
    }
  }

  /** Splitting what `join` produced gives back the pieces, provided none contains the separator. */
  lemma {:induction false} SplitJoin(pieces: seq<string>, sep: char)
    requires |pieces| >= 1 && forall k :: 0 <= k < |pieces| ==> sep !in pieces[k]
    ensures Split(Join(pieces, sep), sep) == pieces
    decreases |pieces|
  {
    if |pieces| == 1 {
      SplitPiece(pieces[0], sep);
    } else {
      SplitJoin(pieces[1..], sep);
      SplitJoinCons(pieces[0], sep, pieces[1..]);
      assert pieces == [pieces[0]] + pieces[1..];
    }
  }

  // ---------------------------------------------------------------------------
  // Decimal numerals
  // ---------------------------------------------------------------------------

  predicate IsDigit(c: char) {
    '0' <= c <= '9'
  }

  predicate AllDigits(s: string) {
    forall i :: 0 <= i < |s| ==> IsDigit(s[i])
  }

  /** The value of a run of decimal digits, most significant first. */
  function DigitsValue(s: string): nat
    requires AllDigits(s)
  {
    if |s| == 0 then 0 else 10 * DigitsValue(s[..|s| - 1]) + (s[|s| - 1] - '0') as nat
  }

  /** `str(n)` for `n >= 0`: no leading zeros except for zero itself. */
  function ShowNat(n: nat): (r: string)
    ensures |r| >= 1 && AllDigits(r)
    ensures |r| > 1 ==> r[0] != '0'
  {
    if n < 10 then ['0' + n as char] else ShowNat(n / 10) + ['0' + (n % 10) as char]
  }

  /** `str(n)`. */
  function ShowInt(n: int): string {
    if n < 0 then "-" + ShowNat(-n) else ShowNat(n)
  }

  function Zeros(k: nat): (r: string)
    ensures |r| == k && AllDigits(r)
    ensures forall i :: 0 <= i < k ==> r[i] == '0'
  {
    if k == 0 then "" else "0" + Zeros(k - 1)
  }

  /** Digits `d` with zeros in front up to `width` characters. */
  function ZeroFill(d: string, width: nat): (r: string)
    ensures |r| >= width && |r| >= |d|
  {
    if |d| < width then Zeros(width - |d|) + d else d
  }

  /** `"%03d" % n`: the sign, then the digits zero-filled to a total width of three. */
  function Pad3(n: int): (r: string)
    ensures |r| >= 3
  {
    if n >= 0 then ZeroFill(ShowNat(n), 3) else "-" + ZeroFill(ShowNat(-n), 2)
  }

  /** `int(s)`: surrounding whitespace, an optional sign (whitespace may follow it), then at least one digit. */
  function ParseInt(s: string): (r: Option<int>)
    ensures r.Some? ==> |Strip(s)| > 0
  {
    ParseToken(Strip(s))
  }

  /**
   * `int` on a token with the surrounding whitespace already stripped. After
   * the sign, `PyOS_strtoul` skips whitespace once more, so `int("- 5")` is -5.
   */
  function ParseToken(t: string): (r: Option<int>)
    ensures r.Some? ==> |t| > 0
  {
    if |t| > 0 && (t[0] == '-' || t[0] == '+') then
      var ds := StripLeft(t[1..]);
      if |ds| > 0 && AllDigits(ds) then
        var v: int := DigitsValue(ds);
        Some(if t[0] == '-' then -v else v)
      else None
    else if |t| > 0 && AllDigits(t) then Some(DigitsValue(t))
    else None
  }

  lemma {:induction false} ShowNatValue(n: nat)
    ensures DigitsValue(ShowNat(n)) == n
  {
    if n >= 10 {
      ShowNatValue(n / 10);
      var s := ShowNat(n);
      assert s[..|s| - 1] == ShowNat(n / 10);
    }
  }

  lemma {:induction false} LeadingZeros(k: nat, d: string)
    requires AllDigits(d)
    ensures AllDigits(Zeros(k) + d) && DigitsValue(Zeros(k) + d) == DigitsValue(d)
    decreases |d|
  {
    var s := Zeros(k) + d;
    if |d| == 0 {
      assert s == Zeros(k);
      ZerosValue(k);
    } else {
      LeadingZeros(k, d[..|d| - 1]);
      assert s[..|s| - 1] == Zeros(k) + d[..|d| - 1];
      assert d[..|d| - 1] + [d[|d| - 1]] == d;
    }
  }

  lemma {:induction false} ZerosValue(k: nat)
    ensures DigitsValue(Zeros(k)) == 0
  {
    if k > 0 {
      ZerosValue(k - 1);
      var z := Zeros(k);
      assert z[..k - 1] == Zeros(k - 1) by {
        assert forall i :: 0 <= i < k - 1 ==> z[i] == '0';
      }
    }
  }

  /** A digit run is read as its value. */
  lemma ParseDigits(ds: string, v: int)
    requires |ds| > 0 && AllDigits(ds) && DigitsValue(ds) == v
    ensures ParseInt(ds) == Some(v)
  {
    assert IsDigit(ds[0]) && IsDigit(ds[|ds| - 1]);
    StripNothing(ds);
  }

  /** A minus sign and a digit run is read as the negated value. */
  lemma ParseNegative(ds: string, v: int)
    requires |ds| > 0 && AllDigits(ds) && DigitsValue(ds) == v
    ensures ParseInt("-" + ds) == Some(-v)
  {
    var m := "-" + ds;
    assert IsDigit(ds[|ds| - 1]) && m[|m| - 1] == ds[|ds| - 1];
    StripNothing(m);
    assert m[1..] == ds;
    assert IsDigit(ds[0]) && StripLeft(ds) == ds;
  }

  /** `lstrip` passes over a leading run of whitespace. */
  lemma {:induction false} StripLeftSpaces(ws: string, s: string)
    requires forall i :: 0 <= i < |ws| ==> IsSpace(ws[i])
    ensures StripLeft(ws + s) == StripLeft(s)
  {
    if |ws| > 0 {
      assert (ws + s)[1..] == ws[1..] + s;
      StripLeftSpaces(ws[1..], s);
    } else {
      assert ws + s == s;
    }
  }

  /** Whitespace between the sign and the digits is skipped, as `PyOS_strtoul` does. */
  lemma ParseSpacedSign(sign: char, ws: string, ds: string, v: int)
    requires sign == '-' || sign == '+'
    requires forall i :: 0 <= i < |ws| ==> IsSpace(ws[i])
    requires |ds| > 0 && AllDigits(ds) && DigitsValue(ds) == v
    ensures ParseInt([sign] + (ws + ds)) == Some(if sign == '-' then -v else v)
  {
    SpacedDigits(ws, ds);
    ParseSigned(sign, ws + ds, ds, v);
  }

  /** Whitespace, then a digit run: `lstrip` leaves the digits, and the text ends in a digit. */
  lemma SpacedDigits(ws: string, ds: string)
    requires forall i :: 0 <= i < |ws| ==> IsSpace(ws[i])
    requires |ds| > 0 && AllDigits(ds)
    ensures StripLeft(ws + ds) == ds && IsDigit((ws + ds)[|ws + ds| - 1])
  {
    StripLeftSpaces(ws, ds);
    assert IsDigit(ds[0]);
    assert (ws + ds)[|ws + ds| - 1] == ds[|ds| - 1];
  }

  /** A sign, then a tail ending in a digit that `lstrip` turns into a digit run. */
  lemma ParseSigned(sign: char, rest: string, ds: string, v: int)
    requires sign == '-' || sign == '+'
    requires |rest| > 0 && IsDigit(rest[|rest| - 1])
    requires StripLeft(rest) == ds && |ds| > 0 && AllDigits(ds) && DigitsValue(ds) == v
    ensures ParseInt([sign] + rest) == Some(if sign == '-' then -v else v)
  {
    StripSigned(sign, rest);
    SignedToken(sign, rest, ds, v);
  }

  /** A sign and a tail ending in a digit have nothing to strip. */
  lemma StripSigned(sign: char, rest: string)
    requires sign == '-' || sign == '+'
    requires |rest| > 0 && IsDigit(rest[|rest| - 1])
    ensures Strip([sign] + rest) == [sign] + rest
  {
    var m := [sign] + rest;
    assert m[|m| - 1] == rest[|rest| - 1];
    StripNothing(m);
  }

  /** A sign, then a tail that `lstrip` turns into a digit run. */
  lemma SignedToken(sign: char, rest: string, ds: string, v: int)
    requires sign == '-' || sign == '+'
    requires StripLeft(rest) == ds && |ds| > 0 && AllDigits(ds) && DigitsValue(ds) == v
    ensures ParseToken([sign] + rest) == Some(if sign == '-' then -v else v)
  {
    var m := [sign] + rest;
    assert m[0] == sign && m[1..] == rest;
  }

  /** Zero-filling keeps a digit run's value. */
  lemma ZeroFillValue(d: string, width: nat, v: int)
    requires |d| > 0 && AllDigits(d) && DigitsValue(d) == v
    ensures var r := ZeroFill(d, width); |r| > 0 && AllDigits(r) && DigitsValue(r) == v
  {
    if |d| < width {
      LeadingZeros(width - |d|, d);
    }
  }

  /** `"%03d"` of a non-negative number: zeros, then its digits. */
  lemma ParsePad3Natural(n: int)
    requires n >= 0
    ensures ParseInt(Pad3(n)) == Some(n)
  {
    ShowNatValue(n);
    ZeroFillValue(ShowNat(n), 3, n);
    ParseDigits(ZeroFill(ShowNat(n), 3), n);
  }

  /** `"%03d"` of a negative number: a minus sign, zeros, then the digits of its magnitude. */
  lemma ParsePad3Negative(n: int)
    requires n < 0
    ensures ParseInt(Pad3(n)) == Some(n)
  {
    var m: nat := -n;
    var body := ZeroFill(ShowNat(m), 2);
    assert Pad3(n) == "-" + body;
    ShowNatValue(m);
    ZeroFillValue(ShowNat(m), 2, m);
    ParseNegative(body, m);
  }

  /** `int` reads back what `"%03d"` writes, for every integer. */
  lemma ParsePad3(n: int)
    ensures ParseInt(Pad3(n)) == Some(n)
  {
    if n >= 0 {
      ParsePad3Natural(n);
    } else {
      ParsePad3Negative(n);
    }
  }

  /** `int` reads back what `str` writes, for every integer. */
  lemma ParseShowInt(n: int)
    ensures ParseInt(ShowInt(n)) == Some(n)
  {
    if n >= 0 {
      ParseShowNatural(n);
    } else {
      ParseShowNegative(n);
    }
  }

  lemma ParseShowNatural(n: int)
    requires n >= 0
    ensures ParseInt(ShowInt(n)) == Some(n)
  {
    assert ShowInt(n) == ShowNat(n);
    ShowNatValue(n);
    ParseDigits(ShowNat(n), n);
  }

  lemma ParseShowNegative(n: int)
    requires n < 0
    ensures ParseInt(ShowInt(n)) == Some(n)
  {
    var m: nat := -n;
    assert ShowInt(n) == "-" + ShowNat(m);
    ShowNatValue(m);
    ParseNegative(ShowNat(m), m);
  }

}
