/**
 * `parseMove` and `parseBoardLine` (src/main.cpp:33-58): every comma becomes a
 * space, then integers are extracted with `std::istringstream >> int`.
 * Extraction skips whitespace, accepts one optional sign and then needs at
 * least one decimal digit; it stops at the first character that is not a
 * digit, and a value outside the 32-bit range sets the stream's failbit.
 */
module MoveParser {
  import opened Wrappers
  import opened Text
  import opened Numerals

  /** `std::replace(s.begin(), s.end(), ',', ' ')`: no comma is left and nothing else changes. */
  function Normalize(s: string): (r: string)
    ensures |r| == |s|
    ensures forall k :: 0 <= k < |s| ==> r[k] != ','
    ensures forall k :: 0 <= k < |s| && s[k] != ',' ==> r[k] == s[k]
    ensures forall k :: 0 <= k < |s| && s[k] == ',' ==> r[k] == ' '
  {
    seq(|s|, k requires 0 <= k < |s| => if s[k] == ',' then ' ' else s[k])
  }

  /** The number of leading decimal digits of `s`. */
  function DigitCount(s: string): (n: nat)
    ensures n <= |s|
    ensures forall k :: 0 <= k < n ==> IsDigit(s[k])
    ensures n < |s| ==> !IsDigit(s[n])
  {
    if s != [] && IsDigit(s[0]) then 1 + DigitCount(s[1..]) else 0
  }

  /**
   * The unsigned digit run at the front of `s`: its value and the text after
   * it, or None when `s` does not start with a digit.
   */
  function ReadDigits(s: string): (r: Option<(int, string)>)
    ensures r.Some? ==> r.value.0 >= 0 && |r.value.1| < |s|
    ensures r.Some? ==> r.value.1 == [] || !IsDigit(r.value.1[0])
  {
    var n := DigitCount(s);
    if n == 0 then None else Some((DigitsValue(s[..n]), s[n..]))
  }

  /**
   * The sign and digits of one `>> int` extraction, once whitespace is
   * skipped: the value and the unread text, or None when no digit follows
   * the optional sign or the value does not fit in 32 bits.
   */
  function ReadSigned(s: string): (r: Option<(int, string)>)
    ensures r.Some? ==> IsInt32(r.value.0) && |r.value.1| < |s|
    ensures r.Some? ==> r.value.1 == [] || !IsDigit(r.value.1[0])
  {
    var signed := s != [] && (s[0] == '-' || s[0] == '+');
    match ReadDigits(if signed then s[1..] else s)
    case None => None
    case Some((magnitude, rest)) =>
      var v := if signed && s[0] == '-' then -magnitude else magnitude;
      if IsInt32(v) then Some((v, rest)) else None
  }

  /**
   * One `>> int` extraction: leading whitespace is skipped, then a signed
   * numeral is read. On success the unread rest of the text is returned; it
   * is a proper suffix of `s` and does not start with a digit.
   */
  function ReadInt(s: string): (r: Option<(int, string)>)
    ensures r.Some? ==> IsInt32(r.value.0) && |r.value.1| < |s|
    ensures r.Some? ==> r.value.1 == [] || !IsDigit(r.value.1[0])
  {
    ReadSigned(s[SkipSpaces(s, 0)..])
  }

  /** `parseMove`: two integers, separated by whitespace or commas; anything after them is not read. */
  function ParseMove(text: string): (r: Option<(int, int)>)
    ensures r.Some? ==> IsInt32(r.value.0) && IsInt32(r.value.1)
  {
    match ReadInt(Normalize(text))
    case None => None
    case Some((x, rest)) =>
      match ReadInt(rest)
      case None => None
      case Some((y, _)) => Some((x, y))
  }

  /** `parseBoardLine`: like `parseMove` but three integers x, y and the player code. */
  function ParseBoardLine(line: string): (r: Option<(int, int, int)>)
    ensures r.Some? ==> IsInt32(r.value.0) && IsInt32(r.value.1) && IsInt32(r.value.2)
  {
    match ReadInt(Normalize(line))
    case None => None
    case Some((x, rest)) =>
      match ReadInt(rest)
      case None => None
      case Some((y, rest')) =>
        match ReadInt(rest')
        case None => None
        case Some((player, _)) => Some((x, y, player))
  }

  /** A board line's first two integers are what `parseMove` reads from the same text. */
  lemma BoardLineStartsWithMove(line: string)
    ensures ParseBoardLine(line).Some? ==>
              ParseMove(line) == Some((ParseBoardLine(line).value.0, ParseBoardLine(line).value.1))
    ensures ParseMove(line).None? ==> ParseBoardLine(line).None?
  {
  }

  predicate IsSeparator(c: char)
  {
    c == ',' || c == ' '
  }

  /** Commas and spaces are interchangeable: "x y" and "x,y" parse alike, wherever they differ. */
  lemma CommaActsAsSpace(t1: string, t2: string)
    requires |t1| == |t2|
    requires forall k :: 0 <= k < |t1| ==> t1[k] == t2[k] || (IsSeparator(t1[k]) && IsSeparator(t2[k]))
    ensures ParseMove(t1) == ParseMove(t2)
    ensures ParseBoardLine(t1) == ParseBoardLine(t2)
  {
    assert Normalize(t1) == Normalize(t2);
  }

  /** Text that cannot continue a digit run. */
  predicate NoDigitFirst(t: string)
  {
    t == [] || !IsDigit(t[0])
  }

  lemma {:induction false} DigitCountIgnoresRest(s: string, t: string)
    requires DigitCount(s) < |s| || NoDigitFirst(t)
    ensures DigitCount(s + t) == DigitCount(s)
  {
    if s == [] {
    } else if IsDigit(s[0]) {
      assert (s + t)[1..] == s[1..] + t;
      DigitCountIgnoresRest(s[1..], t);
    } else {
      assert (s + t)[0] == s[0];
    }
  }

  lemma ReadDigitsIgnoresRest(s: string, t: string)
    requires ReadDigits(s).Some? && NoDigitFirst(t)
    ensures ReadDigits(s + t) == Some((ReadDigits(s).value.0, ReadDigits(s).value.1 + t))
  {
    DigitCountIgnoresRest(s, t);
    var n := DigitCount(s);
    assert (s + t)[..n] == s[..n];
    assert (s + t)[n..] == s[n..] + t;
  }

  lemma ReadSignedIgnoresRest(s: string, t: string)
    requires ReadSigned(s).Some? && NoDigitFirst(t)
    ensures ReadSigned(s + t) == Some((ReadSigned(s).value.0, ReadSigned(s).value.1 + t))
  {
    assert s != [];
    var signed := s[0] == '-' || s[0] == '+';
    var digits := if signed then s[1..] else s;
    var m, rest := ReadDigits(digits).value.0, ReadDigits(digits).value.1;
    ConcatFront(s, t);
    ReadDigitsIgnoresRest(digits, t);
    SignedSame(s + t, s, digits + t, digits, m, rest, t);
  }

  lemma ConcatFront(s: string, t: string)
    requires s != []
    ensures (s + t)[0] == s[0]
    ensures (s + t)[1..] == s[1..] + t
  {
  }

  /** Two texts with the same sign whose digit runs read alike (up to the same suffix) read alike as signed numerals. */
  lemma SignedSame(u: string, s: string, du: string, ds: string, m: int, rest: string, t: string)
    requires s != [] && u != [] && u[0] == s[0]
    requires ds == (if s[0] == '-' || s[0] == '+' then s[1..] else s)
    requires du == (if u[0] == '-' || u[0] == '+' then u[1..] else u)
    requires ReadDigits(ds) == Some((m, rest)) && ReadDigits(du) == Some((m, rest + t))
    ensures ReadSigned(u).Some? <==> ReadSigned(s).Some?
    ensures ReadSigned(s).Some? ==> ReadSigned(u) == Some((ReadSigned(s).value.0, ReadSigned(s).value.1 + t))
  {
  }

  lemma SkipSpacesIgnoresRest(s: string, t: string)
    requires SkipSpaces(s, 0) < |s|
    ensures SkipSpaces(s + t, 0) == SkipSpaces(s, 0)
    ensures (s + t)[SkipSpaces(s, 0)..] == s[SkipSpaces(s, 0)..] + t
  {
    var j := SkipSpaces(s, 0);
    assert forall m :: 0 <= m <= j ==> (s + t)[m] == s[m];
    assert (s + t)[j..] == s[j..] + t;
  }

  /** Reading from `s + t` gives the same integer as reading from `s` when `t` cannot continue its digits. */
  lemma ReadIntIgnoresRest(s: string, t: string)
    requires ReadInt(s).Some? && NoDigitFirst(t)
    ensures ReadInt(s + t) == Some((ReadInt(s).value.0, ReadInt(s).value.1 + t))
  {
    SkipSpacesIgnoresRest(s, t);
    ReadSignedIgnoresRest(s[SkipSpaces(s, 0)..], t);
  }

  lemma NormalizeConcat(s: string, t: string)
    ensures Normalize(s + t) == Normalize(s) + Normalize(t)
    ensures NoDigitFirst(t) ==> NoDigitFirst(Normalize(t))
  {
    assert Normalize(s + t) == Normalize(s) + Normalize(t);
  }

  lemma ParseMoveSteps(text: string, x: int, rest: string, y: int, rest': string)
    requires ReadInt(Normalize(text)) == Some((x, rest)) && ReadInt(rest) == Some((y, rest'))
    ensures ParseMove(text) == Some((x, y))
  {
  }

  /** Whatever follows the second integer is ignored, provided it does not extend that integer's digits. */
  lemma ParseMoveIgnoresRest(s: string, t: string)
    requires ParseMove(s).Some? && NoDigitFirst(t)
    ensures ParseMove(s + t) == ParseMove(s)
  {
    var n, nt := Normalize(s), Normalize(t);
    NormalizeConcat(s, t);
    var x, rest := ReadInt(n).value.0, ReadInt(n).value.1;
    var y, rest' := ReadInt(rest).value.0, ReadInt(rest).value.1;
    ReadIntIgnoresRest(n, nt);
    ReadIntIgnoresRest(rest, nt);
    ParseMoveSteps(s, x, rest, y, rest');
    ParseMoveSteps(s + t, x, rest + nt, y, rest' + nt);
  }

  /** A digit run followed by text that cannot continue it reads as its value. */
  lemma {:induction false} ReadDigitsOfRun(ds: string, t: string)
    requires |ds| >= 1 && AllDigits(ds) && NoDigitFirst(t)
    ensures ReadDigits(ds + t) == Some((DigitsValue(ds) as int, t))
  {
    DigitCountOfRun(ds, t);
    assert (ds + t)[..|ds|] == ds;
    assert (ds + t)[|ds|..] == t;
  }

  lemma {:induction false} DigitCountOfRun(ds: string, t: string)
    requires AllDigits(ds) && NoDigitFirst(t)
    ensures DigitCount(ds + t) == |ds|
  {
    if ds == [] {
      assert ds + t == t;
    } else {
      assert (ds + t)[0] == ds[0];
      assert (ds + t)[1..] == ds[1..] + t;
      DigitCountOfRun(ds[1..], t);
    }
  }

  /** After a minus sign, the value read is the digit run's value negated. */
  lemma ReadSignedMinus(s: string, m: int, rest: string)
    requires s != [] && s[0] == '-'
    requires ReadDigits(s[1..]) == Some((m, rest)) && IsInt32(-m)
    ensures ReadSigned(s) == Some((-m, rest))
  {
  }

  /** Without a sign, the value read is the digit run's value. */
  lemma ReadSignedUnsigned(s: string, m: int, rest: string)
    requires s != [] && s[0] != '-' && s[0] != '+'
    requires ReadDigits(s) == Some((m, rest)) && IsInt32(m)
    ensures ReadSigned(s) == Some((m, rest))
  {
  }

  lemma NegativeNumeralSplit(x: int, t: string)
    requires x < 0
    ensures (IntToString(x) + t)[0] == '-'
    ensures (IntToString(x) + t)[1..] == NatToString(-x) + t
  {
    assert IntToString(x) + t == "-" + NatToString(-x) + t;
  }

  lemma NonNegativeNumeralFirst(x: int, t: string)
    requires x >= 0
    ensures IntToString(x) + t == NatToString(x) + t
    ensures IsDigit((IntToString(x) + t)[0])
  {
    assert (NatToString(x) + t)[0] == NatToString(x)[0];
  }

  lemma ReadSignedOfNegative(x: int, t: string)
    requires IsInt32(x) && x < 0 && NoDigitFirst(t)
    ensures ReadSigned(IntToString(x) + t) == Some((x, t))
  {
    NegativeNumeralSplit(x, t);
    DigitsValueOfNatToString(-x);
    ReadDigitsOfRun(NatToString(-x), t);
    ReadSignedMinus(IntToString(x) + t, -x, t);
  }

  lemma ReadSignedOfNonNegative(x: int, t: string)
    requires IsInt32(x) && x >= 0 && NoDigitFirst(t)
    ensures ReadSigned(IntToString(x) + t) == Some((x, t))
  {
    NonNegativeNumeralFirst(x, t);
    DigitsValueOfNatToString(x);
    ReadDigitsOfRun(NatToString(x), t);
    ReadSignedUnsigned(IntToString(x) + t, x, t);
  }

  /** The sign and digits of a numeral written by `std::to_string` read back as the number it was written from. */
  lemma ReadSignedOfNumeral(x: int, t: string)
    requires IsInt32(x) && NoDigitFirst(t)
    ensures ReadSigned(IntToString(x) + t) == Some((x, t))
  {
    if x < 0 {
      ReadSignedOfNegative(x, t);
    } else {
      ReadSignedOfNonNegative(x, t);
    }
  }

  /** `>> int` reads back a numeral written by `std::to_string`, after any whitespace. */
  lemma ReadIntOfNumeral(pad: string, x: int, t: string)
    requires AllSpace(pad) && IsInt32(x) && NoDigitFirst(t)
    ensures ReadInt(pad + IntToString(x) + t) == Some((x, t))
  {
    var num := IntToString(x);
    var s := pad + (num + t);
    assert s == pad + num + t;
    assert forall m :: 0 <= m < |pad| ==> s[m] == pad[m];
    assert s[|pad|] == num[0];
    assert SkipSpaces(s, 0) == |pad|;
    assert s[|pad|..] == num + t;
    ReadSignedOfNumeral(x, t);
  }

  /** Replacing the comma of "x,y" leaves the numerals and puts a space between them. */
  lemma NormalizePair(a: string, b: string)
    requires ',' !in a && ',' !in b
    ensures Normalize(a + "," + b) == a + (" " + b)
  {
    var s, r := a + "," + b, a + (" " + b);
    assert forall k :: 0 <= k < |a| ==> s[k] == a[k] && r[k] == a[k];
    assert forall k :: |a| < k < |s| ==> s[k] == b[k - |a| - 1] && r[k] == b[k - |a| - 1];
  }

  /** A numeral written by `std::to_string` holds no comma. */
  lemma NumeralHasNoComma(x: int)
    ensures ',' !in IntToString(x)
  {
    IntToStringChars(x);
  }

  /** A space in front of a numeral is not a digit. */
  lemma SpacedNoDigitFirst(b: string)
    ensures NoDigitFirst(" " + b)
  {
  }

  /** A numeral written by `std::to_string` with nothing in front reads back. */
  lemma ReadIntOfBareNumeral(x: int, t: string)
    requires IsInt32(x) && NoDigitFirst(t)
    ensures ReadInt(IntToString(x) + t) == Some((x, t))
  {
    var s := IntToString(x) + t;
    assert s[0] == IntToString(x)[0];
    IntToStringChars(x);
    assert SkipSpaces(s, 0) == 0;
    assert s[0..] == s;
    ReadSignedOfNumeral(x, t);
  }

  lemma PairFirst(x: int, y: int)
    requires IsInt32(x)
    ensures ReadInt(Normalize(IntToString(x) + "," + IntToString(y))) == Some((x, " " + IntToString(y)))
  {
    NumeralHasNoComma(x);
    NumeralHasNoComma(y);
    NormalizePair(IntToString(x), IntToString(y));
    SpacedNoDigitFirst(IntToString(y));
    ReadIntOfBareNumeral(x, " " + IntToString(y));
  }

  lemma PairSecond(y: int)
    requires IsInt32(y)
    ensures ReadInt(" " + IntToString(y)) == Some((y, []))
  {
    ReadIntOfNumeral(" ", y, []);
    assert " " + IntToString(y) + [] == " " + IntToString(y);
  }

  /** The protocol's coordinate text "x,y" parses back to (x, y). */
  lemma ParseMoveOfPair(x: int, y: int)
    requires IsInt32(x) && IsInt32(y)
    ensures ParseMove(IntToString(x) + "," + IntToString(y)) == Some((x, y))
  {
    PairFirst(x, y);
    PairSecond(y);
    ParseMoveSteps(IntToString(x) + "," + IntToString(y), x, " " + IntToString(y), y, []);
  }
}
