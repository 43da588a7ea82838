/** The texts by which finite doubles are known: one for each sign, exponent and fraction. */
module FloatTexts {
  import opened StructuralCodec
  import opened Semantics
  import W = WhereEval
  import Order = StringOrder

  // ---------- decimal numbers ----------

  ghost predicate IsDecimal(s: string) {
    s != "" && (forall c :: c in s ==> W.IsDigit(c)) && (s[0] == '0' ==> s == "0")
  }

  ghost function Power(n: nat): nat {
    if n == 0 then 1 else 10 * Power(n - 1)
  }

  lemma {:induction false} ValueBelow(s: string)
    requires forall c :: c in s ==> W.IsDigit(c)
    ensures W.DigitsValue(s) < Power(|s|)
  {
    if s != "" {
      ValueBelow(s[..|s| - 1]);
      assert W.IsDigit(s[|s| - 1]);
    }
  }

  lemma {:induction false} ValueAbove(s: string)
    requires s != "" && (forall c :: c in s ==> W.IsDigit(c)) && s[0] != '0'
    ensures W.DigitsValue(s) >= Power(|s| - 1) >= 1
  {
    assert W.IsDigit(s[0]);
    if |s| == 1 {
      assert s[..0] == "" && W.DigitsValue(s[..0]) == 0;
      assert Power(0) == 1;
    } else {
      ValueAbove(s[..|s| - 1]);
      assert W.IsDigit(s[|s| - 1]);
      assert Power(|s| - 1) == 10 * Power(|s| - 2);
    }
  }

  lemma {:induction false} PowerGrows(a: nat, b: nat)
    requires a <= b
    ensures Power(a) <= Power(b)
  {
    if a < b {
      PowerGrows(a, b - 1);
    }
  }

  lemma DigitIsWritten(c: char)
    requires W.IsDigit(c)
    ensures DigitOf(c as int - '0' as int) == c
  {
  }

  lemma NextIsWritten(before: string, last: char, n: nat)
    requires n > 0 && DecimalNat(n) == before && W.IsDigit(last)
    ensures DecimalNat(10 * n + (last as int - '0' as int)) == before + [last]
  {
    var d := last as int - '0' as int;
    DigitIsWritten(last);
    assert (10 * n + d) / 10 == n && (10 * n + d) % 10 == d;
  }

  lemma OneDigitIsWritten(c: char)
    requires W.IsDigit(c)
    ensures DecimalNat(W.DigitsValue([c])) == [c]
  {
    DigitIsWritten(c);
    assert [c][..0] == "" && W.DigitsValue([c][..0]) == 0;
  }

  lemma ValueSnoc(before: string, last: char, s: string)
    requires (forall c :: c in before ==> W.IsDigit(c)) && W.IsDigit(last) && s == before + [last]
    ensures forall c :: c in s ==> W.IsDigit(c)
    ensures W.DigitsValue(s) == 10 * W.DigitsValue(before) + (last as int - '0' as int)
  {
    assert s[..|s| - 1] == before;
  }

  lemma {:induction false} DecimalIsWritten(s: string, v: nat)
    requires IsDecimal(s) && W.DigitsValue(s) == v
    ensures DecimalNat(v) == s
  {
    var before, last := s[..|s| - 1], s[|s| - 1];
    assert W.IsDigit(last);
    assert s == before + [last];
    if |s| == 1 {
      OneDigitIsWritten(last);
    } else {
      FrontIsDecimal(s, before);
      ValueSnoc(before, last, s);
      DecimalIsWritten(before, W.DigitsValue(before));
      NextIsWritten(before, last, W.DigitsValue(before));
    }
  }

  lemma FrontIsDecimal(s: string, before: string)
    requires IsDecimal(s) && |s| > 1 && before == s[..|s| - 1]
    ensures IsDecimal(before) && W.DigitsValue(before) > 0
  {
    assert before[0] == s[0] && forall c :: c in before ==> c in s;
    ValueAbove(before);
  }

  lemma {:induction false} WrittenIsDecimal(n: nat)
    ensures IsDecimal(DecimalNat(n)) && W.DigitsValue(DecimalNat(n)) == n
    ensures n > 0 ==> DecimalNat(n)[0] != '0'
  {
    DecimalNatReads(n);
    if n >= 10 {
      WrittenIsDecimal(n / 10);
    }
  }

  lemma {:induction false} LessSnoc(a: string, b: string, x: char, y: char)
    requires |a| == |b|
    ensures Order.Less(a + [x], b + [y]) <==> Order.Less(a, b) || (a == b && x < y)
  {
    var longA, longB := a + [x], b + [y];
    if a == "" {
      assert longA[1..] == "" && longB[1..] == "";
    } else {
      LessSnoc(a[1..], b[1..], x, y);
      assert longA[1..] == a[1..] + [x] && longB[1..] == b[1..] + [y];
      assert a == [a[0]] + a[1..] && b == [b[0]] + b[1..];
    }
  }

  lemma {:induction false} LessIsSmaller(a: string, b: string)
    requires |a| == |b| && (forall c :: c in a ==> W.IsDigit(c)) && forall c :: c in b ==> W.IsDigit(c)
    ensures Order.Less(a, b) <==> W.DigitsValue(a) < W.DigitsValue(b)
    ensures W.DigitsValue(a) == W.DigitsValue(b) ==> a == b
  {
    if a != "" {
      var n := |a| - 1;
      LessIsSmaller(a[..n], b[..n]);
      LessSnoc(a[..n], b[..n], a[n], b[n]);
      assert a == a[..n] + [a[n]] && b == b[..n] + [b[n]];
      assert W.IsDigit(a[n]) && W.IsDigit(b[n]);
    }
  }

  lemma DecimalOrder(s: string, most: string)
    requires IsDecimal(s) && IsDecimal(most)
    ensures W.DigitsValue(s) <= W.DigitsValue(most) <==> |s| < |most| || (|s| == |most| && !Order.Less(most, s))
  {
    if |s| == |most| {
      LessIsSmaller(most, s);
    } else if |s| < |most| {
      ValueBelow(s);
      ValueAbove(most);
      PowerGrows(|s|, |most| - 1);
    } else {
      ValueBelow(most);
      ValueAbove(s);
      PowerGrows(|most|, |s| - 1);
    }
  }

  /** An exponent is the decimal text of a number up to the given one. */
  lemma UpToMeans(s: string, most: nat)
    ensures DecimalUpTo(s, DecimalNat(most)) <==> exists n: nat :: n <= most && s == DecimalNat(n)
  {
    WrittenIsDecimal(most);
    if IsDecimal(s) {
      DecimalOrder(s, DecimalNat(most));
      DecimalIsWritten(s, W.DigitsValue(s));
    }
    assert DecimalUpTo(s, DecimalNat(most)) ==> IsDecimal(s);
    if n: nat :| n <= most && s == DecimalNat(n) {
      WrittenIsDecimal(n);
      assert forall c :: c in s ==> '0' <= c <= '9';
    }
  }

  // ---------- doubles ----------

  // A positive double: its exponent, and the thirteen hexadecimal digits of its fraction.
  datatype Double = Zero | Subnormal(fraction: string) | Normal(exponent: int, fraction: string)

  ghost predicate IsFraction(s: string) {
    |s| == 13 && forall c :: c in s ==> c in "0123456789abcdef"
  }

  ghost predicate IsDouble(d: Double) {
    match d
    case Zero => true
    case Subnormal(fraction) => IsFraction(fraction) && exists c :: c in fraction && c != '0'
    case Normal(exponent, fraction) => IsFraction(fraction) && -1022 <= exponent <= 1023
  }

  ghost function HexText(d: Double): string {
    match d
    case Zero => "0x0.0p+0"
    case Subnormal(fraction) => "0x0." + fraction + "p-1022"
    case Normal(exponent, fraction) => "0x1." + fraction + "p" + Signed(exponent)
  }

  ghost function Absolute(exponent: int): nat {
    if exponent < 0 then -exponent else exponent
  }

  ghost function Signed(exponent: int): string {
    [if exponent < 0 then '-' else '+'] + DecimalNat(Absolute(exponent))
  }

  lemma HexDigitIs(c: char)
    ensures HexDigit(c) <==> c in "0123456789abcdef"
  {
    var digits := "0123456789abcdef";
    if HexDigit(c) {
      assert digits[if c <= '9' then c as int - '0' as int else c as int - 'a' as int + 10] == c;
    }
  }

  lemma {:induction false} ZerosOnly(s: string, zeros: string)
    requires |s| == |zeros| && forall c :: c in zeros ==> c == '0'
    ensures s == zeros <==> forall c :: c in s ==> c == '0'
  {
    if forall c :: c in s ==> c == '0' {
      forall i | 0 <= i < |s|
        ensures s[i] == zeros[i]
      {
        assert s[i] in s && zeros[i] in zeros;
      }
    }
  }

  lemma FractionMeans(s: string)
    requires |s| == 13
    ensures IsFraction(s) <==> forall c :: c in s ==> HexDigit(c)
    ensures s != "0000000000000" <==> exists c :: c in s && c != '0'
  {
    forall c
      ensures HexDigit(c) <==> c in "0123456789abcdef"
    {
      HexDigitIs(c);
    }
    ZerosOnly(s, "0000000000000");
  }

  lemma Slices(s: string, head: string, fraction: string, tail: string)
    requires |head| == 4 && |fraction| == 13 && s == head + fraction + tail
    ensures s[..4] == head && s[4..17] == fraction && s[17..] == tail
  {
  }

  lemma Joined(s: string)
    requires |s| >= 17
    ensures s == s[..4] + s[4..17] + s[17..]
  {
  }

  ghost predicate SubnormalParts(s: string) {
    && |s| == 23 && s[..4] == "0x0." && s[17..] == "p-1022"
    && (forall c :: c in s[4..17] ==> HexDigit(c)) && s[4..17] != "0000000000000"
  }

  lemma SubnormalWritten(s: string, fraction: string)
    requires IsDouble(Subnormal(fraction)) && s == HexText(Subnormal(fraction))
    ensures SubnormalParts(s)
  {
    Slices(s, "0x0.", fraction, "p-1022");
    FractionMeans(fraction);
  }

  lemma SubnormalRead(s: string)
    requires SubnormalParts(s)
    ensures IsDouble(Subnormal(s[4..17])) && s == HexText(Subnormal(s[4..17]))
  {
    Joined(s);
    FractionMeans(s[4..17]);
  }

  ghost predicate NormalParts(s: string) {
    && |s| >= 20 && s[..4] == "0x1." && (forall c :: c in s[4..17] ==> HexDigit(c)) && s[17] == 'p'
    && ExponentParts(s[18], s[19..])
  }

  ghost predicate ExponentParts(sign: char, digits: string) {
    || (sign == '+' && DecimalUpTo(digits, "1023"))
    || (sign == '-' && DecimalUpTo(digits, "1022") && digits != "0")
  }

  lemma ExponentDigits()
    ensures DecimalNat(1023) == "1023" && DecimalNat(1022) == "1022" && DecimalNat(0) == "0"
  {
    assert DecimalNat(1) == "1" && DecimalNat(10) == "10" && DecimalNat(102) == "102";
  }

  lemma ExponentWritten(e: int)
    requires -1022 <= e <= 1023
    ensures ExponentParts(if e < 0 then '-' else '+', DecimalNat(Absolute(e)))
  {
    ExponentDigits();
    var digits := DecimalNat(Absolute(e));
    UpToMeans(digits, 1023);
    UpToMeans(digits, 1022);
    WrittenIsDecimal(Absolute(e));
  }

  lemma ExponentRead(sign: char, digits: string) returns (e: int)
    requires ExponentParts(sign, digits)
    ensures -1022 <= e <= 1023 && Signed(e) == [sign] + digits
  {
    ExponentDigits();
    UpToMeans(digits, 1023);
    UpToMeans(digits, 1022);
    var n: nat :| n <= 1023 && digits == DecimalNat(n) && (sign == '-' ==> 0 < n <= 1022);
    e := if sign == '-' then 0 - n else n;
  }

  lemma NormalWritten(s: string, exponent: int, fraction: string)
    requires IsDouble(Normal(exponent, fraction)) && s == HexText(Normal(exponent, fraction))
    ensures NormalParts(s)
  {
    var sign, digits := if exponent < 0 then '-' else '+', DecimalNat(Absolute(exponent));
    var tail := "p" + ([sign] + digits);
    assert s == "0x1." + fraction + tail;
    Slices(s, "0x1.", fraction, tail);
    FractionMeans(fraction);
    ExponentWritten(exponent);
    TailSlices(s, tail, sign, digits);
    WrittenIsDecimal(Absolute(exponent));
  }

  lemma TailSlices(s: string, tail: string, sign: char, digits: string)
    requires |s| >= 17 && s[17..] == tail && tail == "p" + ([sign] + digits)
    ensures |s| >= 19 && s[17] == 'p' && s[18] == sign && s[19..] == digits
  {
    assert s[17] == tail[0] && s[18] == tail[1];
    assert s[19..] == tail[2..];
  }

  lemma NormalRead(s: string) returns (exponent: int)
    requires NormalParts(s)
    ensures IsDouble(Normal(exponent, s[4..17])) && s == HexText(Normal(exponent, s[4..17]))
  {
    Joined(s);
    FractionMeans(s[4..17]);
    exponent := ExponentRead(s[18], s[19..]);
    assert s[17..] == "p" + ([s[18]] + s[19..]);
  }

  /** The texts of positive doubles are the hexadecimal forms of zero, of subnormal and of normal numbers. */
  lemma MagnitudeMeans(s: string)
    ensures Magnitude(s) <==> exists d :: IsDouble(d) && s == HexText(d)
  {
    assert Magnitude(s) <==> s == "0x0.0p+0" || SubnormalParts(s) || NormalParts(s);
    if s == "0x0.0p+0" {
      assert IsDouble(Zero) && s == HexText(Zero);
    } else if SubnormalParts(s) {
      SubnormalRead(s);
    } else if NormalParts(s) {
      var exponent := NormalRead(s);
    }
    if d :| IsDouble(d) && s == HexText(d) {
      match d
      case Zero =>
      case Subnormal(fraction) => SubnormalWritten(s, fraction);
      case Normal(exponent, fraction) => NormalWritten(s, exponent, fraction);
    }
  }

  /** A finite double is known by its sign and the text of its magnitude. */
  lemma FloatTextMeans(s: string)
    ensures IsFloatText(s) <==> exists d :: IsDouble(d) && (s == HexText(d) || s == "-" + HexText(d))
  {
    MagnitudeMeans(s);
    if s != "" && s[0] == '-' {
      MagnitudeMeans(s[1..]);
      assert s == "-" + s[1..];
    }
    if d :| IsDouble(d) && (s == HexText(d) || s == "-" + HexText(d)) {
      if s == HexText(d) {
        assert s[0] == '0';
      } else {
        assert s[1..] == HexText(d);
      }
    }
  }
}
