/** The table and the grouping of RFC 4648, section 5, and that the codec follows them. */
module Base64Alphabet {
  import opened Wrappers
  import opened Base64Url

  const UPPER := "ABCDEFGHIJKLMNOPQRSTUVWXYZ"
  const LOWER := "abcdefghijklmnopqrstuvwxyz"
  const DIGITS := "0123456789"

  // The alphabet of RFC 4648, section 5, in the order of its sextets.
  const ALPHABET := UPPER + LOWER + DIGITS + "-_"

  lemma UpperAt(n: nat)
    requires n < 26
    ensures |UPPER| == 26 && UPPER[n] == ('A' as int + n) as char
  {
  }

  lemma LowerAt(n: nat)
    requires n < 26
    ensures |LOWER| == 26 && LOWER[n] == ('a' as int + n) as char
  {
  }

  lemma DigitsAt(n: nat)
    requires n < 10
    ensures |DIGITS| == 10 && DIGITS[n] == ('0' as int + n) as char
  {
  }

  /** A sextet is written as the character at its place in the alphabet. */
  lemma DigitIs(n: Sextet)
    ensures |ALPHABET| == 64 && Digit(n) == ALPHABET[n]
  {
    UpperAt(if n < 26 then n else 0);
    LowerAt(if 26 <= n < 52 then n - 26 else 0);
    DigitsAt(if 52 <= n < 62 then n - 52 else 0);
  }

  /** A character is read as its place in the alphabet; a plus reads like the minus, a slash like the underscore. */
  lemma ValueIs(c: char, n: Sextet)
    ensures |ALPHABET| == 64
    ensures Value(c) == Some(n) <==> c == ALPHABET[n] || (n == 62 && c == '+') || (n == 63 && c == '/')
  {
    DigitIs(n);
    DigitHasValue(n);
  }

  // A character outside the alphabet, but for those two, has no value.
  lemma NoValue(c: char)
    ensures Value(c) == None <==> c !in ALPHABET && c != '+' && c != '/'
  {
    DigitIs(0);
    if c in ALPHABET {
      var n :| 0 <= n < |ALPHABET| && ALPHABET[n] == c;
      ValueIs(c, n);
    }
    if Value(c).Some? {
      ValueIs(c, Value(c).value);
    }
  }

  // The number that the characters of a group write in base 64.
  ghost function Written(s: string): nat
    requires forall c :: c in s ==> Value(c).Some?
  {
    if s == [] then 0 else 64 * Written(s[..|s| - 1]) + Value(s[|s| - 1]).value
  }

  /** Three bytes are written as the four digits of the same number; a short rest is filled with zero bits. */
  lemma GroupIsWritten(a: Byte, b: Byte, c: Byte)
    ensures forall d :: d in Encode([a, b, c]) || d in Encode([a, b]) || d in Encode([a]) ==> Value(d).Some?
    ensures |Encode([a, b, c])| == 4 && Written(Encode([a, b, c])) == 65536 * a + 256 * b + c
    ensures |Encode([a, b])| == 3 && Written(Encode([a, b])) == (256 * a + b) * 4
    ensures |Encode([a])| == 2 && Written(Encode([a])) == a * 16
  {
    assert Encode([a, b, c]) == [Digit(First(a)), Digit(Second(a, b)), Digit(Third(b, c)), Digit(Fourth(c))] by {
      assert [a, b, c][3..] == [];
    }
    assert Encode([a, b]) == [Digit(First(a)), Digit(Second(a, b)), Digit(Third(b, 0))];
    assert Encode([a]) == [Digit(First(a)), Digit(Second(a, 0))];
    WrittenTwo(First(a), Second(a, 0));
    WrittenThree(First(a), Second(a, b), Third(b, 0));
    WrittenFour(First(a), Second(a, b), Third(b, c), Fourth(c));
  }

  lemma WrittenTwo(w: Sextet, x: Sextet)
    ensures var s := [Digit(w), Digit(x)]; (forall d :: d in s ==> Value(d).Some?) && Written(s) == 64 * w + x
  {
    DigitHasValue(w);
    DigitHasValue(x);
    assert [Digit(w), Digit(x)][..1] == [Digit(w)];
    assert [Digit(w)][..0] == [];
    assert Written([Digit(w)]) == w;
  }

  lemma WrittenThree(w: Sextet, x: Sextet, y: Sextet)
    ensures var s := [Digit(w), Digit(x), Digit(y)]; (forall d :: d in s ==> Value(d).Some?) && Written(s) == 4096 * w + 64 * x + y
  {
    WrittenTwo(w, x);
    DigitHasValue(y);
    assert [Digit(w), Digit(x), Digit(y)][..2] == [Digit(w), Digit(x)];
  }

  lemma WrittenFour(w: Sextet, x: Sextet, y: Sextet, z: Sextet)
    ensures var s := [Digit(w), Digit(x), Digit(y), Digit(z)];
      (forall d :: d in s ==> Value(d).Some?) && Written(s) == 262144 * w + 4096 * x + 64 * y + z
  {
    WrittenThree(w, x, y);
    DigitHasValue(z);
    assert [Digit(w), Digit(x), Digit(y), Digit(z)][..3] == [Digit(w), Digit(x), Digit(y)];
  }
}
