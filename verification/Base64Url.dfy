/**
 Unpadded base64url (RFC 4648, sections 3.2, 3.5 and 5): the lenient decoder of the Python standard
 library behind a check that the result encodes back to the input.
 */
module Base64Url {
  import opened Wrappers

  type Byte = n: nat | n < 256

  type Sextet = n: nat | n < 64

  // ---------- encoding ----------

  function Digit(n: Sextet): char {
    if n < 26 then ('A' as int + n) as char
    else if n < 52 then ('a' as int + (n - 26)) as char
    else if n < 62 then ('0' as int + (n - 52)) as char
    else if n == 62 then '-'
    else '_'
  }

  // The four sextets of three bytes.
  function First(a: Byte): Sextet { a / 4 }

  function Second(a: Byte, b: Byte): Sextet { a % 4 * 16 + b / 16 }

  function Third(b: Byte, c: Byte): Sextet { b % 16 * 4 + c / 64 }

  function Fourth(c: Byte): Sextet { c % 64 }

  function Encode(bytes: seq<Byte>): string {
    if bytes == [] then []
    else if |bytes| == 1 then [Digit(First(bytes[0])), Digit(Second(bytes[0], 0))]
    else if |bytes| == 2 then
      [Digit(First(bytes[0])), Digit(Second(bytes[0], bytes[1])), Digit(Third(bytes[1], 0))]
    else
      [Digit(First(bytes[0])), Digit(Second(bytes[0], bytes[1])), Digit(Third(bytes[1], bytes[2])), Digit(Fourth(bytes[2]))]
      + Encode(bytes[3..])
  }

  // ---------- decoding ----------

  // The standard alphabet's last two characters are accepted beside the URL-safe ones.
  function Value(c: char): Option<Sextet> {
    if 'A' <= c <= 'Z' then Some(c as int - 'A' as int)
    else if 'a' <= c <= 'z' then Some(c as int - 'a' as int + 26)
    else if '0' <= c <= '9' then Some(c as int - '0' as int + 52)
    else if c == '-' || c == '+' then Some(62)
    else if c == '_' || c == '/' then Some(63)
    else None
  }

  /**
   The lenient decoder: characters outside the alphabet are skipped, padding that completes a quad
   ends the scan, other padding is skipped. `left` holds the bits carried into the next byte.
   */
  function Scan(s: string, quad: nat, left: nat, pads: nat): Result<seq<Byte>, string>
    requires quad < 4
    requires quad == 0 ==> left == 0
    requires quad == 1 ==> left < 64
    requires quad == 2 ==> left < 16
    requires quad == 3 ==> left < 4
  {
    if s == [] then (if quad == 0 then Success([]) else Failure("MALFORMED"))
    else if s[0] == '=' then
      if quad >= 2 && quad + pads + 1 >= 4 then Success([])
      else Scan(s[1..], quad, left, if quad >= 2 then pads + 1 else pads)
    else
      var v := Value(s[0]);
      if v.None? then Scan(s[1..], quad, left, pads)
      else if quad == 0 then Scan(s[1..], 1, v.value, 0)
      else if quad == 1 then Prepend(left * 4 + v.value / 16, Scan(s[1..], 2, v.value % 16, 0))
      else if quad == 2 then Prepend(left * 16 + v.value / 4, Scan(s[1..], 3, v.value % 4, 0))
      else Prepend(left * 64 + v.value, Scan(s[1..], 0, 0, 0))
  }

  function Prepend(b: Byte, rest: Result<seq<Byte>, string>): Result<seq<Byte>, string> {
    if rest.Failure? then rest else Success([b] + rest.value)
  }

  // The `=` signs that make the length a multiple of four.
  function Padding(length: nat): string {
    match length % 4
    case 0 => ""
    case 1 => "==="
    case 2 => "=="
    case _ => "="
  }

  function DecodeB64u(encoded: string): Result<seq<Byte>, string> {
    if exists c :: c in encoded && c as int >= 128 then Failure("MALFORMED")
    else
      var raw :- Scan(encoded + Padding(|encoded|), 0, 0, 0);
      if Encode(raw) != encoded then Failure("NON_CANONICAL") else Success(raw)
  }

  // ---------- decoding undoes encoding ----------

  lemma DigitHasValue(n: Sextet)
    ensures Value(Digit(n)) == Some(n) && Digit(n) != '=' && Digit(n) as int < 128
  {
  }

  lemma ScanDigit(n: Sextet, rest: string, quad: nat, left: nat, pads: nat)
    requires quad < 4
    requires quad == 0 ==> left == 0
    requires quad == 1 ==> left < 64
    requires quad == 2 ==> left < 16
    requires quad == 3 ==> left < 4
    ensures Scan([Digit(n)] + rest, quad, left, pads)
         == if quad == 0 then Scan(rest, 1, n, 0)
            else if quad == 1 then Prepend(left * 4 + n / 16, Scan(rest, 2, n % 16, 0))
            else if quad == 2 then Prepend(left * 16 + n / 4, Scan(rest, 3, n % 4, 0))
            else Prepend(left * 64 + n, Scan(rest, 0, 0, 0))
  {
    DigitHasValue(n);
    assert ([Digit(n)] + rest)[1..] == rest;
  }

  // The bytes that sextets carry.
  function Byte1(w: Sextet, x: Sextet): Byte { w * 4 + x / 16 }

  function Byte2(x: Sextet, y: Sextet): Byte { x % 16 * 16 + y / 4 }

  function Byte3(y: Sextet, z: Sextet): Byte { y % 4 * 64 + z }

  lemma BytesRecovered(a: Byte, b: Byte, c: Byte)
    ensures Byte1(First(a), Second(a, b)) == a
    ensures Byte2(Second(a, b), Third(b, c)) == b
    ensures Byte3(Third(b, c), Fourth(c)) == c
  {
  }

  lemma SextetsRecovered(w: Sextet, x: Sextet, y: Sextet, z: Sextet)
    ensures First(Byte1(w, x)) == w
    ensures Second(Byte1(w, x), Byte2(x, y)) == x
    ensures Third(Byte2(x, y), Byte3(y, z)) == y
    ensures Fourth(Byte3(y, z)) == z
    ensures x % 16 == 0 ==> Second(Byte1(w, x), 0) == x
    ensures y % 4 == 0 ==> Third(Byte2(x, y), 0) == y
  {
  }

  lemma ScanPair(w: Sextet, x: Sextet, rest: string)
    ensures Scan([Digit(w), Digit(x)] + rest, 0, 0, 0) == Prepend(Byte1(w, x), Scan(rest, 2, x % 16, 0))
  {
    var r1 := [Digit(x)] + rest;
    assert [Digit(w), Digit(x)] + rest == [Digit(w)] + r1;
    ScanDigit(w, r1, 0, 0, 0);
    ScanDigit(x, rest, 1, w, 0);
  }

  lemma ScanThird(left: nat, y: Sextet, rest: string)
    requires left < 16
    ensures Scan([Digit(y)] + rest, 2, left, 0) == Prepend(left * 16 + y / 4, Scan(rest, 3, y % 4, 0))
  {
    ScanDigit(y, rest, 2, left, 0);
  }

  lemma ScanFourth(left: nat, z: Sextet, rest: string)
    requires left < 4
    ensures Scan([Digit(z)] + rest, 3, left, 0) == Prepend(left * 64 + z, Scan(rest, 0, 0, 0))
  {
    ScanDigit(z, rest, 3, left, 0);
  }

  lemma ScanRest(left: nat, y: Sextet, z: Sextet, rest: string)
    requires left < 16
    ensures Scan([Digit(y), Digit(z)] + rest, 2, left, 0)
         == Prepend(left * 16 + y / 4, Prepend(Byte3(y, z), Scan(rest, 0, 0, 0)))
  {
    var r3 := [Digit(z)] + rest;
    assert [Digit(y), Digit(z)] + rest == [Digit(y)] + r3;
    ScanThird(left, y, r3);
    ScanFourth(y % 4, z, rest);
  }

  lemma ScanFour(w: Sextet, x: Sextet, y: Sextet, z: Sextet, rest: string)
    ensures Scan([Digit(w), Digit(x), Digit(y), Digit(z)] + rest, 0, 0, 0)
         == Prepend(Byte1(w, x), Prepend(Byte2(x, y), Prepend(Byte3(y, z), Scan(rest, 0, 0, 0))))
  {
    var tail := [Digit(y), Digit(z)] + rest;
    assert [Digit(w), Digit(x), Digit(y), Digit(z)] + rest == [Digit(w), Digit(x)] + tail;
    ScanPair(w, x, tail);
    ScanRest(x % 16, y, z, rest);
  }

  lemma PrependLast(b: Byte)
    ensures Prepend(b, Success([])) == Success([b])
  {
    var none: seq<Byte> := [];
    assert [b] + none == [b];
  }

  lemma ScanPadding(left: nat)
    requires left < 16
    ensures Scan("==", 2, left, 0) == Success([])
    ensures left < 4 ==> Scan("=", 3, left, 0) == Success([])
  {
    assert "=="[1..] == "=";
    assert Scan("=", 2, left, 1) == Success([]);
  }

  lemma ScanTwo(w: Sextet, x: Sextet)
    ensures Scan([Digit(w), Digit(x)] + "==", 0, 0, 0) == Success([Byte1(w, x)])
  {
    var r1 := [Digit(x)] + "==";
    assert [Digit(w), Digit(x)] + "==" == [Digit(w)] + r1;
    ScanDigit(w, r1, 0, 0, 0);
    ScanDigit(x, "==", 1, w, 0);
    ScanPadding(x % 16);
    PrependLast(Byte1(w, x));
  }

  lemma ScanThree(w: Sextet, x: Sextet, y: Sextet)
    ensures Scan([Digit(w), Digit(x), Digit(y)] + "=", 0, 0, 0) == Prepend(Byte1(w, x), Success([Byte2(x, y)]))
  {
    var r2 := [Digit(y)] + "=";
    var r1 := [Digit(x)] + r2;
    assert [Digit(w), Digit(x), Digit(y)] + "=" == [Digit(w)] + r1;
    ScanDigit(w, r1, 0, 0, 0);
    ScanDigit(x, r2, 1, w, 0);
    ScanDigit(y, "=", 2, x % 16, 0);
    ScanPadding(y % 4);
    PrependLast(Byte2(x, y));
  }

  function EncodedSize(n: nat): nat {
    n / 3 * 4 + if n % 3 == 0 then 0 else n % 3 + 1
  }

  lemma {:induction false} EncodedLength(bytes: seq<Byte>)
    ensures |Encode(bytes)| == EncodedSize(|bytes|)
  {
    if |bytes| >= 3 {
      EncodedLength(bytes[3..]);
    }
  }

  lemma {:induction false} EncodedAscii(bytes: seq<Byte>)
    ensures forall c :: c in Encode(bytes) ==> UrlSafe(c)
  {
    EncodingsAreCanonical(bytes);
  }

  lemma EncodeGroup(bytes: seq<Byte>, head: string)
    requires |bytes| >= 3
    requires head == [Digit(First(bytes[0])), Digit(Second(bytes[0], bytes[1])), Digit(Third(bytes[1], bytes[2])), Digit(Fourth(bytes[2]))]
    ensures Encode(bytes) == head + Encode(bytes[3..])
  {
  }

  lemma PadHead(head: string, rest: string)
    requires |head| == 4
    ensures (head + rest) + Padding(|head + rest|) == head + (rest + Padding(|rest|))
  {
    assert |head + rest| % 4 == |rest| % 4;
  }

  lemma GroupScan(w: Sextet, x: Sextet, y: Sextet, z: Sextet, rest: string, tail: seq<Byte>)
    requires Scan(rest, 0, 0, 0) == Success(tail)
    ensures Scan([Digit(w), Digit(x), Digit(y), Digit(z)] + rest, 0, 0, 0)
         == Success([Byte1(w, x), Byte2(x, y), Byte3(y, z)] + tail)
  {
    ScanFour(w, x, y, z, rest);
    var all: seq<Byte> := [Byte1(w, x), Byte2(x, y), Byte3(y, z)] + tail;
    assert all == [Byte1(w, x)] + ([Byte2(x, y)] + ([Byte3(y, z)] + tail));
  }

  lemma ScanGroup(bytes: seq<Byte>, text: string)
    requires |bytes| >= 3 && text == Encode(bytes) + Padding(|Encode(bytes)|)
    requires Scan(Encode(bytes[3..]) + Padding(|Encode(bytes[3..])|), 0, 0, 0) == Success(bytes[3..])
    ensures Scan(text, 0, 0, 0) == Success(bytes)
  {
    var w, x, y, z := First(bytes[0]), Second(bytes[0], bytes[1]), Third(bytes[1], bytes[2]), Fourth(bytes[2]);
    var head, rest := [Digit(w), Digit(x), Digit(y), Digit(z)], Encode(bytes[3..]);
    EncodeGroup(bytes, head);
    PadHead(head, rest);
    GroupScan(w, x, y, z, rest + Padding(|rest|), bytes[3..]);
    BytesRecovered(bytes[0], bytes[1], bytes[2]);
    assert bytes == [bytes[0], bytes[1], bytes[2]] + bytes[3..];
  }

  lemma ScanLastOne(a: Byte, text: string)
    requires text == Encode([a]) + "=="
    ensures Scan(text, 0, 0, 0) == Success([a])
  {
    BytesRecovered(a, 0, 0);
    ScanTwo(First(a), Second(a, 0));
    assert Encode([a]) == [Digit(First(a)), Digit(Second(a, 0))];
  }

  lemma ScanLastTwo(a: Byte, b: Byte, text: string)
    requires text == Encode([a, b]) + "="
    ensures Scan(text, 0, 0, 0) == Success([a, b])
  {
    BytesRecovered(a, b, 0);
    ScanThree(First(a), Second(a, b), Third(b, 0));
    assert Encode([a, b]) == [Digit(First(a)), Digit(Second(a, b)), Digit(Third(b, 0))];
    assert [a] + [b] == [a, b];
  }

  lemma ScanShort(bytes: seq<Byte>, text: string)
    requires |bytes| < 3 && text == Encode(bytes) + Padding(EncodedSize(|bytes|))
    ensures Scan(text, 0, 0, 0) == Success(bytes)
  {
    if bytes == [] {
      assert text == [];
    } else if |bytes| == 1 {
      assert bytes == [bytes[0]];
      ScanLastOne(bytes[0], text);
    } else {
      assert bytes == [bytes[0], bytes[1]];
      ScanLastTwo(bytes[0], bytes[1], text);
    }
  }

  lemma {:induction false} ScanEncoded(bytes: seq<Byte>, text: string)
    requires text == Encode(bytes) + Padding(|Encode(bytes)|)
    ensures Scan(text, 0, 0, 0) == Success(bytes)
    decreases |bytes|
  {
    if |bytes| < 3 {
      EncodedLength(bytes);
      ScanShort(bytes, text);
    } else {
      ScanEncoded(bytes[3..], Encode(bytes[3..]) + Padding(|Encode(bytes[3..])|));
      ScanGroup(bytes, text);
    }
  }

  /** Decoding undoes encoding for every byte string. */
  lemma RoundTrip(bytes: seq<Byte>)
    ensures DecodeB64u(Encode(bytes)) == Success(bytes)
  {
    EncodedAscii(bytes);
    ScanEncoded(bytes, Encode(bytes) + Padding(|Encode(bytes)|));
  }

  /** What is accepted is the encoding of what is returned, so no two texts decode to one value. */
  lemma AcceptedIsEncoding(s: string)
    requires DecodeB64u(s).Success?
    ensures Encode(DecodeB64u(s).value) == s
  {
  }

  // ---------- what is accepted ----------

  // A character of the URL-safe alphabet.
  predicate UrlSafe(c: char) {
    'A' <= c <= 'Z' || 'a' <= c <= 'z' || '0' <= c <= '9' || c == '-' || c == '_'
  }

  // Unpadded, over the alphabet, of a possible length, with zero bits after the last byte.
  predicate Canonical(s: string) {
    && (forall c :: c in s ==> UrlSafe(c))
    && |s| % 4 != 1
    && (|s| % 4 == 2 ==> UrlSafe(s[|s| - 1]) && Value(s[|s| - 1]).value % 16 == 0)
    && (|s| % 4 == 3 ==> UrlSafe(s[|s| - 1]) && Value(s[|s| - 1]).value % 4 == 0)
  }

  lemma DigitOfValue(c: char)
    requires UrlSafe(c)
    ensures Digit(Value(c).value) == c
  {
  }

  lemma DigitUrlSafe(n: Sextet)
    ensures UrlSafe(Digit(n))
  {
  }

  lemma CanonicalHead(head: string, rest: string)
    requires |head| == 4 && forall i :: 0 <= i < 4 ==> UrlSafe(head[i])
    ensures Canonical(head + rest) <==> Canonical(rest)
  {
    assert rest != [] ==> (head + rest)[|head + rest| - 1] == rest[|rest| - 1];
    assert forall c :: c in head + rest <==> c in head || c in rest;
  }

  lemma {:induction false} EncodingsAreCanonical(bytes: seq<Byte>)
    ensures Canonical(Encode(bytes))
  {
    if bytes == [] {
    } else if |bytes| == 1 {
      DigitHasValue(Second(bytes[0], 0));
      DigitUrlSafe(First(bytes[0]));
      DigitUrlSafe(Second(bytes[0], 0));
    } else if |bytes| == 2 {
      DigitHasValue(Third(bytes[1], 0));
      DigitUrlSafe(First(bytes[0]));
      DigitUrlSafe(Second(bytes[0], bytes[1]));
      DigitUrlSafe(Third(bytes[1], 0));
    } else {
      EncodingsAreCanonical(bytes[3..]);
      var w, x, y, z := First(bytes[0]), Second(bytes[0], bytes[1]), Third(bytes[1], bytes[2]), Fourth(bytes[2]);
      DigitUrlSafe(w);
      DigitUrlSafe(x);
      DigitUrlSafe(y);
      DigitUrlSafe(z);
      CanonicalHead([Digit(w), Digit(x), Digit(y), Digit(z)], Encode(bytes[3..]));
    }
  }

  function ValueAt(s: string, i: nat): (v: Sextet)
    requires i < |s| && UrlSafe(s[i])
    ensures Digit(v) == s[i] && Value(s[i]) == Some(v)
  {
    DigitOfValue(s[i]);
    Value(s[i]).value
  }

  lemma TwoDigits(w: Sextet, x: Sextet) returns (bytes: seq<Byte>)
    requires x % 16 == 0
    ensures Encode(bytes) == [Digit(w), Digit(x)]
  {
    SextetsRecovered(w, x, 0, 0);
    bytes := [Byte1(w, x)];
  }

  lemma ThreeDigits(w: Sextet, x: Sextet, y: Sextet) returns (bytes: seq<Byte>)
    requires y % 4 == 0
    ensures Encode(bytes) == [Digit(w), Digit(x), Digit(y)]
  {
    SextetsRecovered(w, x, y, 0);
    bytes := [Byte1(w, x), Byte2(x, y)];
  }

  lemma CanonicalTwo(s: string) returns (bytes: seq<Byte>)
    requires Canonical(s) && |s| == 2
    ensures Encode(bytes) == s
  {
    assert s[0] in s && s[1] in s;
    bytes := TwoDigits(ValueAt(s, 0), ValueAt(s, 1));
    assert s == [s[0], s[1]];
  }

  lemma CanonicalThree(s: string) returns (bytes: seq<Byte>)
    requires Canonical(s) && |s| == 3
    ensures Encode(bytes) == s
  {
    assert s[0] in s && s[1] in s && s[2] in s;
    bytes := ThreeDigits(ValueAt(s, 0), ValueAt(s, 1), ValueAt(s, 2));
    assert s == [s[0], s[1], s[2]];
  }

  lemma {:induction false} CanonicalIsEncoding(s: string) returns (bytes: seq<Byte>)
    requires Canonical(s)
    ensures Encode(bytes) == s
    decreases |s|
  {
    if s == [] {
      bytes := [];
    } else if |s| == 2 {
      bytes := CanonicalTwo(s);
    } else if |s| == 3 {
      bytes := CanonicalThree(s);
    } else {
      bytes := CanonicalGroup(s);
    }
  }

  lemma CanonicalGroup(s: string) returns (bytes: seq<Byte>)
    requires Canonical(s) && |s| >= 4
    ensures Encode(bytes) == s
    decreases |s|, 0
  {
    assert forall i :: 0 <= i < |s| ==> s[i] in s;
    var w, x, y, z := ValueAt(s, 0), ValueAt(s, 1), ValueAt(s, 2), ValueAt(s, 3);
    assert s == s[..4] + s[4..];
    CanonicalHead(s[..4], s[4..]);
    var rest := CanonicalIsEncoding(s[4..]);
    SextetsRecovered(w, x, y, z);
    bytes := [Byte1(w, x), Byte2(x, y), Byte3(y, z)] + rest;
    assert bytes[3..] == rest;
    assert s[..4] == [Digit(w), Digit(x), Digit(y), Digit(z)];
  }

  /** Exactly the canonical texts are accepted. */
  lemma AcceptsCanonical(s: string)
    ensures DecodeB64u(s).Success? <==> Canonical(s)
  {
    if Canonical(s) {
      var bytes := CanonicalIsEncoding(s);
      RoundTrip(bytes);
    }
    if DecodeB64u(s).Success? {
      EncodingsAreCanonical(DecodeB64u(s).value);
    }
  }
}
