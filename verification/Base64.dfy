// Unpadded base64url (section 5 of RFC 4648), with the leniency of Go's decoder.
module Base64 {
  import opened Results

  type Byte = x: int | 0 <= x < 256

  /** Six bits. */
  type Sextet = x: int | 0 <= x < 64

  // ---------------------------------------------------------------- the alphabet

  function Digit(v: Sextet): (c: char) {
    if v < 26 then 'A' + v as char
    else if v < 52 then 'a' + (v - 26) as char
    else if v < 62 then '0' + (v - 52) as char
    else if v == 62 then '-'
    else '_'
  }

  /** The value of a digit; -1 outside the alphabet. */
  function Value(c: char): (v: int)
    ensures -1 <= v < 64
  {
    if 'A' <= c <= 'Z' then (c - 'A') as int
    else if 'a' <= c <= 'z' then (c - 'a') as int + 26
    else if '0' <= c <= '9' then (c - '0') as int + 52
    else if c == '-' then 62
    else if c == '_' then 63
    else -1
  }

  lemma ValueOfDigit(v: Sextet)
    ensures Value(Digit(v)) == v && Digit(v) != '.' && Digit(v) != '\r' && Digit(v) != '\n'
  {
  }

  // ---------------------------------------------------------------- three bytes and four sextets

  function High(x: Byte): Sextet {
    x / 4
  }

  function MidHigh(x: Byte, y: Byte): Sextet {
    x % 4 * 16 + y / 16
  }

  function MidLow(y: Byte, z: Byte): Sextet {
    y % 16 * 4 + z / 64
  }

  function Low(z: Byte): Sextet {
    z % 64
  }

  function FirstByte(v: Sextet, w: Sextet): Byte {
    v * 4 + w / 16
  }

  function SecondByte(v: Sextet, w: Sextet): Byte {
    v % 16 * 16 + w / 4
  }

  function ThirdByte(v: Sextet, w: Sextet): Byte {
    v % 4 * 64 + w
  }

  /** One full group survives the round trip. */
  lemma GroupRoundTrip(x: Byte, y: Byte, z: Byte)
    ensures FirstByte(High(x), MidHigh(x, y)) == x
    ensures SecondByte(MidHigh(x, y), MidLow(y, z)) == y
    ensures ThirdByte(MidLow(y, z), Low(z)) == z
  {
  }

  // ---------------------------------------------------------------- encoding

  /** Three bytes to four digits; a short last group is filled up with zero bits. */
  function Encode(b: seq<Byte>): string {
    if |b| == 0 then ""
    else if |b| == 1 then [Digit(High(b[0])), Digit(MidHigh(b[0], 0))]
    else if |b| == 2 then [Digit(High(b[0])), Digit(MidHigh(b[0], b[1])), Digit(MidLow(b[1], 0))]
    else [Digit(High(b[0])), Digit(MidHigh(b[0], b[1])), Digit(MidLow(b[1], b[2])), Digit(Low(b[2]))] + Encode(b[3..])
  }

  lemma {:induction false} EncodeLength(b: seq<Byte>)
    ensures |Encode(b)| == (4 * |b| + 2) / 3
  {
    hide Digit, High, MidHigh, MidLow, Low;
    if |b| >= 3 {
      EncodeLength(b[3..]);
    }
  }

  /** Encoded text stays within the alphabet. */
  ghost predicate Alphabetic(s: string) {
    forall k :: 0 <= k < |s| ==> Value(s[k]) >= 0
  }

  lemma DigitsAreAlphabetic()
    ensures forall v: Sextet :: Value(Digit(v)) >= 0
  {
    forall v: Sextet ensures Value(Digit(v)) >= 0 {
      ValueOfDigit(v);
    }
  }

  lemma {:induction false} EncodeAlphabetic(b: seq<Byte>)
    ensures Alphabetic(Encode(b))
  {
    hide Value, Digit, High, MidHigh, MidLow, Low;
    DigitsAreAlphabetic();
    if |b| >= 3 {
      EncodeAlphabetic(b[3..]);
    }
  }

  // ---------------------------------------------------------------- decoding

  /** The decoder skips carriage returns and newlines wherever they stand. */
  function Significant(s: string): string {
    if s == "" then ""
    else if s[0] == '\r' || s[0] == '\n' then Significant(s[1..])
    else [s[0]] + Significant(s[1..])
  }

  /** Four digits to three bytes; the unused low bits of a final short group are ignored. */
  function DecodeGroups(s: string): Option<seq<Byte>> {
    if |s| == 0 then Some([])
    else if |s| == 1 || Value(s[0]) < 0 || Value(s[1]) < 0 then None
    else
      var first := FirstByte(Value(s[0]), Value(s[1]));
      if |s| == 2 then Some([first])
      else if Value(s[2]) < 0 then None
      else
        var second := SecondByte(Value(s[1]), Value(s[2]));
        if |s| == 3 then Some([first, second])
        else if Value(s[3]) < 0 then None
        else
          var rest := DecodeGroups(s[4..]);
          if rest.None? then None else Some([first, second, ThirdByte(Value(s[2]), Value(s[3]))] + rest.value)
  }

  function Decode(s: string): Option<seq<Byte>> {
    DecodeGroups(Significant(s))
  }

  lemma {:induction false} SignificantAlphabetic(s: string)
    requires Alphabetic(s)
    ensures Significant(s) == s
  {
    if s != "" {
      assert Value(s[0]) >= 0;
      SignificantAlphabetic(s[1..]);
      assert s == [s[0]] + s[1..];
    }
  }

  lemma {:induction false} NewlineSkipped(s: string)
    requires Alphabetic(s)
    ensures Significant(s + "\n") == s
  {
    if s == "" {
      assert s + "\n" == "\n" && "\n"[1..] == "";
    } else {
      assert Value(s[0]) >= 0;
      NewlineSkipped(s[1..]);
      assert (s + "\n")[1..] == s[1..] + "\n" && s == [s[0]] + s[1..];
    }
  }

  /** A full group of digits before the rest of a text. */
  lemma FullGroup(p: Sextet, q: Sextet, r: Sextet, t: Sextet, s: string)
    requires DecodeGroups(s).Some?
    ensures DecodeGroups([Digit(p), Digit(q), Digit(r), Digit(t)] + s)
            == Some([FirstByte(p, q), SecondByte(q, r), ThirdByte(r, t)] + DecodeGroups(s).value)
  {
    hide Value, Digit, FirstByte, SecondByte, ThirdByte;
    ValueOfDigit(p);
    ValueOfDigit(q);
    ValueOfDigit(r);
    ValueOfDigit(t);
    assert ([Digit(p), Digit(q), Digit(r), Digit(t)] + s)[4..] == s;
  }

  lemma ShortGroups(p: Sextet, q: Sextet, r: Sextet)
    ensures DecodeGroups([Digit(p), Digit(q)]) == Some([FirstByte(p, q)])
    ensures DecodeGroups([Digit(p), Digit(q), Digit(r)]) == Some([FirstByte(p, q), SecondByte(q, r)])
    ensures Alphabetic([Digit(p), Digit(q)])
  {
    hide Value, Digit, FirstByte, SecondByte, ThirdByte;
    ValueOfDigit(p);
    ValueOfDigit(q);
    ValueOfDigit(r);
  }

  lemma {:induction false} DecodeGroupsOfEncode(b: seq<Byte>)
    ensures DecodeGroups(Encode(b)) == Some(b)
  {
    hide Value, Digit, FirstByte, SecondByte, ThirdByte, High, MidHigh, MidLow, Low;
    var x := if |b| > 0 then b[0] else 0;
    var y := if |b| > 1 then b[1] else 0;
    var z := if |b| > 2 then b[2] else 0;
    GroupRoundTrip(x, y, z);
    if |b| >= 3 {
      DecodeGroupsOfEncode(b[3..]);
      FullGroup(High(x), MidHigh(x, y), MidLow(y, z), Low(z), Encode(b[3..]));
      assert b == [x, y, z] + b[3..];
    } else {
      ShortGroups(High(x), MidHigh(x, y), MidLow(y, z));
      assert b == if |b| == 0 then [] else if |b| == 1 then [x] else [x, y];
    }
  }

  /** Decoding inverts encoding, so encoding is injective. */
  lemma DecodeOfEncode(b: seq<Byte>)
    ensures Decode(Encode(b)) == Some(b)
  {
    EncodeAlphabetic(b);
    SignificantAlphabetic(Encode(b));
    DecodeGroupsOfEncode(b);
  }

  lemma LowBitsIgnored(b: Byte)
    ensures High(b) == b / 4 && MidHigh(b, 0) == b % 4 * 16
    ensures FirstByte(b / 4, b % 4 * 16) == b && FirstByte(b / 4, b % 4 * 16 + 1) == b
  {
  }

  /** The decoder itself is not injective: a newline or stray low bits change nothing. */
  lemma DecodeIsLenient(b: Byte)
    ensures Decode(Encode([b]) + "\n") == Some([b]) && Encode([b]) + "\n" != Encode([b])
    ensures var s := [Digit(b / 4), Digit(b % 4 * 16 + 1)];
            Decode(s) == Some([b]) && s != Encode([b])
  {
    hide Digit, DecodeGroups, Significant, Alphabetic, Value, FirstByte, High, MidHigh;
    var first: Sextet, zero: Sextet, one: Sextet := b / 4, b % 4 * 16, b % 4 * 16 + 1;
    var s := [Digit(first), Digit(one)];
    LowBitsIgnored(b);
    ShortGroups(first, zero, 0);
    ShortGroups(first, one, 0);
    assert Encode([b]) == [Digit(first), Digit(zero)];
    NewlineSkipped(Encode([b]));
    SignificantAlphabetic(s);
    assert |Encode([b]) + "\n"| == 3;
    ValueOfDigit(zero);
    ValueOfDigit(one);
    assert s[1] != Encode([b])[1];
  }
}
