// Continuation tokens confined to one store and prefix (cursor.go).
module CursorCodec {
  import opened Results
  import opened Base64

  const MAX_ENCODED_BYTES := 16 * 1024

  type Digest = s: seq<Byte> | |s| == 32 witness seq(32, _ => 0)

  /** The keyed digest is opaque; `keyed` says whether the codec holds a full key, which only encoding checks. */
  datatype Codec = Codec(keyed: bool, mac: seq<Byte> -> Digest)

  // ---------------------------------------------------------------- framing

  function BigEndian32(n: U32): (b: seq<Byte>)
    ensures |b| == 4
  {
    [n / 256 / 256 / 256, n / 256 / 256 % 256, n / 256 % 256, n % 256]
  }

  function Uint32Of(b: seq<Byte>): U32
    requires |b| == 4
  {
    ((b[0] as int * 256 + b[1] as int) * 256 + b[2] as int) * 256 + b[3] as int
  }

  lemma Uint32OfBigEndian(n: U32)
    ensures Uint32Of(BigEndian32(n)) == n
  {
  }

  lemma LastByte(q: nat, r: Byte)
    ensures (q * 256 + r as int) / 256 == q && (q * 256 + r as int) % 256 == r as int
  {
  }

  lemma BigEndianOfUint32(b: seq<Byte>)
    requires |b| == 4
    ensures BigEndian32(Uint32Of(b)) == b
  {
    var two := b[0] as int * 256 + b[1] as int;
    var three := two * 256 + b[2] as int;
    LastByte(b[0] as int, b[1]);
    LastByte(two, b[2]);
    LastByte(three, b[3]);
  }

  /** Length of the prefix, the prefix, the token. */
  function Body(prefix: seq<Byte>, token: seq<Byte>): seq<Byte>
    requires |prefix| <= MAX_ENCODED_BYTES
  {
    BigEndian32(|prefix|) + prefix + token
  }

  // ---------------------------------------------------------------- the codec

  function Encoded(c: Codec, prefix: seq<Byte>, token: seq<Byte>): Option<string> {
    if !c.keyed || |prefix| > MAX_ENCODED_BYTES || |token| > MAX_ENCODED_BYTES then None
    else
      var body := Body(prefix, token);
      var text := Encode(body + c.mac(body));
      if |text| > MAX_ENCODED_BYTES then None else Some(text)
  }

  /** `Encode` fills one buffer: the length, then the two parts. */
  method EncodeCursor(c: Codec, prefix: seq<Byte>, token: seq<Byte>) returns (r: Option<string>)
    ensures r == Encoded(c, prefix, token)
  {
    hide Encode, BigEndian32;
    if !c.keyed || |prefix| > MAX_ENCODED_BYTES || |token| > MAX_ENCODED_BYTES {
      return None;
    }
    var body := new Byte[4 + |prefix| + |token|];
    var length := BigEndian32(|prefix|);
    Copy(body, 0, length);
    assert body[0..4] == body[..4] == length;
    Copy(body, 4, prefix);
    assert body[..4 + |prefix|] == length + prefix;
    Copy(body, 4 + |prefix|, token);
    assert body[..] == body[..4 + |prefix|] + body[4 + |prefix|..4 + |prefix| + |token|];
    assert body[..] == Body(prefix, token);
    var encoded := Encode(body[..] + c.mac(body[..]));
    if |encoded| > MAX_ENCODED_BYTES {
      return None;
    }
    return Some(encoded);
  }

  /** `copy` into the buffer at an offset. */
  method Copy(a: array<Byte>, at: nat, part: seq<Byte>)
    requires at + |part| <= a.Length
    modifies a
    ensures a[..at] == old(a[..at]) && a[at..at + |part|] == part && a[at + |part|..] == old(a[at + |part|..])
  {
    for k := 0 to |part|
      invariant a[..at] == old(a[..at]) && a[at..at + k] == part[..k] && a[at + |part|..] == old(a[at + |part|..])
    {
      a[at + k] := part[k];
      assert a[at..at + k + 1] == part[..k] + [part[k]];
    }
  }

  function Decoded(c: Codec, prefix: seq<Byte>, value: string): Option<seq<Byte>> {
    if value == "" then Some([])
    else if |value| > MAX_ENCODED_BYTES then None
    else
      var raw := Decode(value);
      if raw.None? || |raw.value| < 36 || Encode(raw.value) != value then None
      else
        var body, signature := raw.value[..|raw.value| - 32], raw.value[|raw.value| - 32..];
        if signature != c.mac(body) then None
        else
          var n := Uint32Of(body[..4]);
          if n > |body| - 4 || body[4..4 + n] != prefix then None else Some(body[4 + n..])
  }

  // ---------------------------------------------------------------- a bijection on what it accepts

  lemma BodyParts(prefix: seq<Byte>, token: seq<Byte>)
    requires |prefix| <= MAX_ENCODED_BYTES
    ensures var body := Body(prefix, token);
            && |body| == 4 + |prefix| + |token| && Uint32Of(body[..4]) == |prefix|
            && body[4..4 + |prefix|] == prefix && body[4 + |prefix|..] == token
  {
    Uint32OfBigEndian(|prefix|);
    hide BigEndian32;
    assert Body(prefix, token)[..4] == BigEndian32(|prefix|);
  }

  /** What decoding an issued cursor under any prefix comes to. */
  lemma DecodeIssued(c: Codec, prefix: seq<Byte>, token: seq<Byte>, other: seq<Byte>)
    requires Encoded(c, prefix, token).Some?
    ensures Decoded(c, other, Encoded(c, prefix, token).value) == if other == prefix then Some(token) else None
  {
    var body := Body(prefix, token);
    var raw := body + c.mac(body);
    BodyParts(prefix, token);
    DecodeOfEncode(raw);
    EncodeLength(raw);
    assert raw[..|raw| - 32] == body && raw[|raw| - 32..] == c.mac(body);
  }

  /** Decoding inverts encoding. */
  lemma RoundTrip(c: Codec, prefix: seq<Byte>, token: seq<Byte>)
    requires Encoded(c, prefix, token).Some?
    ensures Decoded(c, prefix, Encoded(c, prefix, token).value) == Some(token)
  {
    DecodeIssued(c, prefix, token, prefix);
  }

  /** A cursor issued for one prefix is refused under every other. */
  lemma PrefixConfined(c: Codec, prefix: seq<Byte>, token: seq<Byte>, other: seq<Byte>)
    requires Encoded(c, prefix, token).Some?
    ensures Decoded(c, other, Encoded(c, prefix, token).value).Some? <==> other == prefix
  {
    DecodeIssued(c, prefix, token, other);
  }

  /** Every accepted non-empty value is the one spelling that encoding produces. */
  lemma AcceptedIsCanonical(c: Codec, prefix: seq<Byte>, value: string)
    requires c.keyed && value != "" && Decoded(c, prefix, value).Some?
    ensures Encoded(c, prefix, Decoded(c, prefix, value).value) == Some(value)
  {
    hide BigEndian32, Encode, Decode, Uint32Of;
    var raw := Decode(value).value;
    var body, signature := raw[..|raw| - 32], raw[|raw| - 32..];
    var n := Uint32Of(body[..4]);
    EncodeLength(raw);
    BigEndianOfUint32(body[..4]);
    assert body == body[..4] + body[4..4 + n] + body[4 + n..];
    assert raw == body + signature;
  }
}
