// PostgreSQL segment arithmetic and the 24-digit WAL file names (wal.go).
module WalNames {
  import opened Results
  import opened Text

  const MIN_SEGMENT_SIZE := 0x10_0000
  const MAX_SEGMENT_SIZE := 0x4000_0000

  datatype NameError = BadContext | SegmentRollover | BeyondNameRange | BadName

  // ---------------------------------------------------------------- segment sizes

  /** Go's `&` on non-negative integers, one binary digit at a time. */
  function BitAnd(a: nat, b: nat): nat {
    if a == 0 || b == 0 then 0 else 2 * BitAnd(a / 2, b / 2) + (a % 2) * (b % 2)
  }

  predicate ValidSegmentSize(size: int) {
    MIN_SEGMENT_SIZE <= size <= MAX_SEGMENT_SIZE && BitAnd(size, size - 1) == 0
  }

  /** How many segments share one log id: `uint64(1<<32) / uint64(segmentSize)`. */
  function SegmentsPerLog(size: int): int
    requires size > 0
  {
    0x1_0000_0000 / size
  }

  predicate PowerOfTwo(n: nat) {
    n == 1 || (n > 0 && n % 2 == 0 && PowerOfTwo(n / 2))
  }

  lemma {:induction false} BitAndSelf(n: nat)
    ensures BitAnd(n, n) == n
  {
    if n != 0 {
      BitAndSelf(n / 2);
    }
  }

  /** The bit trick `size & (size-1) == 0` recognises exactly the powers of two. */
  lemma {:induction false} BitTrickIsPowerOfTwo(n: nat)
    requires n > 0
    ensures BitAnd(n, n - 1) == 0 <==> PowerOfTwo(n)
  {
    if n > 1 {
      if n % 2 == 0 {
        BitTrickIsPowerOfTwo(n / 2);
        assert (n - 1) / 2 == n / 2 - 1;
      } else {
        assert (n - 1) / 2 == n / 2;
        BitAndSelf(n / 2);
      }
    }
  }

  lemma {:induction false} PowerQuotient(n: nat, m: nat) returns (q: nat)
    requires PowerOfTwo(n) && PowerOfTwo(m) && n <= m
    ensures m == q * n
  {
    if n == 1 {
      q := m;
    } else {
      q := PowerQuotient(n / 2, m / 2);
      assert m == 2 * (m / 2) && n == 2 * (n / 2);
    }
  }

  lemma TwoTo32IsPower()
    ensures PowerOfTwo(0x1_0000_0000)
  {
    assert PowerOfTwo(0x1_0000) by {
      assert PowerOfTwo(0x100);
    }
    assert PowerOfTwo(0x100_0000);
  }

  lemma MulStep(a: nat, b: nat, n: nat)
    requires a < b
    ensures a * n + n <= b * n
  {
    assert a * n + n == (a + 1) * n;
  }

  lemma {:induction false} ProductAtLeast(m: nat, p: nat)
    requires p >= 1
    ensures m * p >= m
  {
    if m > 0 {
      ProductAtLeast(m - 1, p);
      assert m * p == (m - 1) * p + p;
    }
  }

  lemma QuotientBelow(x: nat, n: nat, m: nat)
    requires n > 0
    ensures x / n < m <==> x < m * n
  {
    var q, r := x / n, x % n;
    assert x == q * n + r;
    if q < m {
      MulStep(q, m, n);
    } else if m < q {
      MulStep(m, q, n);
    }
  }

  /** The quotient and remainder of a number written as `log * n + segment`. */
  lemma DivMod(log: nat, segment: nat, n: nat)
    requires segment < n
    ensures (log * n + segment) / n == log && (log * n + segment) % n == segment
  {
    var x := log * n + segment;
    MulStep(log, log + 1, n);
    QuotientBelow(x, n, log + 1);
    QuotientBelow(x, n, log);
    assert x == (x / n) * n + x % n;
  }

  const DEFAULT_SEGMENT_SIZE := 0x100_0000

  lemma DefaultSizeIsValid()
    ensures ValidSegmentSize(DEFAULT_SEGMENT_SIZE)
  {
    hide BitAnd;
    assert PowerOfTwo(0x100);
    assert PowerOfTwo(0x1_0000);
    assert PowerOfTwo(DEFAULT_SEGMENT_SIZE);
    BitTrickIsPowerOfTwo(DEFAULT_SEGMENT_SIZE);
  }

  lemma SegmentBounds(size: int)
    requires ValidSegmentSize(size)
    ensures 4 <= SegmentsPerLog(size) <= 4096
  {
  }

  /** A valid segment size divides a log id exactly. */
  lemma SegmentsFillLog(size: int)
    requires ValidSegmentSize(size)
    ensures SegmentsPerLog(size) * size == 0x1_0000_0000
  {
    BitTrickIsPowerOfTwo(size);
    TwoTo32IsPower();
    var q := PowerQuotient(size, 0x1_0000_0000);
    DivMod(q, 0, size);
  }

  // ---------------------------------------------------------------- hexadecimal

  predicate IsHexDigit(c: char) {
    '0' <= c <= '9' || 'A' <= c <= 'F' || 'a' <= c <= 'f'
  }

  predicate AllHex(s: string) {
    forall k :: 0 <= k < |s| ==> IsHexDigit(s[k])
  }

  /** `isHex`: the empty string is not hexadecimal. */
  predicate IsHex(s: string) {
    s != "" && AllHex(s)
  }

  function HexDigit(d: int): (c: char)
    requires 0 <= d < 16
    ensures IsHexDigit(c)
  {
    if d < 10 then '0' + d as char else 'A' + (d - 10) as char
  }

  function DigitValue(c: char): (d: int)
    requires IsHexDigit(c)
    ensures 0 <= d < 16
  {
    if '0' <= c <= '9' then (c - '0') as int
    else if 'A' <= c <= 'F' then (c - 'A') as int + 10
    else (c - 'a') as int + 10
  }

  function UpperDigit(c: char): char {
    if 'a' <= c <= 'f' then c - 'a' + 'A' else c
  }

  function Upper(s: string): (u: string)
    ensures |u| == |s|
    ensures forall k :: 0 <= k < |s| ==> u[k] == UpperDigit(s[k])
  {
    seq(|s|, k requires 0 <= k < |s| => UpperDigit(s[k]))
  }

  function Power16(width: nat): (p: int)
    ensures p >= 1
  {
    if width == 0 then 1 else 16 * Power16(width - 1)
  }

  /** `%0<width>X` for values that fit the width. */
  function Hex(v: nat, width: nat): (s: string)
    ensures |s| == width && AllHex(s)
  {
    if width == 0 then "" else Hex(v / 16, width - 1) + [HexDigit(v % 16)]
  }

  function HexValue(s: string): (v: nat)
    requires AllHex(s)
  {
    if s == "" then 0 else 16 * HexValue(s[..|s| - 1]) + DigitValue(s[|s| - 1])
  }

  lemma {:induction false} ValueOfHex(v: nat, width: nat)
    requires v < Power16(width)
    ensures HexValue(Hex(v, width)) == v
  {
    if width > 0 {
      ValueOfHex(v / 16, width - 1);
      var s := Hex(v, width);
      assert s[..|s| - 1] == Hex(v / 16, width - 1);
      assert DigitValue(HexDigit(v % 16)) == v % 16;
    }
  }

  lemma {:induction false} HexOfValue(s: string)
    requires AllHex(s)
    ensures HexValue(s) < Power16(|s|)
    ensures Hex(HexValue(s), |s|) == Upper(s)
  {
    if s != "" {
      var front, last := s[..|s| - 1], s[|s| - 1];
      HexOfValue(front);
      assert HexValue(s) / 16 == HexValue(front) && HexValue(s) % 16 == DigitValue(last);
      assert HexDigit(DigitValue(last)) == UpperDigit(last);
      assert Upper(s) == Upper(front) + [UpperDigit(last)];
    }
  }

  /** Equally wide hexadecimal numerals sort as their values do. */
  lemma {:induction false} HexOrder(a: nat, b: nat, width: nat)
    requires a < Power16(width) && b < Power16(width)
    ensures Less(Hex(a, width), Hex(b, width)) <==> a < b
    decreases width
  {
    if width > 0 {
      HexOrder(a / 16, b / 16, width - 1);
      HexOrder(b / 16, a / 16, width - 1);
      if a / 16 != b / 16 {
        ValueOfHex(a / 16, width - 1);
        ValueOfHex(b / 16, width - 1);
      }
      var x, y := [HexDigit(a % 16)], [HexDigit(b % 16)];
      LessConcat(Hex(a / 16, width - 1), Hex(b / 16, width - 1), x, y);
      assert Less(x, y) <==> a % 16 < b % 16;
    }
  }

  lemma Widths()
    ensures Power16(8) == 0x1_0000_0000
    ensures Power16(16) == 0x1_0000_0000_0000_0000
  {
    assert Power16(4) == 0x1_0000;
    assert Power16(12) == 0x1_0000 * 0x1_0000_0000;
  }

  /** `parseHex32`. */
  function ParseHex32(s: string): (r: Option<U32>)
    ensures r.Some? <==> |s| == 8 && AllHex(s)
  {
    if |s| != 8 || !IsHex(s) then None
    else
      HexOfValue(s);
      Widths();
      Some(HexValue(s))
  }

  // ---------------------------------------------------------------- positions and names

  function WalPosition(timeline: U32, log: U32, segment: U32, size: int): Result<U64, NameError> {
    if timeline == 0 || !ValidSegmentSize(size) then Err(BadContext)
    else if segment >= SegmentsPerLog(size) then Err(SegmentRollover)
    else
      SegmentBounds(size);
      PositionBound(log, segment, SegmentsPerLog(size));
      Ok(log * SegmentsPerLog(size) + segment)
  }

  lemma PositionBound(log: U32, segment: nat, n: int)
    requires 1 <= n <= 4096 && segment < n
    ensures 0 <= log * n + segment < 0x1_0000_0000 * n <= MAX_UINT64
  {
    MulStep(log, 0x1_0000_0000, n);
  }

  /** `fmt.Sprintf("%08X%08X%08X", ...)`. */
  function NameText(timeline: U32, log: U32, segment: U32): (s: string)
    ensures |s| == 24 && AllHex(s)
  {
    Hex(timeline, 8) + Hex(log, 8) + Hex(segment, 8)
  }

  function LogOf(position: nat, n: int): nat
    requires n > 0
  {
    position / n
  }

  function SegmentOf(position: nat, n: int): (r: nat)
    requires n > 0
    ensures r < n
  {
    position % n
  }

  function WalName(timeline: U32, position: U64, size: int): Result<string, NameError> {
    if timeline == 0 || !ValidSegmentSize(size) then Err(BadContext)
    else
      SegmentBounds(size);
      var log := LogOf(position, SegmentsPerLog(size));
      if log > MAX_UINT32 then Err(BeyondNameRange)
      else Ok(NameText(timeline, log, SegmentOf(position, SegmentsPerLog(size))))
  }

  datatype ParsedName = ParsedName(timeline: U32, position: U64)

  /** The three numeric components of 24 hexadecimal digits. */
  function Components(name: string): (U32, U32, U32)
    requires |name| == 24 && AllHex(name)
  {
    (ParseHex32(name[..8]).value, ParseHex32(name[8..16]).value, ParseHex32(name[16..24]).value)
  }

  /** The three components of a name are read one by one. */
  lemma ThreeParts(a: string, b: string, c: string)
    requires |a| == |b| == |c| == 8 && AllHex(a) && AllHex(b) && AllHex(c)
    ensures var name := a + b + c;
            |name| == 24 && IsHex(name) && Components(name) == (ParseHex32(a).value, ParseHex32(b).value, ParseHex32(c).value)
  {
    hide ParseHex32;
    var name := a + b + c;
    assert name[..8] == a && name[8..16] == b && name[16..24] == c;
  }

  function ParseWalName(name: string, size: int): Result<ParsedName, NameError> {
    if |name| != 24 || !IsHex(name) then Err(BadName)
    else
      var (timeline, log, segment) := Components(name);
      var position := WalPosition(timeline, log, segment, size);
      if position.Err? then Err(position.error) else Ok(ParsedName(timeline, position.value))
  }

  lemma ComponentsOfText(timeline: U32, log: U32, segment: U32)
    ensures Components(NameText(timeline, log, segment)) == (timeline, log, segment)
  {
    Widths();
    ValueOfHex(timeline, 8);
    ValueOfHex(log, 8);
    ValueOfHex(segment, 8);
    var name := NameText(timeline, log, segment);
    assert name[..8] == Hex(timeline, 8) && name[8..16] == Hex(log, 8) && name[16..24] == Hex(segment, 8);
  }

  lemma TextOfComponents(name: string)
    requires |name| == 24 && AllHex(name)
    ensures var (timeline, log, segment) := Components(name); NameText(timeline, log, segment) == Upper(name)
  {
    hide Hex, HexValue, Upper;
    var a, b, c := name[..8], name[8..16], name[16..24];
    HexOfValue(a);
    HexOfValue(b);
    HexOfValue(c);
    assert Upper(name) == Upper(a) + Upper(b) + Upper(c);
  }

  lemma TextOrder(t1: U32, l1: U32, s1: U32, t2: U32, l2: U32, s2: U32)
    ensures Less(NameText(t1, l1, s1), NameText(t2, l2, s2))
            <==> t1 < t2 || (t1 == t2 && (l1 < l2 || (l1 == l2 && s1 < s2)))
  {
    Widths();
    HexOrder(t1, t2, 8);
    HexOrder(l1, l2, 8);
    HexOrder(s1, s2, 8);
    LessConcat(Hex(t1, 8) + Hex(l1, 8), Hex(t2, 8) + Hex(l2, 8), Hex(s1, 8), Hex(s2, 8));
    LessConcat(Hex(t1, 8), Hex(t2, 8), Hex(l1, 8), Hex(l2, 8));
    HexInjective(t1, t2, 8);
    HexInjective(l1, l2, 8);
    if Hex(t1, 8) + Hex(l1, 8) == Hex(t2, 8) + Hex(l2, 8) {
      assert (Hex(t1, 8) + Hex(l1, 8))[..8] == (Hex(t2, 8) + Hex(l2, 8))[..8];
      assert (Hex(t1, 8) + Hex(l1, 8))[8..] == (Hex(t2, 8) + Hex(l2, 8))[8..];
    }
  }

  lemma HexInjective(a: nat, b: nat, width: nat)
    requires a < Power16(width) && b < Power16(width)
    ensures Hex(a, width) == Hex(b, width) <==> a == b
  {
    ValueOfHex(a, width);
    ValueOfHex(b, width);
  }

  /** Positions that have a name: those whose log id fits 32 bits. */
  predicate Nameable(position: U64, size: int) {
    ValidSegmentSize(size) && position < 0x1_0000_0000 * SegmentsPerLog(size)
  }

  /** A name exists exactly for nameable positions on a real timeline. */
  lemma NameableIffNamed(timeline: U32, position: U64, size: int)
    ensures WalName(timeline, position, size).Ok? <==> timeline != 0 && Nameable(position, size)
  {
    if ValidSegmentSize(size) {
      SegmentBounds(size);
      QuotientBelow(position, SegmentsPerLog(size), 0x1_0000_0000);
    }
  }

  lemma PositionIsNameable(timeline: U32, log: U32, segment: U32, size: int)
    requires WalPosition(timeline, log, segment, size).Ok?
    ensures Nameable(WalPosition(timeline, log, segment, size).value, size)
  {
    SegmentBounds(size);
    PositionBound(log, segment, SegmentsPerLog(size));
  }

  /** The log and segment components of a nameable position. */
  lemma NameParts(timeline: U32, position: U64, size: int) returns (log: U32, segment: U32)
    requires timeline != 0 && Nameable(position, size)
    ensures WalName(timeline, position, size) == Ok(NameText(timeline, log, segment))
    ensures WalPosition(timeline, log, segment, size) == Ok(position)
    ensures segment < SegmentsPerLog(size) && position == log * SegmentsPerLog(size) + segment
  {
    SegmentBounds(size);
    log, segment := QuotientParts(position, SegmentsPerLog(size));
  }

  lemma QuotientParts(x: nat, n: nat) returns (q: U32, r: nat)
    requires n > 0 && x < 0x1_0000_0000 * n
    ensures q == x / n && r == x % n < n
    ensures x == q * n + r
  {
    QuotientBelow(x, n, 0x1_0000_0000);
    q, r := x / n, x % n;
  }

  /** Parsing inverts naming on every representable position, across log rollover. */
  lemma ParseOfName(timeline: U32, position: U64, size: int)
    requires timeline != 0 && Nameable(position, size)
    ensures WalName(timeline, position, size).Ok?
    ensures ParseWalName(WalName(timeline, position, size).value, size) == Ok(ParsedName(timeline, position))
  {
    var log, segment := NameParts(timeline, position, size);
    ComponentsOfText(timeline, log, segment);
  }

  /** Naming a parsed name gives the name back in upper case. */
  lemma NameOfParse(name: string, size: int)
    requires ParseWalName(name, size).Ok?
    ensures var p := ParseWalName(name, size).value;
            WalName(p.timeline, p.position, size) == Ok(Upper(name))
  {
    TextOfComponents(name);
    var (timeline, log, segment) := Components(name);
    SegmentBounds(size);
    DivMod(log, segment, SegmentsPerLog(size));
  }

  /** Byte order of names is (timeline, position) order, even where a log id rolls over. */
  lemma NameOrder(t1: U32, p1: U64, t2: U32, p2: U64, size: int)
    requires t1 != 0 && t2 != 0 && Nameable(p1, size) && Nameable(p2, size)
    ensures WalName(t1, p1, size).Ok? && WalName(t2, p2, size).Ok?
    ensures Less(WalName(t1, p1, size).value, WalName(t2, p2, size).value)
            <==> t1 < t2 || (t1 == t2 && p1 < p2)
  {
    var l1, s1 := NameParts(t1, p1, size);
    var l2, s2 := NameParts(t2, p2, size);
    TextOrder(t1, l1, s1, t2, l2, s2);
    PositionOrder(l1, s1, l2, s2, SegmentsPerLog(size));
  }

  /** Linear positions order (log, segment) pairs lexicographically. */
  lemma PositionOrder(l1: nat, s1: nat, l2: nat, s2: nat, n: nat)
    requires s1 < n && s2 < n
    ensures l1 * n + s1 < l2 * n + s2 <==> l1 < l2 || (l1 == l2 && s1 < s2)
  {
    if l1 < l2 {
      MulStep(l1, l2, n);
    } else if l2 < l1 {
      MulStep(l2, l1, n);
    }
  }
}
