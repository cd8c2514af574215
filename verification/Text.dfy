// Byte strings as the Go source compares and splits them. One `char` stands for one byte.
module Text {

  /** Go's `a < b` on strings: lexicographic by byte. */
  predicate Less(a: string, b: string) {
    b != "" && (a == "" || a[0] < b[0] || (a[0] == b[0] && Less(a[1..], b[1..])))
  }

  lemma {:induction false} LessIrreflexive(a: string)
    ensures !Less(a, a)
  {
    if a != "" {
      LessIrreflexive(a[1..]);
    }
  }

  lemma {:induction false} LessTransitive(a: string, b: string, c: string)
    requires Less(a, b) && Less(b, c)
    ensures Less(a, c)
  {
    if a != "" && a[0] == b[0] == c[0] {
      LessTransitive(a[1..], b[1..], c[1..]);
    }
  }

  lemma {:induction false} LessTotal(a: string, b: string)
    ensures Less(a, b) || a == b || Less(b, a)
  {
    if a != "" && b != "" && a[0] == b[0] {
      LessTotal(a[1..], b[1..]);
      assert a == [a[0]] + a[1..] && b == [b[0]] + b[1..];
    }
  }

  lemma LessAsymmetric(a: string, b: string)
    requires Less(a, b)
    ensures !Less(b, a)
  {
    if Less(b, a) {
      LessTransitive(a, b, a);
      LessIrreflexive(a);
    }
  }

  /** On equally long first halves, the order of two concatenations is lexicographic by halves. */
  lemma {:induction false} LessConcat(a: string, b: string, c: string, d: string)
    requires |a| == |b|
    ensures Less(a + c, b + d) <==> Less(a, b) || (a == b && Less(c, d))
  {
    if a == "" {
      assert a + c == c && b + d == d;
    } else {
      LessConcat(a[1..], b[1..], c, d);
      assert (a + c)[1..] == a[1..] + c && (b + d)[1..] == b[1..] + d;
      assert a == [a[0]] + a[1..] && b == [b[0]] + b[1..];
    }
  }

  predicate HasSuffix(s: string, suffix: string) {
    |suffix| <= |s| && s[|s| - |suffix|..] == suffix
  }

  lemma SuffixOfConcat(a: string, suffix: string)
    ensures HasSuffix(a + suffix, suffix) && (a + suffix)[..|a|] == a
  {
  }

  // ---------------------------------------------------------------- UTF-8

  /** A byte that continues a sequence of more than one. */
  predicate Continues(c: char) {
    0x80 <= c as int <= 0xBF
  }

  /** How many bytes the sequence at the start of `s` has; 0 when there is none (RFC 3629, section 4). */
  function RuneLength(s: string): (n: nat)
    requires s != ""
    ensures n <= |s|
  {
    var lead, second := s[0] as int, if |s| > 1 then s[1] as int else 0;
    if lead < 0x80 then 1
    else if 0xC2 <= lead <= 0xDF && 0x80 <= second <= 0xBF then 2
    else if |s| >= 3 && Continues(s[2])
            && ((lead == 0xE0 && 0xA0 <= second <= 0xBF) || (lead == 0xED && 0x80 <= second <= 0x9F)
                || (0xE1 <= lead <= 0xEF && lead != 0xED && 0x80 <= second <= 0xBF)) then 3
    else if |s| >= 4 && Continues(s[2]) && Continues(s[3])
            && ((lead == 0xF0 && 0x90 <= second <= 0xBF) || (0xF1 <= lead <= 0xF3 && 0x80 <= second <= 0xBF)
                || (lead == 0xF4 && 0x80 <= second <= 0x8F)) then 4
    else 0
  }

  /** `utf8.ValidString`. */
  predicate ValidUtf8(s: string)
    decreases |s|
  {
    s == "" || (RuneLength(s) > 0 && ValidUtf8(s[RuneLength(s)..]))
  }

  predicate Ascii(s: string) {
    forall k :: 0 <= k < |s| ==> 0x20 <= s[k] as int < 0x7F
  }

  lemma {:induction false} AsciiIsUtf8(s: string)
    requires Ascii(s)
    ensures ValidUtf8(s)
  {
    if s != "" {
      assert RuneLength(s) == 1;
      AsciiIsUtf8(s[1..]);
    }
  }

  /** `strings.Split(s, "/")`: the pieces between slashes, always at least one. */
  function Split(s: string): (parts: seq<string>)
    ensures |parts| > 0
    ensures forall k :: 0 <= k < |parts| ==> '/' !in parts[k] && |parts[k]| <= |s|
  {
    if s == "" then [""]
    else
      var rest := Split(s[1..]);
      if s[0] == '/' then [""] + rest else [[s[0]] + rest[0]] + rest[1..]
  }

  function Join(parts: seq<string>): string
    requires |parts| > 0
  {
    if |parts| == 1 then parts[0] else parts[0] + "/" + Join(parts[1..])
  }

  lemma {:induction false} JoinOfSplit(s: string)
    ensures Join(Split(s)) == s
  {
    if s != "" {
      JoinOfSplit(s[1..]);
      var rest := Split(s[1..]);
      assert s == [s[0]] + s[1..];
      if s[0] == '/' {
        assert ([""] + rest)[1..] == rest;
        assert "" + "/" + Join(rest) == s;
      } else {
        assert ([[s[0]] + rest[0]] + rest[1..])[1..] == rest[1..];
        if |rest| > 1 {
          assert ([s[0]] + rest[0]) + "/" + Join(rest[1..]) == [s[0]] + (rest[0] + "/" + Join(rest[1..]));
        }
      }
    }
  }

  lemma {:induction false} SplitOfJoin(a: string, b: string)
    requires '/' !in a
    ensures Split(a + "/" + b) == [a] + Split(b)
    ensures Split(a) == [a]
  {
    if a == "" {
      assert a + "/" + b == "/" + b;
    } else {
      SplitOfJoin(a[1..], b);
      assert (a + "/" + b)[1..] == a[1..] + "/" + b;
      assert a == [a[0]] + a[1..];
    }
  }
}
