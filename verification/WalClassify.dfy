// Recognition of one Barman `server/wals/...` object key (wal.go).
module WalClassify {
  import opened Results
  import opened Store
  import opened Text
  import opened WalNames

  datatype WalClass = Segment | Partial | History | BackupHistory | UnknownClass | Duplicate

  datatype Note =
    | Unrecognized
    | UnsupportedCompression
    | HistoryOutsideRoot
    | MalformedHistoryName
    | HistoryMetadata
    | OutsideHashDirectory
    | MalformedSegmentName
    | CompleteSegment
    | PartialSegment
    | BackupHistoryMetadata
    | MalformedArchiveName
    | DuplicateRepresentation
    | OutOfOrderListing

  datatype Classified = Classified(
    key: string, server: string, name: string, compression: string,
    kind: WalClass, timeline: U32, log: U32, segment: U32, lastModified: Time, note: Note)

  datatype Stripped = Stripped(name: string, compression: string, supported: bool)

  /** `strings.LastIndexByte(s, '.')`: -1 when there is no dot. */
  function LastDot(s: string): (k: int)
    ensures -1 <= k < |s|
    ensures k == -1 <==> '.' !in s
    ensures k >= 0 ==> s[k] == '.' && '.' !in s[k + 1..]
  {
    if s == "" then -1
    else if s[|s| - 1] == '.' then |s| - 1
    else
      assert s == s[..|s| - 1] + [s[|s| - 1]];
      LastDot(s[..|s| - 1])
  }

  function StripCompression(name: string): (r: Stripped)
    ensures r.name <= name
  {
    if HasSuffix(name, ".snappy") then Stripped(name[..|name| - 7], "snappy", true)
    else if HasSuffix(name, ".lz4") then Stripped(name[..|name| - 4], "lz4", true)
    else if HasSuffix(name, ".bz2") then Stripped(name[..|name| - 4], "bzip2", true)
    else if HasSuffix(name, ".zst") then Stripped(name[..|name| - 4], "zstd", true)
    else if HasSuffix(name, ".gz") then Stripped(name[..|name| - 3], "gzip", true)
    else if HasSuffix(name, ".xz") then Stripped(name[..|name| - 3], "xz", true)
    else
      var dot := LastDot(name);
      if dot < 0 then Stripped(name, "none", true)
      else
        var tail := name[dot..];
        if tail != ".partial" && tail != ".history" && tail != ".backup" && !(|tail| == 9 && IsHex(tail[1..]))
        then Stripped(name, "", false)
        else Stripped(name, "none", true)
  }

  /** `strings.EqualFold` where the left operand is hexadecimal, the only way the source consults it. */
  predicate EqualFold(left: string, right: string) {
    Upper(left) == Upper(right)
  }

  function Classify(entry: Object): Option<Classified> {
    var parts := Split(entry.key);
    if |parts| < 3 || parts[0] == "" || parts[1] != "wals" then None
    else
      var base := Classified(entry.key, parts[0], "", "", UnknownClass, 0, 0, 0, entry.lastModified, Unrecognized);
      if |parts| != 3 && |parts| != 4 then Some(base)
      else
        var stripped := StripCompression(parts[|parts| - 1]);
        var named := base.(name := stripped.name, compression := stripped.compression);
        if !stripped.supported then Some(named.(note := UnsupportedCompression))
        else Some(ClassifyName(named, parts))
  }

  /** The part of the classification after the compression suffix is stripped. */
  function ClassifyName(named: Classified, parts: seq<string>): Classified
    requires |parts| == 3 || |parts| == 4
  {
    var name := named.name;
    if |name| == 16 && HasSuffix(name, ".history") then
      if |parts| != 3 then named.(note := HistoryOutsideRoot)
      else
        var timeline := ParseHex32(name[..8]);
        if timeline.None? || timeline.value == 0 then named.(note := MalformedHistoryName)
        else named.(kind := History, timeline := timeline.value, note := HistoryMetadata)
    else if |parts| != 4 || |parts[2]| != 16 || |name| < 24 || !EqualFold(parts[2], name[..16]) || !IsHex(parts[2]) then
      named.(note := OutsideHashDirectory)
    else
      var timeline, log, segment := ParseHex32(name[..8]), ParseHex32(name[8..16]), ParseHex32(name[16..24]);
      if timeline.None? || log.None? || segment.None? || timeline.value == 0 then
        named.(note := MalformedSegmentName)
      else
        var placed := named.(timeline := timeline.value, log := log.value, segment := segment.value);
        if |name| == 24 then placed.(kind := Segment, note := CompleteSegment)
        else if |name| == 32 && HasSuffix(name, ".partial") then placed.(kind := Partial, note := PartialSegment)
        else if |name| == 40 && name[24] == '.' && HasSuffix(name, ".backup") && IsHex(name[25..33]) then
          placed.(kind := BackupHistory, note := BackupHistoryMetadata)
        else placed.(note := MalformedArchiveName)
  }

  // ---------------------------------------------------------------- what a segment key looks like

  predicate CompressionSuffix(suffix: string) {
    suffix in ["", ".snappy", ".lz4", ".bz2", ".zst", ".gz", ".xz"]
  }

  /** `server/wals/<16 digits>/<24 digits><suffix>` with a directory that agrees with the name. */
  ghost predicate SegmentKey(key: string, server: string, dir: string, name: string, suffix: string) {
    && server != "" && '/' !in server
    && |name| == 24 && AllHex(name)
    && |dir| == 16 && AllHex(dir) && EqualFold(dir, name[..16])
    && CompressionSuffix(suffix)
    && key == server + "/" + ("wals" + "/" + (dir + "/" + (name + suffix)))
  }

  /** A string that disagrees on one of its last two characters does not end in `t`. */
  lemma EndsDiffer(s: string, t: string)
    requires |t| >= 2 && |s| >= 2 && (s[|s| - 1] != t[|t| - 1] || s[|s| - 2] != t[|t| - 2])
    ensures !HasSuffix(s, t)
  {
    if |t| <= |s| {
      var tail := s[|s| - |t|..];
      assert tail[|t| - 1] == s[|s| - 1] && tail[|t| - 2] == s[|s| - 2];
    }
  }

  lemma DigitsHaveNoSuffix(name: string, t: string)
    requires AllHex(name) && t != "" && t[0] == '.'
    ensures !HasSuffix(name, t)
  {
    if |t| <= |name| {
      assert name[|name| - |t|..][0] == name[|name| - |t|];
    }
  }

  /** No two compression suffixes agree on their last two characters. */
  lemma OtherSuffix(name: string, suffix: string, t: string)
    requires suffix != "" && CompressionSuffix(suffix) && t != "" && CompressionSuffix(t) && t != suffix
    ensures !HasSuffix(name + suffix, t)
  {
    EndOfConcat(name, suffix);
    EndsDiffer(name + suffix, t);
    hide HasSuffix;
  }

  /** Stripping a supported suffix from hexadecimal digits gives the digits back. */
  lemma StripOfSuffix(name: string, suffix: string)
    requires AllHex(name) && |name| == 24 && CompressionSuffix(suffix)
    ensures StripCompression(name + suffix).supported && StripCompression(name + suffix).name == name
  {
    hide HasSuffix, AllHex, IsHex, LastDot;
    var s := name + suffix;
    forall t | t in [".snappy", ".lz4", ".bz2", ".zst", ".gz", ".xz"] && t != suffix ensures !HasSuffix(s, t) {
      if suffix == "" {
        assert s == name;
        DigitsHaveNoSuffix(name, t);
      } else {
        OtherSuffix(name, suffix, t);
      }
    }
    SuffixOfConcat(name, suffix);
    if suffix == "" {
      assert s == name;
      DigitsHaveNoDot(name);
    }
  }

  lemma DigitsHaveNoDot(name: string)
    requires AllHex(name)
    ensures '.' !in name
  {
  }

  lemma EndOfConcat(a: string, b: string)
    requires |b| >= 2
    ensures var s := a + b; s[|s| - 1] == b[|b| - 1] && s[|s| - 2] == b[|b| - 2]
  {
  }

  lemma SplitSuffix(s: string, t: string)
    requires HasSuffix(s, t)
    ensures |t| <= |s| && s == s[..|s| - |t|] + t
  {
  }

  /** Whatever was stripped, the original is the name followed by a known suffix. */
  lemma SuffixOfStrip(file: string) returns (suffix: string)
    requires StripCompression(file).supported
    ensures CompressionSuffix(suffix) && file == StripCompression(file).name + suffix
  {
    hide HasSuffix, LastDot, IsHex;
    suffix := if HasSuffix(file, ".snappy") then ".snappy"
              else if HasSuffix(file, ".lz4") then ".lz4"
              else if HasSuffix(file, ".bz2") then ".bz2"
              else if HasSuffix(file, ".zst") then ".zst"
              else if HasSuffix(file, ".gz") then ".gz"
              else if HasSuffix(file, ".xz") then ".xz"
              else "";
    if suffix != "" {
      SplitSuffix(file, suffix);
    }
  }

  /** Splitting a four-part path and joining it again. */
  lemma FourParts(key: string, a: string, b: string, c: string, d: string)
    requires '/' !in a && '/' !in b && '/' !in c && '/' !in d
    ensures key == a + "/" + (b + "/" + (c + "/" + d)) <==> Split(key) == [a, b, c, d]
  {
    SplitOfJoin(a, b + "/" + (c + "/" + d));
    SplitOfJoin(b, c + "/" + d);
    SplitOfJoin(c, d);
    SplitOfJoin(d, "");
    if Split(key) == [a, b, c, d] {
      JoinOfSplit(key);
      JoinFour(a, b, c, d);
    }
  }

  lemma JoinFour(a: string, b: string, c: string, d: string)
    ensures Join([a, b, c, d]) == a + "/" + (b + "/" + (c + "/" + d))
  {
    assert [c, d][1..] == [d];
    assert Join([c, d]) == c + "/" + d;
    assert [b, c, d][1..] == [c, d];
    assert Join([b, c, d]) == b + "/" + (c + "/" + d);
    assert [a, b, c, d][1..] == [b, c, d];
  }

  lemma NoSlash(name: string, suffix: string)
    requires AllHex(name) && CompressionSuffix(suffix)
    ensures '/' !in name + suffix
  {
  }

  /** A key built in Barman's layout from any 24 digits classifies as that very segment. */
  lemma SegmentKeyClassifies(entry: Object, server: string, dir: string, name: string, suffix: string)
    requires SegmentKey(entry.key, server, dir, name, suffix) && Components(name).0 != 0
    ensures Classify(entry).Some?
    ensures var c := Classify(entry).value;
            c.kind == Segment && c.server == server && (c.timeline, c.log, c.segment) == Components(name)
            && c.lastModified == entry.lastModified
  {
    NoSlash(name, suffix);
    NoSlash(dir, "");
    FourParts(entry.key, server, "wals", dir, name + suffix);
    StripOfSuffix(name, suffix);
  }

  lemma {:induction false} DotBeforeEnd(front: string, tail: string)
    requires '.' !in tail
    ensures LastDot(front + "." + tail) == |front|
  {
    var s := front + "." + tail;
    if tail != "" {
      var n := |tail| - 1;
      DotBeforeEnd(front, tail[..n]);
      assert s[..|s| - 1] == front + "." + tail[..n];
      assert s[|s| - 1] == tail[n];
    }
  }

  lemma HistoryIsNoCompression(front: string, t: string)
    requires t in [".snappy", ".lz4", ".bz2", ".zst", ".gz", ".xz"]
    ensures !HasSuffix(front + ".history", t)
  {
    EndOfConcat(front, ".history");
    EndsDiffer(front + ".history", t);
    hide HasSuffix;
  }

  lemma HistoryName(digits: string)
    requires |digits| == 8
    ensures StripCompression(digits + ".history") == Stripped(digits + ".history", "none", true)
  {
    hide HasSuffix, IsHex, LastDot;
    var s := digits + ".history";
    HistoryIsNoCompression(digits, ".snappy");
    HistoryIsNoCompression(digits, ".lz4");
    HistoryIsNoCompression(digits, ".bz2");
    HistoryIsNoCompression(digits, ".zst");
    HistoryIsNoCompression(digits, ".gz");
    HistoryIsNoCompression(digits, ".xz");
    DotBeforeEnd(digits, "history");
    assert s == digits + "." + "history";
    assert s[8..] == ".history";
  }

  lemma HistoryNameClassifies(named: Classified, parts: seq<string>, timeline: U32)
    requires |parts| == 3 && |named.name| == 16 && HasSuffix(named.name, ".history")
    requires ParseHex32(named.name[..8]) == Some(timeline) && timeline != 0
    ensures ClassifyName(named, parts) == named.(kind := History, timeline := timeline, note := HistoryMetadata)
  {
    hide HasSuffix, ParseHex32;
  }

  lemma HistoryParts(key: string, server: string, name: string)
    requires '/' !in server && '/' !in name && key == server + "/" + ("wals" + "/" + name)
    ensures Split(key) == [server, "wals", name]
  {
    SplitOfJoin(server, "wals" + "/" + name);
    SplitOfJoin("wals", name);
    SplitOfJoin(name, "");
    hide Split;
  }

  /** A history key of any timeline but 0 directly below `wals` classifies as the history of that timeline. */
  lemma HistoryKeyClassifies(entry: Object, server: string, digits: string, timeline: U32)
    requires server != "" && '/' !in server && ParseHex32(digits) == Some(timeline) && timeline != 0
    requires entry.key == server + "/" + ("wals" + "/" + (digits + ".history"))
    ensures Classify(entry) == Some(Classified(entry.key, server, digits + ".history", "none", History, timeline, 0, 0,
                                               entry.lastModified, HistoryMetadata))
  {
    var name := digits + ".history";
    NoSlash(digits, "");
    assert digits + "" == digits;
    HistoryParts(entry.key, server, name);
    HistoryName(digits);
    SuffixOfConcat(digits, ".history");
    assert name[..8] == digits;
    var named := Classified(entry.key, server, name, "none", UnknownClass, 0, 0, 0, entry.lastModified, Unrecognized);
    HistoryNameClassifies(named, [server, "wals", name], timeline);
    hide StripCompression, ParseHex32, HasSuffix, Split, ClassifyName;
  }

  lemma SegmentParts(entry: Object)
    requires Classify(entry).Some? && Classify(entry).value.kind == Segment
    ensures var c, parts := Classify(entry).value, Split(entry.key);
            && |parts| == 4 && parts[0] == c.server != "" && parts[1] == "wals"
            && StripCompression(parts[3]).supported && StripCompression(parts[3]).name == c.name
            && |c.name| == 24 && |parts[2]| == 16 && IsHex(parts[2]) && EqualFold(parts[2], c.name[..16])
            && ParseHex32(c.name[..8]) == Some(c.timeline) && c.timeline != 0
            && ParseHex32(c.name[8..16]) == Some(c.log) && ParseHex32(c.name[16..24]) == Some(c.segment)
  {
    hide StripCompression, HasSuffix, EqualFold, IsHex, ParseHex32, Split;
  }

  /** And nothing else does: a segment fact always comes from a key in that layout. */
  lemma ClassifiedSegmentHasKey(entry: Object) returns (dir: string, name: string, suffix: string)
    requires Classify(entry).Some? && Classify(entry).value.kind == Segment
    ensures var c := Classify(entry).value;
            SegmentKey(entry.key, c.server, dir, name, suffix)
            && (c.timeline, c.log, c.segment) == Components(name) && c.timeline != 0
  {
    SegmentParts(entry);
    hide Classify, StripCompression, EqualFold;
    var parts := Split(entry.key);
    dir, name := parts[2], Classify(entry).value.name;
    suffix := SuffixOfStrip(parts[3]);
    assert name == name[..8] + name[8..16] + name[16..24];
    assert parts == [parts[0], "wals", dir, name + suffix];
    FourParts(entry.key, parts[0], "wals", dir, name + suffix);
  }

  // ---------------------------------------------------------------- what a recognised key is made of

  lemma HexIsAscii(s: string)
    requires AllHex(s)
    ensures Ascii(s)
  {
  }

  lemma AsciiConcat(a: string, b: string)
    requires Ascii(a) && Ascii(b)
    ensures Ascii(a + b)
  {
  }

  /** Digits, and at most the endings Barman appends. */
  lemma RecognisedName(named: Classified, parts: seq<string>)
    requires |parts| == 3 || |parts| == 4
    requires named.kind == UnknownClass && ClassifyName(named, parts).kind != UnknownClass
    ensures Ascii(named.name) && (|parts| == 4 ==> Ascii(parts[2]))
  {
    var name := named.name;
    hide ParseHex32, HasSuffix, EqualFold, AllHex, Ascii;
    HexIsAscii(name[..8]);
    if |name| == 16 && HasSuffix(name, ".history") {
      SplitSuffix(name, ".history");
      AsciiIs(".history");
      AsciiConcat(name[..8], ".history");
    } else {
      HexIsAscii(parts[2]);
      HexIsAscii(name[8..16]);
      HexIsAscii(name[16..24]);
      AsciiConcat(name[..8], name[8..16]);
      AsciiConcat(name[..8] + name[8..16], name[16..24]);
      assert name[..24] == name[..8] + name[8..16] + name[16..24];
      if |name| == 24 {
        assert name[..24] == name;
      } else if |name| == 32 && HasSuffix(name, ".partial") {
        SplitSuffix(name, ".partial");
        AsciiIs(".partial");
        AsciiConcat(name[..24], ".partial");
      } else {
        SplitSuffix(name, ".backup");
        HexIsAscii(name[25..33]);
        AsciiIs(".backup");
        AsciiConcat(name[..24], ".");
        AsciiConcat(name[..24] + ".", name[25..33]);
        assert name[..33] == name[..24] + "." + name[25..33];
        AsciiConcat(name[..33], ".backup");
      }
    }
  }

  lemma AsciiIs(s: string)
    requires s in [".history", ".partial", ".backup", "."]
    ensures Ascii(s) && Ascii(".")
  {
  }

  lemma SuffixIsAscii(suffix: string)
    requires CompressionSuffix(suffix)
    ensures Ascii(suffix)
  {
  }

  lemma RecognisedFile(file: string)
    requires StripCompression(file).supported && Ascii(StripCompression(file).name)
    ensures Ascii(file)
  {
    var suffix := SuffixOfStrip(file);
    SuffixIsAscii(suffix);
    hide StripCompression, Ascii, CompressionSuffix;
    AsciiConcat(StripCompression(file).name, suffix);
  }

  /** All of a recognised key but its server is printable ASCII. */
  lemma RecognisedParts(entry: Object)
    requires Classify(entry).Some? && Classify(entry).value.kind != UnknownClass
    ensures var parts := Split(entry.key);
            parts[0] == Classify(entry).value.server && forall k :: 1 <= k < |parts| ==> Ascii(parts[k])
  {
    hide StripCompression, ClassifyName, Ascii;
    var parts := Split(entry.key);
    var file := parts[|parts| - 1];
    var stripped := StripCompression(file);
    var named := Classified(entry.key, parts[0], stripped.name, stripped.compression, UnknownClass, 0, 0, 0, entry.lastModified, Unrecognized);
    ClassifyKeepsServer(named, parts);
    RecognisedName(named, parts);
    RecognisedFile(file);
    WalsIsAscii();
  }

  lemma WalsIsAscii()
    ensures Ascii("wals")
  {
  }

  lemma ClassifyKeepsServer(named: Classified, parts: seq<string>)
    requires |parts| == 3 || |parts| == 4
    ensures ClassifyName(named, parts).server == named.server
  {
    hide ParseHex32, HasSuffix, EqualFold, IsHex;
  }
}
