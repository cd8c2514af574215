// Barman Cloud's scope layout (format.go).
module BarmanFormat {
  import opened Results
  import opened Store
  import opened Text
  import opened WalClassify
  import opened WalNames
  import opened WalValidation

  datatype Match = Match(name: string, recognized: bool)

  /** `strings.SplitN(s, "/", 3)`. */
  function SplitThree(s: string): (parts: seq<string>)
    ensures 0 < |parts| <= 3 && parts[0] == Split(s)[0]
  {
    var parts := Split(s);
    if |parts| <= 3 then parts else parts[..2] + [Join(parts[2..])]
  }

  /** `NewScopeMatcher` accepts valid server names, each once. */
  predicate ValidConfigured(configured: seq<string>) {
    && (forall k :: 0 <= k < |configured| ==> ValidName(configured[k]))
    && forall i, j :: 0 <= i < |configured| && i < j < |configured| ==> configured[i] != configured[j]
  }

  function MatchKey(configured: seq<string>, key: string): Option<Match> {
    var parts := SplitThree(key);
    if |parts| < 2 || !ValidName(parts[0]) then None
    else
      var recognized := |parts| == 3 && parts[2] != "" && (parts[1] == "base" || parts[1] == "wals");
      if configured != [] then if parts[0] in configured then Some(Match(parts[0], recognized)) else None
      else if recognized then Some(Match(parts[0], true)) else None
  }

  /** A matched key belongs to a valid scope: a configured one, or one whose layout is recognized. */
  lemma MatchedScope(configured: seq<string>, key: string)
    requires MatchKey(configured, key).Some?
    ensures var m := MatchKey(configured, key).value;
            && ValidName(m.name) && Split(key)[0] == m.name
            && (configured != [] ==> m.name in configured) && (configured == [] ==> m.recognized)
  {
  }

  /** The scope an object matches is valid, and the server its WAL facts belong to. */
  lemma MatchedServer(configured: seq<string>, entry: Object)
    requires MatchKey(configured, entry.key).Some? && Classify(entry).Some?
    ensures Classify(entry).value.server == MatchKey(configured, entry.key).value.name && ValidName(Classify(entry).value.server)
    ensures configured != [] ==> Classify(entry).value.server in configured
  {
    MatchedScope(configured, entry.key);
    hide ValidName, IsHex, ParseHex32, EqualFold, StripCompression;
  }

  /** `barmanBackupObject`: the key lies below a backup directory. */
  predicate BackupObject(key: string) {
    var parts := Split(key);
    |parts| >= 4 && parts[0] != "" && parts[1] == "base" && parts[2] != ""
  }
}
