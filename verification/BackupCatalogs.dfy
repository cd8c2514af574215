// The catalog of backup directories (catalog.go, Analyze). What the metadata of one directory says is a parameter.
module BackupCatalogs {
  import opened Results
  import opened Store
  import opened Text
  import opened BarmanFormat
  import opened Backups
  import Evidence
  import Sorting

  const NUL := 0 as char

  /** `readBackup` with `structuralState`: what the listed objects of one directory amount to. */
  type DirectoryReader = (string, string, seq<Object>) -> Backup

  datatype Directory = Directory(server: string, id: string)

  /** `backupObjectKey`, and the key under which Analyze gathers the objects of a directory. */
  function CompositeOf(key: string): Option<string> {
    if BackupObject(key) then Some(Composite(Directory(Split(key)[0], Split(key)[2]))) else None
  }

  function Composite(d: Directory): string {
    d.server + [NUL] + d.id
  }

  /** `strings.Cut` at the first NUL. */
  function CutComposite(c: string): Directory {
    if c == "" then Directory("", "")
    else if c[0] == NUL then Directory("", c[1..])
    else
      var rest := CutComposite(c[1..]);
      Directory([c[0]] + rest.server, rest.id)
  }

  lemma {:induction false} CutOfComposite(d: Directory)
    requires NUL !in d.server
    ensures CutComposite(Composite(d)) == d
    decreases |d.server|
  {
    var c := Composite(d);
    if d.server == "" {
      assert c[1..] == d.id;
    } else {
      CutOfComposite(Directory(d.server[1..], d.id));
      assert c[1..] == Composite(Directory(d.server[1..], d.id));
    }
  }

  lemma {:induction false} CompositeOfCut(c: string)
    requires NUL in c
    ensures Composite(CutComposite(c)) == c
  {
    if c[0] != NUL {
      CompositeOfCut(c[1..]);
      assert c == [c[0]] + c[1..];
    }
  }

  // ---------------------------------------------------------------- one directory

  function InfoPath(d: Directory): string {
    d.server + "/base/" + d.id + "/backup.info"
  }

  predicate ContainsKey(objects: seq<Object>, key: string) {
    exists k :: 0 <= k < |objects| && objects[k].key == key
  }

  /** The objects gathered under one composite key, in listing order. */
  function Gathered(objects: seq<Object>, c: string): seq<Object> {
    if objects == [] then []
    else
      var front, last := Gathered(objects[..|objects| - 1], c), objects[|objects| - 1];
      if CompositeOf(last.key) == Some(c) then front + [last] else front
  }

  function MissingMetadata(d: Directory): Backup {
    Backup(d.server, d.id, "", Evidence.Unknown, "", "", "", 0, 0, 0, 0, NO_NOTES)
  }

  function BackupAt(objects: seq<Object>, read: DirectoryReader, c: string): (b: Backup)
    ensures b.server == CutComposite(c).server && b.id == CutComposite(c).id
  {
    var d, listed := CutComposite(c), Gathered(objects, c);
    if !ContainsKey(listed, InfoPath(d)) then MissingMetadata(d)
    else read(d.server, d.id, listed).(server := d.server, id := d.id)
  }

  // ---------------------------------------------------------------- every directory

  predicate BackupBefore(a: Backup, b: Backup) {
    Less(a.server, b.server) || (a.server == b.server && Less(a.id, b.id))
  }

  ghost predicate HasComposite(objects: seq<Object>, c: string) {
    exists k :: 0 <= k < |objects| && CompositeOf(objects[k].key) == Some(c)
  }

  /** One backup for each of these directories. */
  ghost predicate BackupsAt(backups: seq<Backup>, objects: seq<Object>, read: DirectoryReader, composites: set<string>) {
    && (forall b :: b in backups ==> exists c :: c in composites && b == BackupAt(objects, read, c))
    && (forall c :: c in composites ==> BackupAt(objects, read, c) in backups)
  }

  /** What Analyze returns: one backup for each directory, strictly sorted by server and identifier. */
  ghost predicate CatalogOf(backups: seq<Backup>, objects: seq<Object>, read: DirectoryReader) {
    && Sorting.StrictlySorted(BackupBefore, backups)
    && (forall b :: b in backups ==> exists c :: HasComposite(objects, c) && b == BackupAt(objects, read, c))
    && (forall c :: HasComposite(objects, c) ==> BackupAt(objects, read, c) in backups)
  }

  lemma CompositeHasNul(objects: seq<Object>, c: string)
    requires HasComposite(objects, c)
    ensures NUL in c
  {
    hide Split;
    var k :| 0 <= k < |objects| && CompositeOf(objects[k].key) == Some(c);
    var d := Directory(Split(objects[k].key)[0], Split(objects[k].key)[2]);
    assert Composite(d)[|d.server|] == NUL;
  }

  /** Different directories give backups that differ in server or identifier. */
  lemma DirectoriesDiffer(objects: seq<Object>, read: DirectoryReader, c: string, d: string)
    requires HasComposite(objects, c) && HasComposite(objects, d) && c != d
    ensures var a, b := BackupAt(objects, read, c), BackupAt(objects, read, d); BackupBefore(a, b) || BackupBefore(b, a)
  {
    CompositeHasNul(objects, c);
    CompositeHasNul(objects, d);
    CompositeOfCut(c);
    CompositeOfCut(d);
    hide BackupAt, HasComposite, CutComposite, Composite;
    var a, b := CutComposite(c), CutComposite(d);
    assert a != b;
    LessTotal(a.server, b.server);
    LessTotal(a.id, b.id);
  }

  lemma BackupBeforeIsOrder()
    ensures Sorting.StrictWeakOrder(BackupBefore)
  {
    forall a: Backup, b: Backup | BackupBefore(a, b) ensures !BackupBefore(b, a) {
      BackupAsymmetric(a, b);
    }
    forall a: Backup, b: Backup, c: Backup | !BackupBefore(b, a) && !BackupBefore(c, b) ensures !BackupBefore(c, a) {
      BackupNotBefore(a, b, c);
    }
  }

  lemma BackupAsymmetric(a: Backup, b: Backup)
    requires BackupBefore(a, b)
    ensures !BackupBefore(b, a)
  {
    if Less(a.server, b.server) {
      LessAsymmetric(a.server, b.server);
      LessIrreflexive(a.server);
    } else {
      LessAsymmetric(a.id, b.id);
      LessIrreflexive(a.server);
    }
  }

  lemma BackupNotBefore(a: Backup, b: Backup, c: Backup)
    requires !BackupBefore(b, a) && !BackupBefore(c, b)
    ensures !BackupBefore(c, a)
  {
    hide Less;
    LessTotal(a.server, b.server);
    LessTotal(b.server, c.server);
    LessTotal(a.id, b.id);
    LessTotal(b.id, c.id);
    if BackupBefore(c, a) {
      LessIrreflexive(a.server);
      LessIrreflexive(a.id);
      if Less(c.server, a.server) {
        if Less(a.server, b.server) { LessTransitive(c.server, a.server, b.server); }
      } else {
        if a.server == b.server {
          if Less(a.id, b.id) { LessTransitive(c.id, a.id, b.id); }
        }
      }
    }
  }

  lemma GroupOneMore(objects: seq<Object>, k: nat)
    requires k < |objects|
    ensures forall c :: HasComposite(objects[..k + 1], c) <==> HasComposite(objects[..k], c) || CompositeOf(objects[k].key) == Some(c)
    ensures forall c :: Gathered(objects[..k + 1], c)
                        == if CompositeOf(objects[k].key) == Some(c) then Gathered(objects[..k], c) + [objects[k]] else Gathered(objects[..k], c)
    ensures forall c :: !HasComposite(objects[..k], c) ==> Gathered(objects[..k], c) == []
  {
    hide CompositeOf;
    var front, all := objects[..k], objects[..k + 1];
    assert all[..k] == front && all[k] == objects[k];
    assert forall j :: 0 <= j < k ==> all[j] == front[j];
    forall c | !HasComposite(front, c) ensures Gathered(front, c) == [] {
      NothingGathered(front, c);
    }
  }

  lemma {:induction false} NothingGathered(objects: seq<Object>, c: string)
    requires !HasComposite(objects, c)
    ensures Gathered(objects, c) == []
  {
    hide CompositeOf;
    if objects != [] {
      var n := |objects| - 1;
      assert forall j :: 0 <= j < n ==> objects[..n][j] == objects[j];
      NothingGathered(objects[..n], c);
    }
  }

  ghost predicate Grouped(groups: map<string, seq<Object>>, objects: seq<Object>) {
    forall c :: (c in groups <==> HasComposite(objects, c)) && (c in groups ==> groups[c] == Gathered(objects, c))
  }

  /** Files one more object under its directory. */
  lemma FileOneMore(groups: map<string, seq<Object>>, objects: seq<Object>, k: nat)
    requires k < |objects| && Grouped(groups, objects[..k])
    ensures var c := CompositeOf(objects[k].key);
            Grouped(if c.None? then groups
                    else groups[c.value := (if c.value in groups then groups[c.value] else []) + [objects[k]]], objects[..k + 1])
  {
    hide HasComposite, Gathered, CompositeOf;
    GroupOneMore(objects, k);
  }

  /** Groups the listed objects by directory. */
  method GroupDirectories(objects: seq<Object>) returns (groups: map<string, seq<Object>>)
    ensures Grouped(groups, objects)
  {
    groups := map[];
    for k := 0 to |objects|
      invariant Grouped(groups, objects[..k])
    {
      hide Grouped, CompositeOf;
      FileOneMore(groups, objects, k);
      var c := CompositeOf(objects[k].key);
      if c.Some? {
        groups := groups[c.value := (if c.value in groups then groups[c.value] else []) + [objects[k]]];
      }
    }
    assert objects[..|objects|] == objects;
  }

  lemma AddBackup(backups: seq<Backup>, objects: seq<Object>, read: DirectoryReader, composites: set<string>, c: string)
    requires BackupsAt(backups, objects, read, composites) && Sorting.Comparable(BackupBefore, backups)
    requires HasComposite(objects, c) && c !in composites && forall d :: d in composites ==> HasComposite(objects, d)
    ensures var all := backups + [BackupAt(objects, read, c)];
            BackupsAt(all, objects, read, composites + {c}) && Sorting.Comparable(BackupBefore, all)
  {
    hide BackupAt, HasComposite;
    var b := BackupAt(objects, read, c);
    forall x, y | x in backups && y in [b] ensures BackupBefore(x, y) || BackupBefore(y, x) {
      var d :| d in composites && x == BackupAt(objects, read, d);
      DirectoriesDiffer(objects, read, c, d);
    }
    hide BackupBefore;
    Sorting.ComparableConcat(BackupBefore, backups, [b]);
    assert b in backups + [b];
  }

  /** `Analyze`: one backup for each directory, whatever order the map yields them in. */
  method Analyze(objects: seq<Object>, read: DirectoryReader) returns (backups: seq<Backup>)
    ensures CatalogOf(backups, objects, read)
  {
    hide Sorting.Comparable, Sorting.StrictlySorted, Sorting.Sort, BackupBefore, HasComposite, Gathered, CutComposite;
    var groups := GroupDirectories(objects);
    var todo, values := groups.Keys, [];
    assert Sorting.Comparable(BackupBefore, []) by {
      NothingComparable();
    }
    while todo != {}
      invariant todo <= groups.Keys
      invariant BackupsAt(values, objects, read, groups.Keys - todo) && Sorting.Comparable(BackupBefore, values)
    {
      hide BackupsAt;
      var composite :| composite in todo;
      var d, listed := CutComposite(composite), groups[composite];
      var b := if !ContainsKey(listed, InfoPath(d)) then MissingMetadata(d)
               else read(d.server, d.id, listed).(server := d.server, id := d.id);
      AddBackup(values, objects, read, groups.Keys - todo, composite);
      assert groups.Keys - (todo - {composite}) == groups.Keys - todo + {composite};
      values, todo := values + [b], todo - {composite};
    }
    assert groups.Keys - todo == groups.Keys;
    BackupBeforeIsOrder();
    Sorting.SortStrict(BackupBefore, values);
    backups := Sorting.Sort(BackupBefore, values);
  }

  lemma NothingComparable()
    ensures Sorting.Comparable(BackupBefore, [])
  {
  }

  // ---------------------------------------------------------------- what a catalog guarantees

  predicate DistinctIn(backups: seq<Backup>, server: string) {
    forall i, j :: 0 <= i < |backups| && i < j < |backups| && backups[i].server == backups[j].server == server ==>
      backups[i].id != backups[j].id
  }

  /** Each identifier occurs once in its scope. */
  lemma CatalogIsDistinct(backups: seq<Backup>, objects: seq<Object>, read: DirectoryReader, server: string)
    requires CatalogOf(backups, objects, read)
    ensures DistinctIn(backups, server)
  {
    hide HasComposite, BackupAt;
    forall i, j | 0 <= i < |backups| && i < j < |backups| && backups[i].server == backups[j].server == server
      ensures backups[i].id != backups[j].id
    {
      assert BackupBefore(backups[i], backups[j]);
      LessIrreflexive(server);
      LessIrreflexive(backups[i].id);
    }
  }

  function CompositesOf(objects: seq<Object>): set<string> {
    if objects == [] then {}
    else
      var front, c := CompositesOf(objects[..|objects| - 1]), CompositeOf(objects[|objects| - 1].key);
      if c.Some? then front + {c.value} else front
  }

  lemma {:induction false} CompositesCounted(objects: seq<Object>)
    ensures |CompositesOf(objects)| <= |objects| && forall c :: c in CompositesOf(objects) <==> HasComposite(objects, c)
  {
    hide CompositeOf;
    if objects != [] {
      var n := |objects| - 1;
      CompositesCounted(objects[..n]);
      assert forall j :: 0 <= j < n ==> objects[..n][j] == objects[j];
      assert HasComposite(objects, CompositeOf(objects[n].key).value) <== CompositeOf(objects[n].key).Some?;
    }
  }

  /** A strictly sorted list of backups at some directories is no longer than there are directories. */
  lemma {:induction false} NoMoreThanDirectories(backups: seq<Backup>, objects: seq<Object>, read: DirectoryReader, composites: set<string>)
    requires Sorting.StrictlySorted(BackupBefore, backups)
    requires forall b :: b in backups ==> exists c :: c in composites && b == BackupAt(objects, read, c)
    ensures |backups| <= |composites|
  {
    hide BackupAt;
    if backups != [] {
      var n := |backups| - 1;
      assert backups[n] in backups;
      var c :| c in composites && backups[n] == BackupAt(objects, read, c);
      forall b | b in backups[..n] ensures exists d :: d in composites - {c} && b == BackupAt(objects, read, d) {
        var k :| 0 <= k < n && backups[k] == b;
        assert backups[k] in backups;
        BackupAsymmetric(backups[k], backups[n]);
        var d :| d in composites && b == BackupAt(objects, read, d);
      }
      NoMoreThanDirectories(backups[..n], objects, read, composites - {c});
    }
  }

  /** So there are at most as many backups as objects. */
  lemma CatalogIsBounded(backups: seq<Backup>, objects: seq<Object>, read: DirectoryReader)
    requires CatalogOf(backups, objects, read)
    ensures |backups| <= |objects|
  {
    hide HasComposite, BackupAt, CompositesOf, Sorting.StrictlySorted;
    CompositesCounted(objects);
    NoMoreThanDirectories(backups, objects, read, CompositesOf(objects));
  }

  /** The server of a backup is that of one of its objects, where server names hold no NUL. */
  lemma CatalogServer(backups: seq<Backup>, objects: seq<Object>, read: DirectoryReader, b: Backup) returns (k: int)
    requires CatalogOf(backups, objects, read) && b in backups
    requires forall j :: 0 <= j < |objects| ==> NUL !in Split(objects[j].key)[0]
    ensures 0 <= k < |objects| && b.server == Split(objects[k].key)[0]
  {
    hide BackupAt, Split;
    var c :| HasComposite(objects, c) && b == BackupAt(objects, read, c);
    k :| 0 <= k < |objects| && CompositeOf(objects[k].key) == Some(c);
    CutOfComposite(Directory(Split(objects[k].key)[0], Split(objects[k].key)[2]));
  }

  /** The listed objects determine the catalog. */
  lemma CatalogUnique(a: seq<Backup>, b: seq<Backup>, objects: seq<Object>, read: DirectoryReader)
    requires CatalogOf(a, objects, read) && CatalogOf(b, objects, read)
    ensures a == b
  {
    hide HasComposite, BackupAt, BackupBefore;
    BackupBeforeIsOrder();
    Sorting.StrictUnique(BackupBefore, a, b);
  }
}
