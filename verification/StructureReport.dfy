/**
  The report on a package's structure (internal/activities/validate_structure.go, reportFailures and Execute),
  and what it says about the directory tree.
*/
module StructureReport {
  import opened Wrappers
  import opened Paths
  import opened PackageTree
  import opened Sip
  import opened ValidateStructure

  // The report

  function EmptyDirs(dirs: seq<DirCount>): seq<Failure> {
    if dirs == [] then []
    else EmptyDirs(dirs[..|dirs| - 1]) + if dirs[|dirs| - 1].children == 0 then [EmptyDirectory(dirs[|dirs| - 1].path)] else []
  }

  function AsInvalid(paths: seq<string>): seq<Failure> {
    seq(|paths|, i requires 0 <= i < |paths| => InvalidName(paths[i]))
  }

  function AsUnexpected(paths: seq<string>): seq<Failure> {
    seq(|paths|, i requires 0 <= i < |paths| => UnexpectedDirectory(paths[i]))
  }

  function If(c: bool, f: Failure): seq<Failure> {
    if c then [f] else []
  }

  /** The failures, in the order in which they are reported. */
  function Failures(t: Tally, sip: SIP): seq<Failure> {
    if |t.dirs| == 1 && t.fileCount == 0 then [SipIsEmpty]
    else
      EmptyDirs(t.dirs)
      + If(EmptyDirs(t.dirs) != [], RemoveEmptyDirectories)
      + AsInvalid(t.invalidNames)
      + If(!t.hasContentDir, ContentMissing)
      + If(!t.hasMetadataFile, FileMissing(Base(sip.metadataPath)))
      + If(!t.hasAreldaFile, FileMissing(SCHEMA_FILE))
      + If(IsAIP(sip.kind) && !t.hasUpdatedAreldaMDFile, FileMissing(Base(sip.updatedAreldaMDPath)))
      + If(IsAIP(sip.kind) && !t.hasLogicalMDFile, FileMissing(Base(sip.logicalMDPath)))
      + AsUnexpected(t.extraDirs)
      + If(IsDigitized(sip.kind) && t.dossierCount > 1, ManyDossiers)
  }

  method ReportEmpty(dirs: seq<DirCount>) returns (failures: seq<Failure>)
    ensures failures == EmptyDirs(dirs) + If(EmptyDirs(dirs) != [], RemoveEmptyDirectories)
  {
    failures := [];
    var hasEmptyDir := false;
    for i := 0 to |dirs|
      invariant failures == EmptyDirs(dirs[..i]) && (hasEmptyDir <==> failures != [])
    {
      assert dirs[..i + 1][..i] == dirs[..i];
      if dirs[i].children == 0 {
        failures := failures + [EmptyDirectory(dirs[i].path)];
        hasEmptyDir := true;
      }
    }
    assert dirs[..|dirs|] == dirs;
    if hasEmptyDir {
      failures := failures + [RemoveEmptyDirectories];
    }
  }

  method ReportInvalid(failures: seq<Failure>, paths: seq<string>) returns (more: seq<Failure>)
    ensures more == failures + AsInvalid(paths)
  {
    more := failures;
    for i := 0 to |paths|
      invariant more == failures + AsInvalid(paths[..i])
    {
      more := more + [InvalidName(paths[i])];
      assert AsInvalid(paths[..i + 1]) == AsInvalid(paths[..i]) + [InvalidName(paths[i])];
      Assoc(failures, AsInvalid(paths[..i]), [InvalidName(paths[i])]);
    }
    assert paths[..|paths|] == paths;
  }

  method ReportUnexpected(failures: seq<Failure>, paths: seq<string>) returns (more: seq<Failure>)
    ensures more == failures + AsUnexpected(paths)
  {
    more := failures;
    for i := 0 to |paths|
      invariant more == failures + AsUnexpected(paths[..i])
    {
      more := more + [UnexpectedDirectory(paths[i])];
      assert AsUnexpected(paths[..i + 1]) == AsUnexpected(paths[..i]) + [UnexpectedDirectory(paths[i])];
      Assoc(failures, AsUnexpected(paths[..i]), [UnexpectedDirectory(paths[i])]);
    }
    assert paths[..|paths|] == paths;
  }

  method ReportIf(failures: seq<Failure>, c: bool, f: Failure) returns (more: seq<Failure>)
    ensures more == failures + If(c, f)
  {
    more := if c then failures + [f] else failures;
    assert failures + [] == failures;
  }

  method ReportFailures(t: Tally, sip: SIP) returns (failures: seq<Failure>)
    ensures failures == Failures(t, sip)
  {
    hide EmptyDirs, AsInvalid, AsUnexpected, If, Base;
    if |t.dirs| == 1 && t.fileCount == 0 {
      return [SipIsEmpty];
    }
    failures := ReportEmpty(t.dirs);
    failures := ReportInvalid(failures, t.invalidNames);
    failures := ReportIf(failures, !t.hasContentDir, ContentMissing);
    failures := ReportIf(failures, !t.hasMetadataFile, FileMissing(Base(sip.metadataPath)));
    failures := ReportIf(failures, !t.hasAreldaFile, FileMissing(SCHEMA_FILE));
    failures := ReportIf(failures, IsAIP(sip.kind) && !t.hasUpdatedAreldaMDFile, FileMissing(Base(sip.updatedAreldaMDPath)));
    failures := ReportIf(failures, IsAIP(sip.kind) && !t.hasLogicalMDFile, FileMissing(Base(sip.logicalMDPath)));
    failures := ReportUnexpected(failures, t.extraDirs);
    failures := ReportIf(failures, IsDigitized(sip.kind) && t.dossierCount > 1, ManyDossiers);
  }

  // What a correct structure is

  predicate Exists(tree: Node, at: Location) {
    NodeAt(tree, at).Some?
  }

  predicate IsDir(tree: Node, at: Location) {
    NodeAt(tree, at).Some? && NodeAt(tree, at).value.DirNode?
  }

  predicate IsEmptyDir(tree: Node, at: Location) {
    IsDir(tree, at) && NodeAt(tree, at).value.kids == []
  }

  predicate HasInvalidName(tree: Node, at: Location) {
    Exists(tree, at) && !ValidName(NodeAt(tree, at).value.name)
  }

  predicate IsUnexpected(tree: Node, kind: Kind, n: string) {
    IsDir(tree, [n]) && n !in TopLevel(kind)
  }

  /** The required places are there. */
  predicate Complete(tree: Node, kind: Kind) {
    && Exists(tree, ContentAt(kind)) && Exists(tree, MetadataAt(kind)) && Exists(tree, XsdAt(kind))
    && (IsAIP(kind) ==> Exists(tree, UPDATED) && Exists(tree, LogicalAt(tree.name)))
  }

  ghost predicate OneDossier(tree: Node, kind: Kind) {
    forall a, b :: IsDir(tree, ContentAt(kind) + [a]) && IsDir(tree, ContentAt(kind) + [b]) ==> a == b
  }

  ghost predicate StructureOk(tree: Node, kind: Kind) {
    && (forall at :: !IsEmptyDir(tree, at))
    && (forall at :: !HasInvalidName(tree, at))
    && Complete(tree, kind)
    && (forall n :: !IsUnexpected(tree, kind, n))
    && (IsDigitized(kind) ==> OneDossier(tree, kind))
  }

  // What the report says about the tree

  lemma {:induction false} InEmptyDirs(dirs: seq<DirCount>, path: string)
    ensures EmptyDirectory(path) in EmptyDirs(dirs) <==> DirCount(path, 0) in dirs
    ensures forall f :: f in EmptyDirs(dirs) ==> f.EmptyDirectory?
    decreases |dirs|
  {
    if dirs != [] {
      InEmptyDirs(dirs[..|dirs| - 1], path);
      assert dirs == dirs[..|dirs| - 1] + [dirs[|dirs| - 1]];
    }
  }

  predicate MisnamedAt(e: Entry, rootName: string, path: string) {
    RelPath(e.at) == path && !ValidName(NameOfEntry(e, rootName))
  }

  lemma {:induction false} InInvalidNames(es: seq<Entry>, rootName: string, path: string)
    ensures path in InvalidNames(es, rootName) <==> exists e :: e in es && MisnamedAt(e, rootName, path)
    decreases |es|
  {
    hide ValidName, NameOfEntry, RelPath;
    if es != [] {
      var n := |es| - 1;
      InInvalidNames(es[..n], rootName, path);
      assert es == es[..n] + [es[n]];
      assert forall e :: e in es <==> e in es[..n] || e == es[n];
      assert es[n] in es;
      assert path in InvalidNames(es, rootName) <==> path in InvalidNames(es[..n], rootName) || MisnamedAt(es[n], rootName, path);
      hide InvalidNames, MisnamedAt;
    }
  }

  lemma {:induction false} InExtraDirs(es: seq<Entry>, kind: Kind, path: string)
    ensures path in ExtraDirs(es, kind) <==> exists i :: 0 <= i < |es| && RelPath(es[i].at) == path && ExtraDir(es[i], kind)
    decreases |es|
  {
    hide *;
    if es == [] {
      OnlyExtraDirs([], kind);
    } else {
      var n := |es| - 1;
      InExtraDirs(es[..n], kind, path);
      OneMoreExtraDir(es, kind, path);
      if i :| 0 <= i < n && RelPath(es[..n][i].at) == path && ExtraDir(es[..n][i], kind) {
        assert es[i] == es[..n][i];
      }
      if i :| 0 <= i < |es| && RelPath(es[i].at) == path && ExtraDir(es[i], kind) {
        assert i < n ==> es[..n][i] == es[i];
      }
    }
  }

  lemma OnlyExtraDirs(es: seq<Entry>, kind: Kind)
    ensures es == [] ==> ExtraDirs(es, kind) == []
  {
  }

  lemma OneMoreExtraDir(es: seq<Entry>, kind: Kind, path: string)
    requires es != []
    ensures var n := |es| - 1;
            path in ExtraDirs(es, kind) <==> path in ExtraDirs(es[..n], kind) || (RelPath(es[n].at) == path && ExtraDir(es[n], kind))
  {
    hide RelPath, ExtraDir;
  }

  lemma {:induction false} SomeDossier(es: seq<Entry>, kind: Kind)
    ensures Dossiers(es, kind) > 0 <==> exists e :: e in es && Dossier(e, kind)
    decreases |es|
  {
    hide Dossier;
    if es != [] {
      var n := |es| - 1;
      SomeDossier(es[..n], kind);
      assert es == es[..n] + [es[n]];
      assert forall e :: e in es <==> e in es[..n] || e == es[n];
      assert es[n] in es;
    }
  }

  ghost predicate TwoDossiers(es: seq<Entry>, kind: Kind) {
    exists c, d :: c in es && d in es && Dossier(c, kind) && Dossier(d, kind) && c.at != d.at
  }

  /** There is more than one dossier exactly when two different entries are dossiers. */
  lemma {:induction false} ManyDossiersIff(es: seq<Entry>, kind: Kind)
    requires PreOrder(es)
    ensures Dossiers(es, kind) > 1 <==> TwoDossiers(es, kind)
    decreases |es|
  {
    hide Dossier, NotBefore, TwoDossiers;
    if es == [] {
      NoDossiers(kind);
    } else {
      var n := |es| - 1;
      ManyDossiersIff(es[..n], kind);
      SomeDossier(es[..n], kind);
      OneMoreDossier(es[..n], es[n], kind);
      assert es == es[..n] + [es[n]];
    }
  }

  lemma NoDossiers(kind: Kind)
    ensures !TwoDossiers([], kind)
  {
  }

  lemma OneMoreDossier(init: seq<Entry>, last: Entry, kind: Kind)
    requires PreOrder(init + [last])
    ensures TwoDossiers(init + [last], kind)
            <==> TwoDossiers(init, kind) || (Dossier(last, kind) && exists e :: e in init && Dossier(e, kind))
  {
    hide Dossier;
    var es := init + [last];
    forall c | c in init
      ensures c.at != last.at
    {
      var i :| 0 <= i < |init| && init[i] == c;
      assert NotBefore(es[i], es[|init|]);
    }
    hide PreOrder;
    assert forall c :: c in es <==> c in init || c == last;
  }

  lemma {:induction false} EveryEntryCounts(ds: seq<Entry>, es: seq<Entry>)
    ensures |DirsSeen(ds, es)| + FilesSeen(ds) == |ds|
    decreases |ds|
  {
    if ds != [] {
      EveryEntryCounts(ds[..|ds| - 1], es);
    }
  }

  lemma FirstOfWalk(tree: Node)
    ensures |Walk(tree, [])| == 1 <==> tree.FileNode? || tree.kids == []
  {
    if tree.DirNode? && tree.kids != [] {
      assert Walk(tree.kids[0], [] + [tree.kids[0].name]) != [];
    }
  }

  /** The walk shows an empty package exactly when it is one. */
  lemma EmptySip(tree: Node, kind: Kind)
    ensures var t := TallyOf(Walk(tree, []), kind, tree.name);
            |t.dirs| == 1 && t.fileCount == 0 <==> IsEmptyDir(tree, [])
  {
    var es := Walk(tree, []);
    EveryEntryCounts(es, es);
    FirstOfWalk(tree);
    if |es| == 1 {
      assert es[..0] == [];
    }
  }

  /** The entries of a walk are the nodes of the tree. */
  lemma EntriesAreNodes(tree: Node, at: Location)
    requires WellNamed(tree)
    ensures Seen(Walk(tree, []), at) <==> Exists(tree, at)
    ensures Entry(at, true) in Walk(tree, []) <==> IsDir(tree, at)
    ensures Exists(tree, at) ==> Names(at) && NodeAt(tree, at).value.name == NameOfEntry(Entry(at, true), tree.name)
  {
    assert [] + at == at;
    WalkShowsNodes(tree, [], at);
    WalkNames(tree, []);
    assert forall e :: e in Walk(tree, []) && e.at == at ==> e == Entry(at, true) || e == Entry(at, false);
    if Exists(tree, at) && at != [] {
      NameAt(tree, at);
    }
  }

  lemma EmptyDirsOfTree(tree: Node, at: Location)
    requires WellNamed(tree) && Names(at)
    ensures var es := Walk(tree, []);
            EmptyDirectory(RelPath(at)) in EmptyDirs(DirsSeen(es, es)) <==> IsEmptyDir(tree, at)
  {
    var es := Walk(tree, []);
    var dirs := DirsSeen(es, es);
    WalkNames(tree, []);
    InEmptyDirs(dirs, RelPath(at));
    EntriesAreNodes(tree, at);
    assert [] + at == at;
    if IsDir(tree, at) {
      CountIsKids(tree, [], at);
      DirIsSeen(es, es, Entry(at, true));
    }
    if DirCount(RelPath(at), 0) in dirs {
      var k :| 0 <= k < |dirs| && dirs[k] == DirCount(RelPath(at), 0);
      DirOfPath(es, es, k);
      var i :| 0 <= i < |es| && es[i].isDir && dirs[k] == DirCount(RelPath(es[i].at), Count(es, es[i].at));
      assert es[i] in es;
      RelPathIsInjective(es[i].at, at);
      assert es[i] == Entry(at, true);
    }
  }

  lemma NoEmptyDirs(tree: Node)
    requires WellNamed(tree)
    ensures var es := Walk(tree, []);
            EmptyDirs(DirsSeen(es, es)) == [] <==> forall at :: !IsEmptyDir(tree, at)
  {
    var es := Walk(tree, []);
    var dirs := DirsSeen(es, es);
    if EmptyDirs(dirs) != [] {
      var f := EmptyDirs(dirs)[0];
      InEmptyDirs(dirs, ".");
      assert f in EmptyDirs(dirs);
      InEmptyDirs(dirs, f.path);
      var k :| 0 <= k < |dirs| && dirs[k] == DirCount(f.path, 0);
      DirOfPath(es, es, k);
      var i :| 0 <= i < |es| && es[i].isDir && dirs[k] == DirCount(RelPath(es[i].at), Count(es, es[i].at));
      WalkNames(tree, []);
      assert es[i] in es;
      EmptyDirsOfTree(tree, es[i].at);
    }
    if at :| IsEmptyDir(tree, at) {
      EntriesAreNodes(tree, at);
      EmptyDirsOfTree(tree, at);
    }
  }

  /** Some entry at the place has an invalid name. */
  predicate InvalidAt(es: seq<Entry>, rootName: string, at: Location) {
    exists i :: 0 <= i < |es| && es[i].at == at && !ValidName(NameOfEntry(es[i], rootName))
  }

  lemma InvalidNamesAreAt(es: seq<Entry>, rootName: string, at: Location)
    requires Names(at) && forall e :: e in es ==> Names(e.at)
    ensures RelPath(at) in InvalidNames(es, rootName) <==> InvalidAt(es, rootName, at)
  {
    InInvalidNames(es, rootName, RelPath(at));
    hide InvalidNames, ValidName, NameOfEntry, RelPath, Names;
    forall e | e in es
      ensures RelPath(e.at) == RelPath(at) <==> e.at == at
    {
      RelPathIsInjective(e.at, at);
    }
    if e :| e in es && MisnamedAt(e, rootName, RelPath(at)) {
      var i :| 0 <= i < |es| && es[i] == e;
    }
    if i :| 0 <= i < |es| && es[i].at == at && !ValidName(NameOfEntry(es[i], rootName)) {
      assert es[i] in es && MisnamedAt(es[i], rootName, RelPath(at));
    }
  }

  lemma InvalidAtIsInvalid(tree: Node, at: Location)
    requires WellNamed(tree)
    ensures InvalidAt(Walk(tree, []), tree.name, at) <==> HasInvalidName(tree, at)
  {
    var es, name := Walk(tree, []), tree.name;
    EntriesAreNodes(tree, at);
    var here := NameOfEntry(Entry(at, true), name);
    assert forall e :: e in es && e.at == at ==> NameOfEntry(e, name) == here;
    hide Walk, NodeAt, ValidName, NameOfEntry, WellNamed, Names;
    if Exists(tree, at) {
      var e :| e in es && e.at == at;
      var i :| 0 <= i < |es| && es[i] == e;
      assert NameOfEntry(es[i], name) == here;
    }
  }

  lemma InvalidNamesOfTree(tree: Node, at: Location)
    requires WellNamed(tree) && Names(at)
    ensures RelPath(at) in InvalidNames(Walk(tree, []), tree.name) <==> HasInvalidName(tree, at)
  {
    WalkNames(tree, []);
    InvalidNamesAreAt(Walk(tree, []), tree.name, at);
    InvalidAtIsInvalid(tree, at);
  }

  lemma NoInvalidNames(tree: Node)
    requires WellNamed(tree)
    ensures InvalidNames(Walk(tree, []), tree.name) == [] <==> forall at :: !HasInvalidName(tree, at)
  {
    var es := Walk(tree, []);
    var paths := InvalidNames(es, tree.name);
    if paths != [] {
      assert paths[0] in paths;
      InInvalidNames(es, tree.name, paths[0]);
      var e :| e in es && MisnamedAt(e, tree.name, paths[0]);
      WalkNames(tree, []);
      InvalidNamesOfTree(tree, e.at);
    }
    if at :| HasInvalidName(tree, at) {
      EntriesAreNodes(tree, at);
      InvalidNamesOfTree(tree, at);
    }
  }

  lemma ExtraDirsOfTree(tree: Node, kind: Kind, n: string)
    requires WellNamed(tree) && Name(n)
    ensures n in ExtraDirs(Walk(tree, []), kind) <==> IsUnexpected(tree, kind, n)
  {
    var es := Walk(tree, []);
    InExtraDirs(es, kind, n);
    EntriesAreNodes(tree, [n]);
    WalkNames(tree, []);
    assert RelPath([n]) == n;
    if IsUnexpected(tree, kind, n) {
      var i :| 0 <= i < |es| && es[i] == Entry([n], true);
    }
    if i :| 0 <= i < |es| && RelPath(es[i].at) == n && ExtraDir(es[i], kind) {
      assert es[i] in es && es[i].at == [es[i].at[0]];
      RelPathIsInjective(es[i].at, [n]);
    }
  }

  lemma NoExtraDirs(tree: Node, kind: Kind)
    requires WellNamed(tree)
    ensures ExtraDirs(Walk(tree, []), kind) == [] <==> forall n :: !IsUnexpected(tree, kind, n)
  {
    var es := Walk(tree, []);
    var paths := ExtraDirs(es, kind);
    if paths != [] {
      assert paths[0] in paths;
      InExtraDirs(es, kind, paths[0]);
      var i :| 0 <= i < |es| && RelPath(es[i].at) == paths[0] && ExtraDir(es[i], kind);
      WalkNames(tree, []);
      assert es[i] in es && es[i].at == [es[i].at[0]] && RelPath([es[i].at[0]]) == es[i].at[0];
      ExtraDirsOfTree(tree, kind, es[i].at[0]);
    }
    if n :| IsUnexpected(tree, kind, n) {
      EntriesAreNodes(tree, [n]);
      assert Name([n][0]);
      ExtraDirsOfTree(tree, kind, n);
    }
  }

  lemma DossiersOfTree(tree: Node, kind: Kind)
    requires WellNamed(tree)
    ensures Dossiers(Walk(tree, []), kind) > 1 <==> !OneDossier(tree, kind)
  {
    var es, c := Walk(tree, []), ContentAt(kind);
    WalkIsPreOrder(tree, []);
    ManyDossiersIff(es, kind);
    hide Walk, NodeAt, Dossiers, PreOrder, ContentAt, WellNamed, IsDir;
    if !OneDossier(tree, kind) {
      var a, b :| IsDir(tree, c + [a]) && IsDir(tree, c + [b]) && a != b;
      EntriesAreNodes(tree, c + [a]);
      EntriesAreNodes(tree, c + [b]);
      SamePrefix(c, [a], [b]);
      assert Dossier(Entry(c + [a], true), kind) && Dossier(Entry(c + [b], true), kind);
    }
    if x, y :| x in es && y in es && Dossier(x, kind) && Dossier(y, kind) && x.at != y.at {
      DossierIsDir(tree, kind, x);
      DossierIsDir(tree, kind, y);
    }
  }

  lemma DossierIsDir(tree: Node, kind: Kind, x: Entry)
    requires WellNamed(tree) && x in Walk(tree, []) && Dossier(x, kind)
    ensures var a := x.at[|x.at| - 1]; x.at == ContentAt(kind) + [a] && IsDir(tree, ContentAt(kind) + [a])
  {
    assert x == Entry(x.at, true) && x.at == x.at[..|x.at| - 1] + [x.at[|x.at| - 1]];
    EntriesAreNodes(tree, x.at);
  }

  /** The report is empty exactly when the structure is correct. */
  lemma NoFailuresIff(tree: Node, sip: SIP)
    requires WellNamed(tree)
    ensures Failures(TallyOf(Walk(tree, []), sip.kind, tree.name), sip) == [] <==> StructureOk(tree, sip.kind)
  {
    var kind := sip.kind;
    EmptySip(tree, kind);
    NoEmptyDirs(tree);
    NoInvalidNames(tree);
    NoExtraDirs(tree, kind);
    DossiersOfTree(tree, kind);
    EntriesAreNodes(tree, ContentAt(kind));
    EntriesAreNodes(tree, MetadataAt(kind));
    EntriesAreNodes(tree, XsdAt(kind));
    EntriesAreNodes(tree, UPDATED);
    EntriesAreNodes(tree, LogicalAt(tree.name));
    hide Walk, NodeAt, DirsSeen, FilesSeen, InvalidNames, Dossiers, ExtraDirs, Seen, EmptyDirs, ContentAt, MetadataAt, XsdAt, UPDATED,
         LogicalAt, IsEmptyDir, HasInvalidName, Exists, IsUnexpected, OneDossier, Base, WellNamed;
  }

  // The activity

  /** The walk over the tree; the fields then show where everything is. */
  method WalkTree(sip: SIP, tree: Node, ghost root: Location) returns (res: ValidationResult)
    requires Root(root) && sip == LaidOut(sip.kind, Path(true, root)) && WellNamed(tree) && tree.name == NameOf(root)
    ensures fresh(res) && res.Seen() == TallyOf(Walk(tree, []), sip.kind, tree.name)
  {
    hide *;
    res := new ValidationResult();
    var es := Walk(tree, []);
    WalkIsPreOrder(tree, []);
    NamesOfWalk(tree);
    NothingSeen(sip.kind, tree.name);
    for i := 0 to |es|
      invariant res.Seen() == TallyOf(es[..i], sip.kind, tree.name)
    {
      NextEntry(es, i);
      VisitedIsTally(es[..i], es[i], sip, root);
      var e := es[i];
      VisitMeans(res.Seen(), e, sip, tree.name);
      res.Visit(Join([sip.path, RelPath(e.at)]), RelPath(e.at), NameOfEntry(e, tree.name), e.isDir, sip);
    }
    assert es[..|es|] == es;
  }

  lemma NamesOfWalk(tree: Node)
    requires WellNamed(tree)
    ensures forall e :: e in Walk(tree, []) ==> Names(e.at)
  {
    WalkNames(tree, []);
  }

  lemma VisitMeans(t: Tally, e: Entry, sip: SIP, rootName: string)
    ensures VisitTo(t, e, sip, rootName)
            == Visited(t, Join([sip.path, RelPath(e.at)]), RelPath(e.at), NameOfEntry(e, rootName), e.isDir, sip)
  {
    hide Visited, Join, RelPath, NameOfEntry;
  }

  lemma NothingSeen(kind: Kind, rootName: string)
    ensures TallyOf([], kind, rootName) == NOTHING_SEEN
  {
  }

  lemma NextEntry(es: seq<Entry>, i: nat)
    requires i < |es| && PreOrder(es)
    ensures es[..i + 1] == es[..i] + [es[i]] && PreOrder(es[..i] + [es[i]])
    ensures forall x :: x in es[..i] + [es[i]] ==> x in es
  {
    assert es[..i + 1] == es[..i] + [es[i]];
  }

  /** validateStructure: no result if some entry cannot be read. */
  method Validate(sip: SIP, tree: Node, readable: bool, ghost root: Location) returns (res: Option<ValidationResult>)
    requires Root(root) && sip == LaidOut(sip.kind, Path(true, root)) && WellNamed(tree) && tree.name == NameOf(root)
    ensures res.Some? <==> readable
    ensures res.Some? ==> fresh(res.value) && res.value.Seen() == TallyOf(Walk(tree, []), sip.kind, tree.name)
  {
    hide *;
    if !readable {
      return None;
    }
    var walked := WalkTree(sip, tree, root);
    return Some(walked);
  }

  /** What a caller of the activity sees: a report, or the crash of its worker. */
  datatype Outcome = Reported(failures: seq<Failure>) | NilDereference

  /**
    The activity: it crashes if the walk fails, since it reports from the result before it looks at the error.
    Otherwise it reports no failures exactly when the structure is correct, and the directories, names and
    top-level directories reported are exactly those at fault.
  */
  method Execute(sip: SIP, tree: Node, readable: bool, ghost root: Location) returns (r: Outcome)
    requires Root(root) && sip == LaidOut(sip.kind, Path(true, root)) && WellNamed(tree) && tree.name == NameOf(root)
    ensures r.NilDereference? <==> !readable
    ensures r.Reported? ==> (r.failures == [] <==> StructureOk(tree, sip.kind))
    ensures r.Reported? && !IsEmptyDir(tree, []) ==>
      && (forall at | Names(at) :: EmptyDirectory(RelPath(at)) in r.failures <==> IsEmptyDir(tree, at))
      && (forall at | Names(at) :: InvalidName(RelPath(at)) in r.failures <==> HasInvalidName(tree, at))
      && (forall n | Name(n) :: UnexpectedDirectory(n) in r.failures <==> IsUnexpected(tree, sip.kind, n))
  {
    hide *;
    var res := Validate(sip, tree, readable, root);
    if res.None? {
      return NilDereference;
    }
    var failures := ReportFailures(res.value.Seen(), sip);
    NoFailuresIff(tree, sip);
    ReportedFaults(tree, sip);
    return Reported(failures);
  }

  lemma InAsInvalid(paths: seq<string>, f: Failure)
    ensures f in AsInvalid(paths) <==> f.InvalidName? && f.path in paths
  {
    if f.InvalidName? && f.path in paths {
      var i :| 0 <= i < |paths| && paths[i] == f.path;
      assert AsInvalid(paths)[i] == f;
    }
  }

  lemma InAsUnexpected(paths: seq<string>, f: Failure)
    ensures f in AsUnexpected(paths) <==> f.UnexpectedDirectory? && f.path in paths
  {
    if f.UnexpectedDirectory? && f.path in paths {
      var i :| 0 <= i < |paths| && paths[i] == f.path;
      assert AsUnexpected(paths)[i] == f;
    }
  }

  /** Of the failures that name a path, each kind comes from its own part of the report. */
  lemma InReport(t: Tally, sip: SIP, f: Failure)
    requires !(|t.dirs| == 1 && t.fileCount == 0)
    requires f.EmptyDirectory? || f.InvalidName? || f.UnexpectedDirectory?
    ensures f in Failures(t, sip) <==> f in EmptyDirs(t.dirs) || f in AsInvalid(t.invalidNames) || f in AsUnexpected(t.extraDirs)
  {
    forall c, g | g != f
      ensures f !in If(c, g)
    {
    }
    hide EmptyDirs, AsInvalid, AsUnexpected, Base, If;
  }

  lemma PathsInReport(t: Tally, sip: SIP, path: string)
    requires !(|t.dirs| == 1 && t.fileCount == 0)
    ensures EmptyDirectory(path) in Failures(t, sip) <==> EmptyDirectory(path) in EmptyDirs(t.dirs)
    ensures InvalidName(path) in Failures(t, sip) <==> path in t.invalidNames
    ensures UnexpectedDirectory(path) in Failures(t, sip) <==> path in t.extraDirs
  {
    InEmptyDirs(t.dirs, path);
    hide Failures, EmptyDirs, AsInvalid, AsUnexpected;
    InReport(t, sip, EmptyDirectory(path));
    InReport(t, sip, InvalidName(path));
    InReport(t, sip, UnexpectedDirectory(path));
    InAsInvalid(t.invalidNames, EmptyDirectory(path));
    InAsInvalid(t.invalidNames, InvalidName(path));
    InAsInvalid(t.invalidNames, UnexpectedDirectory(path));
    InAsUnexpected(t.extraDirs, EmptyDirectory(path));
    InAsUnexpected(t.extraDirs, InvalidName(path));
    InAsUnexpected(t.extraDirs, UnexpectedDirectory(path));
  }

  lemma ReportedFaults(tree: Node, sip: SIP)
    requires WellNamed(tree)
    ensures var r := Failures(TallyOf(Walk(tree, []), sip.kind, tree.name), sip);
      !IsEmptyDir(tree, []) ==>
        && (forall at | Names(at) :: EmptyDirectory(RelPath(at)) in r <==> IsEmptyDir(tree, at))
        && (forall at | Names(at) :: InvalidName(RelPath(at)) in r <==> HasInvalidName(tree, at))
        && (forall n | Name(n) :: UnexpectedDirectory(n) in r <==> IsUnexpected(tree, sip.kind, n))
  {
    EmptySip(tree, sip.kind);
    var t := TallyOf(Walk(tree, []), sip.kind, tree.name);
    if !IsEmptyDir(tree, []) {
      forall at | Names(at)
        ensures EmptyDirectory(RelPath(at)) in Failures(t, sip) <==> IsEmptyDir(tree, at)
        ensures InvalidName(RelPath(at)) in Failures(t, sip) <==> HasInvalidName(tree, at)
      {
        PathsInReport(t, sip, RelPath(at));
        EmptyDirsOfTree(tree, at);
        InvalidNamesOfTree(tree, at);
      }
      forall n | Name(n)
        ensures UnexpectedDirectory(n) in Failures(t, sip) <==> IsUnexpected(tree, sip.kind, n)
      {
        PathsInReport(t, sip, n);
        ExtraDirsOfTree(tree, sip.kind, n);
      }
    }
  }
}
