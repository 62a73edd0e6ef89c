/**
  Validating the structure of a package (internal/activities/validate_structure.go): one walk over the
  directory tree that counts and remembers, and a report of what is wrong.
*/
module ValidateStructure {
  import opened Wrappers
  import opened Paths
  import opened PackageTree
  import opened Sip

  datatype DirCount = DirCount(path: string, children: nat)

  datatype Failure =
    | SipIsEmpty
    | EmptyDirectory(path: string)
    | RemoveEmptyDirectories
    | InvalidName(path: string)
    | ContentMissing
    | FileMissing(name: string)
    | UnexpectedDirectory(path: string)
    | ManyDossiers

  const LOWER_CASE := "abcdefghijklmnopqrstuvwxyz"
  const UPPER_CASE := "ABCDEFGHIJKLMNOPQRSTUVWXYZ"
  const VALID_CHARS := LOWER_CASE + UPPER_CASE + "0123456789-_.()"

  predicate ValidName(name: string) {
    forall c :: c in name ==> c in VALID_CHARS
  }

  // Paths of a walk

  lemma ParentPath(at: Location)
    requires Names(at) && at != []
    ensures Dir(RelPath(at)) == RelPath(at[..|at| - 1])
  {
    var init, n := at[..|at| - 1], at[|at| - 1];
    assert at == init + [n];
    DirPath(false, init, n);
  }

  lemma SamePlace(root: Location, a: Location, b: Location)
    requires Root(root) && Names(a) && Names(b)
    ensures Path(true, root + a) == Path(true, root + b) <==> a == b
  {
    NamesConcat(root, a);
    NamesConcat(root, b);
    PathIsInjective(true, root + a, root + b);
    SamePrefix(root, a, b);
  }

  // What a walk has seen

  /** The directories seen, each with the number of entries seen in it. */
  function DirsSeen(ds: seq<Entry>, es: seq<Entry>): seq<DirCount> {
    if ds == [] then []
    else
      var d := ds[|ds| - 1];
      DirsSeen(ds[..|ds| - 1], es) + if d.isDir then [DirCount(RelPath(d.at), Count(es, d.at))] else []
  }

  function FilesSeen(es: seq<Entry>): nat {
    if es == [] then 0 else FilesSeen(es[..|es| - 1]) + if es[|es| - 1].isDir then 0 else 1
  }

  function NameOfEntry(e: Entry, rootName: string): string {
    if e.at == [] then rootName else e.at[|e.at| - 1]
  }

  function InvalidNames(es: seq<Entry>, rootName: string): seq<string> {
    if es == [] then []
    else
      var e := es[|es| - 1];
      InvalidNames(es[..|es| - 1], rootName) + if ValidName(NameOfEntry(e, rootName)) then [] else [RelPath(e.at)]
  }

  predicate ExtraDir(e: Entry, kind: Kind) {
    e.isDir && |e.at| == 1 && e.at[0] !in TopLevel(kind)
  }

  function ExtraDirs(es: seq<Entry>, kind: Kind): seq<string> {
    if es == [] then []
    else ExtraDirs(es[..|es| - 1], kind) + if ExtraDir(es[|es| - 1], kind) then [RelPath(es[|es| - 1].at)] else []
  }

  predicate Dossier(e: Entry, kind: Kind) {
    e.isDir && ChildOf(e.at, ContentAt(kind))
  }

  function Dossiers(es: seq<Entry>, kind: Kind): nat {
    if es == [] then 0 else Dossiers(es[..|es| - 1], kind) + if Dossier(es[|es| - 1], kind) then 1 else 0
  }

  predicate Seen(es: seq<Entry>, at: Location) {
    exists e :: e in es && e.at == at
  }

  /** One more entry counts for the directory with its parent's path, and for no other. */
  lemma {:induction false} DirsSeenNext(ds: seq<Entry>, es: seq<Entry>, e: Entry)
    requires e.at != [] && Names(e.at) && forall d :: d in ds ==> Names(d.at)
    ensures |DirsSeen(ds, es + [e])| == |DirsSeen(ds, es)|
    ensures forall k :: 0 <= k < |DirsSeen(ds, es)| ==>
      var was := DirsSeen(ds, es)[k];
      DirsSeen(ds, es + [e])[k]
      == DirCount(was.path, was.children + if was.path == RelPath(e.at[..|e.at| - 1]) then 1 else 0)
    decreases |ds|
  {
    if ds != [] {
      var d, init, parent := ds[|ds| - 1], ds[..|ds| - 1], e.at[..|e.at| - 1];
      assert d in ds && forall x :: x in init ==> x in ds;
      DirsSeenNext(init, es, e);
      CountConcat(es, [e], d.at);
      assert [e][1..] == [];
      RelPathIsInjective(d.at, parent);
    }
  }

  predicate DistinctPlaces(es: seq<Entry>) {
    forall i, j :: 0 <= i < j < |es| ==> es[i].at != es[j].at
  }

  lemma {:induction false} DirsSeenDistinct(ds: seq<Entry>, es: seq<Entry>)
    requires DistinctPlaces(ds) && forall d :: d in ds ==> Names(d.at)
    ensures forall k, l :: 0 <= k < l < |DirsSeen(ds, es)| ==> DirsSeen(ds, es)[k].path != DirsSeen(ds, es)[l].path
    decreases |ds|
  {
    if ds != [] {
      var n := |ds| - 1;
      var init := ds[..n];
      assert forall x :: x in init ==> x in ds;
      DirsSeenDistinct(init, es);
      forall k | 0 <= k < |DirsSeen(init, es)|
        ensures DirsSeen(init, es)[k].path != RelPath(ds[n].at)
      {
        DirOfPath(init, es, k);
        var i :| 0 <= i < n && RelPath(init[i].at) == DirsSeen(init, es)[k].path;
        assert init[i] in ds && ds[n] in ds && ds[i].at != ds[n].at;
        RelPathIsInjective(init[i].at, ds[n].at);
      }
    }
  }

  lemma {:induction false} DirOfPath(ds: seq<Entry>, es: seq<Entry>, k: nat)
    requires k < |DirsSeen(ds, es)|
    ensures exists i :: 0 <= i < |ds| && ds[i].isDir && DirsSeen(ds, es)[k] == DirCount(RelPath(ds[i].at), Count(es, ds[i].at))
    decreases |ds|
  {
    var n := |ds| - 1;
    if !(ds[n].isDir && k == |DirsSeen(ds[..n], es)|) {
      DirOfPath(ds[..n], es, k);
      var i :| 0 <= i < n && ds[..n][i].isDir && DirsSeen(ds[..n], es)[k] == DirCount(RelPath(ds[..n][i].at), Count(es, ds[..n][i].at));
      assert ds[i] == ds[..n][i];
    }
  }

  lemma {:induction false} DirIsSeen(ds: seq<Entry>, es: seq<Entry>, d: Entry)
    requires d in ds && d.isDir
    ensures DirCount(RelPath(d.at), Count(es, d.at)) in DirsSeen(ds, es)
    decreases |ds|
  {
    var n := |ds| - 1;
    if ds[n] != d {
      assert d in ds[..n];
      DirIsSeen(ds[..n], es, d);
    }
  }

  lemma NewDirIsEmpty(es: seq<Entry>, e: Entry)
    requires PreOrder(es + [e])
    ensures Count(es + [e], e.at) == 0
    ensures DistinctPlaces(es + [e])
  {
    forall x | x in es + [e]
      ensures !ChildOf(x.at, e.at)
    {
      var i :| 0 <= i < |es + [e]| && (es + [e])[i] == x;
      if i < |es| {
        assert NotBefore((es + [e])[i], (es + [e])[|es|]);
      }
    }
    CountNone(es + [e], e.at);
    forall i, j | 0 <= i < j < |es + [e]|
      ensures (es + [e])[i].at != (es + [e])[j].at
    {
      assert NotBefore((es + [e])[i], (es + [e])[j]);
    }
  }

  lemma SeenNext(es: seq<Entry>, e: Entry, at: Location)
    ensures Seen(es + [e], at) <==> Seen(es, at) || e.at == at
  {
    assert e in es + [e];
    assert forall x :: x in es + [e] <==> x in es || x == e;
  }

  /** The first directory with the path has one more entry. */
  function Bumped(dirs: seq<DirCount>, path: string): seq<DirCount> {
    if dirs == [] then []
    else if dirs[0].path == path then [DirCount(path, dirs[0].children + 1)] + dirs[1..]
    else [dirs[0]] + Bumped(dirs[1..], path)
  }

  lemma {:induction false} BumpedIs(dirs: seq<DirCount>, after: seq<DirCount>, path: string)
    requires |after| == |dirs| && forall k, l :: 0 <= k < l < |dirs| ==> dirs[k].path != dirs[l].path
    requires forall k :: 0 <= k < |dirs| ==>
      after[k] == DirCount(dirs[k].path, dirs[k].children + if dirs[k].path == path then 1 else 0)
    ensures after == Bumped(dirs, path)
    decreases |dirs|
  {
    if dirs != [] {
      if dirs[0].path == path {
        assert after[1..] == dirs[1..];
      } else {
        BumpedIs(dirs[1..], after[1..], path);
      }
      assert after == [after[0]] + after[1..];
    }
  }

  /** The fields of a validation result. */
  datatype Tally = Tally(
    dirs: seq<DirCount>,
    dossierCount: nat,
    fileCount: nat,
    invalidNames: seq<string>,
    hasContentDir: bool,
    hasAreldaFile: bool,
    hasMetadataFile: bool,
    hasUpdatedAreldaMDFile: bool,
    hasLogicalMDFile: bool,
    extraDirs: seq<string>
  )

  const NOTHING_SEEN := Tally([], 0, 0, [], false, false, false, false, false, [])

  /** What the walk's function does with an entry, given its path, name and type: first for every entry, */
  function Listed(t: Tally, relativePath: string, name: string, isDir: bool): Tally {
    t.(
      invalidNames := if ValidName(name) then t.invalidNames else t.invalidNames + [relativePath],
      dirs := if isDir then t.dirs + [DirCount(relativePath, 0)] else t.dirs,
      fileCount := if isDir then t.fileCount else t.fileCount + 1)
  }

  /** then for those below the package directory: directories, */
  function Counted(t: Tally, path: string, relativePath: string, isDir: bool, sip: SIP): Tally {
    var parentPath := Dir(relativePath);
    t.(
      dirs := Bumped(t.dirs, parentPath),
      extraDirs := if parentPath == "." && isDir && path !in sip.topLevelPaths then t.extraDirs + [relativePath] else t.extraDirs,
      dossierCount := if Join([sip.path, parentPath]) == sip.contentPath && isDir then t.dossierCount + 1 else t.dossierCount)
  }

  /** and places. */
  function Placed(t: Tally, path: string, sip: SIP): Tally {
    t.(
      hasContentDir := t.hasContentDir || path == sip.contentPath,
      hasMetadataFile := t.hasMetadataFile || path == sip.metadataPath,
      hasUpdatedAreldaMDFile := t.hasUpdatedAreldaMDFile || path == sip.updatedAreldaMDPath,
      hasLogicalMDFile := t.hasLogicalMDFile || path == sip.logicalMDPath,
      hasAreldaFile := t.hasAreldaFile || path == sip.xsdPath)
  }

  function Visited(t: Tally, path: string, relativePath: string, name: string, isDir: bool, sip: SIP): Tally {
    var listed := Listed(t, relativePath, name, isDir);
    if path == sip.path then listed else Placed(Counted(listed, path, relativePath, isDir, sip), path, sip)
  }

  class ValidationResult {
    var dirs: seq<DirCount>
    var dossierCount: nat
    var fileCount: nat
    var invalidNames: seq<string>
    var hasContentDir: bool
    var hasAreldaFile: bool
    var hasMetadataFile: bool
    var hasUpdatedAreldaMDFile: bool
    var hasLogicalMDFile: bool
    var extraDirs: seq<string>

    constructor ()
      ensures Seen() == NOTHING_SEEN
    {
      dirs, dossierCount, fileCount, invalidNames, extraDirs := [], 0, 0, [], [];
      hasContentDir, hasAreldaFile, hasMetadataFile, hasUpdatedAreldaMDFile, hasLogicalMDFile := false, false, false, false, false;
    }

    function Seen(): Tally
      reads this
    {
      Tally(dirs, dossierCount, fileCount, invalidNames, hasContentDir, hasAreldaFile, hasMetadataFile,
            hasUpdatedAreldaMDFile, hasLogicalMDFile, extraDirs)
    }

    /** Adds an entry to the child count of its directory, the first one with the path. */
    method CountChild(parentPath: string)
      modifies this`dirs
      ensures dirs == Bumped(old(dirs), parentPath)
    {
      for i := 0 to |dirs|
        invariant dirs == old(dirs)
        invariant forall k :: 0 <= k < i ==> dirs[k].path != parentPath
      {
        if dirs[i].path == parentPath {
          BumpedAt(dirs, parentPath, i);
          dirs := dirs[i := DirCount(parentPath, dirs[i].children + 1)];
          return;
        }
      }
      BumpedNowhere(dirs, parentPath);
    }

    /** The function that the walk calls for each entry. */
    method Visit(path: string, relativePath: string, name: string, isDir: bool, sip: SIP)
      modifies this
      ensures Seen() == Visited(old(Seen()), path, relativePath, name, isDir, sip)
    {
      VisitName(relativePath, name, isDir);
      if path == sip.path {
        return;
      }
      VisitDirs(path, relativePath, isDir, sip);
      VisitPlaces(path, sip);
    }

    method VisitName(relativePath: string, name: string, isDir: bool)
      modifies this
      ensures Seen() == Listed(old(Seen()), relativePath, name, isDir)
    {
      hide ValidName;
      if !ValidName(name) {
        invalidNames := invalidNames + [relativePath];
      }
      if isDir {
        dirs := dirs + [DirCount(relativePath, 0)];
      } else {
        fileCount := fileCount + 1;
      }
    }

    method VisitDirs(path: string, relativePath: string, isDir: bool, sip: SIP)
      modifies this
      ensures Seen() == Counted(old(Seen()), path, relativePath, isDir, sip)
    {
      hide Dir, Join, Bumped;
      var parentPath := Dir(relativePath);
      CountChild(parentPath);
      if parentPath == "." {
        if isDir && path !in sip.topLevelPaths {
          extraDirs := extraDirs + [relativePath];
        }
      }
      if Join([sip.path, parentPath]) == sip.contentPath && isDir {
        dossierCount := dossierCount + 1;
      }
    }

    method VisitPlaces(path: string, sip: SIP)
      modifies this
      ensures Seen() == Placed(old(Seen()), path, sip)
    {
      if path == sip.contentPath {
        hasContentDir := true;
      }
      if path == sip.metadataPath {
        hasMetadataFile := true;
      }
      if path == sip.updatedAreldaMDPath {
        hasUpdatedAreldaMDFile := true;
      }
      if path == sip.logicalMDPath {
        hasLogicalMDFile := true;
      }
      if path == sip.xsdPath {
        hasAreldaFile := true;
      }
    }
  }

  lemma {:induction false} BumpedAt(dirs: seq<DirCount>, path: string, i: nat)
    requires i < |dirs| && dirs[i].path == path && forall k :: 0 <= k < i ==> dirs[k].path != path
    ensures Bumped(dirs, path) == dirs[i := DirCount(path, dirs[i].children + 1)]
    decreases |dirs|
  {
    if i > 0 {
      BumpedAt(dirs[1..], path, i - 1);
    }
  }

  lemma {:induction false} BumpedNowhere(dirs: seq<DirCount>, path: string)
    requires forall k :: 0 <= k < |dirs| ==> dirs[k].path != path
    ensures Bumped(dirs, path) == dirs
    decreases |dirs|
  {
    if dirs != [] {
      BumpedNowhere(dirs[1..], path);
    }
  }

  // What the walk amounts to

  /** What has been seen after some entries, in terms of where they are. */
  function TallyOf(es: seq<Entry>, kind: Kind, rootName: string): Tally {
    Tally(
      DirsSeen(es, es),
      Dossiers(es, kind),
      FilesSeen(es),
      InvalidNames(es, rootName),
      Seen(es, ContentAt(kind)),
      Seen(es, XsdAt(kind)),
      Seen(es, MetadataAt(kind)),
      IsAIP(kind) && Seen(es, UPDATED),
      IsAIP(kind) && Seen(es, LogicalAt(rootName)),
      ExtraDirs(es, kind))
  }

  /** A visit to an entry. */
  function VisitTo(t: Tally, e: Entry, sip: SIP, rootName: string): Tally {
    Visited(t, Join([sip.path, RelPath(e.at)]), RelPath(e.at), NameOfEntry(e, rootName), e.isDir, sip)
  }

  lemma CountsMatch(es: seq<Entry>, e: Entry, sip: SIP, rootName: string)
    requires Join([sip.path, RelPath(e.at)]) == sip.path <==> e.at == []
    requires PreOrder(es + [e]) && forall x :: x in es + [e] ==> Names(x.at)
    ensures var was, now := TallyOf(es, sip.kind, rootName), TallyOf(es + [e], sip.kind, rootName);
            var v := VisitTo(was, e, sip, rootName);
            v.dirs == now.dirs && v.fileCount == now.fileCount && v.invalidNames == now.invalidNames
  {
    hide *;
    assert e in es + [e];
    if e.at != [] {
      ParentPath(e.at);
    }
    CountsOfTally(es, sip.kind, rootName);
    CountsOfTally(es + [e], sip.kind, rootName);
    CountsOfVisit(TallyOf(es, sip.kind, rootName), e, sip, rootName);
    CountsNext(es, e, rootName);
    DirsVisited(es, e);
  }

  lemma CountsOfVisit(t: Tally, e: Entry, sip: SIP, rootName: string)
    ensures var v := VisitTo(t, e, sip, rootName);
            var dirs := if e.isDir then t.dirs + [DirCount(RelPath(e.at), 0)] else t.dirs;
            && v.dirs == (if Join([sip.path, RelPath(e.at)]) == sip.path then dirs else Bumped(dirs, Dir(RelPath(e.at))))
            && v.fileCount == t.fileCount + (if e.isDir then 0 else 1)
            && v.invalidNames == if ValidName(NameOfEntry(e, rootName)) then t.invalidNames else t.invalidNames + [RelPath(e.at)]
  {
    hide Bumped, Dir, ValidName, Join, RelPath, NameOfEntry;
  }

  lemma CountsOfTally(es: seq<Entry>, kind: Kind, rootName: string)
    ensures var t := TallyOf(es, kind, rootName);
            t.dirs == DirsSeen(es, es) && t.fileCount == FilesSeen(es) && t.invalidNames == InvalidNames(es, rootName)
  {
    hide DirsSeen, FilesSeen, InvalidNames, Dossiers, Seen, ExtraDirs, ContentAt, MetadataAt, XsdAt, UPDATED, LogicalAt;
  }

  lemma DirsMatch(es: seq<Entry>, e: Entry, sip: SIP, root: Location)
    requires Root(root) && sip == LaidOut(sip.kind, Path(true, root)) && Names(e.at)
    ensures var was, now := TallyOf(es, sip.kind, NameOf(root)), TallyOf(es + [e], sip.kind, NameOf(root));
            var v := VisitTo(was, e, sip, NameOf(root));
            v.dossierCount == now.dossierCount && v.extraDirs == now.extraDirs
  {
    PlacesAreFound(sip, root, e.at);
    DirsNext(es, e, sip.kind);
  }

  lemma PlacesMatch(es: seq<Entry>, e: Entry, sip: SIP, root: Location)
    requires Root(root) && sip == LaidOut(sip.kind, Path(true, root)) && Names(e.at)
    ensures var was, now := TallyOf(es, sip.kind, NameOf(root)), TallyOf(es + [e], sip.kind, NameOf(root));
            var v := VisitTo(was, e, sip, NameOf(root));
            && v.hasContentDir == now.hasContentDir && v.hasMetadataFile == now.hasMetadataFile && v.hasAreldaFile == now.hasAreldaFile
            && v.hasUpdatedAreldaMDFile == now.hasUpdatedAreldaMDFile && v.hasLogicalMDFile == now.hasLogicalMDFile
  {
    PlacesAreFound(sip, root, e.at);
    SeenNext(es, e, ContentAt(sip.kind));
    SeenNext(es, e, MetadataAt(sip.kind));
    SeenNext(es, e, XsdAt(sip.kind));
    SeenNext(es, e, UPDATED);
    SeenNext(es, e, LogicalAt(NameOf(root)));
  }

  /** Each visit does to the fields what the entry's place asks for. */
  lemma VisitedIsTally(es: seq<Entry>, e: Entry, sip: SIP, root: Location)
    requires Root(root) && sip == LaidOut(sip.kind, Path(true, root))
    requires PreOrder(es + [e]) && forall x :: x in es + [e] ==> Names(x.at)
    ensures VisitTo(TallyOf(es, sip.kind, NameOf(root)), e, sip, NameOf(root)) == TallyOf(es + [e], sip.kind, NameOf(root))
  {
    assert e in es + [e];
    FixedPlaces(sip, root, e.at);
    hide *;
    CountsMatch(es, e, sip, NameOf(root));
    DirsMatch(es, e, sip, root);
    PlacesMatch(es, e, sip, root);
  }

  lemma CountsNext(es: seq<Entry>, e: Entry, rootName: string)
    ensures FilesSeen(es + [e]) == FilesSeen(es) + if e.isDir then 0 else 1
    ensures InvalidNames(es + [e], rootName)
            == if ValidName(NameOfEntry(e, rootName)) then InvalidNames(es, rootName) else InvalidNames(es, rootName) + [RelPath(e.at)]
  {
    assert (es + [e])[..|es|] == es;
    assert InvalidNames(es, rootName) + [] == InvalidNames(es, rootName);
  }

  lemma DirsNext(es: seq<Entry>, e: Entry, kind: Kind)
    ensures Dossiers(es + [e], kind) == Dossiers(es, kind) + if e.isDir && ChildOf(e.at, ContentAt(kind)) then 1 else 0
    ensures ExtraDirs(es + [e], kind)
            == if e.isDir && |e.at| == 1 && e.at[0] !in TopLevel(kind) then ExtraDirs(es, kind) + [RelPath(e.at)] else ExtraDirs(es, kind)
  {
    assert (es + [e])[..|es|] == es;
    assert ExtraDirs(es, kind) + [] == ExtraDirs(es, kind);
  }

  /** What one visit does to the directories: a new one is listed as empty, and the parent's count goes up. */
  lemma DirsVisited(es: seq<Entry>, e: Entry)
    requires PreOrder(es + [e]) && forall x :: x in es + [e] ==> Names(x.at)
    ensures var dirs := if e.isDir then DirsSeen(es, es) + [DirCount(RelPath(e.at), 0)] else DirsSeen(es, es);
            DirsSeen(es + [e], es + [e]) == if e.at == [] then dirs else Bumped(dirs, RelPath(e.at[..|e.at| - 1]))
  {
    hide *;
    var more := es + [e];
    assert e in more && forall x :: x in es ==> x in more;
    NewDirIsEmpty(es, e);
    OneMoreDir(es, e);
    if e.at == [] {
      UncountedEntry(es, es, e);
    } else {
      DirsSeenDistinct(more, more);
      DirsSeenNext(es, es, e);
      OwnPathIsNotParents(e.at);
      var one := if e.isDir then [DirCount(RelPath(e.at), 0)] else [];
      assert DirsSeen(es, es) + [] == DirsSeen(es, es) && DirsSeen(es, more) + [] == DirsSeen(es, more);
      BumpedBeforeNew(DirsSeen(es, es), DirsSeen(es, more), one, RelPath(e.at[..|e.at| - 1]));
    }
  }

  /** Counting for a directory, in a list to which a different directory has been added. */
  lemma BumpedBeforeNew(was: seq<DirCount>, now: seq<DirCount>, one: seq<DirCount>, path: string)
    requires |now| == |was| && forall i :: 0 <= i < |one| ==> one[i].path != path
    requires forall k, l :: 0 <= k < l < |now + one| ==> (now + one)[k].path != (now + one)[l].path
    requires forall k :: 0 <= k < |was| ==>
      now[k] == DirCount(was[k].path, was[k].children + if was[k].path == path then 1 else 0)
    ensures now + one == Bumped(was + one, path)
  {
    var dirs, after := was + one, now + one;
    hide Bumped;
    forall k | 0 <= k < |dirs|
      ensures after[k] == DirCount(dirs[k].path, dirs[k].children + if dirs[k].path == path then 1 else 0)
    {
    }
    BumpedIs(dirs, after, path);
  }

  lemma OneMoreDir(es: seq<Entry>, e: Entry)
    requires Count(es + [e], e.at) == 0
    ensures var was := DirsSeen(es, es + [e]);
            DirsSeen(es + [e], es + [e]) == if e.isDir then was + [DirCount(RelPath(e.at), 0)] else was
  {
    var more := es + [e];
    assert more[..|more| - 1] == es && more[|more| - 1] == e;
    assert DirsSeen(es, more) + [] == DirsSeen(es, more);
  }

  lemma OwnPathIsNotParents(at: Location)
    requires at != [] && Names(at)
    ensures RelPath(at) != RelPath(at[..|at| - 1])
  {
    RelPathIsInjective(at, at[..|at| - 1]);
  }

  lemma {:induction false} UncountedEntry(ds: seq<Entry>, es: seq<Entry>, e: Entry)
    requires e.at == []
    ensures DirsSeen(ds, es + [e]) == DirsSeen(ds, es)
    decreases |ds|
  {
    if ds != [] {
      UncountedEntry(ds[..|ds| - 1], es, e);
      CountConcat(es, [e], ds[|ds| - 1].at);
      assert [e][1..] == [];
    }
  }

  /** The path of an entry is that of a place exactly when the entry is there. */
  lemma PlaceIs(path: string, root: Location, at: Location, place: Location)
    requires Root(root) && Names(at) && Names(place) && Stands(path, root, place)
    ensures Join([Path(true, root), RelPath(at)]) == path <==> at == place
  {
    JoinRelPath(true, root, at);
    SamePlace(root, at, place);
  }

  lemma ParentIs(sip: SIP, root: Location, at: Location)
    requires Root(root) && sip == LaidOut(sip.kind, Path(true, root)) && Names(at) && at != []
    ensures var parentPath := Dir(RelPath(at));
            && (parentPath == "." <==> |at| == 1)
            && (Join([sip.path, parentPath]) == sip.contentPath <==> ChildOf(at, ContentAt(sip.kind)))
  {
    var parent := at[..|at| - 1];
    ParentPath(at);
    RelPathIsInjective(parent, []);
    LayoutOf(sip.kind, root);
    LayoutNames(sip.kind, NameOf(root));
    hide Join, RelPath, Path, Dir, Stands, ContentAt;
    PlaceIs(sip.contentPath, root, parent, ContentAt(sip.kind));
  }

  lemma TopLevelIs(sip: SIP, root: Location, at: Location)
    requires Root(root) && sip == LaidOut(sip.kind, Path(true, root)) && Names(at) && |at| == 1
    ensures Join([sip.path, RelPath(at)]) in sip.topLevelPaths <==> at[0] in TopLevel(sip.kind)
  {
    LayoutOf(sip.kind, root);
    LayoutNames(sip.kind, NameOf(root));
    var a, b := TopLevel(sip.kind)[0], TopLevel(sip.kind)[1];
    assert at == [at[0]] && Names([a]) && Names([b]);
    hide Join, RelPath, Path, Stands, LaidOut, Names, Name;
    PlaceIs(sip.topLevelPaths[0], root, at, [a]);
    PlaceIs(sip.topLevelPaths[1], root, at, [b]);
    assert sip.topLevelPaths == [sip.topLevelPaths[0], sip.topLevelPaths[1]];
  }

  lemma FixedPlaces(sip: SIP, root: Location, at: Location)
    requires Root(root) && sip == LaidOut(sip.kind, Path(true, root)) && Names(at)
    ensures var kind, path := sip.kind, Join([sip.path, RelPath(at)]);
            && (path == sip.path <==> at == [])
            && (path == sip.contentPath <==> at == ContentAt(kind))
            && (path == sip.metadataPath <==> at == MetadataAt(kind))
            && (path == sip.xsdPath <==> at == XsdAt(kind))
            && (path == sip.updatedAreldaMDPath <==> IsAIP(kind) && at == UPDATED)
            && (path == sip.logicalMDPath <==> IsAIP(kind) && at == LogicalAt(NameOf(root)))
  {
    LayoutOf(sip.kind, root);
    LayoutNames(sip.kind, NameOf(root));
    assert root + [] == root;
    JoinRelPath(true, root, at);
    assert Path(true, root + at) != "";
    assert sip.path == Path(true, root) && (!IsAIP(sip.kind) ==> sip.updatedAreldaMDPath == "" && sip.logicalMDPath == "");
    assert Stands(sip.path, root, []);
    hide Join, RelPath, Path, Stands, LaidOut, ContentAt, MetadataAt, XsdAt, LogicalAt, UPDATED, Name;
    PlaceIs(sip.path, root, at, []);
    PlaceIs(sip.contentPath, root, at, ContentAt(sip.kind));
    PlaceIs(sip.metadataPath, root, at, MetadataAt(sip.kind));
    PlaceIs(sip.xsdPath, root, at, XsdAt(sip.kind));
    if IsAIP(sip.kind) {
      PlaceIs(sip.updatedAreldaMDPath, root, at, UPDATED);
      PlaceIs(sip.logicalMDPath, root, at, LogicalAt(NameOf(root)));
    }
  }

  /** The comparisons of a visit, as facts about where the entry is. */
  lemma PlacesAreFound(sip: SIP, root: Location, at: Location)
    requires Root(root) && sip == LaidOut(sip.kind, Path(true, root)) && Names(at)
    ensures var kind, path, parentPath := sip.kind, Join([sip.path, RelPath(at)]), Dir(RelPath(at));
            && (path == sip.path <==> at == [])
            && (path == sip.contentPath <==> at == ContentAt(kind))
            && (path == sip.metadataPath <==> at == MetadataAt(kind))
            && (path == sip.xsdPath <==> at == XsdAt(kind))
            && (path == sip.updatedAreldaMDPath <==> IsAIP(kind) && at == UPDATED)
            && (path == sip.logicalMDPath <==> IsAIP(kind) && at == LogicalAt(NameOf(root)))
            && (at != [] ==> (parentPath == "." <==> |at| == 1))
            && (at != [] ==> (Join([sip.path, parentPath]) == sip.contentPath <==> ChildOf(at, ContentAt(kind))))
            && (|at| == 1 ==> (path in sip.topLevelPaths <==> at[0] in TopLevel(kind)))
            && ContentAt(kind) != [] && MetadataAt(kind) != [] && XsdAt(kind) != [] && UPDATED != [] && LogicalAt(NameOf(root)) != []
  {
    hide Join, RelPath, Path, LaidOut, Dir;
    FixedPlaces(sip, root, at);
    if at != [] {
      ParentIs(sip, root, at);
    }
    if |at| == 1 {
      TopLevelIs(sip, root, at);
    }
  }
}
