/**
  Restructuring a package in place (internal/activities/transform_sip.go): a sequence of moves and removals on
  the file system, and where each file is afterwards.
*/
module TransformSip {
  import opened Wrappers
  import opened Paths
  import opened FileSystem
  import opened Sip

  // Where an entry of the package goes

  function ContentTo(name: string): Location {
    [OBJECTS, name, CONTENT]
  }

  function MetadataTo(name: string): Location {
    [OBJECTS, name, HEADER, METADATA_FILE]
  }

  /** The new place of an entry, relative to the package directory; None if it is removed. */
  function Destination(kind: Kind, name: string, r: Location): Option<Location> {
    if Under(ContentAt(kind), r) then Some(ContentTo(name) + r[|ContentAt(kind)|..])
    else if Under(MetadataAt(kind), r) then Some(MetadataTo(name) + r[|MetadataAt(kind)|..])
    else if IsAIP(kind) && Under(UPDATED, r) then Some([METADATA, UPDATED_FILE] + r[2..])
    else if IsAIP(kind) && Under(LogicalAt(name), r) then Some([METADATA, LogicalName(name)] + r[2..])
    else if r != [] && r[0] in TopLevel(kind) then None
    else Some(r)
  }

  /** The same for any entry of the file system; outside the package nothing moves. */
  function Target(kind: Kind, root: Location, p: Location): Option<Location>
    requires root != []
  {
    if !Under(root, p) then Some(p)
    else
      var d := Destination(kind, NameOf(root), p[|root|..]);
      if d.Some? then Some(root + d.value) else None
  }

  function NewDirs(kind: Kind, root: Location): set<Location>
    requires root != []
  {
    (if IsAIP(kind) then Prefixes(root + [METADATA]) else {})
    + Prefixes(root + [OBJECTS, NameOf(root)]) + Prefixes(root + [OBJECTS, NameOf(root), HEADER])
  }

  // The moves, relative to the package directory

  function MovesWithin(kind: Kind, name: string): seq<Move> {
    (if IsAIP(kind) then
       [Move(UPDATED, [METADATA, UPDATED_FILE]), Move(LogicalAt(name), [METADATA, LogicalName(name)])]
     else [])
    + [Move(ContentAt(kind), ContentTo(name)), Move(MetadataAt(kind), MetadataTo(name))]
  }

  function MovesIn(root: Location, ms: seq<Move>): seq<Move> {
    seq(|ms|, i requires 0 <= i < |ms| => Move(root + ms[i].src, root + ms[i].dst))
  }

  lemma {:induction false} AfterWithin(root: Location, ms: seq<Move>, r: Location)
    ensures After(MovesIn(root, ms), root + r) == root + After(ms, r)
    decreases |ms|
  {
    if ms != [] {
      var n := |ms| - 1;
      AfterWithin(root, ms[..n], r);
      assert MovesIn(root, ms)[..n] == MovesIn(root, ms[..n]);
      CarriedWithin(root, After(ms[..n], r), ms[n].src, ms[n].dst);
    }
  }

  lemma {:induction false} AfterOutside(root: Location, ms: seq<Move>, p: Location)
    requires !Under(root, p)
    ensures After(MovesIn(root, ms), p) == p
    decreases |ms|
  {
    if ms != [] {
      var n := |ms| - 1;
      AfterOutside(root, ms[..n], p);
      assert MovesIn(root, ms)[..n] == MovesIn(root, ms[..n]);
      NotUnderLonger(root, ms[n].src, p);
    }
  }

  lemma NotUnderLonger(root: Location, r: Location, p: Location)
    requires !Under(root, p)
    ensures !Under(root + r, p)
  {
    if |root + r| <= |p| {
      assert p[..|root + r|][..|root|] == p[..|root|];
    }
  }

  /** A place below another one starts with the same name. */
  lemma SameStart(dir: Location, r: Location, k: nat)
    requires k < |dir|
    ensures Under(dir, r) ==> |r| > k && r[k] == dir[k]
  {
    if Under(dir, r) {
      assert r[..|dir|][k] == r[k];
    }
  }

  lemma AfterTwo(a: Move, b: Move, r: Location)
    ensures After([a, b], r) == Carried(Carried(r, a.src, a.dst), b.src, b.dst)
  {
    AfterOneMore([], a, r);
    AfterOneMore([a], b, r);
    assert [] + [a] == [a] && [a] + [b] == [a, b];
  }

  lemma AfterFour(a: Move, b: Move, c: Move, d: Move, r: Location)
    ensures After([a, b] + [c, d], r) == Carried(Carried(After([a, b], r), c.src, c.dst), d.src, d.dst)
  {
    AfterOneMore([a, b], c, r);
    AfterOneMore([a, b] + [c], d, r);
    assert [a, b] + [c] + [d] == [a, b] + [c, d];
  }

  /** The moves take every entry of the package that is kept to its destination, and leave the others. */
  lemma MovesReachDestination(kind: Kind, name: string, r: Location)
    requires Name(name)
    ensures After(MovesWithin(kind, name), r)
            == if Destination(kind, name, r).Some? then Destination(kind, name, r).value else r
  {
    Words();
    PremisName(name);
    hide CONTENT, HEADER, ADDITIONAL, OBJECTS, METADATA, METADATA_FILE, UPDATED_FILE, OLD, SIP_DIR, Name, LogicalName, Under;
    var c, m := Move(ContentAt(kind), ContentTo(name)), Move(MetadataAt(kind), MetadataTo(name));
    if IsAIP(kind) {
      var u, l := Move(UPDATED, [METADATA, UPDATED_FILE]), Move(LogicalAt(name), [METADATA, LogicalName(name)]);
      AfterTwo(u, l, r);
      AfterFour(u, l, c, m, r);
      AipMoves(kind, name, r);
    } else {
      assert [] + [c, m] == [c, m];
      AfterTwo(c, m, r);
      SipMoves(kind, name, r);
    }
  }

  lemma SipMoves(kind: Kind, name: string, r: Location)
    requires !IsAIP(kind)
    ensures Carried(Carried(r, ContentAt(kind), ContentTo(name)), MetadataAt(kind), MetadataTo(name))
            == if Destination(kind, name, r).Some? then Destination(kind, name, r).value else r
  {
    Words();
    hide CONTENT, HEADER, ADDITIONAL, OBJECTS, METADATA, METADATA_FILE, UPDATED_FILE, Under;
    SameStart(ContentAt(kind), r, 0);
    SameStart(MetadataAt(kind), r, 0);
    var moved := Carried(r, ContentAt(kind), ContentTo(name));
    SameStart(MetadataAt(kind), moved, 0);
  }

  lemma Starts(dir: Location, r: Location)
    requires |dir| >= 2
    ensures Under(dir, r) ==> |r| > 1 && r[0] == dir[0] && r[1] == dir[1]
  {
    SameStart(dir, r, 0);
    SameStart(dir, r, 1);
  }

  /** The first two moves of an AIP. */
  function AfterAdditional(name: string, r: Location): Location {
    if Under(UPDATED, r) then [METADATA, UPDATED_FILE] + r[2..]
    else if Under(LogicalAt(name), r) then [METADATA, LogicalName(name)] + r[2..]
    else r
  }

  lemma AdditionalMoves(name: string, r: Location)
    requires Name(name)
    ensures Carried(Carried(r, UPDATED, [METADATA, UPDATED_FILE]), LogicalAt(name), [METADATA, LogicalName(name)])
            == AfterAdditional(name, r)
  {
    Words();
    hide CONTENT, HEADER, ADDITIONAL, OBJECTS, METADATA, METADATA_FILE, UPDATED_FILE, Name, LogicalName, Under;
    Starts(LogicalAt(name), Carried(r, UPDATED, [METADATA, UPDATED_FILE]));
  }

  lemma ContentMoves(kind: Kind, name: string, r: Location)
    requires IsAIP(kind)
    ensures Carried(Carried(r, ContentAt(kind), ContentTo(name)), MetadataAt(kind), MetadataTo(name))
            == if Under(ContentAt(kind), r) then ContentTo(name) + r[2..]
               else if Under(MetadataAt(kind), r) then MetadataTo(name) + r[5..]
               else r
  {
    Words();
    hide CONTENT, HEADER, ADDITIONAL, OBJECTS, METADATA, METADATA_FILE, UPDATED_FILE, Under;
    Starts(MetadataAt(kind), Carried(r, ContentAt(kind), ContentTo(name)));
  }

  lemma AipMoves(kind: Kind, name: string, r: Location)
    requires IsAIP(kind) && Name(name)
    ensures var l := Carried(Carried(r, UPDATED, [METADATA, UPDATED_FILE]), LogicalAt(name), [METADATA, LogicalName(name)]);
            Carried(Carried(l, ContentAt(kind), ContentTo(name)), MetadataAt(kind), MetadataTo(name))
            == if Destination(kind, name, r).Some? then Destination(kind, name, r).value else r
  {
    Words();
    AdditionalMoves(name, r);
    var l := AfterAdditional(name, r);
    ContentMoves(kind, name, l);
    hide CONTENT, HEADER, ADDITIONAL, OBJECTS, METADATA, METADATA_FILE, UPDATED_FILE, Name, LogicalName, Under, Carried;
    Starts(UPDATED, r);
    Starts(LogicalAt(name), r);
    Starts(ContentAt(kind), r);
    Starts(MetadataAt(kind), r);
    Starts(ContentAt(kind), l);
    Starts(MetadataAt(kind), l);
  }

  /** The same for the whole file system. */
  lemma MovesReachTarget(kind: Kind, root: Location, p: Location)
    requires Root(root)
    ensures After(MovesIn(root, MovesWithin(kind, NameOf(root))), p)
            == if Target(kind, root, p).Some? then Target(kind, root, p).value else p
  {
    var ms := MovesWithin(kind, NameOf(root));
    if Under(root, p) {
      var r := p[|root|..];
      assert root + r == p;
      AfterWithin(root, ms, r);
      MovesReachDestination(kind, NameOf(root), r);
    } else {
      AfterOutside(root, ms, p);
    }
  }

  /** What is removed is exactly what has not been moved out of the old top-level directories. */
  lemma OldDirectoriesHoldTheRest(kind: Kind, root: Location, p: Location)
    requires Root(root)
    ensures var q := After(MovesIn(root, MovesWithin(kind, NameOf(root))), p);
            Target(kind, root, p).None? <==> Under(root + [TopLevel(kind)[0]], q) || Under(root + [TopLevel(kind)[1]], q)
  {
    var name := NameOf(root);
    var q := After(MovesIn(root, MovesWithin(kind, name)), p);
    MovesReachTarget(kind, root, p);
    var a, b := TopLevel(kind)[0], TopLevel(kind)[1];
    if Under(root, p) {
      var r := p[|root|..];
      var d := Destination(kind, name, r);
      var q' := if d.Some? then d.value else r;
      assert root + r == p && q == root + q';
      UnderWithin(root, [a], q');
      UnderWithin(root, [b], q');
      UnderOne(a, q');
      UnderOne(b, q');
      DestinationIsOutside(kind, name, r);
    } else {
      NotUnderLonger(root, [a], p);
      NotUnderLonger(root, [b], p);
    }
  }

  lemma UnderOne(n: string, r: Location)
    ensures Under([n], r) <==> r != [] && r[0] == n
  {
    if r != [] {
      assert r[..1] == [r[0]];
    }
  }

  lemma DestinationIsOutside(kind: Kind, name: string, r: Location)
    ensures Destination(kind, name, r).Some? ==>
      var d := Destination(kind, name, r).value; d == [] || d[0] !in TopLevel(kind)
    ensures Destination(kind, name, r).None? ==> r != [] && r[0] in TopLevel(kind)
  {
    Words();
    hide CONTENT, HEADER, ADDITIONAL, OBJECTS, METADATA, METADATA_FILE, UPDATED_FILE, LogicalName, Under;
  }

  // The activity

  predicate SameTarget(kind: Kind, root: Location, p: Location, p': Location)
    requires root != []
  {
    Target(kind, root, p).Some? && Target(kind, root, p) == Target(kind, root, p')
  }

  /** What restructuring makes of a file system. */
  ghost predicate Restructured(kind: Kind, root: Location, before: Tree, after: Tree)
    requires root != []
  {
    // every entry that has a destination is there, unchanged
    && (forall p :: p in before && Target(kind, root, p).Some? ==>
          var d := Target(kind, root, p).value; d in after && after[d] == before[p])
    // no two entries at the same place
    && (forall p, p' :: p in before && p' in before && SameTarget(kind, root, p, p') ==> p == p')
    // and nothing else but new directories
    && (forall q :: q in after ==>
          || (exists p :: p in before && Target(kind, root, p) == Some(q))
          || (q in NewDirs(kind, root) && after[q] == Directory))
  }

  lemma TrackedIsRestructured(kind: Kind, root: Location, before: Tree, dirs: set<Location>, t: Tree)
    requires Root(root) && dirs == NewDirs(kind, root)
    requires Tracked(before, MovesIn(root, MovesWithin(kind, NameOf(root))), dirs, t)
    ensures Restructured(kind, root, before, Without(Without(t, root + [TopLevel(kind)[0]]), root + [TopLevel(kind)[1]]))
  {
    var ms := MovesIn(root, MovesWithin(kind, NameOf(root)));
    var after := Without(Without(t, root + [TopLevel(kind)[0]]), root + [TopLevel(kind)[1]]);
    forall p | p in before && Target(kind, root, p).Some?
      ensures After(ms, p) == Target(kind, root, p).value && After(ms, p) in after && after[After(ms, p)] == before[p]
    {
      MovesReachTarget(kind, root, p);
      OldDirectoriesHoldTheRest(kind, root, p);
    }
    forall q | q in after
      ensures (exists p :: p in before && Target(kind, root, p) == Some(q)) || (q in NewDirs(kind, root) && after[q] == Directory)
    {
      OriginOfKept(kind, root, before, dirs, t, q);
    }
    hide Target, After, NewDirs;
  }

  lemma OriginOfKept(kind: Kind, root: Location, before: Tree, dirs: set<Location>, t: Tree, q: Location)
    requires Root(root) && dirs == NewDirs(kind, root)
    requires Tracked(before, MovesIn(root, MovesWithin(kind, NameOf(root))), dirs, t)
    requires q in t && !Under(root + [TopLevel(kind)[0]], q) && !Under(root + [TopLevel(kind)[1]], q)
    ensures (exists p :: p in before && Target(kind, root, p) == Some(q)) || (q in NewDirs(kind, root) && t[q] == Directory)
  {
    var ms := MovesIn(root, MovesWithin(kind, NameOf(root)));
    if p :| p in before && After(ms, p) == q {
      MovesReachTarget(kind, root, p);
      OldDirectoriesHoldTheRest(kind, root, p);
      assert Target(kind, root, p) == Some(q);
    }
  }

  predicate InOldDirectory(kind: Kind, root: Location, p: Location) {
    Under(root + [TopLevel(kind)[0]], p) || Under(root + [TopLevel(kind)[1]], p)
  }

  /** Everything outside the old top-level directories is as it was. */
  ghost predicate OthersUntouched(kind: Kind, root: Location, before: Tree, after: Tree) {
    forall p :: p in before && !InOldDirectory(kind, root, p) ==> p in after && after[p] == before[p]
  }

  lemma {:induction false} PrefixesElsewhere(root: Location, s: Location, x: Location)
    requires s != [] && x != [] && s[0] != x[0]
    ensures forall d :: d in Prefixes(root + x) ==> !Under(root + s, d)
  {
    forall d | d in Prefixes(root + x)
      ensures !Under(root + s, d)
    {
      var i :| 0 <= i <= |root + x| && d == (root + x)[..i];
      if |root + s| <= i {
        assert d[|root|] == x[0] && (root + s)[|root|] == s[0];
        assert d[..|root + s|][|root|] == d[|root|];
      }
    }
  }

  /** The state of a run: what has been moved so far, which directories are there, and that the rest is untouched. */
  ghost predicate Underway(kind: Kind, root: Location, before: Tree, ms: seq<Move>, dirs: set<Location>, t: Tree) {
    Tracked(before, MovesIn(root, ms), dirs, t) && OthersUntouched(kind, root, before, t) && AllDirectories(dirs, t)
  }

  predicate AllDirectories(dirs: set<Location>, t: Tree) {
    forall d :: d in dirs ==> IsDirectory(t, d)
  }

  // When the steps are possible, in terms of how things were before

  /** Something to move, and a free place for it. */
  predicate MovePossible(before: Tree, root: Location, m: Move) {
    root + m.src in before && root + m.dst !in before
  }

  /** Neither the moves so far nor the directories made so far concern the move, and its directory is there. */
  ghost predicate Fits(root: Location, ms: seq<Move>, dirs: set<Location>, m: Move) {
    && Apart(ms, m.src) && Apart(ms, m.dst) && m.dst != [] && !Under(m.src, m.dst)
    && root + m.src !in dirs && root + m.dst !in dirs && root + Parent(m.dst) in dirs
  }

  /** Nor do the moves so far concern the directories on a path. */
  ghost predicate DirsFit(ms: seq<Move>, at: Location) {
    && (forall i :: 0 <= i < |ms| ==> ms[i].src != [] && ms[i].dst != [])
    && forall i :: 0 <= i <= |at| ==> Apart(ms, at[..i])
  }

  lemma ApartWithin(root: Location, ms: seq<Move>, x: Location)
    ensures Apart(MovesIn(root, ms), root + x) <==> Apart(ms, x)
  {
    forall i | 0 <= i < |ms|
      ensures Under(MovesIn(root, ms)[i].src, root + x) <==> Under(ms[i].src, x)
      ensures Under(MovesIn(root, ms)[i].dst, root + x) <==> Under(ms[i].dst, x)
    {
      UnderWithin(root, ms[i].src, x);
      UnderWithin(root, ms[i].dst, x);
    }
    hide Under;
    assert |MovesIn(root, ms)| == |ms|;
  }

  lemma MoveStillPossible(kind: Kind, root: Location, before: Tree, ms: seq<Move>, dirs: set<Location>, t: Tree, m: Move)
    requires Underway(kind, root, before, ms, dirs, t) && Fits(root, ms, dirs, m)
    ensures CanMove(t, root + m.src, root + m.dst) <==> MovePossible(before, root, m)
  {
    hide Tracked, Under, MovesIn, OthersUntouched, Apart;
    ApartWithin(root, ms, m.src);
    ApartWithin(root, ms, m.dst);
    ApartIsAsBefore(before, MovesIn(root, ms), dirs, t, root + m.src);
    ApartIsAsBefore(before, MovesIn(root, ms), dirs, t, root + m.dst);
    UnderWithin(root, m.src, m.dst);
    ParentWithin(root, m.dst);
  }

  lemma ParentWithin(root: Location, x: Location)
    requires x != []
    ensures Parent(root + x) == root + Parent(x)
  {
  }

  lemma DirsStillPossible(kind: Kind, root: Location, before: Tree, ms: seq<Move>, dirs: set<Location>, t: Tree, at: Location)
    requires Underway(kind, root, before, ms, dirs, t) && DirsFit(ms, at)
    ensures CanMakeDirs(t, root + at) <==> CanMakeDirs(before, root + at)
  {
    forall i | 0 <= i <= |root + at|
      ensures var q := (root + at)[..i];
              (q in t && !t[q].Directory?) <==> (q in before && !before[q].Directory?)
    {
      PrefixApart(root, ms, at, i);
      ApartIsAsBefore(before, MovesIn(root, ms), dirs, t, (root + at)[..i]);
    }
    hide Tracked, MovesIn, OthersUntouched, DirsFit;
  }

  lemma PrefixApart(root: Location, ms: seq<Move>, at: Location, i: nat)
    requires i <= |root + at| && DirsFit(ms, at)
    ensures Apart(MovesIn(root, ms), (root + at)[..i])
  {
    var q := (root + at)[..i];
    if i >= |root| {
      assert q == root + at[..i - |root|];
      ApartWithin(root, ms, at[..i - |root|]);
    }
  }

  lemma MovesInOneMore(root: Location, ms: seq<Move>, m: Move)
    ensures MovesIn(root, ms + [m]) == MovesIn(root, ms) + [Move(root + m.src, root + m.dst)]
  {
  }

  lemma LocateIn(path: string, root: Location, at: Location)
    requires Root(root) && Names(at) && Stands(path, root, at)
    ensures Locate(path) == root + at
  {
    LocatePath(root + at);
  }

  method MakeDirs(disk: Disk, path: string, ghost at: Location, ghost kind: Kind, ghost root: Location,
                  ghost before: Tree, ghost ms: seq<Move>, ghost dirs: set<Location>, ghost more: set<Location>)
    returns (ok: bool)
    requires more == dirs + Prefixes(root + at)
    requires disk.Valid() && Root(root) && Names(at) && Stands(path, root, at)
    requires Underway(kind, root, before, ms, dirs, disk.tree) && DirsFit(ms, at)
    modifies disk`tree
    ensures disk.Valid() && OthersUntouched(kind, root, before, disk.tree)
    ensures ok ==> Underway(kind, root, before, ms, more, disk.tree) && CanMakeDirs(before, root + at)
    ensures disk.reliable && CanMakeDirs(before, root + at) ==> ok
  {
    LocateIn(path, root, at);
    DirsStillPossible(kind, root, before, ms, dirs, disk.tree, at);
    ghost var t := disk.tree;
    ok := disk.MkdirAll(path);
    if ok {
      StillUnderwayWithDirs(kind, root, before, ms, dirs, t, at);
    }
  }

  lemma StillUnderwayWithDirs(kind: Kind, root: Location, before: Tree, ms: seq<Move>, dirs: set<Location>, t: Tree, at: Location)
    requires Underway(kind, root, before, ms, dirs, t) && ValidTree(t) && CanMakeDirs(t, root + at)
    ensures Underway(kind, root, before, ms, dirs + Prefixes(root + at), WithDirs(t, root + at))
  {
    TrackDirs(before, MovesIn(root, ms), dirs, t, root + at);
    WithDirsIsValid(t, root + at);
    hide Tracked;
  }

  predicate Outgoing(kind: Kind, m: Move) {
    Names(m.src) && Names(m.dst) && m.src != [] && m.src[0] in TopLevel(kind)
  }

  /** Moves something out of an old top-level directory. */
  method MoveOut(disk: Disk, src: string, dst: string, ghost m: Move, ghost kind: Kind, ghost root: Location,
                 ghost before: Tree, ghost ms: seq<Move>, ghost dirs: set<Location>)
    returns (ok: bool)
    requires disk.Valid() && Root(root) && Stands(src, root, m.src) && Stands(dst, root, m.dst)
    requires Outgoing(kind, m) && forall d :: d in dirs ==> !Under(root + m.src, d)
    requires Underway(kind, root, before, ms, dirs, disk.tree) && Fits(root, ms, dirs, m)
    modifies disk`tree
    ensures disk.Valid() && OthersUntouched(kind, root, before, disk.tree)
    ensures ok ==> Underway(kind, root, before, ms + [m], dirs, disk.tree) && MovePossible(before, root, m)
    ensures disk.reliable && MovePossible(before, root, m) ==> ok
  {
    LocateIn(src, root, m.src);
    LocateIn(dst, root, m.dst);
    MoveStillPossible(kind, root, before, ms, dirs, disk.tree, m);
    ghost var t := disk.tree;
    ok := disk.MoveEntry(src, dst);
    if ok {
      StillUnderway(kind, root, before, ms, dirs, t, m);
    }
  }

  lemma StillUnderway(kind: Kind, root: Location, before: Tree, ms: seq<Move>, dirs: set<Location>, t: Tree, m: Move)
    requires Underway(kind, root, before, ms, dirs, t) && ValidTree(t) && CanMove(t, root + m.src, root + m.dst)
    requires Outgoing(kind, m) && forall d :: d in dirs ==> !Under(root + m.src, d)
    ensures Underway(kind, root, before, ms + [m], dirs, Moved(t, root + m.src, root + m.dst))
  {
    DirectoriesKept(dirs, t, root + m.src, root + m.dst);
    hide Tracked, Moved, MovesIn, ValidTree, CanMove, Under, OthersUntouched, AllDirectories;
    TrackMove(before, MovesIn(root, ms), dirs, t, root + m.src, root + m.dst);
    MovesInOneMore(root, ms, m);
    OthersMoved(kind, root, before, t, m);
  }

  lemma DirectoriesKept(dirs: set<Location>, t: Tree, src: Location, dst: Location)
    requires AllDirectories(dirs, t) && ValidTree(t) && CanMove(t, src, dst) && forall d :: d in dirs ==> !Under(src, d)
    ensures AllDirectories(dirs, Moved(t, src, dst))
  {
    MovedAt(t, src, dst);
    forall d | d in dirs
      ensures Carried(d, src, dst) == d
    {
      NotCarried(d, src, dst);
    }
    hide Moved, Carried, Under, CameFrom, CanMove, ValidTree;
  }

  lemma OthersMoved(kind: Kind, root: Location, before: Tree, t: Tree, m: Move)
    requires OthersUntouched(kind, root, before, t) && ValidTree(t) && CanMove(t, root + m.src, root + m.dst) && Outgoing(kind, m)
    ensures OthersUntouched(kind, root, before, Moved(t, root + m.src, root + m.dst))
  {
    var s, d := root + m.src, root + m.dst;
    MovedAt(t, s, d);
    hide Moved, ValidTree, CanMove, CameFrom, Under;
    forall p | p in before && !InOldDirectory(kind, root, p)
      ensures Carried(p, s, d) == p
    {
      FirstAndRest(root, m.src);
      NotUnderLonger(root + [m.src[0]], m.src[1..], p);
    }
  }

  // The directories that are made do not lie in what is moved out later

  lemma DirsElsewhere(kind: Kind, root: Location, s: Location)
    requires Root(root) && s != [] && s[0] in TopLevel(kind)
    ensures forall d :: d in NewDirs(kind, root) ==> !Under(root + s, d)
  {
    Words();
    hide CONTENT, HEADER, ADDITIONAL, OBJECTS, METADATA, Under, Prefixes;
    PrefixesElsewhere(root, s, [METADATA]);
    PrefixesElsewhere(root, s, [OBJECTS, NameOf(root)]);
    PrefixesElsewhere(root, s, [OBJECTS, NameOf(root), HEADER]);
  }

  lemma JoinBase(src: string, dir: string, root: Location, at: Location, to: Location)
    requires Root(root) && Names(at) && Names(to) && at != [] && Stands(src, root, at) && Stands(dir, root, to)
    ensures Stands(In(dir, [Base(src)]), root, to + [at[|at| - 1]])
  {
    var init, n := at[..|at| - 1], at[|at| - 1];
    assert root + at == (root + init) + [n];
    BasePath(true, root + init, n);
    JoinNames(root + to, [n]);
    Assoc(root, to, [n]);
  }

  lemma JoinBelow(dir: string, root: Location, to: Location, ns: Location)
    requires Root(root) && Names(to) && Names(ns) && Stands(dir, root, to)
    ensures Stands(In(dir, ns), root, to + ns)
  {
    NamesConcat(root, to);
    hide Names, Path, In;
    Assoc(root, to, ns);
    JoinNames(root + to, ns);
  }

  lemma StartUnderway(kind: Kind, root: Location, t: Tree)
    ensures Underway(kind, root, t, [], {}, t) && OthersUntouched(kind, root, t, t)
  {
    TrackNothing(t);
    assert MovesIn(root, []) == [];
  }

  function DirsOfAdditional(root: Location): (dirs: set<Location>)
    ensures dirs == {} + Prefixes(root + [METADATA])
  {
    Prefixes(root + [METADATA])
  }

  function UpdatedMove(): Move {
    Move(UPDATED, [METADATA, UPDATED_FILE])
  }

  function LogicalMove(name: string): Move {
    Move(LogicalAt(name), [METADATA, LogicalName(name)])
  }

  // The paths that the activity works on

  lemma DirsAre(root: Location)
    ensures DirsOfAdditional(root) == {} + Prefixes(root + [METADATA])
  {
  }

  lemma MetadataDirectory(root: Location)
    requires Root(root)
    ensures Names([METADATA]) && Stands(In(Path(true, root), [METADATA]), root, [METADATA])
  {
    Words();
    JoinNames(root, [METADATA]);
  }

  lemma AdditionalGoesOut(kind: Kind, name: string)
    requires IsAIP(kind) && Name(name)
    ensures Outgoing(kind, UpdatedMove()) && Outgoing(kind, LogicalMove(name))
  {
    LayoutNames(kind, name);
    Words();
    PremisName(name);
    hide CONTENT, HEADER, ADDITIONAL, OBJECTS, METADATA, METADATA_FILE, UPDATED_FILE, Name, LogicalName;
  }

  lemma UpdatedPlaces(kind: Kind, root: Location, mdPath: string)
    requires Root(root) && IsAIP(kind) && Stands(mdPath, root, [METADATA]) && Names([METADATA])
    ensures var sip := LaidOut(kind, Path(true, root));
            && Stands(sip.updatedAreldaMDPath, root, UpdatedMove().src)
            && Stands(In(mdPath, [Base(sip.updatedAreldaMDPath)]), root, UpdatedMove().dst)
  {
    LayoutOf(kind, root);
    LayoutNames(kind, NameOf(root));
    hide LaidOut, Stands, Names, In, Base;
    JoinBase(LaidOut(kind, Path(true, root)).updatedAreldaMDPath, mdPath, root, UPDATED, [METADATA]);
    OneByOne(METADATA, UPDATED_FILE);
  }

  lemma LogicalPlaces(kind: Kind, root: Location, mdPath: string)
    requires Root(root) && IsAIP(kind) && Stands(mdPath, root, [METADATA]) && Names([METADATA])
    ensures var sip, name := LaidOut(kind, Path(true, root)), NameOf(root);
            && Stands(sip.logicalMDPath, root, LogicalMove(name).src)
            && Stands(In(mdPath, [Base(sip.logicalMDPath)]), root, LogicalMove(name).dst)
  {
    var name := NameOf(root);
    LayoutOf(kind, root);
    LayoutNames(kind, name);
    hide LaidOut, Stands, Names, In, Base;
    JoinBase(LaidOut(kind, Path(true, root)).logicalMDPath, mdPath, root, LogicalAt(name), [METADATA]);
    OneByOne(METADATA, LogicalName(name));
  }

  function OneMove(): seq<Move> {
    [UpdatedMove()]
  }

  function TwoMoves(name: string): seq<Move> {
    [UpdatedMove(), LogicalMove(name)]
  }

  lemma MoveByMove(name: string)
    ensures [] + [UpdatedMove()] == OneMove() && OneMove() + [LogicalMove(name)] == TwoMoves(name)
  {
  }

  // The steps do not get in each other's way

  lemma InPrefixes(root: Location, x: Location, y: Location)
    ensures root + x in Prefixes(root + y) <==> |x| <= |y| && y[..|x|] == x
  {
    if |x| <= |y| {
      assert (root + y)[..|root + x|] == root + y[..|x|];
      SamePrefix(root, y[..|x|], x);
    }
    if root + x in Prefixes(root + y) {
      var i :| 0 <= i <= |root + y| && root + x == (root + y)[..i];
      assert i == |root + x|;
    }
  }

  /** Moves from the old directories to the metadata directory. */
  predicate FromOldToMetadata(kind: Kind, m: Move) {
    && |m.src| >= 2 && m.src[0] in TopLevel(kind) && |m.dst| >= 2 && m.dst[0] == METADATA
  }

  lemma UpdatedFits(root: Location)
    requires Root(root)
    ensures DirsFit([], [METADATA]) && Fits(root, [], DirsOfAdditional(root), UpdatedMove())
  {
    Words();
    hide CONTENT, HEADER, ADDITIONAL, OBJECTS, METADATA, METADATA_FILE, UPDATED_FILE, Prefixes, Under;
    InPrefixes(root, UPDATED, [METADATA]);
    InPrefixes(root, [METADATA, UPDATED_FILE], [METADATA]);
    InPrefixes(root, [METADATA], [METADATA]);
    SameStart(UPDATED, [METADATA, UPDATED_FILE], 0);
    assert Parent([METADATA, UPDATED_FILE]) == [METADATA];
  }

  lemma LogicalFits(root: Location)
    requires Root(root)
    ensures Fits(root, OneMove(), DirsOfAdditional(root), LogicalMove(NameOf(root)))
  {
    var name := NameOf(root);
    Words();
    PremisName(name);
    hide CONTENT, HEADER, ADDITIONAL, OBJECTS, METADATA, METADATA_FILE, UPDATED_FILE, Prefixes, Under, LogicalName, Name;
    var src, dst := LogicalAt(name), [METADATA, LogicalName(name)];
    InPrefixes(root, src, [METADATA]);
    InPrefixes(root, dst, [METADATA]);
    InPrefixes(root, [METADATA], [METADATA]);
    SameStart(src, dst, 0);
    Starts(UPDATED, src);
    Starts(UPDATED, dst);
    Starts([METADATA, UPDATED_FILE], src);
    Starts([METADATA, UPDATED_FILE], dst);
    assert Parent(dst) == [METADATA];
  }

  lemma FirstMovesGoToMetadata(kind: Kind, name: string)
    ensures forall i :: 0 <= i < |FirstMoves(kind, name)| ==> FromOldToMetadata(kind, FirstMoves(kind, name)[i])
    ensures IsAIP(kind) ==> FirstMoves(kind, name)[0].src[0] == ADDITIONAL && FirstMoves(kind, name)[1].src[0] == ADDITIONAL
  {
  }

  /** A content location is apart from what was moved out of the additional directory. */
  lemma ApartFromFirst(kind: Kind, name: string, x: Location)
    requires x == [] || (x[0] != ADDITIONAL && x[0] != METADATA)
    ensures Apart(FirstMoves(kind, name), x)
  {
    FirstMovesGoToMetadata(kind, name);
    hide CONTENT, HEADER, ADDITIONAL, OBJECTS, METADATA, METADATA_FILE, UPDATED_FILE, Under;
    var ms := FirstMoves(kind, name);
    forall i | 0 <= i < |ms|
      ensures !Under(ms[i].src, x) && !Under(ms[i].dst, x)
    {
      SameStart(ms[i].src, x, 0);
      SameStart(ms[i].dst, x, 0);
    }
  }

  lemma NotADir(kind: Kind, root: Location, x: Location)
    requires Root(root) && |x| >= 1 && (x[0] in TopLevel(kind) || x == ContentTo(NameOf(root)) || x == MetadataTo(NameOf(root)))
    ensures root + x !in NewDirs(kind, root)
  {
    var name := NameOf(root);
    Words();
    hide CONTENT, HEADER, ADDITIONAL, OBJECTS, METADATA, METADATA_FILE, UPDATED_FILE, Prefixes;
    InPrefixes(root, x, [METADATA]);
    InPrefixes(root, x, [OBJECTS, name]);
    InPrefixes(root, x, [OBJECTS, name, HEADER]);
    PrefixAgrees(x, [METADATA], 0);
    PrefixAgrees(x, [OBJECTS, name], 0);
    PrefixAgrees(x, [OBJECTS, name, HEADER], 0);
    PrefixAgrees(x, [OBJECTS, name, HEADER], 2);
  }

  lemma PrefixAgrees(x: Location, y: Location, k: nat)
    requires k < |y|
    ensures k < |x| <= |y| && y[..|x|] == x ==> y[k] == x[k]
  {
    if k < |x| <= |y| {
      assert y[..|x|][k] == y[k];
    }
  }

  lemma ContentFits(kind: Kind, root: Location)
    requires Root(root)
    ensures var ms := FirstMoves(kind, NameOf(root));
            DirsFit(ms, [OBJECTS, NameOf(root)]) && Fits(root, ms, SecondDirs(kind, root), ContentMove(kind, NameOf(root)))
  {
    var name := NameOf(root);
    Words();
    FirstMovesGoToMetadata(kind, name);
    hide Prefixes, Under, FirstMoves, Apart, NewDirs;
    NotADir(kind, root, ContentAt(kind));
    NotADir(kind, root, ContentTo(name));
    AllDirs(kind, root);
    hide CONTENT, HEADER, ADDITIONAL, OBJECTS, METADATA, METADATA_FILE, UPDATED_FILE, Prefixes, Under, FirstMoves, Apart;
    ApartFromFirst(kind, name, ContentAt(kind));
    ApartFromFirst(kind, name, ContentTo(name));
    SameStart(ContentAt(kind), ContentTo(name), 0);
    InPrefixes(root, [OBJECTS, name], [OBJECTS, name]);
    assert Parent(ContentTo(name)) == [OBJECTS, name] && [OBJECTS, name][..2] == [OBJECTS, name];
    forall i | 0 <= i <= 2
      ensures Apart(FirstMoves(kind, name), [OBJECTS, name][..i])
    {
      ApartFromFirst(kind, name, [OBJECTS, name][..i]);
    }
  }

  lemma ApartOneMore(ms: seq<Move>, m: Move, x: Location)
    requires Apart(ms, x) && !Under(m.src, x) && !Under(m.dst, x)
    ensures Apart(ms + [m], x)
  {
    hide Under;
  }

  lemma MetadataFits(kind: Kind, root: Location)
    requires Root(root)
    ensures var ms := FirstMoves(kind, NameOf(root)) + [ContentMove(kind, NameOf(root))];
            DirsFit(ms, [OBJECTS, NameOf(root), HEADER]) && Fits(root, ms, NewDirs(kind, root), MetadataMove(kind, NameOf(root)))
  {
    var name := NameOf(root);
    var dirs, c := [OBJECTS, name, HEADER], ContentMove(kind, name);
    Words();
    FirstMovesGoToMetadata(kind, name);
    NotADir(kind, root, MetadataAt(kind));
    NotADir(kind, root, MetadataTo(name));
    AllDirs(kind, root);
    hide CONTENT, HEADER, ADDITIONAL, OBJECTS, METADATA, METADATA_FILE, UPDATED_FILE, Prefixes, Under, FirstMoves, Apart, OLD, SIP_DIR;
    forall x | x in [MetadataAt(kind), MetadataTo(name), dirs[..0], dirs[..1], dirs[..2], dirs[..3]]
      ensures Apart(FirstMoves(kind, name) + [c], x)
    {
      ApartFromFirst(kind, name, x);
      ApartFromContent(kind, name, x);
      ApartOneMore(FirstMoves(kind, name), c, x);
    }
    SameStart(MetadataAt(kind), MetadataTo(name), 0);
    InPrefixes(root, dirs, dirs);
    assert Parent(MetadataTo(name)) == dirs && dirs[..3] == dirs;
  }

  lemma ApartFromContent(kind: Kind, name: string, x: Location)
    requires (|x| <= 2 && (x == [] || x[0] == OBJECTS)) || x == [OBJECTS, name, HEADER] || x == MetadataAt(kind) || x == MetadataTo(name)
    ensures !Under(ContentAt(kind), x) && !Under(ContentTo(name), x)
  {
    Words();
    hide CONTENT, HEADER, ADDITIONAL, OBJECTS, METADATA, METADATA_FILE, UPDATED_FILE, OLD, SIP_DIR;
    SameStart(ContentAt(kind), x, 0);
    SameStart(ContentTo(name), x, 0);
    SameStart(ContentTo(name), x, 2);
    if IsAIP(kind) {
      SameStart(ContentAt(kind), x, 1);
    }
  }

  /** What the first part needs to find. */
  ghost predicate AdditionalReady(root: Location, before: Tree)
    requires root != []
  {
    && CanMakeDirs(before, root + [METADATA])
    && MovePossible(before, root, UpdatedMove()) && MovePossible(before, root, LogicalMove(NameOf(root)))
  }

  /** What the second part needs to find. */
  ghost predicate ContentReady(kind: Kind, root: Location, before: Tree)
    requires root != []
  {
    var name := NameOf(root);
    && CanMakeDirs(before, root + [OBJECTS, name]) && MovePossible(before, root, ContentMove(kind, name))
    && CanMakeDirs(before, root + [OBJECTS, name, HEADER]) && MovePossible(before, root, MetadataMove(kind, name))
  }

  /** Makes the metadata directory of an AIP. */
  method MakeMetadata(disk: Disk, mdPath: string, ghost kind: Kind, ghost root: Location, ghost before: Tree)
    returns (ok: bool)
    requires disk.Valid() && disk.tree == before && Root(root) && Stands(mdPath, root, [METADATA])
    modifies disk`tree
    ensures disk.Valid() && OthersUntouched(kind, root, before, disk.tree)
    ensures ok ==> Underway(kind, root, before, [], DirsOfAdditional(root), disk.tree) && CanMakeDirs(before, root + [METADATA])
    ensures disk.reliable && CanMakeDirs(before, root + [METADATA]) ==> ok
  {
    hide *;
    MetadataDirectory(root);
    UpdatedFits(root);
    DirsAre(root);
    StartUnderway(kind, root, before);
    ok := MakeDirs(disk, mdPath, [METADATA], kind, root, before, [], {}, DirsOfAdditional(root));
  }

  /** The first part for AIPs: the two files of the additional directory go to the metadata directory. */
  method MoveAdditional(disk: Disk, sip: SIP, ghost root: Location, ghost before: Tree)
    returns (ok: bool)
    requires disk.Valid() && disk.tree == before && Root(root) && sip == LaidOut(sip.kind, Path(true, root)) && IsAIP(sip.kind)
    modifies disk`tree
    ensures disk.Valid() && OthersUntouched(sip.kind, root, before, disk.tree)
    ensures ok ==> Underway(sip.kind, root, before, TwoMoves(NameOf(root)), DirsOfAdditional(root), disk.tree)
    ensures ok ==> AdditionalReady(root, before)
    ensures disk.reliable && AdditionalReady(root, before) ==> ok
  {
    assert sip.path == Path(true, root) && Name(NameOf(root));
    hide METADATA, Underway, DirsOfAdditional, OthersUntouched, ValidTree, LaidOut, Base, Under, Stands, In, UpdatedMove, LogicalMove,
         Outgoing, Names, Name, NameOf, OneMove, TwoMoves, Fits, DirsFit, MovePossible, CanMakeDirs;
    ghost var name, dirs := NameOf(root), DirsOfAdditional(root);
    UpdatedFits(root);
    LogicalFits(root);
    MetadataDirectory(root);
    AdditionalGoesOut(sip.kind, name);
    AdditionalDirsElsewhere(sip.kind, root);
    MoveByMove(name);
    var mdPath := In(sip.path, [METADATA]);
    ok := MakeMetadata(disk, mdPath, sip.kind, root, before);
    if !ok {
      return;
    }
    UpdatedPlaces(sip.kind, root, mdPath);
    var updated := In(mdPath, [Base(sip.updatedAreldaMDPath)]);
    ok := MoveOut(disk, sip.updatedAreldaMDPath, updated, UpdatedMove(), sip.kind, root, before, [], dirs);
    if !ok {
      return;
    }
    LogicalPlaces(sip.kind, root, mdPath);
    var logical := In(mdPath, [Base(sip.logicalMDPath)]);
    ok := MoveOut(disk, sip.logicalMDPath, logical, LogicalMove(name), sip.kind, root, before, OneMove(), dirs);
  }

  lemma AdditionalDirsElsewhere(kind: Kind, root: Location)
    requires Root(root) && IsAIP(kind)
    ensures forall d :: d in DirsOfAdditional(root) ==>
      !Under(root + UpdatedMove().src, d) && !Under(root + LogicalMove(NameOf(root)).src, d)
  {
    DirsElsewhere(kind, root, UPDATED);
    DirsElsewhere(kind, root, LogicalAt(NameOf(root)));
    assert DirsOfAdditional(root) <= NewDirs(kind, root);
  }

  function ContentMove(kind: Kind, name: string): Move {
    Move(ContentAt(kind), ContentTo(name))
  }

  function MetadataMove(kind: Kind, name: string): Move {
    Move(MetadataAt(kind), MetadataTo(name))
  }

  lemma ObjectsDirectory(kind: Kind, root: Location)
    requires Root(root)
    ensures var name := NameOf(root);
            var objectsPath := In(Path(true, root), [OBJECTS, name]);
            && Names([OBJECTS, name]) && Stands(objectsPath, root, [OBJECTS, name])
            && Stands(In(objectsPath, [CONTENT]), root, ContentTo(name))
            && Names([OBJECTS, name, HEADER]) && Stands(In(objectsPath, [HEADER]), root, [OBJECTS, name, HEADER])
  {
    Words();
    var name := NameOf(root);
    assert Names([OBJECTS, name]) && Names([CONTENT]) && Names([HEADER]) && Names([OBJECTS, name, HEADER]);
    JoinNames(root, [OBJECTS, name]);
    var objectsPath := In(Path(true, root), [OBJECTS, name]);
    assert [OBJECTS, name] + [CONTENT] == ContentTo(name) && [OBJECTS, name] + [HEADER] == [OBJECTS, name, HEADER];
    hide In, Names, ContentTo;
    JoinBelow(objectsPath, root, [OBJECTS, name], [CONTENT]);
    JoinBelow(objectsPath, root, [OBJECTS, name], [HEADER]);
  }

  lemma ContentGoesOut(kind: Kind, name: string)
    requires Name(name)
    ensures Outgoing(kind, ContentMove(kind, name)) && Outgoing(kind, MetadataMove(kind, name))
  {
    LayoutNames(kind, name);
    Words();
    hide CONTENT, HEADER, ADDITIONAL, OBJECTS, METADATA, METADATA_FILE, OLD, SIP_DIR, Name;
  }

  lemma MetadataPlaces(kind: Kind, root: Location, headerPath: string)
    requires Root(root) && Stands(headerPath, root, [OBJECTS, NameOf(root), HEADER]) && Names([OBJECTS, NameOf(root), HEADER])
    ensures var sip, name := LaidOut(kind, Path(true, root)), NameOf(root);
            && Stands(sip.contentPath, root, ContentMove(kind, name).src)
            && Stands(sip.metadataPath, root, MetadataMove(kind, name).src)
            && Stands(In(headerPath, [Base(sip.metadataPath)]), root, MetadataMove(kind, name).dst)
  {
    var name := NameOf(root);
    hide *;
    LayoutOf(kind, root);
    LayoutNames(kind, name);
    ContentSources(kind, name);
    RootName(root);
    JoinBase(LaidOut(kind, Path(true, root)).metadataPath, headerPath, root, MetadataAt(kind), [OBJECTS, name, HEADER]);
  }

  lemma ContentSources(kind: Kind, name: string)
    ensures ContentMove(kind, name).src == ContentAt(kind) && MetadataMove(kind, name).src == MetadataAt(kind)
    ensures MetadataMove(kind, name).dst == MetadataTo(name) == [OBJECTS, name, HEADER] + [METADATA_FILE]
    ensures MetadataAt(kind) != [] && MetadataAt(kind)[|MetadataAt(kind)| - 1] == METADATA_FILE
  {
  }

  lemma RootName(root: Location)
    requires Root(root)
    ensures Name(NameOf(root))
  {
  }

  lemma ContentDirsElsewhere(kind: Kind, root: Location)
    requires Root(root)
    ensures forall d :: d in NewDirs(kind, root) ==>
      !Under(root + ContentMove(kind, NameOf(root)).src, d) && !Under(root + MetadataMove(kind, NameOf(root)).src, d)
  {
    DirsElsewhere(kind, root, ContentAt(kind));
    DirsElsewhere(kind, root, MetadataAt(kind));
  }

  /** The moves of the first part. */
  function FirstMoves(kind: Kind, name: string): seq<Move> {
    if IsAIP(kind) then TwoMoves(name) else []
  }

  function FirstDirs(kind: Kind, root: Location): set<Location> {
    if IsAIP(kind) then DirsOfAdditional(root) else {}
  }

  function SecondDirs(kind: Kind, root: Location): set<Location>
    requires root != []
  {
    FirstDirs(kind, root) + Prefixes(root + [OBJECTS, NameOf(root)])
  }

  lemma AllDirs(kind: Kind, root: Location)
    requires root != []
    ensures NewDirs(kind, root) == SecondDirs(kind, root) + Prefixes(root + [OBJECTS, NameOf(root), HEADER])
    ensures SecondDirs(kind, root) <= NewDirs(kind, root)
  {
  }

  lemma AllMoves(kind: Kind, name: string)
    ensures FirstMoves(kind, name) + [ContentMove(kind, name)] + [MetadataMove(kind, name)] == MovesWithin(kind, name)
  {
  }

  /** The second part: the content and the metadata file go to the objects directory. */
  method MoveContent(disk: Disk, sip: SIP, ghost root: Location, ghost before: Tree)
    returns (ok: bool)
    requires disk.Valid() && Root(root) && sip == LaidOut(sip.kind, Path(true, root))
    requires Underway(sip.kind, root, before, FirstMoves(sip.kind, NameOf(root)), FirstDirs(sip.kind, root), disk.tree)
    modifies disk`tree
    ensures disk.Valid() && OthersUntouched(sip.kind, root, before, disk.tree)
    ensures ok ==> Underway(sip.kind, root, before, MovesWithin(sip.kind, NameOf(root)), NewDirs(sip.kind, root), disk.tree)
    ensures ok ==> ContentReady(sip.kind, root, before)
    ensures disk.reliable && ContentReady(sip.kind, root, before) ==> ok
  {
    BaseIsName(root);
    var kind, name := sip.kind, Base(sip.path);
    assert sip.path == Path(true, root) && Name(name);
    assert SecondDirs(kind, root) == FirstDirs(kind, root) + Prefixes(root + [OBJECTS, name]);
    hide OBJECTS, CONTENT, HEADER, Underway, FirstDirs, SecondDirs, NewDirs, FirstMoves, MovesWithin, OthersUntouched, ValidTree, LaidOut,
         Base, Under, Stands, In, ContentMove, MetadataMove, Outgoing, Prefixes, Names, Name, NameOf, ContentTo, Fits, DirsFit,
         MovePossible, CanMakeDirs;
    ContentFits(kind, root);
    MetadataFits(kind, root);
    ghost var c, m, ms := ContentMove(kind, name), MetadataMove(kind, name), FirstMoves(kind, name);
    ObjectsDirectory(kind, root);
    ContentGoesOut(kind, name);
    ContentDirsElsewhere(kind, root);
    AllDirs(kind, root);
    AllMoves(kind, name);
    var objectsPath := In(sip.path, [OBJECTS, name]);
    var headerPath := In(objectsPath, [HEADER]);
    MetadataPlaces(kind, root, headerPath);
    ok := MakeDirs(disk, objectsPath, [OBJECTS, name], kind, root, before, ms, FirstDirs(kind, root), SecondDirs(kind, root));
    if !ok {
      return;
    }
    ContentTarget(kind, name);
    ok := MoveOut(disk, sip.contentPath, In(objectsPath, [CONTENT]), c, kind, root, before, ms, SecondDirs(kind, root));
    if !ok {
      return;
    }
    ok := MakeDirs(disk, headerPath, [OBJECTS, name, HEADER], kind, root, before, ms + [c], SecondDirs(kind, root), NewDirs(kind, root));
    if !ok {
      return;
    }
    ok := MoveOut(disk, sip.metadataPath, In(headerPath, [Base(sip.metadataPath)]), m, kind, root, before, ms + [c], NewDirs(kind, root));
  }

  lemma ContentTarget(kind: Kind, name: string)
    ensures ContentMove(kind, name).dst == ContentTo(name)
  {
  }

  lemma FirstSteps(kind: Kind, root: Location)
    requires root != []
    ensures FirstMoves(kind, NameOf(root)) == if IsAIP(kind) then TwoMoves(NameOf(root)) else []
    ensures FirstDirs(kind, root) == if IsAIP(kind) then DirsOfAdditional(root) else {}
  {
  }

  /** The sources are there and the targets are free, so that only a fault of the disk can stop the activity. */
  ghost predicate Ready(kind: Kind, root: Location, before: Tree)
    requires root != []
  {
    (IsAIP(kind) ==> AdditionalReady(root, before)) && ContentReady(kind, root, before)
  }

  /** TransformSIP: restructures the package at `root`, or fails somewhere on the way. */
  method Execute(disk: Disk, kind: Kind, root: Location) returns (r: Result<PIP, ()>)
    requires disk.Valid() && Root(root)
    modifies disk`tree
    ensures disk.Valid()
    ensures r.Ok? ==> r.value == NewPip(Path(true, root), kind)
    ensures r.Ok? ==> Restructured(kind, root, old(disk.tree), disk.tree) && Ready(kind, root, old(disk.tree))
    ensures disk.reliable && Ready(kind, root, old(disk.tree)) ==> r.Ok?
    ensures OthersUntouched(kind, root, old(disk.tree), disk.tree)
  {
    var sip := LaidOut(kind, Path(true, root));
    assert sip.kind == kind && sip.path == Path(true, root);
    hide LaidOut, Path, Underway, OthersUntouched, ValidTree, Restructured, AdditionalReady, ContentReady, FirstMoves, FirstDirs, NewPip,
         MovesWithin, NewDirs, Name;
    ghost var before := disk.tree;
    var ok := MoveFirst(disk, sip, root, before);
    if !ok {
      return Err(());
    }
    ok := MoveContent(disk, sip, root, before);
    if !ok {
      return Err(());
    }
    ok := RemoveOld(disk, sip, root, before);
    if !ok {
      return Err(());
    }
    ok := disk.SetModes(sip.path);
    if !ok {
      return Err(());
    }
    return Ok(NewPip(sip.path, kind));
  }

  /** The first part, which only AIPs have. */
  method MoveFirst(disk: Disk, sip: SIP, ghost root: Location, ghost before: Tree) returns (ok: bool)
    requires disk.Valid() && disk.tree == before && Root(root) && sip == LaidOut(sip.kind, Path(true, root))
    modifies disk`tree
    ensures disk.Valid() && OthersUntouched(sip.kind, root, before, disk.tree)
    ensures ok ==> Underway(sip.kind, root, before, FirstMoves(sip.kind, NameOf(root)), FirstDirs(sip.kind, root), disk.tree)
    ensures ok ==> (IsAIP(sip.kind) ==> AdditionalReady(root, before))
    ensures disk.reliable && (IsAIP(sip.kind) ==> AdditionalReady(root, before)) ==> ok
  {
    FirstSteps(sip.kind, root);
    if !IsAIP(sip.kind) {
      StartUnderway(sip.kind, root, before);
      return true;
    }
    hide LaidOut, Path, Underway, OthersUntouched, ValidTree, AdditionalReady, FirstMoves, FirstDirs, TwoMoves, DirsOfAdditional;
    ok := MoveAdditional(disk, sip, root, before);
  }

  /** Removes the old top-level directories; a failure does not keep it from trying the next. */
  method RemoveOld(disk: Disk, sip: SIP, ghost root: Location, ghost before: Tree) returns (ok: bool)
    requires disk.Valid() && Root(root) && sip == LaidOut(sip.kind, Path(true, root))
    requires Underway(sip.kind, root, before, MovesWithin(sip.kind, NameOf(root)), NewDirs(sip.kind, root), disk.tree)
    modifies disk`tree
    ensures disk.Valid() && OthersUntouched(sip.kind, root, before, disk.tree)
    ensures ok ==> Restructured(sip.kind, root, before, disk.tree)
    ensures disk.reliable ==> ok
  {
    LayoutOf(sip.kind, root);
    LayoutNames(sip.kind, NameOf(root));
    ghost var t, a, b := disk.tree, root + [TopLevel(sip.kind)[0]], root + [TopLevel(sip.kind)[1]];
    LocateIn(sip.topLevelPaths[0], root, [TopLevel(sip.kind)[0]]);
    LocateIn(sip.topLevelPaths[1], root, [TopLevel(sip.kind)[1]]);
    ok := true;
    for i := 0 to |sip.topLevelPaths|
      invariant disk.Valid() && OthersUntouched(sip.kind, root, before, disk.tree)
      invariant disk.reliable ==> ok
      invariant ok ==> disk.tree == if i == 0 then t else if i == 1 then Without(t, a) else Without(Without(t, a), b)
    {
      var removed := disk.RemoveAll(sip.topLevelPaths[i]);
      ok := ok && removed;
    }
    TrackedIsRestructured(sip.kind, root, before, NewDirs(sip.kind, root), t);
  }
}
