/**
  The identifier file of a restructured package (internal/activities/write_identifier_file.go): what becomes of
  every path that a manifest can list, and that the files of a verified package are listed where they are.
*/
module IdentifierFile {
  import opened Wrappers
  import opened Paths
  import opened FileSystem
  import opened Sip
  import opened TransformSip
  import opened Identifiers
  import opened Sorting
  import opened PremisRun
  import opened PathAgreement

  // Where path conversion takes a path of names

  function NewPlace(name: string, ns: Location): Option<Location>
    requires ns != []
  {
    var last := ns[|ns| - 1];
    if last == UPDATED_FILE then Some([METADATA, UPDATED_FILE])
    else if last == METADATA_FILE then Some(MetadataTo(name))
    else if CONTENT <= ns[0] then Some([OBJECTS, name] + ns)
    else None
  }

  /** A path starts with "content" exactly when its first name does. */
  lemma ContentPrefix(ns: Location)
    requires ns != [] && Names(ns)
    ensures CONTENT <= Slashed(ns) <==> CONTENT <= ns[0]
  {
    ContentHasNoSlash();
    hide CONTENT;
    var rest := if |ns| == 1 then "" else "/" + Slashed(ns[1..]);
    assert Slashed(ns) == ns[0] + rest;
    hide Slashed, Names;
    if |ns[0]| < |CONTENT| && |ns| > 1 {
      assert Slashed(ns)[|ns[0]|] == '/' && CONTENT[|ns[0]|] in CONTENT;
    }
  }

  lemma ContentHasNoSlash()
    ensures '/' !in CONTENT
  {
  }

  lemma BaseOfNames(ns: Location)
    requires ns != [] && Names(ns)
    ensures Base(Slashed(ns)) == ns[|ns| - 1] && Slashed(ns) != ""
  {
    var init, n := ns[..|ns| - 1], ns[|ns| - 1];
    assert ns == init + [n];
    BasePath(false, init, n);
    SlashedStart(ns);
  }

  /** Joining a name, another and a path of names. */
  lemma JoinBelowTwo(a: string, b: string, ns: Location)
    requires Name(a) && Name(b) && ns != [] && Names(ns)
    ensures Names([a, b] + ns) && Join([a, b, Slashed(ns)]) == Slashed([a, b] + ns)
  {
    assert Names([a, b]) && a != "";
    assert [a, b] + [Slashed(ns)] == [a, b, Slashed(ns)] && Slashed([Slashed(ns)]) == Slashed(ns);
    hide Slashed, Clean;
    NamesConcat([a, b], ns);
    SlashedConcat([a, b], ns);
    SlashedConcat([a, b], [Slashed(ns)]);
    CleanPath(false, [a, b] + ns);
  }

  lemma FixedPlacesAreNames(name: string)
    requires Name(name)
    ensures Names([METADATA, UPDATED_FILE]) && Join([METADATA, UPDATED_FILE]) == Slashed([METADATA, UPDATED_FILE])
    ensures Names(MetadataTo(name)) && Join([OBJECTS, name, HEADER, METADATA_FILE]) == Slashed(MetadataTo(name))
  {
    Words();
    hide CONTENT, HEADER, ADDITIONAL, OBJECTS, METADATA, METADATA_FILE, UPDATED_FILE, Name;
    JoinOfNames([METADATA, UPDATED_FILE]);
    JoinOfNames([OBJECTS, name, HEADER, METADATA_FILE]);
  }

  /** Conversion of every path of names, whatever it names. */
  lemma ConversionOfNames(kind: Kind, root: Location, ns: Location)
    requires Root(root) && ns != [] && Names(ns)
    ensures var p, at := ConvertSipPath(NewPip(Path(true, root), kind), Slashed(ns)), NewPlace(NameOf(root), ns);
            && (at.None? ==> p == "")
            && (at.Some? ==> at.value != [] && Names(at.value) && p == Slashed(at.value) && p != "")
  {
    var name, pip := NameOf(root), NewPip(Path(true, root), kind);
    assert pip.path == Path(true, root);
    var at := NewPlace(name, ns);
    hide *;
    PlaceNames();
    NameOfRoot(root);
    BaseIsName(root);
    BaseOfNames(ns);
    ContentPrefix(ns);
    FixedPlacesAreNames(name);
    JoinBelowTwo(OBJECTS, name, ns);
    ConversionUnfolds(pip, name, ns);
    NewPlaceNames(name, ns);
    if at.Some? {
      BaseOfNames(at.value);
    }
  }

  lemma PlaceNames()
    ensures Name(OBJECTS)
  {
    Words();
  }

  lemma ConversionUnfolds(pip: PIP, name: string, ns: Location)
    requires ns != [] && Base(Slashed(ns)) == ns[|ns| - 1] && Base(pip.path) == name
    requires CONTENT <= Slashed(ns) <==> CONTENT <= ns[0]
    requires Join([METADATA, UPDATED_FILE]) == Slashed([METADATA, UPDATED_FILE])
    requires Join([OBJECTS, name, HEADER, METADATA_FILE]) == Slashed(MetadataTo(name))
    requires Join([OBJECTS, name, Slashed(ns)]) == Slashed([OBJECTS, name] + ns)
    ensures var at := NewPlace(name, ns);
            ConvertSipPath(pip, Slashed(ns)) == if at.Some? then Slashed(at.value) else ""
  {
    Words();
    hide CONTENT, HEADER, OBJECTS, METADATA, METADATA_FILE, UPDATED_FILE, Base, Join, Slashed, MetadataTo, Name;
  }

  lemma NewPlaceNames(name: string, ns: Location)
    requires ns != [] && Names([METADATA, UPDATED_FILE]) && Names(MetadataTo(name)) && Names([OBJECTS, name] + ns)
    ensures NewPlace(name, ns).Some? ==> NewPlace(name, ns).value != [] && Names(NewPlace(name, ns).value)
  {
    hide CONTENT, HEADER, OBJECTS, METADATA, METADATA_FILE, UPDATED_FILE, Names;
  }

  lemma NameOfRoot(root: Location)
    requires Root(root)
    ensures Name(NameOf(root))
  {
  }

  /** Two different paths of names that are kept get the same new path exactly when they share a special last name. */
  lemma NewPlacesCollideIff(name: string, ns: Location, ns': Location)
    requires ns != [] && ns' != [] && ns != ns' && NewPlace(name, ns).Some? && NewPlace(name, ns').Some?
    ensures NewPlace(name, ns) == NewPlace(name, ns') <==> Special(ns[|ns| - 1]) && ns[|ns| - 1] == ns'[|ns'| - 1]
  {
    Words();
    hide CONTENT, HEADER, ADDITIONAL, OBJECTS, METADATA, METADATA_FILE, UPDATED_FILE, Name;
    SamePrefix([OBJECTS, name], ns, ns');
    LastOfNewPlace(name, ns);
    LastOfNewPlace(name, ns');
  }

  lemma LastOfNewPlace(name: string, ns: Location)
    requires ns != [] && NewPlace(name, ns).Some?
    ensures var at := NewPlace(name, ns).value; at != [] && at[|at| - 1] == ns[|ns| - 1]
  {
    var at := NewPlace(name, ns).value;
    hide CONTENT, HEADER, ADDITIONAL, OBJECTS, METADATA, METADATA_FILE, UPDATED_FILE;
  }

  // Conversion and restructuring, for every path that a manifest can list

  /** Where the package has the file that the manifest lists under these names. */
  function PlaceOf(kind: Kind, ns: Location): Location {
    if IsAIP(kind) then [CONTENT] + ns else ns
  }

  /** The names under which the manifest lists the metadata file. */
  function ListedMetadata(kind: Kind): Location {
    if IsAIP(kind) then [HEADER, OLD, SIP_DIR, METADATA_FILE] else [HEADER, METADATA_FILE]
  }

  /** Content without a special name, the metadata file, or a file of the header that is not kept. */
  predicate InStep(kind: Kind, name: string, ns: Location)
    requires ns != []
  {
    var special := Special(ns[|ns| - 1]);
    if ns[0] == CONTENT then !special
    else
      || ns == ListedMetadata(kind)
      || (!special && !(CONTENT <= ns[0]) && !Under(ListedMetadata(kind), ns) && (IsAIP(kind) || ns[0] == HEADER))
      || (!IsAIP(kind) && (ns == [METADATA, UPDATED_FILE] || ns == MetadataTo(name)))
  }

  lemma AipInStepIff(kind: Kind, name: string, ns: Location)
    requires IsAIP(kind) && ns != []
    ensures Destination(kind, name, PlaceOf(kind, ns)) == NewPlace(name, ns) <==> InStep(kind, name, ns)
  {
    AipDestination(kind, name, ns);
    Words();
    ContentIsItself();
    var listed := ListedMetadata(kind);
    hide CONTENT, HEADER, ADDITIONAL, OBJECTS, METADATA, METADATA_FILE, UPDATED_FILE, OLD, SIP_DIR, LogicalName, Name, Destination, PlaceOf;
    assert |listed| == 4 && listed[0] == HEADER && listed[3] == METADATA_FILE;
    if ns[0] == CONTENT {
      ContentPlaces(name, ns);
    } else if Under(listed, ns) {
      BelowListed(listed, name, ns);
    }
  }

  lemma ContentPlaces(name: string, ns: Location)
    requires ns != [] && ns[0] == CONTENT
    ensures [OBJECTS, name] + ns != [METADATA, UPDATED_FILE] && [OBJECTS, name] + ns != MetadataTo(name)
  {
    Words();
    hide CONTENT, HEADER, OBJECTS, METADATA, METADATA_FILE, UPDATED_FILE, Name;
    var c := [OBJECTS, name] + ns;
    assert c[0] == OBJECTS && c[2] == CONTENT && MetadataTo(name)[2] == HEADER;
  }

  /** What stands below the metadata file's place is not where conversion takes it. */
  lemma BelowListed(listed: Location, name: string, ns: Location)
    requires Under(listed, ns)
    ensures ns == listed <==> MetadataTo(name) + ns[|listed|..] == MetadataTo(name)
    ensures |MetadataTo(name) + ns[|listed|..]| >= 4
  {
    assert ns == listed + ns[|listed|..];
  }

  lemma AipDestination(kind: Kind, name: string, ns: Location)
    requires IsAIP(kind) && ns != []
    ensures Destination(kind, name, PlaceOf(kind, ns))
            == if ns[0] == CONTENT then Some([OBJECTS, name] + ns)
               else if Under(ListedMetadata(kind), ns) then Some(MetadataTo(name) + ns[4..])
               else None
  {
    var at := PlaceOf(kind, ns);
    Words();
    PrefixOfPlace(CONTENT, ListedMetadata(kind), ns);
    PrefixOfPlace(CONTENT, [CONTENT], ns);
    assert [CONTENT] + ListedMetadata(kind) == MetadataAt(kind) && [CONTENT] + [CONTENT] == ContentAt(kind);
    assert Under([CONTENT], ns) <==> ns[0] == CONTENT;
    hide CONTENT, HEADER, ADDITIONAL, OBJECTS, METADATA, METADATA_FILE, UPDATED_FILE, OLD, SIP_DIR, LogicalName, Name;
    SameStart(UPDATED, at, 0);
    SameStart(LogicalAt(name), at, 0);
    assert at[0] == CONTENT && at[0] in TopLevel(kind);
    if ns[0] == CONTENT {
      assert at[2..] == ns[1..];
      assert ContentTo(name) + ns[1..] == [OBJECTS, name] + ns;
    }
    hide Under;
  }

  lemma ContentIsItself()
    ensures CONTENT <= CONTENT && !(CONTENT <= HEADER) && !Special(CONTENT)
  {
    Words();
  }

  lemma PrefixOfPlace(n: string, dir: Location, ns: Location)
    ensures Under([n] + dir, [n] + ns) <==> Under(dir, ns)
    ensures |dir| <= |ns| ==> ([n] + ns)[|dir| + 1..] == ns[|dir|..]
  {
    UnderWithin([n], dir, ns);
  }

  lemma SipInStepIff(kind: Kind, name: string, ns: Location)
    requires !IsAIP(kind) && ns != []
    ensures Destination(kind, name, PlaceOf(kind, ns)) == NewPlace(name, ns) <==> InStep(kind, name, ns)
  {
    SipDestination(kind, name, ns);
    Words();
    ContentIsItself();
    var listed := ListedMetadata(kind);
    hide CONTENT, HEADER, ADDITIONAL, OBJECTS, METADATA, METADATA_FILE, UPDATED_FILE, OLD, SIP_DIR, LogicalName, Name, Destination, PlaceOf;
    assert |listed| == 2 && listed[0] == HEADER && listed[1] == METADATA_FILE;
    if ns[0] == CONTENT {
      ContentPlaces(name, ns);
    } else if Under(listed, ns) {
      BelowListed(listed, name, ns);
    } else {
      assert |[OBJECTS, name] + ns| != |ns|;
      assert MetadataTo(name)[3] == METADATA_FILE && [METADATA, UPDATED_FILE][1] == UPDATED_FILE;
    }
  }

  lemma SipDestination(kind: Kind, name: string, ns: Location)
    requires !IsAIP(kind) && ns != []
    ensures Destination(kind, name, PlaceOf(kind, ns))
            == if ns[0] == CONTENT then Some([OBJECTS, name] + ns)
               else if Under(ListedMetadata(kind), ns) then Some(MetadataTo(name) + ns[2..])
               else if ns[0] == HEADER then None
               else Some(ns)
  {
    Words();
    assert Under([CONTENT], ns) <==> ns[0] == CONTENT;
    hide CONTENT, HEADER, ADDITIONAL, OBJECTS, METADATA, METADATA_FILE, UPDATED_FILE, OLD, SIP_DIR, LogicalName, Name;
    if ns[0] == CONTENT {
      assert ContentTo(name) + ns[1..] == [OBJECTS, name] + ns;
    }
    hide Under;
  }

  /** A place in the package, as a location. */
  function Located(root: Location, path: string): Location {
    Locate(Join([Path(true, root), path]))
  }

  /**
    For every path that a manifest can list: restructuring does with the file what conversion says, be it
    moving or dropping, exactly when the path is in step.
  */
  lemma ManifestPathsAgreeIff(kind: Kind, root: Location, ns: Location)
    requires Root(root) && ns != [] && Names(ns)
    ensures var p := Slashed(ns);
            var c := ConvertSipPath(NewPip(Path(true, root), kind), p);
            Target(kind, root, Located(root, InPackage(kind, p))) == (if c == "" then None else Some(Located(root, c)))
            <==> InStep(kind, NameOf(root), ns)
  {
    var name := NameOf(root);
    hide *;
    PlaceInPackage(kind, root, ns);
    ConversionOfNames(kind, root, ns);
    TargetOfPlace(kind, root, PlaceOf(kind, ns));
    if IsAIP(kind) {
      AipInStepIff(kind, name, ns);
    } else {
      SipInStepIff(kind, name, ns);
    }
    var to, now := Destination(kind, name, PlaceOf(kind, ns)), NewPlace(name, ns);
    if now.Some? {
      LocatedNames(root, now.value);
      if to.Some? {
        SamePrefix(root, to.value, now.value);
      }
    }
  }

  lemma LocatedNames(root: Location, c: Location)
    requires Root(root) && c != [] && Names(c)
    ensures Located(root, Slashed(c)) == root + c
  {
    LocatedBelow(root, c);
  }

  lemma PlaceInPackage(kind: Kind, root: Location, ns: Location)
    requires Root(root) && ns != [] && Names(ns)
    ensures PlaceOf(kind, ns) != [] && Names(PlaceOf(kind, ns))
    ensures InPackage(kind, Slashed(ns)) == Slashed(PlaceOf(kind, ns))
    ensures Located(root, InPackage(kind, Slashed(ns))) == root + PlaceOf(kind, ns)
  {
    Words();
    assert Names([CONTENT]) && Slashed([CONTENT]) == CONTENT;
    hide Slashed, Names, Join, CONTENT, Located;
    NamesConcat([CONTENT], ns);
    if IsAIP(kind) {
      JoinSlashed([CONTENT], ns);
    }
    LocatedNames(root, PlaceOf(kind, ns));
  }

  lemma TargetOfPlace(kind: Kind, root: Location, at: Location)
    requires Root(root)
    ensures var d := Destination(kind, NameOf(root), at);
            Target(kind, root, root + at) == if d.Some? then Some(root + d.value) else None
  {
    assert (root + at)[..|root|] == root && (root + at)[|root|..] == at;
    hide Destination;
  }

  // The entries of the identifier file

  ghost predicate NamePathsOnly(ids: seq<IdFile>) {
    forall x :: x in ids ==> NamePath(x.path)
  }

  function ConvertedEntry(pip: PIP, x: IdFile): IdFile {
    x.(path := ConvertSipPath(pip, x.path))
  }

  /** An entry for each file that is kept, and no other. */
  lemma {:induction false} EntriesAreConverted(pip: PIP, ids: seq<IdFile>)
    ensures forall y :: y in Converted(pip, ids) <==>
      exists x :: x in ids && ConvertSipPath(pip, x.path) != "" && y == ConvertedEntry(pip, x)
    decreases |ids|
  {
    hide ConvertSipPath;
    if ids != [] {
      var n := |ids| - 1;
      EntriesAreConverted(pip, ids[..n]);
      assert ids == ids[..n] + [ids[n]];
      assert forall x :: x in ids <==> x in ids[..n] || x == ids[n];
    }
  }

  /** The entry occurs once in the list, and no other entry has its path. */
  predicate OnlyEntry(y: IdFile, list: seq<IdFile>) {
    multiset(list)[y] == 1 && forall z :: z in list && z.path == y.path ==> z == y
  }

  lemma {:induction false} EntryOccursOnce(pip: PIP, ids: seq<IdFile>, x: IdFile)
    requires DistinctPaths(ids) && x in ids && ConvertSipPath(pip, x.path) != ""
    requires forall z :: z in ids && ConvertSipPath(pip, z.path) == ConvertSipPath(pip, x.path) ==> z == x
    ensures OnlyEntry(ConvertedEntry(pip, x), Converted(pip, ids))
    decreases |ids|
  {
    hide *;
    var n := |ids| - 1;
    var init, last, y := ids[..n], ids[n], ConvertedEntry(pip, x);
    SplitLast(ids);
    ConvertedOneMore(pip, ids);
    ConvertedPath(pip, x);
    ConvertedPath(pip, last);
    if last == x {
      forall z | z in Converted(pip, init)
        ensures z.path != y.path
      {
        EntryIsConverted(pip, init, z);
      }
      OnlyEntryAdded(y, Converted(pip, init));
    } else {
      EntryOccursOnce(pip, init, x);
      if ConvertSipPath(pip, last.path) != "" {
        OnlyEntryKept(y, Converted(pip, init), ConvertedEntry(pip, last));
      }
    }
  }

  lemma SplitLast(ids: seq<IdFile>)
    requires DistinctPaths(ids) && ids != []
    ensures var init, last := ids[..|ids| - 1], ids[|ids| - 1];
            && DistinctPaths(init)
            && (forall x :: x in init ==> x.path != last.path)
            && (forall x :: x in ids <==> x in init || x == last)
  {
    var init, last := ids[..|ids| - 1], ids[|ids| - 1];
    assert ids == init + [last];
  }

  lemma ConvertedOneMore(pip: PIP, ids: seq<IdFile>)
    requires ids != []
    ensures var init, last := ids[..|ids| - 1], ids[|ids| - 1];
            Converted(pip, ids)
            == if ConvertSipPath(pip, last.path) != "" then Converted(pip, init) + [ConvertedEntry(pip, last)] else Converted(pip, init)
  {
    assert Converted(pip, ids[..|ids| - 1]) + [] == Converted(pip, ids[..|ids| - 1]);
    hide ConvertSipPath;
  }

  lemma EntryIsConverted(pip: PIP, ids: seq<IdFile>, y: IdFile)
    requires y in Converted(pip, ids)
    ensures exists x :: x in ids && y.path == ConvertSipPath(pip, x.path)
  {
    EntriesAreConverted(pip, ids);
    hide ConvertSipPath;
  }

  lemma OnlyEntryAdded(y: IdFile, list: seq<IdFile>)
    requires forall z :: z in list ==> z.path != y.path
    ensures OnlyEntry(y, list + [y])
  {
    assert y !in list;
  }

  lemma OnlyEntryKept(y: IdFile, list: seq<IdFile>, z: IdFile)
    requires OnlyEntry(y, list) && z.path != y.path
    ensures OnlyEntry(y, list + [z])
  {
  }

  lemma ConvertedPath(pip: PIP, x: IdFile)
    ensures ConvertedEntry(pip, x).path == ConvertSipPath(pip, x.path)
  {
  }

  /** Two paths that conversion makes one: different, with the same special name at the end. */
  predicate Clash(p: string, q: string) {
    p != q && Special(Base(p)) && Base(p) == Base(q)
  }

  lemma ConvertedCollideIff(kind: Kind, root: Location, p: string, q: string)
    requires Root(root) && NamePath(p) && NamePath(q) && p != q
    ensures var pip := NewPip(Path(true, root), kind);
            ConvertSipPath(pip, p) == ConvertSipPath(pip, q) && ConvertSipPath(pip, p) != "" <==> Clash(p, q)
  {
    var ns :| ns != [] && Names(ns) && p == Slashed(ns);
    var ns' :| ns' != [] && Names(ns') && q == Slashed(ns');
    var at, at' := NewPlace(NameOf(root), ns), NewPlace(NameOf(root), ns');
    assert Special(ns[|ns| - 1]) ==> at.Some?;
    assert Special(ns'[|ns'| - 1]) ==> at'.Some?;
    hide NewPip, ConvertSipPath, Path, Slashed, Names, Special, NewPlace, Base, Name;
    ConversionOfNames(kind, root, ns);
    ConversionOfNames(kind, root, ns');
    BaseOfNames(ns);
    BaseOfNames(ns');
    if at.Some? && at'.Some? {
      NewPlacesCollideIff(NameOf(root), ns, ns');
      SameSlashed(at.value, at'.value);
    }
  }

  /** The list has different paths if and only if no two files of the manifest clash. */
  lemma {:induction false} IdentifiersAreDistinctIff(kind: Kind, root: Location, ids: seq<IdFile>)
    requires Root(root) && DistinctPaths(ids) && NamePathsOnly(ids)
    ensures DistinctPaths(Converted(NewPip(Path(true, root), kind), ids))
            <==> forall x, z :: x in ids && z in ids ==> !Clash(x.path, z.path)
    decreases |ids|
  {
    var pip := NewPip(Path(true, root), kind);
    hide *;
    if ids == [] {
      NothingConverted(pip);
    } else {
      var init, last := ids[..|ids| - 1], ids[|ids| - 1];
      SplitLast(ids);
      NamePathsOfInit(ids);
      IdentifiersAreDistinctIff(kind, root, init);
      ConvertedOneMore(pip, ids);
      ConvertedPath(pip, last);
      forall x | x in init
        ensures Clash(x.path, last.path) <==> ConvertSipPath(pip, x.path) == ConvertSipPath(pip, last.path) && ConvertSipPath(pip, last.path) != ""
        ensures Clash(last.path, x.path) <==> Clash(x.path, last.path)
      {
        NamePathOf(ids, x);
        NamePathOf(ids, last);
        ConvertedCollideIff(kind, root, x.path, last.path);
        ClashIsSymmetric(x.path, last.path);
      }
      NoClashWithItself(last.path);
      if ConvertSipPath(pip, last.path) != "" {
        PathsOfConverted(pip, init, ConvertSipPath(pip, last.path));
      }
      DistinctWithLast(Converted(pip, init), Converted(pip, ids), ConvertedEntry(pip, last));
    }
  }

  lemma NothingConverted(pip: PIP)
    ensures DistinctPaths(Converted(pip, []))
  {
  }

  lemma NamePathsOfInit(ids: seq<IdFile>)
    requires NamePathsOnly(ids) && ids != []
    ensures NamePathsOnly(ids[..|ids| - 1])
  {
    assert forall x :: x in ids[..|ids| - 1] ==> x in ids;
  }

  /** A path occurs in the list exactly when some file is converted to it. */
  lemma PathsOfConverted(pip: PIP, ids: seq<IdFile>, p: string)
    requires p != ""
    ensures (exists y :: y in Converted(pip, ids) && y.path == p) <==> exists x :: x in ids && ConvertSipPath(pip, x.path) == p
  {
    EntriesAreConverted(pip, ids);
    hide Converted, ConvertSipPath;
    if x :| x in ids && ConvertSipPath(pip, x.path) == p {
      assert ConvertedEntry(pip, x) in Converted(pip, ids);
    }
  }

  lemma ClashIsSymmetric(p: string, q: string)
    ensures Clash(p, q) <==> Clash(q, p)
  {
  }

  lemma NoClashWithItself(p: string)
    ensures !Clash(p, p)
  {
  }

  lemma DistinctWithLast(init: seq<IdFile>, list: seq<IdFile>, y: IdFile)
    requires list == init + if y.path != "" then [y] else []
    ensures DistinctPaths(list) <==> DistinctPaths(init) && (y.path != "" ==> forall z :: z in init ==> z.path != y.path)
  {
    if DistinctPaths(list) {
      forall i, j | 0 <= i < j < |init|
        ensures init[i].path != init[j].path
      {
        assert list[i] == init[i] && list[j] == init[j];
      }
      forall z | z in init && y.path != ""
        ensures z.path != y.path
      {
        var i :| 0 <= i < |init| && init[i] == z;
        assert list[i] == z && list[|init|] == y;
      }
    }
  }

  ghost predicate CleanedPathsOnly(ids: seq<IdFile>) {
    forall x :: x in ids ==> CleanedPath(x.path)
  }

  /** The entry's path leads to where restructuring has put what was at the place. */
  ghost predicate LeadsTo(kind: Kind, root: Location, y: IdFile, at: Location)
    requires root != []
  {
    Target(kind, root, root + at) == Some(Located(root, y.path))
  }

  /** What conversion makes of any cleaned path that it keeps. */
  lemma KeptPath(kind: Kind, root: Location, q: string) returns (at: Location)
    requires Root(root) && CleanedPath(q) && ConvertSipPath(NewPip(Path(true, root), kind), q) != ""
    ensures at != [] && Names(at) && ConvertSipPath(NewPip(Path(true, root), kind), q) == Slashed(at)
    ensures || at[0] == METADATA
            || (|at| > 2 && at[..3] == [OBJECTS, NameOf(root), HEADER])
            || exists ns :: ns != [] && Names(ns) && q == Slashed(ns) && at == [OBJECTS, NameOf(root)] + ns
  {
    var pip, name := NewPip(Path(true, root), kind), NameOf(root);
    assert pip.path == Path(true, root);
    BaseIsName(root);
    FixedPlacesAreNames(name);
    hide Base, Join, Slashed, Names, CleanedPath, Path, Name, METADATA_FILE, UPDATED_FILE, OBJECTS, METADATA, HEADER;
    if Base(q) == UPDATED_FILE {
      at := [METADATA, UPDATED_FILE];
    } else if Base(q) == METADATA_FILE {
      at := MetadataTo(name);
    } else {
      StartsWithLetter(q);
      CleanedNames(q);
      var ns :| ns != [] && Names(ns) && q == Slashed(ns);
      ConversionOfNames(kind, root, ns);
      BaseOfNames(ns);
      ContentPrefix(ns);
      at := [OBJECTS, name] + ns;
    }
  }

  lemma StartsWithLetter(q: string)
    ensures CONTENT <= q ==> q != "" && q[0] != '/' && q[0] != '.'
  {
    assert CONTENT[0] == 'c';
  }

  /** Only the file's own manifest path is converted to where a content file without a special name goes. */
  lemma OnlyItsOwnPath(kind: Kind, root: Location, q: string, r: Location)
    requires Root(root) && CleanedPath(q) && ConvertSipPath(NewPip(Path(true, root), kind), q) != ""
    requires ContentFile(r) && Located(root, ConvertSipPath(NewPip(Path(true, root), kind), q)) == Really(root, r)
    ensures q == ManifestPath(r)
  {
    var name, p := NameOf(root), ConvertSipPath(NewPip(Path(true, root), kind), q);
    var c := ContentTo(name) + r;
    assert Really(root, r) == root + c;
    hide *;
    var at := KeptPath(kind, root, q);
    LocatedNames(root, at);
    SamePrefix(root, at, c);
    PlaceOfContent(name, at, r);
    var ns :| ns != [] && Names(ns) && q == Slashed(ns) && at == [OBJECTS, name] + ns;
    SamePrefix([OBJECTS, name], ns, [CONTENT] + r);
    ManifestPathIs(r);
  }

  lemma PlaceOfContent(name: string, at: Location, r: Location)
    requires at == ContentTo(name) + r
    ensures at[0] != METADATA && at[..3] != [OBJECTS, name, HEADER] && at == [OBJECTS, name] + ([CONTENT] + r)
  {
    Words();
    hide CONTENT, METADATA, OBJECTS, HEADER, Name;
    assert at[..3][2] == CONTENT && [OBJECTS, name, HEADER][2] == HEADER;
  }

  lemma ManifestPathIs(r: Location)
    ensures ManifestPath(r) == Slashed([CONTENT] + r)
  {
  }

  /**
    Whatever else the manifest lists: a content file without a special name has exactly one entry in the sorted
    list, no other entry has its path, and the path leads to where restructuring has put the file.
  */
  lemma IdentifiersPointToFiles(kind: Kind, root: Location, ids: seq<IdFile>, list: seq<IdFile>, x: IdFile, r: Location)
    requires Root(root) && DistinctPaths(ids) && CleanedPathsOnly(ids)
    requires multiset(list) == multiset(Converted(NewPip(Path(true, root), kind), ids))
    requires x in ids && ContentFile(r) && x.path == ManifestPath(r) && !Special(r[|r| - 1])
    ensures var y := ConvertedEntry(NewPip(Path(true, root), kind), x);
            OnlyEntry(y, list) && LeadsTo(kind, root, y, ContentAt(kind) + r)
  {
    var pip := NewPip(Path(true, root), kind);
    hide *;
    ContentIsKept(kind, root, r);
    ContentLeadsThere(kind, root, pip, x, r);
    forall z | z in ids && ConvertSipPath(pip, z.path) == ConvertSipPath(pip, x.path)
      ensures z == x
    {
      CleanedPathOf(ids, z);
      OnlyItsOwnPath(kind, root, z.path, r);
      SamePathSameEntry(ids, x, z);
    }
    EntryOccursOnce(pip, ids, x);
    OnlyEntryRearranged(ConvertedEntry(pip, x), Converted(pip, ids), list);
  }

  lemma ContentLeadsThere(kind: Kind, root: Location, pip: PIP, x: IdFile, r: Location)
    requires Root(root) && pip == NewPip(Path(true, root), kind) && ContentFile(r) && x.path == ManifestPath(r) && !Special(r[|r| - 1])
    ensures Located(root, ConvertSipPath(pip, x.path)) == Really(root, r)
    ensures LeadsTo(kind, root, ConvertedEntry(pip, x), ContentAt(kind) + r)
  {
    ConversionLeadsThereIff(kind, root, r);
    RestructuringTakesItThere(kind, root, r);
    hide ConvertSipPath, Join, Locate, Special, ManifestPath, Target, Path;
    assert pip.path == Path(true, root);
  }

  lemma CleanedPathOf(ids: seq<IdFile>, x: IdFile)
    requires CleanedPathsOnly(ids) && x in ids
    ensures CleanedPath(x.path)
  {
  }

  /**
    The sorted list has an entry that leads to a content file without a special name if and only if the manifest
    lists the file under its own path; and no two entries do.
  */
  lemma ContentIsIdentifiedIff(kind: Kind, root: Location, ids: seq<IdFile>, list: seq<IdFile>, r: Location)
    requires Root(root) && DistinctPaths(ids) && CleanedPathsOnly(ids)
    requires multiset(list) == multiset(Converted(NewPip(Path(true, root), kind), ids))
    requires ContentFile(r) && !Special(r[|r| - 1])
    ensures (exists y :: y in list && LeadsTo(kind, root, y, ContentAt(kind) + r)) <==> exists x :: x in ids && x.path == ManifestPath(r)
    ensures forall y, z :: y in list && z in list && LeadsTo(kind, root, y, ContentAt(kind) + r) && LeadsTo(kind, root, z, ContentAt(kind) + r) ==> y == z
  {
    var pip := NewPip(Path(true, root), kind);
    assert root != [];
    hide *;
    if x :| x in ids && x.path == ManifestPath(r) {
      IdentifiersPointToFiles(kind, root, ids, list, x, r);
      EntryIsThere(ConvertedEntry(pip, x), list);
    }
    forall y | y in list && LeadsTo(kind, root, y, ContentAt(kind) + r)
      ensures exists x :: x in ids && x.path == ManifestPath(r) && y == ConvertedEntry(pip, x)
    {
      EntryComesFrom(kind, root, ids, list, y, r);
    }
    forall y, z | y in list && z in list && LeadsTo(kind, root, y, ContentAt(kind) + r) && LeadsTo(kind, root, z, ContentAt(kind) + r)
      ensures y == z
    {
      var x :| x in ids && x.path == ManifestPath(r) && y == ConvertedEntry(pip, x);
      var x' :| x' in ids && x'.path == ManifestPath(r) && z == ConvertedEntry(pip, x');
      SamePathSameEntry(ids, x, x');
    }
  }

  lemma EntryIsThere(y: IdFile, list: seq<IdFile>)
    requires OnlyEntry(y, list)
    ensures y in list
  {
  }

  lemma EntryComesFrom(kind: Kind, root: Location, ids: seq<IdFile>, list: seq<IdFile>, y: IdFile, r: Location)
    requires Root(root) && CleanedPathsOnly(ids) && ContentFile(r)
    requires multiset(list) == multiset(Converted(NewPip(Path(true, root), kind), ids))
    requires y in list && LeadsTo(kind, root, y, ContentAt(kind) + r)
    ensures exists x :: x in ids && x.path == ManifestPath(r) && y == ConvertedEntry(NewPip(Path(true, root), kind), x)
  {
    var pip := NewPip(Path(true, root), kind);
    hide CleanedPath, Names, Name, ConvertSipPath, NewPip, Converted, ConvertedEntry, Target, Located, Really, ManifestPath, ContentAt, Path;
    SameElements(Converted(pip, ids), list);
    EntriesAreConverted(pip, ids);
    var x :| x in ids && ConvertSipPath(pip, x.path) != "" && y == ConvertedEntry(pip, x);
    ConvertedPath(pip, x);
    RestructuringTakesItThere(kind, root, r);
    OnlyItsOwnPath(kind, root, x.path, r);
  }

  lemma SamePathSameEntry(ids: seq<IdFile>, x: IdFile, z: IdFile)
    requires DistinctPaths(ids) && x in ids && z in ids
    ensures x.path == z.path ==> x == z
  {
    var i :| 0 <= i < |ids| && ids[i] == x;
    var j :| 0 <= j < |ids| && ids[j] == z;
  }

  lemma NamePathOf(ids: seq<IdFile>, x: IdFile)
    requires NamePathsOnly(ids) && x in ids
    ensures NamePath(x.path)
  {
  }

  lemma ContentIsKept(kind: Kind, root: Location, r: Location)
    requires Root(root) && ContentFile(r)
    ensures ConvertSipPath(NewPip(Path(true, root), kind), ManifestPath(r)) != ""
  {
    Conversion(kind, root, r);
    hide ConvertSipPath, NewPip, ManifestPath;
    SlashedStart(ConvertedTo(NameOf(root), r));
  }

  lemma OnlyEntryRearranged(y: IdFile, a: seq<IdFile>, b: seq<IdFile>)
    requires OnlyEntry(y, a) && multiset(b) == multiset(a)
    ensures OnlyEntry(y, b)
  {
    SameElements(a, b);
  }

  /** The metadata file, where the manifest lists it, has an entry that leads to where restructuring has put it. */
  lemma MetadataIsIdentified(kind: Kind, root: Location, ids: seq<IdFile>, list: seq<IdFile>, x: IdFile)
    requires Root(root)
    requires multiset(list) == multiset(Converted(NewPip(Path(true, root), kind), ids))
    requires x in ids && x.path == Slashed(ListedMetadata(kind))
    ensures var y := ConvertedEntry(NewPip(Path(true, root), kind), x);
            y in list && LeadsTo(kind, root, y, MetadataAt(kind))
  {
    var pip, ns, name := NewPip(Path(true, root), kind), ListedMetadata(kind), NameOf(root);
    hide *;
    MetadataNames(kind, name);
    ConversionOfNames(kind, root, ns);
    ManifestPathsAgreeIff(kind, root, ns);
    PlaceInPackage(kind, root, ns);
    EntryIsListed(pip, ids, list, x);
    ConvertedPath(pip, x);
    LeadsThere(kind, root, ConvertedEntry(pip, x), MetadataAt(kind));
  }

  lemma EntryIsListed(pip: PIP, ids: seq<IdFile>, list: seq<IdFile>, x: IdFile)
    requires multiset(list) == multiset(Converted(pip, ids)) && x in ids && ConvertSipPath(pip, x.path) != ""
    ensures ConvertedEntry(pip, x) in list
  {
    hide ConvertSipPath, ConvertedEntry, Converted;
    EntriesAreConverted(pip, ids);
    SameElements(Converted(pip, ids), list);
  }

  lemma LeadsThere(kind: Kind, root: Location, y: IdFile, at: Location)
    requires root != [] && Target(kind, root, root + at) == Some(Located(root, y.path))
    ensures LeadsTo(kind, root, y, at)
  {
  }

  lemma MetadataNames(kind: Kind, name: string)
    ensures var ns := ListedMetadata(kind);
            ns != [] && Names(ns) && InStep(kind, name, ns) && NewPlace(name, ns).Some? && PlaceOf(kind, ns) == MetadataAt(kind)
  {
    Words();
    hide CONTENT, HEADER, ADDITIONAL, OBJECTS, METADATA, METADATA_FILE, UPDATED_FILE, OLD, SIP_DIR, Name;
  }
}
