/**
  Four places say where a content file is: the manifest and its prefix for AIPs, the restructuring, the
  conversion of manifest paths and the PREMIS original name. This module relates them.
*/
module PathAgreement {
  import opened Wrappers
  import opened Paths
  import opened FileSystem
  import opened Sip
  import opened TransformSip
  import opened Identifiers
  import opened PremisRun

  /** The manifest path of the content file `r`, given by the names below the content directory. */
  function ManifestPath(r: Location): string {
    Slashed([CONTENT] + r)
  }

  /** The two names that path conversion treats apart, wherever the file is. */
  predicate Special(name: string) {
    name == UPDATED_FILE || name == METADATA_FILE
  }

  /** Where restructuring really puts the content file. */
  function Really(root: Location, r: Location): Location
    requires root != []
  {
    root + (ContentTo(NameOf(root)) + r)
  }

  lemma ContentNames(r: Location)
    requires ContentFile(r)
    ensures Names([CONTENT] + r) && ManifestPath(r) == Path(false, [CONTENT] + r)
    ensures Base(ManifestPath(r)) == r[|r| - 1]
    ensures CONTENT <= ManifestPath(r)
  {
    Words();
    NamesConcat([CONTENT], r);
    assert Names([CONTENT]);
    var init, n := r[..|r| - 1], r[|r| - 1];
    assert r == init + [n];
    assert [CONTENT] + r == ([CONTENT] + init) + [n] by {
      Assoc([CONTENT], init, [n]);
    }
    NamesConcat([CONTENT], init);
    BasePath(false, [CONTENT] + init, n);
    SlashedConcat([CONTENT], r);
    assert Slashed([CONTENT]) == CONTENT;
    assert ManifestPath(r) == CONTENT + ("/" + Slashed(r)) by {
      Assoc(CONTENT, "/", Slashed(r));
    }
  }

  /** Where the package has the file that the manifest calls `path`: verification prefixes the paths of AIPs. */
  function InPackage(kind: Kind, path: string): string {
    if IsAIP(kind) then Join([CONTENT, path]) else path
  }

  /** Verification finds the file in the package where restructuring takes it from. */
  lemma ManifestPathInPackage(kind: Kind, r: Location)
    requires ContentFile(r)
    ensures InPackage(kind, ManifestPath(r)) == Slashed(ContentAt(kind) + r)
  {
    if IsAIP(kind) {
      Words();
      ContentNames(r);
      NamesConcat([CONTENT], [CONTENT] + r);
      assert Names([CONTENT]) && Path(false, [CONTENT]) == CONTENT;
      assert ContentAt(kind) + r == [CONTENT] + ([CONTENT] + r);
      JoinSlashed([CONTENT], [CONTENT] + r);
    }
  }

  /** Joining relative paths of names joins the names. */
  lemma JoinSlashed(a: seq<string>, b: seq<string>)
    requires a != [] && b != [] && Names(a) && Names(b)
    ensures Join([Slashed(a), Slashed(b)]) == Slashed(a + b)
  {
    SlashedStart(a);
    NamesConcat(a, b);
    SlashedConcat(a, b);
    assert Slashed([Slashed(a), Slashed(b)]) == Slashed(a) + "/" + Slashed(b);
    CleanPath(false, a + b);
  }

  lemma RestructuringTakesItThere(kind: Kind, root: Location, r: Location)
    requires Root(root)
    ensures Target(kind, root, root + (ContentAt(kind) + r)) == Some(Really(root, r))
  {
    var c, name := ContentAt(kind), NameOf(root);
    assert (root + (c + r))[..|root|] == root && (root + (c + r))[|root|..] == c + r;
    assert (c + r)[..|c|] == c && (c + r)[|c|..] == r;
  }

  /** What path conversion makes of a content file, as names below the package directory. */
  function ConvertedTo(name: string, r: Location): Location
    requires r != []
  {
    if r[|r| - 1] == UPDATED_FILE then [METADATA, UPDATED_FILE]
    else if r[|r| - 1] == METADATA_FILE then [OBJECTS, name, HEADER, METADATA_FILE]
    else ContentTo(name) + r
  }

  lemma JoinOfNames(ns: seq<string>)
    requires ns != [] && Names(ns)
    ensures Join(ns) == Slashed(ns)
  {
    CleanPath(false, ns);
  }

  lemma Conversion(kind: Kind, root: Location, r: Location)
    requires Root(root) && ContentFile(r)
    ensures Names(ConvertedTo(NameOf(root), r))
    ensures ConvertSipPath(NewPip(Path(true, root), kind), ManifestPath(r)) == Slashed(ConvertedTo(NameOf(root), r))
  {
    var name := NameOf(root);
    Words();
    BaseIsName(root);
    ContentNames(r);
    if r[|r| - 1] == UPDATED_FILE {
      JoinOfNames([METADATA, UPDATED_FILE]);
    } else if r[|r| - 1] == METADATA_FILE {
      JoinOfNames([OBJECTS, name, HEADER, METADATA_FILE]);
    } else {
      ConversionOfContent(name, r);
    }
  }

  lemma ConversionOfContent(name: string, r: Location)
    requires Name(name) && ContentFile(r)
    ensures Names(ContentTo(name) + r) && Join([OBJECTS, name, ManifestPath(r)]) == Slashed(ContentTo(name) + r)
  {
    Words();
    ContentNames(r);
    var dir, ns := [OBJECTS, name], [CONTENT] + r;
    assert Names(dir);
    hide OBJECTS, CONTENT, Name, Names, ManifestPath;
    NamesConcat(dir, ns);
    assert dir + ns == ContentTo(name) + r;
    assert dir + [Slashed(ns)] == [OBJECTS, name, ManifestPath(r)];
    SlashedConcat(dir, ns);
    SlashedConcat(dir, [Slashed(ns)]);
    assert Slashed([Slashed(ns)]) == Slashed(ns);
    CleanPath(false, dir + ns);
    NotEmpty();
  }

  lemma NotEmpty()
    ensures OBJECTS != ""
  {
  }

  lemma ReallyConverted(name: string, r: Location)
    requires Name(name) && ContentFile(r)
    ensures ConvertedTo(name, r) == ContentTo(name) + r <==> !Special(r[|r| - 1])
  {
    Words();
    hide CONTENT, HEADER, OBJECTS, METADATA, METADATA_FILE, UPDATED_FILE, Name;
    var there := ContentTo(name) + r;
    assert there[0] == OBJECTS && there[2] == CONTENT;
  }

  /** Path conversion leads to where the content file is, unless it has one of the two special names. */
  lemma ConversionLeadsThereIff(kind: Kind, root: Location, r: Location)
    requires Root(root) && ContentFile(r)
    ensures var pip := NewPip(Path(true, root), kind);
            var converted := ConvertSipPath(pip, ManifestPath(r));
            && (Locate(Join([pip.path, converted])) == Really(root, r) <==> !Special(r[|r| - 1]))
            && (Join(["data", converted]) == OriginalName(NameOf(root), RelPath(r)) <==> !Special(r[|r| - 1]))
  {
    var name := NameOf(root);
    var c := ConvertedTo(name, r);
    Conversion(kind, root, r);
    ReallyConverted(name, r);
    ConversionOfContent(name, r);
    PayloadPaths(name, c, r);
    hide Special, ContentTo, OriginalName, ConvertSipPath, ManifestPath, ConvertedTo, Join, Locate;
    LocatedBelow(root, c);
    SamePrefix(root, c, ContentTo(name) + r);
  }

  /**
    From the manifest to the restructured package: the content file at a manifest path goes where the converted
    path leads exactly when it has neither of the two special names, and then the PREMIS original name is the
    converted path in the bag's payload directory.
  */
  lemma PathsAgree(kind: Kind, root: Location, r: Location)
    requires Root(root) && ContentFile(r)
    ensures var pip, path := NewPip(Path(true, root), kind), ManifestPath(r);
            var from, to := Locate(Join([pip.path, InPackage(kind, path)])), Locate(Join([pip.path, ConvertSipPath(pip, path)]));
            && (Target(kind, root, from) == Some(to) <==> !Special(r[|r| - 1]))
            && (Join(["data", ConvertSipPath(pip, path)]) == OriginalName(NameOf(root), RelPath(r)) <==> !Special(r[|r| - 1]))
  {
    var c := ContentAt(kind) + r;
    LayoutNames(kind, NameOf(root));
    NamesConcat(ContentAt(kind), r);
    assert c != [] && Names(c);
    ManifestPathInPackage(kind, r);
    RestructuringTakesItThere(kind, root, r);
    ConversionLeadsThereIff(kind, root, r);
    hide Special, OriginalName, ConvertSipPath, ManifestPath, Join, Locate, Target, Slashed, Really;
    LocatedBelow(root, c);
  }

  lemma LocatedBelow(root: Location, c: Location)
    requires Root(root) && c != [] && Names(c)
    ensures Locate(Join([Path(true, root), Slashed(c)])) == root + c
  {
    var p := Path(true, root);
    assert p != "";
    NamesConcat(root, c);
    SlashedPathFirst(true, root, c);
    SlashedConcat([p], c);
    SlashedConcat([p], [Slashed(c)]);
    assert [p] + [Slashed(c)] == [p, Slashed(c)] && Slashed([Slashed(c)]) == Slashed(c) && Slashed([p]) == p;
    hide Slashed, Path, Clean, Locate, Names;
    CleanPath(true, root + c);
    LocatePath(root + c);
  }

  lemma PayloadPaths(name: string, c: Location, r: Location)
    requires Name(name) && ContentFile(r) && c != [] && Names(c) && Names(ContentTo(name) + r)
    ensures Join(["data", Slashed(c)]) == OriginalName(name, RelPath(r)) <==> c == ContentTo(name) + r
  {
    assert Names(r);
    hide *;
    DataDirectory(name);
    OriginalNameIsPath(name, r);
    Assoc(["data"], ContentTo(name), r);
    JoinSlashed(["data"], c);
    NamesConcat(["data"], c);
    NamesConcat(["data"], ContentTo(name) + r);
    SameSlashed(["data"] + c, ["data"] + (ContentTo(name) + r));
    SamePrefix(["data"], c, ContentTo(name) + r);
  }

  lemma DataDirectory(name: string)
    ensures Names(["data"]) && Slashed(["data"]) == "data"
    ensures ContentDirectory(name) == ["data"] + ContentTo(name)
  {
  }

  /** Two content files get the same new path exactly when they share one of the two special names. */
  lemma ConversionCollidesIff(kind: Kind, root: Location, r: Location, r': Location)
    requires Root(root) && ContentFile(r) && ContentFile(r') && r != r'
    ensures var pip := NewPip(Path(true, root), kind);
            ConvertSipPath(pip, ManifestPath(r)) == ConvertSipPath(pip, ManifestPath(r'))
            <==> Special(r[|r| - 1]) && r[|r| - 1] == r'[|r'| - 1]
  {
    var name := NameOf(root);
    Conversion(kind, root, r);
    Conversion(kind, root, r');
    ConvertedCollides(name, r, r');
    hide ConvertSipPath, ManifestPath, ConvertedTo, Special, Names, NewPip, Path;
    SameSlashed(ConvertedTo(name, r), ConvertedTo(name, r'));
  }

  lemma SameSlashed(a: Location, b: Location)
    requires a != [] && b != [] && Names(a) && Names(b)
    ensures Slashed(a) == Slashed(b) <==> a == b
  {
    PathIsInjective(false, a, b);
  }

  lemma ConvertedCollides(name: string, r: Location, r': Location)
    requires r != [] && r' != [] && r != r'
    ensures ConvertedTo(name, r) != [] && ConvertedTo(name, r') != []
    ensures ConvertedTo(name, r) == ConvertedTo(name, r') <==> Special(r[|r| - 1]) && r[|r| - 1] == r'[|r'| - 1]
  {
    Words();
    hide CONTENT, HEADER, OBJECTS, METADATA, METADATA_FILE, UPDATED_FILE;
    var c, c' := ContentTo(name) + r, ContentTo(name) + r';
    assert c[3..] == r && c'[3..] == r';
    assert c[0] == OBJECTS == c'[0] && c[2] == CONTENT == c'[2];
  }

  /** After restructuring, the manifest is where the package's new form says, except for born-digital AIPs. */
  lemma ManifestIsFoundIff(kind: Kind, root: Location)
    requires Root(root)
    ensures var sip, pip := LaidOut(kind, Path(true, root)), NewPip(Path(true, root), kind);
            Target(kind, root, Locate(sip.manifestPath)) == Some(Locate(pip.manifestPath)) <==> kind != BornDigitalAIP
  {
    var name := NameOf(root);
    ManifestPlaces(kind, root);
    Words();
    PremisName(name);
    var at := ManifestAt(kind);
    assert (root + at)[..|root|] == root && (root + at)[|root|..] == at;
    DestinationOfManifest(kind, name);
    var now := if kind.DigitizedAIP? then [METADATA, UPDATED_FILE] else MetadataTo(name);
    var to := if IsAIP(kind) then [METADATA, UPDATED_FILE] else MetadataTo(name);
    assert (root + now)[|root|..] == now && (root + to)[|root|..] == to;
    assert |MetadataTo(name)| == 4;
  }

  lemma DestinationOfManifest(kind: Kind, name: string)
    ensures Destination(kind, name, ManifestAt(kind))
            == Some(if IsAIP(kind) then [METADATA, UPDATED_FILE] else MetadataTo(name))
  {
    Words();
    hide CONTENT, HEADER, ADDITIONAL, OBJECTS, METADATA, METADATA_FILE, UPDATED_FILE, LogicalName, Under;
    if IsAIP(kind) {
      SameStart(ContentAt(kind), UPDATED, 0);
      SameStart(MetadataAt(kind), UPDATED, 0);
      UnderItself(UPDATED);
      assert [METADATA, UPDATED_FILE] + [] == [METADATA, UPDATED_FILE];
    } else {
      SameStart(ContentAt(kind), MetadataAt(kind), 0);
      UnderItself(MetadataAt(kind));
      assert MetadataTo(name) + [] == MetadataTo(name);
    }
  }

  lemma UnderItself(p: Location)
    ensures Under(p, p) && p[|p|..] == []
  {
  }

  lemma ManifestPlaces(kind: Kind, root: Location)
    requires Root(root)
    ensures Locate(LaidOut(kind, Path(true, root)).manifestPath) == root + ManifestAt(kind)
    ensures Locate(NewPip(Path(true, root), kind).manifestPath)
            == root + if kind.DigitizedAIP? then [METADATA, UPDATED_FILE] else MetadataTo(NameOf(root))
  {
    LayoutOf(kind, root);
    LayoutNames(kind, NameOf(root));
    NewManifestPlace(kind, root);
    hide CONTENT, HEADER, ADDITIONAL, OBJECTS, METADATA, METADATA_FILE, UPDATED_FILE, Names, Locate, Path, NewPip, Stands;
    LocateIn(LaidOut(kind, Path(true, root)).manifestPath, root, ManifestAt(kind));
  }

  lemma NewManifestPlace(kind: Kind, root: Location)
    requires Root(root)
    ensures Locate(NewPip(Path(true, root), kind).manifestPath)
            == root + if kind.DigitizedAIP? then [METADATA, UPDATED_FILE] else MetadataTo(NameOf(root))
  {
    var name := NameOf(root);
    BaseIsName(root);
    Words();
    hide CONTENT, HEADER, ADDITIONAL, OBJECTS, METADATA, METADATA_FILE, UPDATED_FILE, Locate, Path, Base, Join, Name;
    var now := if kind.DigitizedAIP? then [METADATA, UPDATED_FILE] else MetadataTo(name);
    assert Names(now);
    assert [Path(true, root)] + now
           == if kind.DigitizedAIP? then [Path(true, root), METADATA, UPDATED_FILE]
              else [Path(true, root), OBJECTS, name, HEADER, METADATA_FILE];
    hide CONTENT, HEADER, ADDITIONAL, OBJECTS, METADATA, METADATA_FILE, UPDATED_FILE, Names, Locate, Path, Base, Join;
    JoinNames(root, now);
    LocateIn(NewPip(Path(true, root), kind).manifestPath, root, now);
  }
}
