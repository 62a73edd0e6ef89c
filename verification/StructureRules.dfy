/**
  The rules of the structure validator, written out for each type of package.
*/
module StructureRules {
  import opened Wrappers
  import opened Paths
  import opened Sip
  import opened PackageTree
  import opened ValidateStructure
  import opened StructureReport

  predicate IsThere(tree: Node, at: Location) {
    NodeAt(tree, at).Some?
  }

  predicate Directory(tree: Node, at: Location) {
    NodeAt(tree, at).Some? && NodeAt(tree, at).value.DirNode?
  }

  predicate AllowedChar(c: char) {
    'a' <= c <= 'z' || 'A' <= c <= 'Z' || '0' <= c <= '9' || c == '-' || c == '_' || c == '.' || c == '(' || c == ')'
  }

  lemma LettersAndDigits(c: char)
    ensures c in "abcdefghijklmnopqrstuvwxyz" <==> 'a' <= c <= 'z'
    ensures c in "ABCDEFGHIJKLMNOPQRSTUVWXYZ" <==> 'A' <= c <= 'Z'
    ensures c in "0123456789-_.()" <==> '0' <= c <= '9' || c == '-' || c == '_' || c == '.' || c == '(' || c == ')'
  {
    var lower, upper, others := "abcdefghijklmnopqrstuvwxyz", "ABCDEFGHIJKLMNOPQRSTUVWXYZ", "0123456789-_.()";
    assert |lower| == 26 && forall i :: 0 <= i < 26 ==> lower[i] as int == 97 + i;
    assert |upper| == 26 && forall i :: 0 <= i < 26 ==> upper[i] as int == 65 + i;
    assert |others| == 15 && forall i :: 0 <= i < 10 ==> others[i] as int == 48 + i;
    assert others[10] == '-' && others[11] == '_' && others[12] == '.' && others[13] == '(' && others[14] == ')';
    if 'a' <= c <= 'z' {
      assert lower[c as int - 97] == c;
    }
    if 'A' <= c <= 'Z' {
      assert upper[c as int - 65] == c;
    }
    if '0' <= c <= '9' {
      assert others[c as int - 48] == c;
    }
  }

  lemma ValidNameMeans(name: string)
    ensures ValidName(name) <==> forall c :: c in name ==> AllowedChar(c)
  {
    forall c
      ensures c in VALID_CHARS <==> AllowedChar(c)
    {
      LettersAndDigits(c);
      assert VALID_CHARS == "abcdefghijklmnopqrstuvwxyz" + "ABCDEFGHIJKLMNOPQRSTUVWXYZ" + "0123456789-_.()";
    }
    hide VALID_CHARS;
  }

  /** Content, metadata and schema, and of an AIP the two files beside them, where this type of package has them. */
  predicate Required(tree: Node, kind: Kind) {
    if kind == DigitizedAIP || kind == BornDigitalAIP then
      && IsThere(tree, ["content", "content"]) && IsThere(tree, ["content", "header", "old", "SIP", "metadata.xml"])
      && IsThere(tree, ["content", "header", "xsd", "arelda.xsd"]) && IsThere(tree, ["additional", "UpdatedAreldaMetadata.xml"])
      && IsThere(tree, ["additional", tree.name + "-premis.xml"])
    else IsThere(tree, ["content"]) && IsThere(tree, ["header", "metadata.xml"]) && IsThere(tree, ["header", "xsd", "arelda.xsd"])
  }

  predicate AllowedAtTop(kind: Kind, n: string) {
    n == "content" || n == (if kind == DigitizedAIP || kind == BornDigitalAIP then "additional" else "header")
  }

  /** Where the dossiers of a package are. */
  function Dossiers(kind: Kind): Location {
    if kind == DigitizedAIP then ["content", "content"] else ["content"]
  }

  lemma RequiredIff(tree: Node, kind: Kind)
    ensures Complete(tree, kind) <==> Required(tree, kind)
  {
    hide NodeAt;
    if kind == DigitizedAIP || kind == BornDigitalAIP {
      assert IsAIP(kind);
      assert ContentAt(kind) == ["content", "content"] && MetadataAt(kind) == ["content", "header", "old", "SIP", "metadata.xml"];
      assert XsdAt(kind) == ["content", "header", "xsd", "arelda.xsd"] && UPDATED == ["additional", "UpdatedAreldaMetadata.xml"];
      assert LogicalAt(tree.name) == ["additional", tree.name + "-premis.xml"];
    } else {
      assert !IsAIP(kind);
      assert ContentAt(kind) == ["content"] && MetadataAt(kind) == ["header", "metadata.xml"] && XsdAt(kind) == ["header", "xsd", "arelda.xsd"];
    }
  }

  /**
    A structure is accepted if and only if no directory is empty, all names have letters, digits and five other characters
    only, the required files are there, no directory at the top is another one than the two of its type, and a
    digitized package has one dossier at most.
  */
  lemma AcceptedIff(tree: Node, kind: Kind)
    ensures StructureOk(tree, kind) <==>
      && (forall at :: Directory(tree, at) ==> NodeAt(tree, at).value.kids != [])
      && (forall at :: IsThere(tree, at) ==> forall c :: c in NodeAt(tree, at).value.name ==> AllowedChar(c))
      && Required(tree, kind)
      && (forall n :: Directory(tree, [n]) ==> AllowedAtTop(kind, n))
      && (kind == DigitizedAIP || kind == DigitizedSIP ==>
            forall a, b :: Directory(tree, Dossiers(kind) + [a]) && Directory(tree, Dossiers(kind) + [b]) ==> a == b)
  {
    hide *;
    RequiredIff(tree, kind);
    EmptyIff(tree);
    NamesIff(tree);
    TopIff(tree, kind);
    if kind == DigitizedAIP || kind == DigitizedSIP {
      DossiersIff(tree, kind);
    }
    RulesOf(tree, kind);
  }

  lemma RulesOf(tree: Node, kind: Kind)
    ensures StructureOk(tree, kind) <==>
      && (forall at :: !IsEmptyDir(tree, at)) && (forall at :: !HasInvalidName(tree, at)) && Complete(tree, kind)
      && (forall n :: !IsUnexpected(tree, kind, n)) && (kind == DigitizedAIP || kind == DigitizedSIP ==> OneDossier(tree, kind))
  {
    hide IsEmptyDir, HasInvalidName, Complete, IsUnexpected, OneDossier;
  }

  lemma EmptyIff(tree: Node)
    ensures (forall at :: !IsEmptyDir(tree, at)) <==> forall at :: Directory(tree, at) ==> NodeAt(tree, at).value.kids != []
  {
    hide NodeAt;
    if forall at :: Directory(tree, at) ==> NodeAt(tree, at).value.kids != [] {
      forall at
        ensures !IsEmptyDir(tree, at)
      {
        assert Directory(tree, at) ==> NodeAt(tree, at).value.kids != [];
      }
    }
    if forall at :: !IsEmptyDir(tree, at) {
      forall at | Directory(tree, at)
        ensures NodeAt(tree, at).value.kids != []
      {
        assert !IsEmptyDir(tree, at);
      }
    }
  }

  lemma NamesIff(tree: Node)
    ensures (forall at :: !HasInvalidName(tree, at))
            <==> forall at :: IsThere(tree, at) ==> forall c :: c in NodeAt(tree, at).value.name ==> AllowedChar(c)
  {
    hide NodeAt, AllowedChar, ValidName;
    forall at
      ensures !HasInvalidName(tree, at) <==> IsThere(tree, at) ==> forall c :: c in NodeAt(tree, at).value.name ==> AllowedChar(c)
    {
      if IsThere(tree, at) {
        ValidNameMeans(NodeAt(tree, at).value.name);
      }
    }
  }

  lemma TopIff(tree: Node, kind: Kind)
    ensures (forall n :: !IsUnexpected(tree, kind, n)) <==> forall n :: Directory(tree, [n]) ==> AllowedAtTop(kind, n)
  {
    hide NodeAt;
    assert TopLevel(kind) == ["content", if kind == DigitizedAIP || kind == BornDigitalAIP then "additional" else "header"];
    hide TopLevel;
    forall n
      ensures !IsUnexpected(tree, kind, n) <==> Directory(tree, [n]) ==> AllowedAtTop(kind, n)
    {
    }
  }

  lemma DossiersIff(tree: Node, kind: Kind)
    requires kind == DigitizedAIP || kind == DigitizedSIP
    ensures OneDossier(tree, kind)
            <==> forall a, b :: Directory(tree, Dossiers(kind) + [a]) && Directory(tree, Dossiers(kind) + [b]) ==> a == b
  {
    assert ContentAt(kind) == Dossiers(kind);
    hide NodeAt, ContentAt, Dossiers;
    if OneDossier(tree, kind) {
      forall a, b | Directory(tree, Dossiers(kind) + [a]) && Directory(tree, Dossiers(kind) + [b])
        ensures a == b
      {
        assert IsDir(tree, ContentAt(kind) + [a]) && IsDir(tree, ContentAt(kind) + [b]);
      }
    }
    if forall a, b :: Directory(tree, Dossiers(kind) + [a]) && Directory(tree, Dossiers(kind) + [b]) ==> a == b {
      forall a, b | IsDir(tree, ContentAt(kind) + [a]) && IsDir(tree, ContentAt(kind) + [b])
        ensures a == b
      {
        assert Directory(tree, Dossiers(kind) + [a]) && Directory(tree, Dossiers(kind) + [b]);
      }
    }
  }

  // What the report names

  /** Where each required part of a package is. */
  function ContentPlace(kind: Kind): Location {
    if kind == DigitizedAIP || kind == BornDigitalAIP then ["content", "content"] else ["content"]
  }

  function MetadataPlace(kind: Kind): Location {
    if kind == DigitizedAIP || kind == BornDigitalAIP then ["content", "header", "old", "SIP", "metadata.xml"] else ["header", "metadata.xml"]
  }

  function SchemaPlace(kind: Kind): Location {
    if kind == DigitizedAIP || kind == BornDigitalAIP then ["content", "header", "xsd", "arelda.xsd"] else ["header", "xsd", "arelda.xsd"]
  }

  lemma BasesOfLayout(sip: SIP, root: Location)
    requires Root(root) && sip == LaidOut(sip.kind, Path(true, root))
    ensures Base(sip.metadataPath) == "metadata.xml"
    ensures sip.kind == DigitizedAIP || sip.kind == BornDigitalAIP ==>
      Base(sip.updatedAreldaMDPath) == "UpdatedAreldaMetadata.xml" && Base(sip.logicalMDPath) == NameOf(root) + "-premis.xml"
  {
    var kind, name := sip.kind, NameOf(root);
    LayoutOf(kind, root);
    LayoutNames(kind, name);
    LastName(root, MetadataAt(kind));
    LastName(root, UPDATED);
    LastName(root, LogicalAt(name));
    hide Path, Base, Names, LaidOut;
  }

  lemma LastName(root: Location, at: Location)
    requires Root(root) && Names(at) && at != []
    ensures Base(Path(true, root + at)) == at[|at| - 1]
  {
    var init, n := at[..|at| - 1], at[|at| - 1];
    assert at == init + [n];
    Assoc(root, init, [n]);
    NamesConcat(root, init);
    hide Path, Base;
    BasePath(true, root + init, n);
  }

  lemma InIf(c: bool, g: Failure, f: Failure)
    ensures f in If(c, g) <==> c && f == g
  {
  }

  lemma InFive(a: seq<Failure>, b: seq<Failure>, c: seq<Failure>, d: seq<Failure>, e: seq<Failure>, f: Failure)
    ensures f in a + b + c + d + e <==> f in a || f in b || f in c || f in d || f in e
  {
  }

  /** A report made of three lists and seven single failures. */
  lemma InParts(empty: seq<Failure>, invalid: seq<Failure>, unexpected: seq<Failure>, c1: bool, g1: Failure, c2: bool, g2: Failure,
                c3: bool, g3: Failure, c4: bool, g4: Failure, c5: bool, g5: Failure, c6: bool, g6: Failure, c7: bool, g7: Failure, f: Failure)
    requires f !in empty && f !in invalid && f !in unexpected
    ensures f in empty + If(c1, g1) + invalid + If(c2, g2) + If(c3, g3) + If(c4, g4) + If(c5, g5) + If(c6, g6) + unexpected + If(c7, g7)
            <==> (c1 && f == g1) || (c2 && f == g2) || (c3 && f == g3) || (c4 && f == g4) || (c5 && f == g5) || (c6 && f == g6) || (c7 && f == g7)
  {
    hide If;
    var start := empty + If(c1, g1) + invalid + If(c2, g2) + If(c3, g3);
    InFive(empty, If(c1, g1), invalid, If(c2, g2), If(c3, g3), f);
    InFive(start, If(c4, g4), If(c5, g5), If(c6, g6), unexpected, f);
    InFive(start + If(c4, g4) + If(c5, g5) + If(c6, g6) + unexpected, If(c7, g7), [], [], [], f);
    InIf(c1, g1, f);
    InIf(c2, g2, f);
    InIf(c3, g3, f);
    InIf(c4, g4, f);
    InIf(c5, g5, f);
    InIf(c6, g6, f);
    InIf(c7, g7, f);
  }

  lemma ReportParts(t: Tally, sip: SIP)
    requires !(|t.dirs| == 1 && t.fileCount == 0)
    ensures Failures(t, sip)
            == EmptyDirs(t.dirs) + If(EmptyDirs(t.dirs) != [], RemoveEmptyDirectories) + AsInvalid(t.invalidNames)
               + If(!t.hasContentDir, ContentMissing) + If(!t.hasMetadataFile, FileMissing(Base(sip.metadataPath)))
               + If(!t.hasAreldaFile, FileMissing(SCHEMA_FILE))
               + If(IsAIP(sip.kind) && !t.hasUpdatedAreldaMDFile, FileMissing(Base(sip.updatedAreldaMDPath)))
               + If(IsAIP(sip.kind) && !t.hasLogicalMDFile, FileMissing(Base(sip.logicalMDPath)))
               + AsUnexpected(t.extraDirs) + If(IsDigitized(sip.kind) && t.dossierCount > 1, ManyDossiers)
  {
    hide EmptyDirs, AsInvalid, AsUnexpected, Base, If, IsAIP, IsDigitized, SCHEMA_FILE;
  }

  lemma NotInLists(t: Tally, f: Failure)
    requires f.ContentMissing? || f.FileMissing? || f.ManyDossiers? || f.RemoveEmptyDirectories?
    ensures f !in EmptyDirs(t.dirs) && f !in AsInvalid(t.invalidNames) && f !in AsUnexpected(t.extraDirs)
  {
    InEmptyDirs(t.dirs, "");
    InAsInvalid(t.invalidNames, f);
    InAsUnexpected(t.extraDirs, f);
    hide EmptyDirs, AsInvalid, AsUnexpected;
  }

  lemma TypesAndSchema(kind: Kind)
    ensures SCHEMA_FILE == "arelda.xsd" && (IsDigitized(kind) <==> kind == DigitizedAIP || kind == DigitizedSIP)
  {
  }

  /** The failures that are reported at most once. */
  lemma SingleFailures(t: Tally, sip: SIP, f: Failure)
    requires !(|t.dirs| == 1 && t.fileCount == 0)
    requires f.ContentMissing? || f.FileMissing? || f.ManyDossiers? || f.RemoveEmptyDirectories?
    ensures f in Failures(t, sip)
            <==> || (f.ContentMissing? && !t.hasContentDir)
                 || (f == FileMissing(Base(sip.metadataPath)) && !t.hasMetadataFile)
                 || (f == FileMissing("arelda.xsd") && !t.hasAreldaFile)
                 || (f == FileMissing(Base(sip.updatedAreldaMDPath)) && IsAIP(sip.kind) && !t.hasUpdatedAreldaMDFile)
                 || (f == FileMissing(Base(sip.logicalMDPath)) && IsAIP(sip.kind) && !t.hasLogicalMDFile)
                 || (f.ManyDossiers? && (sip.kind == DigitizedAIP || sip.kind == DigitizedSIP) && t.dossierCount > 1)
                 || (f.RemoveEmptyDirectories? && EmptyDirs(t.dirs) != [])
  {
    hide *;
    ReportParts(t, sip);
    NotInLists(t, f);
    TypesAndSchema(sip.kind);
    InParts(EmptyDirs(t.dirs), AsInvalid(t.invalidNames), AsUnexpected(t.extraDirs), EmptyDirs(t.dirs) != [], RemoveEmptyDirectories,
            !t.hasContentDir, ContentMissing, !t.hasMetadataFile, FileMissing(Base(sip.metadataPath)), !t.hasAreldaFile, FileMissing(SCHEMA_FILE),
            IsAIP(sip.kind) && !t.hasUpdatedAreldaMDFile, FileMissing(Base(sip.updatedAreldaMDPath)),
            IsAIP(sip.kind) && !t.hasLogicalMDFile, FileMissing(Base(sip.logicalMDPath)),
            IsDigitized(sip.kind) && t.dossierCount > 1, ManyDossiers, f);
  }

  /** The name of an AIP's second file is not that of another required one. */
  lemma PremisIsDifferent(name: string)
    ensures name + "-premis.xml" != "metadata.xml" && name + "-premis.xml" != "arelda.xsd" && name + "-premis.xml" != "UpdatedAreldaMetadata.xml"
  {
    var p := name + "-premis.xml";
    assert p[|p| - 5] == 's' && "metadata.xml"[|"metadata.xml"| - 5] == 'a' && "UpdatedAreldaMetadata.xml"[|"UpdatedAreldaMetadata.xml"| - 5] == 'a';
    assert p[|p| - 1] == 'l' && "arelda.xsd"[|"arelda.xsd"| - 1] == 'd';
  }

  lemma TallyOfTree(tree: Node, kind: Kind)
    requires WellNamed(tree)
    ensures var t := TallyOf(Walk(tree, []), kind, tree.name);
            && (t.hasContentDir <==> IsThere(tree, ContentPlace(kind))) && (t.hasMetadataFile <==> IsThere(tree, MetadataPlace(kind)))
            && (t.hasAreldaFile <==> IsThere(tree, SchemaPlace(kind)))
            && (kind == DigitizedAIP || kind == BornDigitalAIP ==>
                  && (t.hasUpdatedAreldaMDFile <==> IsThere(tree, ["additional", "UpdatedAreldaMetadata.xml"]))
                  && (t.hasLogicalMDFile <==> IsThere(tree, ["additional", tree.name + "-premis.xml"])))
            && (|t.dirs| == 1 && t.fileCount == 0 <==> Directory(tree, []) && NodeAt(tree, []).value.kids == [])
  {
    EmptySip(tree, kind);
    assert ContentAt(kind) == ContentPlace(kind) && MetadataAt(kind) == MetadataPlace(kind) && XsdAt(kind) == SchemaPlace(kind);
    assert UPDATED == ["additional", "UpdatedAreldaMetadata.xml"] && LogicalAt(tree.name) == ["additional", tree.name + "-premis.xml"];
    hide NodeAt, Walk, WellNamed, ContentAt, MetadataAt, XsdAt, ContentPlace, MetadataPlace, SchemaPlace, LogicalAt, UPDATED, Seen, DirsSeen,
         ValidateStructure.Dossiers, FilesSeen, InvalidNames, ExtraDirs;
    EntriesAreNodes(tree, ContentAt(kind));
    EntriesAreNodes(tree, MetadataAt(kind));
    EntriesAreNodes(tree, XsdAt(kind));
    EntriesAreNodes(tree, UPDATED);
    EntriesAreNodes(tree, LogicalAt(tree.name));
  }

  /** Of a package that is not empty, the report names exactly the required parts that are not there. */
  lemma MissingAreNamed(tree: Node, sip: SIP, root: Location)
    requires Root(root) && sip == LaidOut(sip.kind, Path(true, root)) && WellNamed(tree) && tree.name == NameOf(root)
    requires !(Directory(tree, []) && NodeAt(tree, []).value.kids == [])
    ensures var r, kind := Failures(TallyOf(Walk(tree, []), sip.kind, tree.name), sip), sip.kind;
            && (ContentMissing in r <==> !IsThere(tree, ContentPlace(kind)))
            && (FileMissing("metadata.xml") in r <==> !IsThere(tree, MetadataPlace(kind)))
            && (FileMissing("arelda.xsd") in r <==> !IsThere(tree, SchemaPlace(kind)))
            && (kind == DigitizedAIP || kind == BornDigitalAIP ==>
                  && (FileMissing("UpdatedAreldaMetadata.xml") in r <==> !IsThere(tree, ["additional", "UpdatedAreldaMetadata.xml"]))
                  && (FileMissing(tree.name + "-premis.xml") in r <==> !IsThere(tree, ["additional", tree.name + "-premis.xml"])))
            && (ManyDossiers in r <==> (kind == DigitizedAIP || kind == DigitizedSIP) && TwoDossiers(tree, kind))
  {
    var t := TallyOf(Walk(tree, []), sip.kind, tree.name);
    TallyOfTree(tree, sip.kind);
    BasesOfLayout(sip, root);
    PremisIsDifferent(tree.name);
    DossiersCounted(tree, sip.kind);
    assert IsAIP(sip.kind) <==> sip.kind == DigitizedAIP || sip.kind == BornDigitalAIP;
    hide NodeAt, Walk, WellNamed, TallyOf, Failures, Base, LaidOut, Path, Root, TwoDossiers, IsThere, ContentPlace, MetadataPlace, SchemaPlace, IsAIP;
    SingleFailures(t, sip, ContentMissing);
    SingleFailures(t, sip, FileMissing("metadata.xml"));
    SingleFailures(t, sip, FileMissing("arelda.xsd"));
    SingleFailures(t, sip, FileMissing("UpdatedAreldaMetadata.xml"));
    SingleFailures(t, sip, FileMissing(tree.name + "-premis.xml"));
    SingleFailures(t, sip, ManyDossiers);
  }

  /** Two directories where the dossiers are. */
  ghost predicate TwoDossiers(tree: Node, kind: Kind) {
    exists a, b :: a != b && Directory(tree, Dossiers(kind) + [a]) && Directory(tree, Dossiers(kind) + [b])
  }

  lemma DossiersCounted(tree: Node, kind: Kind)
    requires WellNamed(tree)
    ensures kind == DigitizedAIP || kind == DigitizedSIP ==>
      (TallyOf(Walk(tree, []), kind, tree.name).dossierCount > 1 <==> TwoDossiers(tree, kind))
  {
    if kind == DigitizedAIP || kind == DigitizedSIP {
      DossiersOfTree(tree, kind);
      DossiersIff(tree, kind);
      hide Directory, OneDossier, Dossiers, Walk;
    }
  }
}
