/**
  The layouts of module Sip as paths: where the parts of each package type are before and after restructuring, and where
  the files of a manifest are said to be.
*/
module Layouts {
  import opened Wrappers
  import opened Paths
  import opened FileSystem
  import opened Sip
  import opened TransformSip

  /** The path of names below the package directory. */
  lemma PathBelow(root: seq<string>, ns: seq<string>)
    requires Root(root) && Names(ns) && ns != []
    ensures In(Path(true, root), ns) == Path(true, root) + "/" + Slashed(ns)
  {
    JoinNames(root, ns);
    RootedIsSlashed(root);
    RootedIsSlashed(root + ns);
    Assoc([""], root, ns);
    SlashedConcat([""] + root, ns);
    hide Slashed, Path, In;
  }

  lemma {:induction false} SlashedNext(a: string, ns: seq<string>)
    requires ns != []
    ensures Slashed([a] + ns) == a + "/" + Slashed(ns)
  {
    SlashedConcat([a], ns);
  }

  lemma AipParts(kind: Kind, name: string)
    requires kind == DigitizedAIP || kind == BornDigitalAIP
    ensures ContentAt(kind) == ["content"] + ["content"] && MetadataAt(kind) == ["content"] + (["header"] + (["old"] + (["SIP"] + ["metadata.xml"])))
    ensures XsdAt(kind) == ["content"] + (["header"] + (["xsd"] + ["arelda.xsd"]))
    ensures UPDATED == ["additional"] + ["UpdatedAreldaMetadata.xml"] && LogicalAt(name) == ["additional"] + [name + "-premis.xml"]
    ensures TopLevel(kind) == ["content", "additional"] && IsAIP(kind)
  {
  }

  lemma SipParts(kind: Kind)
    requires kind == DigitizedSIP || kind == BornDigitalSIP
    ensures ContentAt(kind) == ["content"] && MetadataAt(kind) == ["header"] + ["metadata.xml"]
    ensures XsdAt(kind) == ["header"] + (["xsd"] + ["arelda.xsd"])
    ensures TopLevel(kind) == ["content", "header"] && !IsAIP(kind)
  {
  }

  lemma PipParts(name: string)
    ensures [METADATA, UPDATED_FILE] == ["metadata"] + ["UpdatedAreldaMetadata.xml"]
    ensures [OBJECTS, name, HEADER, METADATA_FILE] == ["objects"] + ([name] + (["header"] + ["metadata.xml"]))
    ensures forall a: string :: Slashed([a]) == a
  {
  }

  lemma Fields(kind: Kind, root: seq<string>)
    requires Root(root)
    ensures var p, s := Path(true, root), LaidOut(kind, Path(true, root));
            && s.contentPath == In(p, ContentAt(kind)) && s.metadataPath == In(p, MetadataAt(kind)) && s.xsdPath == In(p, XsdAt(kind))
            && s.manifestPath == In(p, if IsAIP(kind) then UPDATED else MetadataAt(kind))
            && (IsAIP(kind) ==> s.updatedAreldaMDPath == In(p, UPDATED) && s.logicalMDPath == In(p, LogicalAt(NameOf(root))))
            && s.topLevelPaths == [In(p, [TopLevel(kind)[0]]), In(p, [TopLevel(kind)[1]])]
    ensures Names(ContentAt(kind)) && Names(MetadataAt(kind)) && Names(XsdAt(kind)) && Names([TopLevel(kind)[0]]) && Names([TopLevel(kind)[1]])
    ensures Names(UPDATED) && Names(LogicalAt(NameOf(root)))
  {
    BaseIsName(root);
    LayoutNames(kind, NameOf(root));
    hide Join, Path, Base, Name, ContentAt, MetadataAt, XsdAt, LogicalAt, UPDATED, TopLevel, In;
  }

  /** An AIP before restructuring. */
  lemma AipLayout(kind: Kind, root: seq<string>)
    requires Root(root) && (kind == DigitizedAIP || kind == BornDigitalAIP)
    ensures var p, s := Path(true, root) + "/", LaidOut(kind, Path(true, root));
            && s.contentPath == p + ("content" + "/" + "content")
            && s.metadataPath == p + ("content" + "/" + ("header" + "/" + ("old" + "/" + ("SIP" + "/" + "metadata.xml"))))
            && s.xsdPath == p + ("content" + "/" + ("header" + "/" + ("xsd" + "/" + "arelda.xsd")))
            && s.manifestPath == p + ("additional" + "/" + "UpdatedAreldaMetadata.xml") && s.updatedAreldaMDPath == s.manifestPath
            && s.logicalMDPath == p + ("additional" + "/" + (NameOf(root) + "-premis.xml"))
            && s.topLevelPaths == [p + "content", p + "additional"]
  {
    assert root != [];
    hide *;
    var name := NameOf(root);
    Fields(kind, root);
    AipParts(kind, name);
    PipParts("");
    PathBelow(root, ContentAt(kind));
    PathBelow(root, MetadataAt(kind));
    PathBelow(root, XsdAt(kind));
    PathBelow(root, UPDATED);
    PathBelow(root, LogicalAt(name));
    PathBelow(root, [TopLevel(kind)[0]]);
    PathBelow(root, [TopLevel(kind)[1]]);
    SlashedNext("content", ["content"]);
    SlashedNext("SIP", ["metadata.xml"]);
    SlashedNext("old", ["SIP"] + ["metadata.xml"]);
    SlashedNext("header", ["old"] + (["SIP"] + ["metadata.xml"]));
    SlashedNext("content", ["header"] + (["old"] + (["SIP"] + ["metadata.xml"])));
    SlashedNext("xsd", ["arelda.xsd"]);
    SlashedNext("header", ["xsd"] + ["arelda.xsd"]);
    SlashedNext("content", ["header"] + (["xsd"] + ["arelda.xsd"]));
    SlashedNext("additional", ["UpdatedAreldaMetadata.xml"]);
    SlashedNext("additional", [name + "-premis.xml"]);
  }

  /** A SIP before restructuring. */
  lemma SipLayout(kind: Kind, root: seq<string>)
    requires Root(root) && (kind == DigitizedSIP || kind == BornDigitalSIP)
    ensures var p, s := Path(true, root) + "/", LaidOut(kind, Path(true, root));
            && s.contentPath == p + "content" && s.metadataPath == p + ("header" + "/" + "metadata.xml")
            && s.xsdPath == p + ("header" + "/" + ("xsd" + "/" + "arelda.xsd"))
            && s.manifestPath == s.metadataPath && s.topLevelPaths == [p + "content", p + "header"]
  {
    hide *;
    Fields(kind, root);
    SipParts(kind);
    PipParts("");
    PathBelow(root, ContentAt(kind));
    PathBelow(root, MetadataAt(kind));
    PathBelow(root, XsdAt(kind));
    PathBelow(root, [TopLevel(kind)[0]]);
    PathBelow(root, [TopLevel(kind)[1]]);
    SlashedNext("header", ["metadata.xml"]);
    SlashedNext("xsd", ["arelda.xsd"]);
    SlashedNext("header", ["xsd"] + ["arelda.xsd"]);
  }

  lemma PipFields(kind: Kind, root: seq<string>)
    requires Root(root)
    ensures var p := Path(true, root);
            NewPip(p, kind).manifestPath
            == In(p, if kind == DigitizedAIP then [METADATA, UPDATED_FILE] else [OBJECTS, NameOf(root), HEADER, METADATA_FILE])
    ensures Names([METADATA, UPDATED_FILE]) && Names([OBJECTS, NameOf(root), HEADER, METADATA_FILE])
  {
    var p, name := Path(true, root), NameOf(root);
    BaseIsName(root);
    Words();
    assert [p] + [METADATA, UPDATED_FILE] == [p, METADATA, UPDATED_FILE];
    assert [p] + [OBJECTS, name, HEADER, METADATA_FILE] == [p, OBJECTS, name, HEADER, METADATA_FILE];
    hide Path, Base, Join, Name, METADATA, UPDATED_FILE, OBJECTS, HEADER, METADATA_FILE;
  }

  /** Where the restructured package has its manifest. */
  lemma PipLayout(kind: Kind, root: seq<string>)
    requires Root(root)
    ensures var p := Path(true, root) + "/";
            NewPip(Path(true, root), kind).manifestPath
            == p + if kind == DigitizedAIP then "metadata" + "/" + "UpdatedAreldaMetadata.xml"
                   else "objects" + "/" + (NameOf(root) + "/" + ("header" + "/" + "metadata.xml"))
  {
    assert root != [];
    hide *;
    var name := NameOf(root);
    PipFields(kind, root);
    PipParts(name);
    PathBelow(root, [METADATA, UPDATED_FILE]);
    PathBelow(root, [OBJECTS, name, HEADER, METADATA_FILE]);
    SlashedNext("metadata", ["UpdatedAreldaMetadata.xml"]);
    SlashedNext("header", ["metadata.xml"]);
    SlashedNext(name, ["header"] + ["metadata.xml"]);
    SlashedNext("objects", [name] + (["header"] + ["metadata.xml"]));
  }

  // Where restructuring takes the parts

  lemma ContentGoesTo(kind: Kind, name: string, r: Location)
    ensures kind == DigitizedAIP || kind == BornDigitalAIP ==>
      Destination(kind, name, ["content", "content"] + r) == Some(["objects", name, "content"] + r)
    ensures kind == DigitizedSIP || kind == BornDigitalSIP ==>
      Destination(kind, name, ["content"] + r) == Some(["objects", name, "content"] + r)
  {
    assert (["content", "content"] + r)[..2] == ["content", "content"] && (["content", "content"] + r)[2..] == r;
    assert (["content"] + r)[..1] == ["content"] && (["content"] + r)[1..] == r;
  }

  lemma MetadataGoesTo(kind: Kind, name: string)
    ensures kind == DigitizedAIP || kind == BornDigitalAIP ==>
      Destination(kind, name, ["content", "header", "old", "SIP", "metadata.xml"]) == Some(["objects", name, "header", "metadata.xml"])
    ensures kind == DigitizedSIP || kind == BornDigitalSIP ==>
      Destination(kind, name, ["header", "metadata.xml"]) == Some(["objects", name, "header", "metadata.xml"])
  {
    var m := if IsAIP(kind) then ["content", "header", "old", "SIP", "metadata.xml"] else ["header", "metadata.xml"];
    assert m == MetadataAt(kind) && m[|m|..] == [] && m[..|m|] == m;
    var t := ["objects", name, "header", "metadata.xml"];
    assert MetadataTo(name) == t && t + [] == t;
    assert "content" != "header";
    assert IsAIP(kind) ==> m[1] != "content";
    var c := ContentAt(kind);
    if IsAIP(kind) {
      assert c[1] == "content" && m[..2][1] == m[1];
    } else {
      assert c[0] == "content" && m[..1][0] == m[0] == "header";
    }
    assert m[..|c|] != c;
  }

  lemma AdditionalGoesTo(kind: Kind, name: string)
    requires Name(name) && (kind == DigitizedAIP || kind == BornDigitalAIP)
    ensures Destination(kind, name, ["additional", "UpdatedAreldaMetadata.xml"]) == Some(["metadata", "UpdatedAreldaMetadata.xml"])
    ensures Destination(kind, name, ["additional", name + "-premis.xml"]) == Some(["metadata", name + "-premis.xml"])
  {
    PremisName(name);
    assert LogicalName(name) == name + "-premis.xml" && UPDATED_FILE == "UpdatedAreldaMetadata.xml" && METADATA == "metadata";
    var u, l := ["additional", "UpdatedAreldaMetadata.xml"], ["additional", name + "-premis.xml"];
    assert u == UPDATED && l == LogicalAt(name) && u[2..] == [] && l[2..] == [] && u[..2] == u && l[..2] == l;
    assert [METADATA, UPDATED_FILE] + [] == [METADATA, UPDATED_FILE] && [METADATA, LogicalName(name)] + [] == [METADATA, LogicalName(name)];
    assert u[0] == ADDITIONAL && ADDITIONAL != CONTENT && u[1] != l[1];
    hide LogicalName, UPDATED_FILE;
  }

  lemma OthersStay(kind: Kind, name: string, r: Location)
    requires r != [] && r[0] != "content" && r[0] != "header" && r[0] != "additional"
    ensures Destination(kind, name, r) == Some(r)
  {
  }

  lemma RestIsDropped(kind: Kind, name: string, r: Location)
    requires r != [] && r[0] == "additional" && IsAIP(kind) && |r| >= 2 && r[1] != "UpdatedAreldaMetadata.xml" && r[1] != name + "-premis.xml"
    ensures Destination(kind, name, r) == None
  {
  }

  // Where the files of a manifest are said to be

  lemma ConversionParts(pip: PIP, ns: seq<string>, n: string)
    requires Names(ns) && Name(n)
    ensures var path := Slashed(ns + [n]);
            ConvertSipPath(pip, path)
            == if n == "UpdatedAreldaMetadata.xml" then Join(["metadata", n])
               else if n == "metadata.xml" then Join(["objects", Base(pip.path), "header", n])
               else if "content" <= path then Join(["objects", Base(pip.path), path])
               else ""
  {
    BasePath(false, ns, n);
    assert Path(false, ns + [n]) == Slashed(ns + [n]);
    hide Slashed, Path, Base, Join;
  }

  /** By the last name, and otherwise by whether the path starts with "content". */
  lemma Conversions(kind: Kind, root: seq<string>, ns: seq<string>, n: string)
    requires Root(root) && Names(ns) && Name(n)
    ensures var name, path, converted := NameOf(root), Slashed(ns + [n]), ConvertSipPath(NewPip(Path(true, root), kind), Slashed(ns + [n]));
            if n == "UpdatedAreldaMetadata.xml" then converted == "metadata" + "/" + "UpdatedAreldaMetadata.xml"
            else if n == "metadata.xml" then converted == "objects" + "/" + (name + "/" + ("header" + "/" + "metadata.xml"))
            else if "content" <= path then converted == "objects" + "/" + (name + "/" + path)
            else converted == ""
  {
    var pip, name := NewPip(Path(true, root), kind), NameOf(root);
    assert pip.path == Path(true, root) && Names(ns + [n]) && ns + [n] != [];
    hide *;
    RootName(root);
    BaseIsName(root);
    ConversionParts(pip, ns, n);
    JoinedNames(name, n);
    JoinedPath(name, ns + [n]);
  }

  lemma JoinedNames(name: string, n: string)
    requires Name(name) && Name(n)
    ensures Join(["metadata", n]) == "metadata" + "/" + n
    ensures Join(["objects", name, "header", n]) == "objects" + "/" + (name + "/" + ("header" + "/" + n))
  {
    assert Name("metadata") && Name("objects") && Name("header");
    assert Names(["metadata"]) && Names(["objects", name, "header"]) && Names([n]);
    assert ["metadata"] + [n] == ["metadata", n];
    assert ["objects", name, "header"] + [n] == ["objects", name, "header", n];
    assert ["objects", name, "header", n] == ["objects"] + ([name] + (["header"] + [n]));
    PipParts(name);
    hide Slashed, Join, Names, Name;
    JoinTexts(["metadata"], [n]);
    JoinTexts(["objects", name, "header"], [n]);
    SlashedNext("metadata", [n]);
    SlashedNext("header", [n]);
    SlashedNext(name, ["header"] + [n]);
    SlashedNext("objects", [name] + (["header"] + [n]));
  }

  lemma JoinedPath(name: string, ns: seq<string>)
    requires Name(name) && Names(ns) && ns != []
    ensures Join(["objects", name, Slashed(ns)]) == "objects" + "/" + (name + "/" + Slashed(ns))
  {
    assert Name("objects") && Names(["objects", name]);
    assert ["objects", name] + [Slashed(ns)] == ["objects", name, Slashed(ns)];
    assert ["objects", name] == ["objects"] + [name];
    hide Slashed, Join, Names, Name;
    Assoc(["objects"], [name], ns);
    JoinTexts(["objects", name], ns);
    SlashedNext(name, ns);
    SlashedNext("objects", [name] + ns);
  }

  lemma JoinTexts(a: seq<string>, b: seq<string>)
    requires a != [] && b != [] && Names(a) && Names(b)
    ensures Join(a + [Slashed(b)]) == Slashed(a + b)
  {
    SlashedStart(a);
    NamesConcat(a, b);
    SlashedConcat(a, b);
    SlashedConcat(a, [Slashed(b)]);
    assert Slashed([Slashed(b)]) == Slashed(b);
    assert (a + [Slashed(b)])[0] == a[0] != "";
    CleanPath(false, a + b);
  }
}
