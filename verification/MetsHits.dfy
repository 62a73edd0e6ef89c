/**
  Which identifiers and paths the METS file of an AIP has, in terms of the elements of the document: what the search for
  content files (module MetsMatch) can find.
*/
module MetsHits {
  import opened Wrappers
  import opened Xml
  import opened Paths
  import opened MetsMatch

  /** The last child of that name has the text; if there is none, the text is empty. */
  predicate TextIs(kids: seq<Node>, local: string, text: string) {
    || (exists i :: && 0 <= i < |kids| && HasName(kids[i], local) && text == Concat(Chunks(kids[i].kids))
                    && forall j :: i < j < |kids| ==> !HasName(kids[j], local))
    || (text == "" && forall i :: 0 <= i < |kids| ==> !HasName(kids[i], local))
  }

  predicate HasName(n: Node, local: string) {
    n.Elem? && n.local == local
  }

  lemma {:induction false} TextIsTaken(kids: seq<Node>, local: string, text: string)
    ensures if (exists i :: 0 <= i < |kids| && HasName(kids[i], local)) then TextIs(kids, local, TextOf(kids, local, text))
            else TextOf(kids, local, text) == text
    decreases |kids|
  {
    hide Concat, Chunks;
    if kids != [] {
      var rest := kids[1..];
      assert forall i :: 0 <= i < |rest| ==> rest[i] == kids[i + 1];
      var next := if HasName(kids[0], local) then Concat(Chunks(kids[0].kids)) else text;
      TextIsTaken(rest, local, next);
      assert TextOf(kids, local, text) == TextOf(rest, local, next);
      if exists i :: 0 <= i < |rest| && HasName(rest[i], local) {
        TextIsLater(kids, rest, local, TextOf(rest, local, next));
      }
    }
  }

  lemma TextIsLater(kids: seq<Node>, rest: seq<Node>, local: string, text: string)
    requires kids != [] && rest == kids[1..] && TextIs(rest, local, text)
    requires exists i :: 0 <= i < |rest| && HasName(rest[i], local)
    ensures TextIs(kids, local, text)
  {
    hide Concat, Chunks;
    assert forall i :: 0 <= i < |rest| ==> rest[i] == kids[i + 1];
    var i :| 0 <= i < |rest| && HasName(rest[i], local) && text == Concat(Chunks(rest[i].kids))
             && forall j :: i < j < |rest| ==> !HasName(rest[j], local);
    forall j | i + 1 < j < |kids|
      ensures !HasName(kids[j], local)
    {
      assert rest[j - 1] == kids[j];
    }
  }

  /** There is exactly one such text. */
  lemma TextIsIff(kids: seq<Node>, local: string, text: string)
    ensures TextIs(kids, local, text) <==> text == TextOf(kids, local, "")
  {
    hide Concat, Chunks, TextOf;
    TextIsTaken(kids, local, "");
    assert TextIs(kids, local, TextOf(kids, local, ""));
    if TextIs(kids, local, text) {
      OnlyOneText(kids, local, text, TextOf(kids, local, ""));
    }
  }

  lemma OnlyOneText(kids: seq<Node>, local: string, a: string, b: string)
    requires TextIs(kids, local, a) && TextIs(kids, local, b)
    ensures a == b
  {
    hide Concat, Chunks, HasName;
  }

  /** A PREMIS object that is not inside another one. */
  predicate Outermost(ns: seq<Node>, o: Node) {
    exists i :: 0 <= i < |ns| && ns[i].Elem? &&
      if ns[i].space == "http://www.loc.gov/premis/v3" && ns[i].local == "object" then o == ns[i] else Outermost(ns[i].kids, o)
  }

  /** The original name without the placeholder of the transfer directory. */
  predicate Stripped(full: string, name: string) {
    full == "%transferDirectory%" + name || (full == name && !("%transferDirectory%" <= full))
  }

  ghost predicate NamedBelow(o: Node, aip: AIP, h: Hit)
    requires o.Elem?
  {
    exists full, name :: TextIs(o.kids, "originalName", full) && Stripped(full, name) && name != "" && h.aipPath == Join([aip.dirName, name])
  }

  /** The object has a local identifier and a name below the directory of the AIP. */
  ghost predicate Yields(o: Node, aip: AIP, h: Hit) {
    && o.Elem?
    && h.aipUuid == aip.uuid
    && NamedBelow(o, aip, h)
    && exists i :: 0 <= i < |o.kids| && HasLocalIdentifier(o.kids[i], h.id)
  }

  predicate HasLocalIdentifier(n: Node, id: string) {
    && HasName(n, "objectIdentifier")
    && TextIs(n.kids, "objectIdentifierType", "local") && TextIs(n.kids, "objectIdentifierValue", id)
  }

  lemma {:induction false} LocalIdentifiers(ns: seq<Node>, uuid: string, path: string, h: Hit)
    ensures h in IdentifierHits(DecodedIdentifiers(ns), uuid, path)
            <==> h.aipUuid == uuid && h.aipPath == path && exists i :: 0 <= i < |ns| && HasLocalIdentifier(ns[i], h.id)
    decreases |ns|
  {
    hide TextOf, TextIs;
    if ns != [] {
      var n, rest := ns[0], ns[1..];
      assert forall i :: 0 <= i < |rest| ==> rest[i] == ns[i + 1];
      LocalIdentifiers(rest, uuid, path, h);
      if n.Elem? {
        TextIsIff(n.kids, "objectIdentifierType", "local");
        TextIsIff(n.kids, "objectIdentifierValue", h.id);
      }
      OneIdentifier(n, rest, uuid, path, h);
      if i :| 0 <= i < |ns| && HasLocalIdentifier(ns[i], h.id) {
        assert i > 0 ==> HasLocalIdentifier(rest[i - 1], h.id);
      }
    }
  }

  lemma OneIdentifier(n: Node, rest: seq<Node>, uuid: string, path: string, h: Hit)
    ensures h in IdentifierHits(DecodedIdentifiers([n] + rest), uuid, path)
            <==> || h in IdentifierHits(DecodedIdentifiers(rest), uuid, path)
                 || (&& n.Elem? && n.local == "objectIdentifier" && TextOf(n.kids, "objectIdentifierType", "") == "local"
                     && h == Hit(TextOf(n.kids, "objectIdentifierValue", ""), uuid, path))
  {
    hide TextOf;
    var ns := [n] + rest;
    assert ns[0] == n && ns[1..] == rest;
    if n.Elem? && n.local == "objectIdentifier" {
      var id := DecodedIdentifiers(ns)[0];
      assert DecodedIdentifiers(ns) == [id] + DecodedIdentifiers(rest);
      assert ([id] + DecodedIdentifiers(rest))[1..] == DecodedIdentifiers(rest);
    }
  }

  lemma StrippedIff(full: string, name: string)
    ensures Stripped(full, name) <==> name == TrimPrefix(full, TRANSFER)
  {
    assert TRANSFER == "%transferDirectory%";
    if TRANSFER <= full {
      assert full == TRANSFER + full[|TRANSFER|..];
    }
    if full == TRANSFER + name {
      assert TRANSFER <= full && full[|TRANSFER|..] == name;
    }
  }

  lemma ObjectYields(o: Node, aip: AIP, h: Hit)
    requires o.Elem?
    ensures h in ObjectHits(DecodedObject(o.kids), aip) <==> Yields(o, aip, h)
  {
    hide TextOf, TextIs, Join, Stripped, TrimPrefix, HasLocalIdentifier, IdentifierHits, DecodedIdentifiers;
    var full := TextOf(o.kids, "originalName", "");
    var name := TrimPrefix(full, TRANSFER);
    forall full'
      ensures TextIs(o.kids, "originalName", full') <==> full' == full
    {
      TextIsIff(o.kids, "originalName", full');
    }
    forall name'
      ensures Stripped(full, name') <==> name' == name
    {
      StrippedIff(full, name');
    }
    assert NamedBelow(o, aip, h) <==> name != "" && h.aipPath == Join([aip.dirName, name]) by {
      if name != "" && h.aipPath == Join([aip.dirName, name]) {
        assert TextIs(o.kids, "originalName", full) && Stripped(full, name);
      }
    }
    LocalIdentifiers(o.kids, aip.uuid, Join([aip.dirName, name]), h);
    assert DecodedObject(o.kids) == PremisObject(DecodedIdentifiers(o.kids), full);
  }

  lemma {:induction false} DocumentYields(ns: seq<Node>, aip: AIP, h: Hit)
    ensures h in DocumentHits(ns, aip) <==> exists o :: Outermost(ns, o) && Yields(o, aip, h)
    decreases ns
  {
    hide ObjectHits, DecodedObject, Yields;
    if ns != [] {
      var n, rest := ns[0], ns[1..];
      assert ns == [n] + rest;
      DocumentYields(rest, aip, h);
      if n.Elem? {
        if n.space == PREMIS && n.local == "object" {
          ObjectYields(n, aip, h);
        } else {
          DocumentYields(n.kids, aip, h);
        }
      }
      forall o
        ensures Outermost(ns, o) <==> Outermost([n], o) || Outermost(rest, o)
      {
        OutermostOfTwo(n, rest, o);
      }
      forall o
        ensures Outermost([n], o) <==> n.Elem? && if n.space == PREMIS && n.local == "object" then o == n else Outermost(n.kids, o)
      {
      }
    }
  }

  lemma OutermostOfTwo(n: Node, rest: seq<Node>, o: Node)
    ensures Outermost([n] + rest, o) <==> Outermost([n], o) || Outermost(rest, o)
  {
    var ns := [n] + rest;
    assert ns[0] == n && forall i :: 0 <= i < |rest| ==> rest[i] == ns[i + 1];
  }

  /** The METS document of an AIP, read to its end. */
  predicate HasDocument(aip: AIP, doc: seq<Node>) {
    aip.mets == Some(Mets(Flat(doc), true))
  }

  /**
    A METS document is read without an error; and an identifier with a path is found in it if and only if one of its
    outermost PREMIS objects has that local identifier and, below the AIP's directory, that name.
  */
  lemma HitsOfDocument(aip: AIP, doc: seq<Node>, h: Hit)
    requires HasDocument(aip, doc)
    ensures AipHits(aip).1
    ensures h in AipHits(aip).0 <==> exists o :: Outermost(doc, o) && Yields(o, aip, h)
  {
    hide Flat, DocumentHits, Outermost, Yields;
    StreamHitsOfDocument(doc, [], true, aip);
    assert Flat(doc) + [] == Flat(doc);
    assert StreamHits([], true, aip) == ([], true);
    assert DocumentHits(doc, aip) + [] == DocumentHits(doc, aip);
    DocumentYields(doc, aip, h);
  }
}
