/**
  What the parse-metadata activity declares of a package, in terms of the documents: the files that the inventory lists, as
  the streaming reader has them, each from the AIP whose METS document has its identifier.
*/
module DeclaredFiles {
  import opened Wrappers
  import opened Xml
  import opened Manifest
  import opened Inventory
  import opened Export
  import opened ReadersAgree
  import opened MetsMatch
  import opened MetsHits
  import opened ParseMetadata

  /** Every AIP has a METS document. */
  predicate HaveDocuments(aips: seq<AIP>, docs: seq<seq<Node>>) {
    |docs| == |aips| && forall k :: 0 <= k < |aips| ==> HasDocument(aips[k], docs[k])
  }

  /** An object in the METS document of the AIP has the identifier, and the path. */
  ghost predicate InMets(aip: AIP, doc: seq<Node>, h: Hit) {
    exists o :: Outermost(doc, o) && Yields(o, aip, h)
  }

  ghost predicate HasId(aip: AIP, doc: seq<Node>, id: string) {
    exists h: Hit :: h.id == id && InMets(aip, doc, h)
  }

  lemma {:induction false} FirstAip(aips: seq<AIP>, docs: seq<seq<Node>>, id: string)
    requires HaveDocuments(aips, docs)
    ensures Found(Hits(aips), id) <==> exists k :: 0 <= k < |aips| && HasId(aips[k], docs[k], id)
    ensures Found(Hits(aips), id) ==>
      exists k :: && 0 <= k < |aips| && InMets(aips[k], docs[k], FirstHit(Hits(aips), id))
                  && forall j :: 0 <= j < k ==> !HasId(aips[j], docs[j], id)
    decreases |aips|
  {
    hide AipHits, InMets, Outermost, Yields, HasDocument;
    if aips != [] {
      var aip, doc, rest, docs' := aips[0], docs[0], aips[1..], docs[1..];
      assert forall k :: 0 <= k < |rest| ==> rest[k] == aips[k + 1] && docs'[k] == docs[k + 1];
      FirstAip(rest, docs', id);
      var first, others := AipHits(aip).0, Hits(rest);
      HitsInMets(aip, doc, id);
      FirstHitConcat(first, others, id);
      assert Hits(aips) == first + others;
      if Found(Hits(aips), id) {
        if Found(first, id) {
          assert InMets(aips[0], docs[0], FirstHit(Hits(aips), id));
        } else {
          var k :| && 0 <= k < |rest| && InMets(rest[k], docs'[k], FirstHit(others, id))
                   && forall j :: 0 <= j < k ==> !HasId(rest[j], docs'[j], id);
          forall j | 0 <= j < k + 1
            ensures !HasId(aips[j], docs[j], id)
          {
            assert j > 0 ==> !HasId(rest[j - 1], docs'[j - 1], id);
          }
          assert InMets(aips[k + 1], docs[k + 1], FirstHit(Hits(aips), id));
        }
      }
      if k :| 0 <= k < |aips| && HasId(aips[k], docs[k], id) {
        assert k > 0 ==> HasId(rest[k - 1], docs'[k - 1], id);
      }
    }
  }

  lemma HitsInMets(aip: AIP, doc: seq<Node>, id: string)
    requires HasDocument(aip, doc)
    ensures AipHits(aip).1
    ensures Found(AipHits(aip).0, id) <==> HasId(aip, doc, id)
    ensures Found(AipHits(aip).0, id) ==> InMets(aip, doc, FirstHit(AipHits(aip).0, id))
  {
    hide AipHits, Outermost, Yields, HasDocument;
    var hits := AipHits(aip).0;
    HitsOfDocument(aip, doc, Hit(id, "", ""));
    forall h
      ensures h in hits <==> InMets(aip, doc, h)
    {
      HitsOfDocument(aip, doc, h);
    }
    if h: Hit :| h.id == id && InMets(aip, doc, h) {
      assert h in hits;
    }
    if i :| 0 <= i < |hits| && hits[i].id == id {
      assert hits[i] in hits;
    }
  }

  /** The declared files are those that the map has below the top folder, each once, with its checksum and algorithm. */
  predicate Lists(files: map<string, Option<File>>, top: string, declared: seq<Declared>) {
    && (forall i :: 0 <= i < |declared| ==>
          var d := declared[i];
          && top + "/" <= d.dipPath && d.dipPath in files && files[d.dipPath].Some?
          && d.checksum == files[d.dipPath].value.hash && d.algorithm == files[d.dipPath].value.algorithm)
    && (forall p :: p in files && top + "/" <= p ==> exists i :: 0 <= i < |declared| && declared[i].dipPath == p)
    && (forall i, j :: 0 <= i < j < |declared| ==> declared[i].dipPath != declared[j].dipPath)
  }

  /** The first AIP with the identifier has the file at the declared source. */
  ghost predicate FromFirstAip(aips: seq<AIP>, docs: seq<seq<Node>>, id: string, d: Declared)
    requires |docs| == |aips|
  {
    exists k :: && 0 <= k < |aips| && InMets(aips[k], docs[k], Hit(id, d.aipUuid, d.aipPath))
                && forall j :: 0 <= j < k ==> !HasId(aips[j], docs[j], id)
  }

  ghost predicate SomewhereInMets(aips: seq<AIP>, docs: seq<seq<Node>>, id: string)
    requires |docs| == |aips|
  {
    exists k :: 0 <= k < |aips| && HasId(aips[k], docs[k], id)
  }

  /** A file has an identifier that no other file below the top folder has. */
  predicate OwnId(files: map<string, Option<File>>, top: string, p: string) {
    && p in files && files[p].Some?
    && forall q :: q in files && top + "/" <= q && files[q].Some? && files[q].value.id == files[p].value.id ==> q == p
  }

  /** What the two readers agree on, for a top folder. */
  ghost predicate Agree(files: map<string, Option<File>>, top: string, list: seq<DipFile>) {
    && (forall f :: f in list ==>
          IsBelow(f.dipPath, top) && f.dipPath in files && files[f.dipPath] == Some(File(f.dateiId, f.checksumAlgorithm, f.checksum)))
    && (forall p :: p in files && IsBelow(p, top) ==> exists f :: f in list && f.dipPath == p)
    && (forall i, j :: 0 <= i < j < |list| ==> list[i].dipPath != list[j].dipPath)
  }

  lemma SameAsListed(files: map<string, Option<File>>, top: string, list: seq<DipFile>, declared: seq<Declared>)
    requires Agree(files, top, list)
    requires |declared| == |list| && forall i :: 0 <= i < |list| ==> SameFile(list[i], declared[i])
    ensures Lists(files, top, declared)
  {
    forall i | 0 <= i < |declared|
      ensures top + "/" <= declared[i].dipPath && declared[i].dipPath in files && files[declared[i].dipPath].Some?
      ensures declared[i].checksum == files[declared[i].dipPath].value.hash
      ensures declared[i].algorithm == files[declared[i].dipPath].value.algorithm
    {
      assert list[i] in list && SameFile(list[i], declared[i]);
    }
    forall p | p in files && top + "/" <= p
      ensures exists i :: 0 <= i < |declared| && declared[i].dipPath == p
    {
      assert IsBelow(p, top);
      var f :| f in list && f.dipPath == p;
      var i :| 0 <= i < |list| && list[i] == f;
      assert SameFile(list[i], declared[i]);
    }
    forall i, j | 0 <= i < j < |declared|
      ensures declared[i].dipPath != declared[j].dipPath
    {
      assert SameFile(list[i], declared[i]) && SameFile(list[j], declared[j]);
    }
  }

  lemma SuccessIff(files: map<string, Option<File>>, list: seq<DipFile>, aips: seq<AIP>, docs: seq<seq<Node>>)
    requires Agree(files, "content", list) && HaveDocuments(aips, docs)
    ensures AllPlaced(list, Hits(aips))
            <==> forall p :: p in files && "content/" <= p && files[p].Some? ==> SomewhereInMets(aips, docs, files[p].value.id)
  {
    assert |docs| == |aips|;
    hide HaveDocuments, Hits, HasId, Found;
    assert "content" + "/" == "content/";
    forall id
      ensures Found(Hits(aips), id) <==> SomewhereInMets(aips, docs, id)
    {
      FirstAip(aips, docs, id);
    }
    hide SomewhereInMets;
    if AllPlaced(list, Hits(aips)) {
      forall p | p in files && "content/" <= p && files[p].Some?
        ensures SomewhereInMets(aips, docs, files[p].value.id)
      {
        assert IsBelow(p, "content");
        var f :| f in list && f.dipPath == p;
        var i :| 0 <= i < |list| && list[i] == f;
        assert Found(Hits(aips), list[i].dateiId);
      }
    }
    if forall p :: p in files && "content/" <= p && files[p].Some? ==> SomewhereInMets(aips, docs, files[p].value.id) {
      forall i | 0 <= i < |list|
        ensures Found(Hits(aips), list[i].dateiId)
      {
        assert list[i] in list && IsBelow(list[i].dipPath, "content");
      }
    }
  }

  lemma SourceIsFirst(files: map<string, Option<File>>, list: seq<DipFile>, aips: seq<AIP>, docs: seq<seq<Node>>, i: nat, d: Declared)
    requires Agree(files, "content", list) && HaveDocuments(aips, docs) && i < |list| && OwnId(files, "content", list[i].dipPath)
    requires (forall j :: i < j < |list| ==> list[j].dateiId != list[i].dateiId) ==> FromFirstHit(Hits(aips), list[i].dateiId, d)
    ensures FromFirstAip(aips, docs, files[list[i].dipPath].value.id, d)
  {
    hide HaveDocuments, Hits, HasId, InMets;
    assert list[i] in list;
    var id := list[i].dateiId;
    forall j | i < j < |list|
      ensures list[j].dateiId != id
    {
      assert list[j] in list && IsBelow(list[j].dipPath, "content");
    }
    var hits := Hits(aips);
    var k :| && 0 <= k < |hits| && hits[k].id == id && d.aipUuid == hits[k].aipUuid && d.aipPath == hits[k].aipPath
             && forall j :: 0 <= j < k ==> hits[j].id != id;
    assert Found(hits, id);
    var k' := FirstHitIsFirst(hits, id);
    assert k' == k && FirstHit(hits, id) == Hit(id, d.aipUuid, d.aipPath);
    FirstAip(aips, docs, id);
  }

  /**
    For a package in the expected form, with different names in each folder: the activity succeeds if and only if
    each content file's identifier is in the METS document of some AIP; then it declares exactly the files below
    "content" and "header", and a content file that shares its identifier with no other one comes from the first AIP
    that has it.
  */
  lemma PackageIsDeclared(doc: seq<Node>, aips: seq<AIP>, docs: seq<seq<Node>>)
    requires Package(doc) && SingleIds(InventoryIn(Root(doc).kids)) && DistinctNames(InventoryIn(Root(doc).kids))
    requires HaveDocuments(aips, docs)
    ensures ReadTokens(Flat(doc), true, [], FRESH).Ok?
    ensures var files := ReadTokens(Flat(doc), true, [], FRESH).value.files;
            DeclaredBy(Some(doc), aips).Some?
            <==> forall p :: p in files && "content/" <= p && files[p].Some? ==> SomewhereInMets(aips, docs, files[p].value.id)
    ensures var files := ReadTokens(Flat(doc), true, [], FRESH).value.files;
            DeclaredBy(Some(doc), aips).Some? ==>
              var declared := DeclaredBy(Some(doc), aips).value;
              && Lists(files, "content", declared.0) && Lists(files, "header", declared.1)
              && forall i :: 0 <= i < |declared.0| && OwnId(files, "content", declared.0[i].dipPath) ==>
                   FromFirstAip(aips, docs, files[declared.0[i].dipPath].value.id, declared.0[i])
  {
    assert |docs| == |aips|;
    hide *;
    BothAgree(doc);
    var files := ReadTokens(Flat(doc), true, [], FRESH).value.files;
    var content := Collected(DecodedExport(doc).value, "content", []);
    SuccessIff(files, content, aips, docs);
    WhenDeclared(doc, aips);
    if DeclaredBy(Some(doc), aips).Some? {
      WhatIsDeclared(Some(doc), aips);
      var declared := DeclaredBy(Some(doc), aips).value;
      SameAsListed(files, "content", content, declared.0);
      SameAsListed(files, "header", Collected(DecodedExport(doc).value, "header", []), declared.1);
      forall i | 0 <= i < |declared.0| && OwnId(files, "content", declared.0[i].dipPath)
        ensures FromFirstAip(aips, docs, files[declared.0[i].dipPath].value.id, declared.0[i])
      {
        SamePath(content[i], declared.0[i]);
        SourceIsFirst(files, content, aips, docs, i, declared.0[i]);
      }
    }
  }

  lemma SamePath(f: DipFile, d: Declared)
    requires SameFile(f, d)
    ensures d.dipPath == f.dipPath
  {
  }

  lemma BothAgree(doc: seq<Node>)
    requires Package(doc) && SingleIds(InventoryIn(Root(doc).kids)) && DistinctNames(InventoryIn(Root(doc).kids))
    ensures ReadTokens(Flat(doc), true, [], FRESH).Ok? && DecodedExport(doc).Some?
    ensures var files, folders := ReadTokens(Flat(doc), true, [], FRESH).value.files, DecodedExport(doc).value;
            Agree(files, "content", Collected(folders, "content", [])) && Agree(files, "header", Collected(folders, "header", []))
  {
    hide Package, SingleIds, DistinctNames, ReadTokens, DecodedExport, Collected, Flat, IsBelow;
    assert '/' !in "content" && '/' !in "header";
    ReadersAgree.ReadersAgree(doc, "content");
    ReadersAgree.ReadersAgree(doc, "header");
  }

  lemma WhenDeclared(doc: seq<Node>, aips: seq<AIP>)
    requires DecodedExport(doc).Some?
    ensures DeclaredBy(Some(doc), aips).Some? <==> AllPlaced(Collected(DecodedExport(doc).value, "content", []), Hits(aips))
  {
    hide Collected, Hits, DecodedExport;
  }
}
