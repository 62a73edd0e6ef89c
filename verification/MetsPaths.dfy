/**
  Finding the two metadata files in a METS file (internal/cantons/parse.go): one pass over the tokens with
  flags, the current file and a map of paths.
*/
module MetsPaths {
  import opened Wrappers
  import opened Xml

  // Element names, attribute names and attribute values

  const FILE_GRP := "fileGrp"
  const FILE := "file"
  const FLOCAT := "FLocat"
  const STRUCT_MAP := "structMap"
  const DIV := "div"
  const FPTR := "fptr"
  const USE := "USE"
  const ID := "ID"
  const HREF := "href"
  const TYPE := "TYPE"
  const LABEL := "LABEL"
  const FILEID := "FILEID"
  const METADATA := "metadata"
  const ORIGINAL := "original"
  const PHYSICAL := "physical"
  const HEADER := "header"
  const METADATA_FILE := "metadata.xml"
  const UPDATED_FILE := "UpdatedAreldaMetadata.xml"

  lemma DifferentWords()
    ensures FILE_GRP != FILE && FILE_GRP != FLOCAT && FILE_GRP != STRUCT_MAP && FILE_GRP != DIV && FILE_GRP != FPTR
    ensures FILE != FLOCAT && FILE != STRUCT_MAP && FILE != DIV && FILE != FPTR
    ensures FLOCAT != STRUCT_MAP && FLOCAT != DIV && FLOCAT != FPTR
    ensures STRUCT_MAP != DIV && STRUCT_MAP != FPTR && DIV != FPTR
    ensures HEADER != METADATA_FILE && HEADER != UPDATED_FILE && METADATA_FILE != UPDATED_FILE
  {
  }

  predicate Starts(t: Token, local: string) {
    t.Start? && t.local == local
  }

  predicate Ends(t: Token, local: string) {
    t.End? && t.local == local
  }

  function AttrOf(t: Token, name: string): string {
    if t.Start? then FirstAttr(t.attrs, name) else ""
  }

  // The two halves of the automaton

  /** What concerns the file section. */
  datatype Files = Files(inFileGrp: bool, currentFileID: string, paths: map<string, string>)

  /** What concerns the structural map. */
  datatype Divs = Divs(inStructMap: bool, inHeaderDiv: bool, inMdDiv: bool, inUAMdDiv: bool, mdFileID: string, uamdFileID: string)

  function FilesStep(f: Files, t: Token): Files {
    if Starts(t, FILE_GRP) && AttrOf(t, USE) in [METADATA, ORIGINAL] then f.(inFileGrp := true)
    else if Starts(t, FILE) && f.inFileGrp then f.(currentFileID := AttrOf(t, ID))
    else if Starts(t, FLOCAT) && f.currentFileID != "" then f.(paths := f.paths[f.currentFileID := AttrOf(t, HREF)])
    else if Ends(t, FILE_GRP) then f.(inFileGrp := false)
    else if Ends(t, FILE) then f.(currentFileID := "")
    else f
  }

  function DivOpened(d: Divs, divLabel: string): Divs {
    if divLabel == HEADER then d.(inHeaderDiv := true)
    else if divLabel == UPDATED_FILE then d.(inUAMdDiv := true)
    else if divLabel == METADATA_FILE && d.inHeaderDiv then d.(inMdDiv := true)
    else d
  }

  function DivsStep(d: Divs, t: Token): Divs {
    if Starts(t, STRUCT_MAP) && AttrOf(t, TYPE) == PHYSICAL then d.(inStructMap := true)
    else if Starts(t, DIV) && d.inStructMap then DivOpened(d, AttrOf(t, LABEL))
    else if Starts(t, FPTR) then
      d.(uamdFileID := if d.inUAMdDiv then AttrOf(t, FILEID) else d.uamdFileID,
         mdFileID := if d.inMdDiv then AttrOf(t, FILEID) else d.mdFileID)
    else if Ends(t, STRUCT_MAP) then d.(inStructMap := false)
    else if Ends(t, DIV) then d.(inHeaderDiv := false, inUAMdDiv := false, inMdDiv := false)
    else d
  }

  const NO_FILES := Files(false, "", map[])
  const NO_DIVS := Divs(false, false, false, false, "", "")

  function FilesRun(ts: seq<Token>): Files {
    if ts == [] then NO_FILES else FilesStep(FilesRun(ts[..|ts| - 1]), ts[|ts| - 1])
  }

  function DivsRun(ts: seq<Token>): Divs {
    if ts == [] then NO_DIVS else DivsStep(DivsRun(ts[..|ts| - 1]), ts[|ts| - 1])
  }

  datatype Found = Found(updatedAreldaMetadata: string, metadata: string)

  /** The path recorded for an identifier, if any. */
  function PathOf(paths: map<string, string>, id: string): string {
    if id in paths then paths[id] else ""
  }

  lemma RunNext(ts: seq<Token>, i: nat)
    requires i < |ts|
    ensures FilesRun(ts[..i + 1]) == FilesStep(FilesRun(ts[..i]), ts[i])
    ensures DivsRun(ts[..i + 1]) == DivsStep(DivsRun(ts[..i]), ts[i])
  {
    assert ts[..i + 1][..i] == ts[..i];
  }

  lemma NothingRun()
    ensures FilesRun([]) == NO_FILES && DivsRun([]) == NO_DIVS
  {
  }

  /** The loop over the tokens. */
  method Parse(ts: seq<Token>, eof: bool) returns (r: Result<Found, ()>)
    ensures r.Err? <==> !eof
    ensures r.Ok? ==> r.value == Found(PathOf(FilesRun(ts).paths, DivsRun(ts).uamdFileID), PathOf(FilesRun(ts).paths, DivsRun(ts).mdFileID))
  {
    DifferentWords();
    hide FILE_GRP, FILE, FLOCAT, STRUCT_MAP, DIV, FPTR, METADATA, ORIGINAL, PHYSICAL, HEADER, METADATA_FILE, UPDATED_FILE, AttrOf, FilesRun, DivsRun;
    NothingRun();
    var inFileGrp, inStructMap, inHeaderDiv, inMdDiv, inUAMdDiv := false, false, false, false, false;
    var currentFileID, mdFileID, uamdFileID := "", "", "";
    var mdFiles: map<string, string> := map[];
    for i := 0 to |ts|
      invariant FilesRun(ts[..i]) == Files(inFileGrp, currentFileID, mdFiles)
      invariant DivsRun(ts[..i]) == Divs(inStructMap, inHeaderDiv, inMdDiv, inUAMdDiv, mdFileID, uamdFileID)
    {
      RunNext(ts, i);
      var t := ts[i];
      match t {
        case Start(_, local, _) =>
          if local == FILE_GRP {
            var use := AttrOf(t, USE);
            if use == METADATA || use == ORIGINAL {
              inFileGrp := true;
            }
          } else if local == FILE {
            if inFileGrp {
              currentFileID := AttrOf(t, ID);
            }
          } else if local == FLOCAT {
            if currentFileID != "" {
              mdFiles := mdFiles[currentFileID := AttrOf(t, HREF)];
            }
          } else if local == STRUCT_MAP {
            if AttrOf(t, TYPE) == PHYSICAL {
              inStructMap := true;
            }
          } else if local == DIV {
            if inStructMap {
              var divLabel := AttrOf(t, LABEL);
              if divLabel == HEADER {
                inHeaderDiv := true;
              }
              if divLabel == UPDATED_FILE {
                inUAMdDiv := true;
              }
              if inHeaderDiv && divLabel == METADATA_FILE {
                inMdDiv := true;
              }
            }
          } else if local == FPTR {
            if inUAMdDiv {
              uamdFileID := AttrOf(t, FILEID);
            }
            if inMdDiv {
              mdFileID := AttrOf(t, FILEID);
            }
          }
        case End(local) =>
          if local == FILE_GRP {
            inFileGrp := false;
          } else if local == FILE {
            currentFileID := "";
          } else if local == STRUCT_MAP {
            inStructMap := false;
          } else if local == DIV {
            inHeaderDiv := false;
            inUAMdDiv := false;
            inMdDiv := false;
          }
        case _ =>
      }
    }
    assert ts[..|ts|] == ts;
    if !eof {
      return Err(());
    }
    return Ok(Found(PathOf(mdFiles, uamdFileID), PathOf(mdFiles, mdFileID)));
  }

  // The halves do not look at each other's tokens

  predicate FileToken(t: Token) {
    (t.Start? || t.End?) && t.local in [FILE_GRP, FILE, FLOCAT]
  }

  predicate DivToken(t: Token) {
    (t.Start? || t.End?) && t.local in [STRUCT_MAP, DIV, FPTR]
  }

  function OnlyFiles(ts: seq<Token>): seq<Token> {
    if ts == [] then []
    else OnlyFiles(ts[..|ts| - 1]) + if FileToken(ts[|ts| - 1]) then [ts[|ts| - 1]] else []
  }

  function OnlyDivs(ts: seq<Token>): seq<Token> {
    if ts == [] then []
    else OnlyDivs(ts[..|ts| - 1]) + if DivToken(ts[|ts| - 1]) then [ts[|ts| - 1]] else []
  }

  lemma RunOneMore(ts: seq<Token>, t: Token)
    ensures FilesRun(ts + [t]) == FilesStep(FilesRun(ts), t)
    ensures DivsRun(ts + [t]) == DivsStep(DivsRun(ts), t)
  {
    assert (ts + [t])[..|ts|] == ts;
  }

  lemma OtherTokensDoNothing(f: Files, d: Divs, t: Token)
    ensures !FileToken(t) ==> FilesStep(f, t) == f
    ensures !DivToken(t) ==> DivsStep(d, t) == d
  {
    hide FILE_GRP, FILE, FLOCAT, STRUCT_MAP, DIV, FPTR, METADATA, ORIGINAL, PHYSICAL, AttrOf, DivOpened;
  }

  /** So the result depends only on the two subsequences, not on how they are interleaved. */
  lemma {:induction false} HalvesAreIndependent(ts: seq<Token>)
    ensures FilesRun(OnlyFiles(ts)) == FilesRun(ts)
    ensures DivsRun(OnlyDivs(ts)) == DivsRun(ts)
    decreases |ts|
  {
    hide FilesRun, DivsRun, FilesStep, DivsStep, FileToken, DivToken;
    if ts != [] {
      var init, t := ts[..|ts| - 1], ts[|ts| - 1];
      HalvesAreIndependent(init);
      assert ts == init + [t];
      RunOneMore(init, t);
      RunOneMore(OnlyFiles(init), t);
      RunOneMore(OnlyDivs(init), t);
      OtherTokensDoNothing(FilesRun(init), DivsRun(init), t);
      assert OnlyFiles(init) + [] == OnlyFiles(init) && OnlyDivs(init) + [] == OnlyDivs(init);
    }
  }

  // What the flags mean

  /** Some token opens, and no later one closes; both may depend on what comes before the token. */
  ghost predicate Since(ts: seq<Token>, opens: (seq<Token>, Token) -> bool, closes: (seq<Token>, Token) -> bool) {
    exists j :: 0 <= j < |ts| && opens(ts[..j], ts[j]) && forall k :: j < k < |ts| ==> !closes(ts[..k], ts[k])
  }

  lemma SinceNext(ts: seq<Token>, t: Token, opens: (seq<Token>, Token) -> bool, closes: (seq<Token>, Token) -> bool)
    ensures Since(ts + [t], opens, closes) <==> opens(ts, t) || (Since(ts, opens, closes) && !closes(ts, t))
  {
    var more, n := ts + [t], |ts|;
    assert more[..n] == ts && more[n] == t;
    assert forall j :: 0 <= j < n ==> more[..j] == ts[..j] && more[j] == ts[j];
    if opens(ts, t) {
      assert opens(more[..n], more[n]);
    }
    if Since(more, opens, closes) && !opens(ts, t) {
      var j :| 0 <= j < |more| && opens(more[..j], more[j]) && forall k :: j < k < |more| ==> !closes(more[..k], more[k]);
      assert opens(ts[..j], ts[j]);
      assert !closes(more[..n], more[n]);
      forall k | j < k < n
        ensures !closes(ts[..k], ts[k])
      {
        assert !closes(more[..k], more[k]);
      }
    }
    if Since(ts, opens, closes) && !closes(ts, t) {
      var j :| 0 <= j < |ts| && opens(ts[..j], ts[j]) && forall k :: j < k < |ts| ==> !closes(ts[..k], ts[k]);
      assert opens(more[..j], more[j]);
      forall k | j < k < |more|
        ensures !closes(more[..k], more[k])
      {
        assert k < n ==> !closes(ts[..k], ts[k]);
      }
    }
  }

  // Before each token: inside a file group for metadata or original files, inside a file of it

  predicate OpensGroup(before: seq<Token>, t: Token) {
    Starts(t, FILE_GRP) && (AttrOf(t, USE) == METADATA || AttrOf(t, USE) == ORIGINAL)
  }

  predicate ClosesGroup(before: seq<Token>, t: Token) {
    Ends(t, FILE_GRP)
  }

  ghost predicate InGroup(ts: seq<Token>) {
    Since(ts, OpensGroup, ClosesGroup)
  }

  ghost predicate OpensFile(before: seq<Token>, t: Token) {
    Starts(t, FILE) && InGroup(before)
  }

  /** Also by the next file of a group. */
  ghost predicate LeavesFile(before: seq<Token>, t: Token) {
    Ends(t, FILE) || OpensFile(before, t)
  }

  ghost function OpensFileWith(id: string): (seq<Token>, Token) -> bool {
    (before, t) => OpensFile(before, t) && AttrOf(t, ID) == id
  }

  /** Inside the file with an identifier. */
  ghost predicate InFile(ts: seq<Token>, id: string) {
    Since(ts, OpensFileWith(id), LeavesFile)
  }

  ghost function LocatesFile(id: string): (seq<Token>, Token) -> bool {
    (before, t) => Starts(t, FLOCAT) && id != "" && InFile(before, id)
  }

  ghost function LocatesFileAt(id: string, path: string): (seq<Token>, Token) -> bool {
    (before, t) => Starts(t, FLOCAT) && id != "" && InFile(before, id) && AttrOf(t, HREF) == path
  }

  /** The last path recorded inside a file with the identifier. */
  ghost predicate Recorded(ts: seq<Token>, id: string, path: string) {
    Since(ts, LocatesFileAt(id, path), LocatesFile(id))
  }

  // Inside the physical structural map, after a header div, inside the metadata div

  predicate OpensMap(before: seq<Token>, t: Token) {
    Starts(t, STRUCT_MAP) && AttrOf(t, TYPE) == PHYSICAL
  }

  predicate ClosesMap(before: seq<Token>, t: Token) {
    Ends(t, STRUCT_MAP)
  }

  ghost predicate InPhysicalMap(ts: seq<Token>) {
    Since(ts, OpensMap, ClosesMap)
  }

  ghost function OpensDiv(name: string): (seq<Token>, Token) -> bool {
    (before, t) => Starts(t, DIV) && AttrOf(t, LABEL) == name && InPhysicalMap(before)
  }

  predicate ClosesDiv(before: seq<Token>, t: Token) {
    Ends(t, DIV)
  }

  /** A header div has opened and no div has closed since. */
  ghost predicate InHeader(ts: seq<Token>) {
    Since(ts, OpensDiv(HEADER), ClosesDiv)
  }

  ghost predicate OpensMetadataDiv(before: seq<Token>, t: Token) {
    OpensDiv(METADATA_FILE)(before, t) && InHeader(before)
  }

  /** A metadata div has opened in the header and no div has closed since. */
  ghost predicate InMetadataDiv(ts: seq<Token>) {
    Since(ts, OpensMetadataDiv, ClosesDiv)
  }

  ghost predicate InUpdatedDiv(ts: seq<Token>) {
    Since(ts, OpensDiv(UPDATED_FILE), ClosesDiv)
  }

  ghost predicate PointsToMetadata(before: seq<Token>, t: Token) {
    Starts(t, FPTR) && InMetadataDiv(before)
  }

  ghost predicate PointsToUpdated(before: seq<Token>, t: Token) {
    Starts(t, FPTR) && InUpdatedDiv(before)
  }

  ghost function MetadataPointer(id: string): (seq<Token>, Token) -> bool {
    (before, t) => Starts(t, FPTR) && InMetadataDiv(before) && AttrOf(t, FILEID) == id
  }

  ghost function UpdatedPointer(id: string): (seq<Token>, Token) -> bool {
    (before, t) => Starts(t, FPTR) && InUpdatedDiv(before) && AttrOf(t, FILEID) == id
  }

  /** The last file pointer inside a metadata div has the identifier. */
  ghost predicate MetadataIs(ts: seq<Token>, id: string) {
    Since(ts, MetadataPointer(id), PointsToMetadata)
  }

  ghost predicate UpdatedIs(ts: seq<Token>, id: string) {
    Since(ts, UpdatedPointer(id), PointsToUpdated)
  }

  lemma NotSinceStart(opens: (seq<Token>, Token) -> bool, closes: (seq<Token>, Token) -> bool)
    ensures !Since([], opens, closes)
  {
  }

  lemma {:induction false} GroupMeans(ts: seq<Token>)
    ensures FilesRun(ts).inFileGrp <==> InGroup(ts)
    decreases |ts|
  {
    if ts != [] {
      var init, t := ts[..|ts| - 1], ts[|ts| - 1];
      assert ts == init + [t];
      GroupMeans(init);
      SinceNext(init, t, OpensGroup, ClosesGroup);
      DifferentWords();
    }
  }

  lemma {:induction false} FileMeans(ts: seq<Token>, id: string)
    requires id != ""
    ensures FilesRun(ts).currentFileID == id <==> InFile(ts, id)
    decreases |ts|
  {
    hide Since, InGroup;
    if ts == [] {
      NotSinceStart(OpensFileWith(id), LeavesFile);
    } else {
      var init, t := ts[..|ts| - 1], ts[|ts| - 1];
      assert ts == init + [t];
      FileMeans(init, id);
      GroupMeans(init);
      SinceNext(init, t, OpensFileWith(id), LeavesFile);
      DifferentWords();
    }
  }

  /** The map of the first half holds, for each identifier, the last path recorded inside a file with it. */
  lemma {:induction false} PathsMean(ts: seq<Token>, id: string, path: string)
    ensures id in FilesRun(ts).paths && FilesRun(ts).paths[id] == path <==> Recorded(ts, id, path)
    decreases |ts|
  {
    hide Since, InFile;
    if ts == [] {
      NotSinceStart(LocatesFileAt(id, path), LocatesFile(id));
    } else {
      var init, t := ts[..|ts| - 1], ts[|ts| - 1];
      assert ts == init + [t];
      PathsMean(init, id, path);
      if id != "" {
        FileMeans(init, id);
      }
      SinceNext(init, t, LocatesFileAt(id, path), LocatesFile(id));
      DifferentWords();
    }
  }

  lemma {:induction false} MapMeans(ts: seq<Token>)
    ensures DivsRun(ts).inStructMap <==> InPhysicalMap(ts)
    decreases |ts|
  {
    if ts != [] {
      var init, t := ts[..|ts| - 1], ts[|ts| - 1];
      assert ts == init + [t];
      MapMeans(init);
      SinceNext(init, t, OpensMap, ClosesMap);
      DifferentWords();
    }
  }

  lemma {:induction false} HeaderMeans(ts: seq<Token>)
    ensures DivsRun(ts).inHeaderDiv <==> InHeader(ts)
    decreases |ts|
  {
    DifferentWords();
    hide Since, InPhysicalMap, FILE_GRP, FILE, FLOCAT, STRUCT_MAP, DIV, FPTR, PHYSICAL, HEADER, METADATA_FILE, UPDATED_FILE, AttrOf;
    if ts == [] {
      NotSinceStart(OpensDiv(HEADER), ClosesDiv);
    } else {
      var init, t := ts[..|ts| - 1], ts[|ts| - 1];
      assert ts == init + [t];
      HeaderMeans(init);
      MapMeans(init);
      SinceNext(init, t, OpensDiv(HEADER), ClosesDiv);
    }
  }

  lemma {:induction false} UpdatedDivMeans(ts: seq<Token>)
    ensures DivsRun(ts).inUAMdDiv <==> InUpdatedDiv(ts)
    decreases |ts|
  {
    DifferentWords();
    hide Since, InPhysicalMap, FILE_GRP, FILE, FLOCAT, STRUCT_MAP, DIV, FPTR, PHYSICAL, HEADER, METADATA_FILE, UPDATED_FILE, AttrOf;
    if ts == [] {
      NotSinceStart(OpensDiv(UPDATED_FILE), ClosesDiv);
    } else {
      var init, t := ts[..|ts| - 1], ts[|ts| - 1];
      assert ts == init + [t];
      UpdatedDivMeans(init);
      MapMeans(init);
      SinceNext(init, t, OpensDiv(UPDATED_FILE), ClosesDiv);
    }
  }

  lemma {:induction false} MetadataDivMeans(ts: seq<Token>)
    ensures DivsRun(ts).inMdDiv <==> InMetadataDiv(ts)
    decreases |ts|
  {
    DifferentWords();
    hide Since, InPhysicalMap, InHeader, FILE_GRP, FILE, FLOCAT, STRUCT_MAP, DIV, FPTR, PHYSICAL, HEADER, METADATA_FILE, UPDATED_FILE, AttrOf;
    if ts == [] {
      NotSinceStart(OpensMetadataDiv, ClosesDiv);
    } else {
      var init, t := ts[..|ts| - 1], ts[|ts| - 1];
      assert ts == init + [t];
      MetadataDivMeans(init);
      HeaderMeans(init);
      MapMeans(init);
      SinceNext(init, t, OpensMetadataDiv, ClosesDiv);
    }
  }

  lemma {:induction false} MetadataPointerMeans(ts: seq<Token>, id: string)
    requires id != ""
    ensures DivsRun(ts).mdFileID == id <==> MetadataIs(ts, id)
    decreases |ts|
  {
    DifferentWords();
    hide Since, InMetadataDiv, FILE_GRP, FILE, FLOCAT, STRUCT_MAP, DIV, FPTR, PHYSICAL, HEADER, METADATA_FILE, UPDATED_FILE, AttrOf;
    if ts == [] {
      NotSinceStart(MetadataPointer(id), PointsToMetadata);
    } else {
      var init, t := ts[..|ts| - 1], ts[|ts| - 1];
      assert ts == init + [t];
      MetadataPointerMeans(init, id);
      MetadataDivMeans(init);
      SinceNext(init, t, MetadataPointer(id), PointsToMetadata);
    }
  }

  lemma {:induction false} UpdatedPointerMeans(ts: seq<Token>, id: string)
    requires id != ""
    ensures DivsRun(ts).uamdFileID == id <==> UpdatedIs(ts, id)
    decreases |ts|
  {
    DifferentWords();
    hide Since, InUpdatedDiv, FILE_GRP, FILE, FLOCAT, STRUCT_MAP, DIV, FPTR, PHYSICAL, HEADER, METADATA_FILE, UPDATED_FILE, AttrOf;
    if ts == [] {
      NotSinceStart(UpdatedPointer(id), PointsToUpdated);
    } else {
      var init, t := ts[..|ts| - 1], ts[|ts| - 1];
      assert ts == init + [t];
      UpdatedPointerMeans(init, id);
      UpdatedDivMeans(init);
      SinceNext(init, t, UpdatedPointer(id), PointsToUpdated);
    }
  }

  /**
    What is found: for each of the two files the last path recorded, inside a file of a metadata or original
    group, under the identifier of the last pointer in its div. An empty identifier finds nothing.
  */
  lemma FoundMeans(ts: seq<Token>, path: string)
    requires path != ""
    ensures PathOf(FilesRun(ts).paths, DivsRun(ts).mdFileID) == path <==> exists id :: MetadataIs(ts, id) && Recorded(ts, id, path)
    ensures PathOf(FilesRun(ts).paths, DivsRun(ts).uamdFileID) == path <==> exists id :: UpdatedIs(ts, id) && Recorded(ts, id, path)
  {
    forall id
      ensures id in FilesRun(ts).paths && FilesRun(ts).paths[id] == path <==> Recorded(ts, id, path)
      ensures id != "" ==> (DivsRun(ts).mdFileID == id <==> MetadataIs(ts, id))
      ensures id != "" ==> (DivsRun(ts).uamdFileID == id <==> UpdatedIs(ts, id))
      ensures Recorded(ts, id, path) ==> id != ""
    {
      PathsMean(ts, id, path);
      if id != "" {
        MetadataPointerMeans(ts, id);
        UpdatedPointerMeans(ts, id);
      }
    }
    hide FilesRun, DivsRun, Recorded, MetadataIs, UpdatedIs;
  }
}
