/**
  The path layouts of the four kinds of packages, before (internal/sip/sip.go) and after restructuring
  (internal/pips/pips.go).
*/
module Sip {
  import opened Paths

  // The names that layouts are made of

  const CONTENT := "content"
  const HEADER := "header"
  const ADDITIONAL := "additional"
  const OBJECTS := "objects"
  const METADATA := "metadata"
  const METADATA_FILE := "metadata.xml"
  const UPDATED_FILE := "UpdatedAreldaMetadata.xml"
  const OLD := "old"
  const SIP_DIR := "SIP"
  const XSD := "xsd"
  const SCHEMA_FILE := "arelda.xsd"

  lemma Words()
    ensures Name(CONTENT) && Name(HEADER) && Name(ADDITIONAL) && Name(OBJECTS) && Name(METADATA) && Name(METADATA_FILE)
    ensures Name(UPDATED_FILE) && Name(OLD) && Name(SIP_DIR) && Name(XSD) && Name(SCHEMA_FILE)
    ensures CONTENT != HEADER && CONTENT != ADDITIONAL && CONTENT != OBJECTS && CONTENT != METADATA
    ensures HEADER != OBJECTS && HEADER != METADATA && ADDITIONAL != OBJECTS && ADDITIONAL != METADATA
    ensures OBJECTS != METADATA && METADATA_FILE != UPDATED_FILE
  {
  }

  datatype Kind = DigitizedAIP | DigitizedSIP | BornDigitalAIP | BornDigitalSIP

  datatype SIP = SIP(
    kind: Kind,
    path: string,
    contentPath: string,
    logicalMDPath: string,
    manifestPath: string,
    metadataPath: string,
    updatedAreldaMDPath: string,
    xsdPath: string,
    topLevelPaths: seq<string>
  )

  predicate IsAIP(kind: Kind) {
    kind.BornDigitalAIP? || kind.DigitizedAIP?
  }

  predicate IsDigitized(kind: Kind) {
    kind.DigitizedAIP? || kind.DigitizedSIP?
  }

  /** The logical metadata file of an AIP. */
  function LogicalName(name: string): string {
    name + "-premis.xml"
  }

  // Where things are, as names below the package directory

  function ContentAt(kind: Kind): seq<string> {
    if IsAIP(kind) then [CONTENT, CONTENT] else [CONTENT]
  }

  function MetadataAt(kind: Kind): seq<string> {
    if IsAIP(kind) then [CONTENT, HEADER, OLD, SIP_DIR, METADATA_FILE] else [HEADER, METADATA_FILE]
  }

  function XsdAt(kind: Kind): seq<string> {
    if IsAIP(kind) then [CONTENT, HEADER, XSD, SCHEMA_FILE] else [HEADER, XSD, SCHEMA_FILE]
  }

  const UPDATED := [ADDITIONAL, UPDATED_FILE]

  function LogicalAt(name: string): seq<string> {
    [ADDITIONAL, LogicalName(name)]
  }

  /** The manifest: of an AIP the updated metadata, of a SIP the metadata file. */
  function ManifestAt(kind: Kind): seq<string> {
    if IsAIP(kind) then UPDATED else MetadataAt(kind)
  }

  function TopLevel(kind: Kind): seq<string> {
    [CONTENT, if IsAIP(kind) then ADDITIONAL else HEADER]
  }

  /** filepath.Join of a directory and names. */
  function In(path: string, names: seq<string>): string {
    Join([path] + names)
  }

  function LaidOut(kind: Kind, path: string): SIP {
    var metadata := In(path, MetadataAt(kind));
    SIP(
      kind,
      path,
      In(path, ContentAt(kind)),
      if IsAIP(kind) then In(path, LogicalAt(Base(path))) else "",
      if IsAIP(kind) then In(path, UPDATED) else metadata,
      metadata,
      if IsAIP(kind) then In(path, UPDATED) else "",
      In(path, XsdAt(kind)),
      [In(path, [TopLevel(kind)[0]]), In(path, [TopLevel(kind)[1]])])
  }

  datatype PIP = PIP(kind: Kind, path: string, manifestPath: string)

  function NewPip(path: string, kind: Kind): PIP {
    PIP(kind, path,
        if kind.DigitizedAIP? then Join([path, METADATA, UPDATED_FILE])
        else Join([path, OBJECTS, Base(path), HEADER, METADATA_FILE]))
  }

  /** Where a file of the manifest is after restructuring; "" for a file that is not kept. */
  function ConvertSipPath(pip: PIP, path: string): string {
    var name := Base(path);
    if name == UPDATED_FILE then Join([METADATA, name])
    else if name == METADATA_FILE then Join([OBJECTS, Base(pip.path), HEADER, name])
    else if CONTENT <= path then Join([OBJECTS, Base(pip.path), path])
    else ""
  }

  predicate Root(root: seq<string>) {
    root != [] && Names(root)
  }

  function NameOf(root: seq<string>): string
    requires root != []
  {
    root[|root| - 1]
  }

  lemma BaseIsName(root: seq<string>)
    requires Root(root)
    ensures Base(Path(true, root)) == NameOf(root)
  {
    assert root == root[..|root| - 1] + [NameOf(root)];
    BasePath(true, root[..|root| - 1], NameOf(root));
  }

  lemma JoinNames(root: seq<string>, ns: seq<string>)
    requires Root(root) && Names(ns)
    ensures In(Path(true, root), ns) == Path(true, root + ns)
    ensures Root(root + ns)
  {
    JoinPath(true, root, ns);
  }

  lemma PremisName(name: string)
    requires Name(name)
    ensures Name(LogicalName(name)) && LogicalName(name) != UPDATED_FILE
  {
    var p := LogicalName(name);
    assert p[|p| - 5] == 's' && UPDATED_FILE[|UPDATED_FILE| - 5] == 'a';
    assert |p| > 2;
    assert '/' !in "-premis.xml";
  }

  lemma LayoutNames(kind: Kind, name: string)
    requires Name(name)
    ensures Names(ContentAt(kind)) && Names(MetadataAt(kind)) && Names(XsdAt(kind)) && Names(TopLevel(kind))
    ensures Names(UPDATED) && Names(LogicalAt(name))
  {
    Words();
    PremisName(name);
    hide Name, LogicalName, CONTENT, HEADER, ADDITIONAL, OBJECTS, METADATA, METADATA_FILE, UPDATED_FILE, OLD, SIP_DIR, XSD, SCHEMA_FILE;
  }

  /** A path of the layout is a sequence of names below the package directory. */
  predicate Stands(path: string, root: seq<string>, at: seq<string>) {
    path == Path(true, root + at)
  }

  /** The paths of a package. */
  lemma LayoutOf(kind: Kind, root: seq<string>)
    requires Root(root)
    ensures var s := LaidOut(kind, Path(true, root));
            && Stands(s.contentPath, root, ContentAt(kind))
            && Stands(s.metadataPath, root, MetadataAt(kind))
            && Stands(s.xsdPath, root, XsdAt(kind))
            && Stands(s.manifestPath, root, ManifestAt(kind))
            && (IsAIP(kind) ==> Stands(s.updatedAreldaMDPath, root, UPDATED) && Stands(s.logicalMDPath, root, LogicalAt(NameOf(root))))
            && |s.topLevelPaths| == 2
            && Stands(s.topLevelPaths[0], root, [TopLevel(kind)[0]]) && Stands(s.topLevelPaths[1], root, [TopLevel(kind)[1]])
  {
    BaseIsName(root);
    LayoutNames(kind, NameOf(root));
    hide Join, Path, Base, Name, ContentAt, MetadataAt, XsdAt, LogicalAt, UPDATED;
    JoinNames(root, ContentAt(kind));
    JoinNames(root, MetadataAt(kind));
    JoinNames(root, XsdAt(kind));
    JoinNames(root, UPDATED);
    JoinNames(root, LogicalAt(NameOf(root)));
    JoinNames(root, [TopLevel(kind)[0]]);
    JoinNames(root, [TopLevel(kind)[1]]);
  }
}
