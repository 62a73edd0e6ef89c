/**
  The recursive reader of the same format (internal/dips/activities/parse_metadata.go): the export is
  decoded into nested folders, which are then flattened into the content and the header files.
*/
module Export {
  import opened Wrappers
  import opened Xml
  import opened Inventory
  import opened Paths

  datatype ExportFile = ExportFile(id: string, name: string, checksum: string, checksumAlgorithm: string)

  datatype ExportFolder = ExportFolder(name: string, folders: seq<ExportFolder>, files: seq<ExportFile>)

  /** datatypes.File as this reader fills it in. */
  datatype DipFile = DipFile(dateiId: string, dipPath: string, checksum: string, checksumAlgorithm: string)

  /** Attributes are assigned in order, so the last one stays. */
  function LastAttr(attrs: seq<Attr>, local: string, value: string): string {
    if attrs == [] then value
    else LastAttr(attrs[1..], local, if attrs[0].local == local then attrs[0].value else value)
  }

  // Decoding: elements are matched by their local name, text by concatenation, the last name wins

  function DecodedFile(n: Node): ExportFile
    requires n.Elem?
  {
    ExportFile(LastAttr(n.attrs, "id", ""), TextOf(n.kids, "name", ""),
               TextOf(n.kids, "pruefsumme", ""), TextOf(n.kids, "pruefalgorithmus", ""))
  }

  function DecodedFiles(ns: seq<Node>): seq<ExportFile> {
    if ns == [] then []
    else if ns[0].Elem? && ns[0].local == "datei" then [DecodedFile(ns[0])] + DecodedFiles(ns[1..])
    else DecodedFiles(ns[1..])
  }

  function DecodedFolders(ns: seq<Node>): seq<ExportFolder> {
    if ns == [] then []
    else
      var rest := DecodedFolders(ns[1..]);
      match ns[0]
      case Elem(_, local, _, kids) =>
        if local == "ordner" then [ExportFolder(TextOf(kids, "name", ""), DecodedFolders(kids), DecodedFiles(kids))] + rest
        else rest
      case _ => rest
  }

  /** The folders at path inhaltsverzeichnis>ordner below the root element. */
  function TopFolders(ns: seq<Node>): seq<ExportFolder> {
    if ns == [] then []
    else if ns[0].Elem? && ns[0].local == "inhaltsverzeichnis" then DecodedFolders(ns[0].kids) + TopFolders(ns[1..])
    else TopFolders(ns[1..])
  }

  /** The decoder takes the first element of the document; None if there is none. */
  function DecodedExport(doc: seq<Node>): Option<seq<ExportFolder>> {
    if doc == [] then None
    else if doc[0].Elem? then Some(TopFolders(doc[0].kids))
    else DecodedExport(doc[1..])
  }

  // Flattening

  function FilesAt(files: seq<ExportFile>, folderPath: string): seq<DipFile> {
    if files == [] then []
    else [DipFile(files[0].id, Join([folderPath, files[0].name]), files[0].checksum, files[0].checksumAlgorithm)]
         + FilesAt(files[1..], folderPath)
  }

  /** A folder's own files first, then those of its folders. */
  function AppendExportFiles(files: seq<DipFile>, folder: ExportFolder, parent: string): seq<DipFile>
    decreases folder
  {
    var folderPath := Join([parent, folder.name]);
    AppendFolders(files + FilesAt(folder.files, folderPath), folder.folders, folderPath)
  }

  function AppendFolders(files: seq<DipFile>, folders: seq<ExportFolder>, parent: string): seq<DipFile>
    decreases folders
  {
    if folders == [] then files
    else AppendFolders(AppendExportFiles(files, folders[0], parent), folders[1..], parent)
  }

  /** The files of the top folders called `top`. */
  function Collected(folders: seq<ExportFolder>, top: string, files: seq<DipFile>): seq<DipFile> {
    if folders == [] then files
    else Collected(folders[1..], top, if folders[0].name == top then AppendExportFiles(files, folders[0], "") else files)
  }

  /** parseExport: the two lists, or an error when there is nothing to decode. */
  method ParseExport(doc: seq<Node>) returns (r: Result<(seq<DipFile>, seq<DipFile>), ()>)
    ensures r.Err? <==> DecodedExport(doc).None?
    ensures r.Ok? ==> r.value.0 == Collected(DecodedExport(doc).value, "content", [])
    ensures r.Ok? ==> r.value.1 == Collected(DecodedExport(doc).value, "header", [])
  {
    var decoded := DecodedExport(doc);
    if decoded.None? {
      return Err(());
    }
    var folders := decoded.value;
    var content: seq<DipFile>, header: seq<DipFile> := [], [];
    for i := 0 to |folders|
      invariant Collected(folders, "content", []) == Collected(folders[i..], "content", content)
      invariant Collected(folders, "header", []) == Collected(folders[i..], "header", header)
    {
      assert folders[i..][0] == folders[i] && folders[i..][1..] == folders[i + 1..];
      if folders[i].name == "content" {
        content := AppendExportFiles(content, folders[i], "");
      } else if folders[i].name == "header" {
        header := AppendExportFiles(header, folders[i], "");
      }
    }
    return Ok((content, header));
  }
}
