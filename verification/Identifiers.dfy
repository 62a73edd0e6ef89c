/**
  The list of file identifiers that goes into identifiers.json (internal/identifiers/identifiers.go and
  internal/activities/write_identifier_file.go): a map of the manifest's files turned into a sorted list.
*/
module Identifiers {
  import opened Wrappers
  import opened Paths
  import opened Sip
  import opened Sorting
  import Manifest

  datatype IdFile = IdFile(path: string, id: string)

  /** The key that Compare looks at. */
  function KeyOf(x: IdFile): string {
    x.path
  }

  predicate DistinctPaths(xs: seq<IdFile>) {
    forall i, j :: 0 <= i < j < |xs| ==> xs[i].path != xs[j].path
  }

  // FromManifest

  datatype ListError =
    | NoFiles          // an empty manifest
    | NilDereference   // an entry of the manifest without a file: the worker crashes

  type ListedFiles = map<string, Option<Manifest.File>>

  /** One entry for each file of the manifest, with its path and its identifier. */
  ghost predicate Lists(ids: seq<IdFile>, files: ListedFiles) {
    && DistinctPaths(ids)
    && (forall x :: x in ids <==> x.path in files && files[x.path].Some? && x.id == files[x.path].value.id)
    && (forall p :: p in files ==> files[p].Some?)
  }

  /** The list is sorted; it is an error for an empty manifest and a crash for an entry without a file. */
  method FromManifest(files: ListedFiles) returns (r: Result<seq<IdFile>, ListError>)
    ensures r == Err(NoFiles) <==> files == map[]
    ensures r == Err(NilDereference) <==> exists p :: p in files && files[p].None?
    ensures r.Ok? ==> Sorted(r.value, KeyOf) && Lists(r.value, files)
  {
    if files == map[] {
      return Err(NoFiles);
    }
    var res: seq<IdFile> := [];
    var todo := files.Keys;
    while todo != {}
      invariant todo <= files.Keys && DistinctPaths(res)
      invariant forall p :: p in files && p !in todo ==> files[p].Some?
      invariant forall x :: x in res <==> x.path in files && x.path !in todo && files[x.path].Some? && x.id == files[x.path].value.id
      decreases todo
    {
      var path :| path in todo;
      todo := todo - {path};
      if files[path].None? {
        return Err(NilDereference);
      }
      res := res + [IdFile(path, files[path].value.id)];
    }
    var sorted := Sort(res, KeyOf);
    SameElements(res, sorted);
    RearrangedHasNoRepeats(res, sorted);
    assert forall x, y :: x in res && y in res && x.path == y.path ==> x == y;
    return Ok(sorted);
  }

  /** Whatever order the map is read in, the list is the same. */
  lemma OrderDoesNotMatter(files: ListedFiles, xs: seq<IdFile>, ys: seq<IdFile>)
    requires Sorted(xs, KeyOf) && Lists(xs, files)
    requires Sorted(ys, KeyOf) && Lists(ys, files)
    ensures xs == ys
  {
    SameSetSameMultiset(xs, ys);
    SortedIsUnique(xs, ys, KeyOf);
  }

  // pipIdentifiers

  /** The entries whose files are kept, with their new paths. */
  function Converted(pip: PIP, ids: seq<IdFile>): seq<IdFile> {
    if ids == [] then []
    else
      var last := ids[|ids| - 1];
      var p := ConvertSipPath(pip, last.path);
      Converted(pip, ids[..|ids| - 1]) + if p != "" then [last.(path := p)] else []
  }

  method PipIdentifiers(pip: PIP, ids: seq<IdFile>) returns (r: seq<IdFile>)
    ensures Sorted(r, KeyOf) && multiset(r) == multiset(Converted(pip, ids))
  {
    r := [];
    for i := 0 to |ids|
      invariant r == Converted(pip, ids[..i])
    {
      assert ids[..i + 1][..i] == ids[..i];
      var p := ConvertSipPath(pip, ids[i].path);
      if p != "" {
        r := r + [ids[i].(path := p)];
      }
    }
    assert ids[..|ids|] == ids;
    r := Sort(r, KeyOf);
  }
}
