/**
  Writing premis.xml for a package (internal/workflows/preprocessing.go, writePREMISFile): activities that
  each read the file, change the document and write it back, until one fails.
*/
module PremisRun {
  import opened Wrappers
  import opened Paths
  import opened Premis
  import opened PremisDocument

  const ENDURO := Agent("url", "https://github.com/artefactual-sdps/sfa-enduro-workflows", "Enduro", "software")

  /** The original name of a content file, given its path within the content directory. */
  function OriginalName(sipName: string, subpath: string): string {
    Join(["data", "objects", sipName, "content", subpath])
  }

  function OriginalNames(sipName: string, files: seq<seq<string>>): seq<string> {
    seq(|files|, i requires 0 <= i < |files| => OriginalName(sipName, RelPath(files[i])))
  }

  /** The names in a list that are new: not known, and not earlier in the list. */
  function NewNames(names: seq<string>, known: set<string>): seq<string> {
    if names == [] then []
    else (if names[0] in known then [] else [names[0]]) + NewNames(names[1..], known + {names[0]})
  }

  function NamesOf(os: seq<Object>): set<string> {
    set o | o in os :: o.originalName
  }

  /** The file on disk; a write that fails may leave anything behind. */
  datatype FileState = Absent | Broken | Written(kids: seq<Child>)

  /** What the next activity reads. */
  function Read(file: FileState): Option<seq<Child>> {
    match file
    case Absent => Some([])
    case Broken => None
    case Written(kids) => Some(Indented(kids))
  }

  function Kids(file: FileState): seq<Child> {
    if file.Written? then file.kids else []
  }

  /** What matters of a document: its objects' stories, its agents and the agents its events refer to. */
  datatype View = View(report: seq<Entry>, agents: seq<Agent>, authors: set<(string, string)>)

  function ViewOf(kids: seq<Child>): View {
    View(Report(kids), Agents(kids), Authors(Events(kids)))
  }

  function NameList(os: seq<Object>): seq<string> {
    seq(|os|, i requires 0 <= i < |os| => os[i].originalName)
  }

  function AsChildren(os: seq<Object>): seq<Child> {
    seq(|os|, i requires 0 <= i < |os| => ObjectEl(os[i]))
  }

  /** The original names of the files whose format the validator handles. */
  function CheckedNames(sipName: string, formats: map<seq<string>, string>, allowed: set<string>): set<string> {
    set f | f in formats && formats[f] in allowed :: OriginalName(sipName, RelPath(f))
  }

  /** The stories of the named objects go on with the same event. */
  function WithChecks(r: seq<Entry>, names: set<string>, told: Told): seq<Entry> {
    seq(|r|, i requires 0 <= i < |r| => if r[i].name in names then Entry(r[i].name, r[i].story + [told]) else r[i])
  }

  function WithAgent(agents: seq<Agent>, a: Agent): seq<Agent> {
    if a in agents then agents else agents + [a]
  }

  function By(summary: Summary, agent: Agent): Told {
    Told(summary, agent.idType, agent.idValue)
  }

  // Names

  predicate ContentFile(f: seq<string>) {
    f != [] && Names(f)
  }

  function ContentDirectory(sipName: string): seq<string> {
    ["data", "objects", sipName, "content"]
  }

  /** The original name is the path of the file in the bag's payload, also if the content is a single file. */
  lemma OriginalNameIsPath(sipName: string, f: seq<string>)
    requires Name(sipName) && Names(f)
    ensures Names(ContentDirectory(sipName) + f)
    ensures OriginalName(sipName, RelPath(f)) == Slashed(ContentDirectory(sipName) + f)
  {
    var prefix := ContentDirectory(sipName);
    assert Names(prefix) && Path(false, prefix) == Slashed(prefix);
    assert Path(false, prefix + f) == Slashed(prefix + f);
    assert prefix + [RelPath(f)] == ["data", "objects", sipName, "content", RelPath(f)];
    assert ["data", "objects", sipName, "content", RelPath(f)][0] != "";
    JoinRelPath(false, prefix, f);
    SlashedStart(prefix);
    hide ContentDirectory, RelPath, Slashed;
    var p := Slashed(prefix);
    SlashedConcat(prefix, [RelPath(f)]);
    SlashedConcat([p], [RelPath(f)]);
    assert [p] + [RelPath(f)] == [p, RelPath(f)];
    OneSlashed(p);
  }

  lemma OneSlashed(p: string)
    ensures Slashed([p]) == p
  {
  }

  /** Different content files have different original names. */
  lemma OriginalNameIsInjective(sipName: string, f: seq<string>, g: seq<string>)
    requires Name(sipName) && Names(f) && Names(g)
    ensures OriginalName(sipName, RelPath(f)) == OriginalName(sipName, RelPath(g)) ==> f == g
  {
    hide ContentDirectory, OriginalName, Slashed, RelPath;
    var prefix := ContentDirectory(sipName);
    OriginalNameIsPath(sipName, f);
    OriginalNameIsPath(sipName, g);
    NonEmptyPrefix(sipName, f);
    NonEmptyPrefix(sipName, g);
    PathIsInjective(false, prefix + f, prefix + g);
    assert (prefix + f)[|prefix|..] == f && (prefix + g)[|prefix|..] == g;
  }

  lemma NonEmptyPrefix(sipName: string, f: seq<string>)
    ensures ContentDirectory(sipName) + f != []
    ensures Path(false, ContentDirectory(sipName) + f) == Slashed(ContentDirectory(sipName) + f)
  {
  }

  lemma {:induction false} AllNamesAreNew(names: seq<string>, known: set<string>)
    requires forall i, j :: 0 <= i < j < |names| ==> names[i] != names[j]
    requires forall i :: 0 <= i < |names| ==> names[i] !in known
    ensures NewNames(names, known) == names
    decreases |names|
  {
    if names != [] {
      AllNamesAreNew(names[1..], known + {names[0]});
    }
  }

  lemma {:induction false} NoNameIsNew(names: seq<string>, known: set<string>)
    requires forall i :: 0 <= i < |names| ==> names[i] in known
    ensures NewNames(names, known) == []
    decreases |names|
  {
    if names != [] {
      NoNameIsNew(names[1..], known + {names[0]});
    }
  }

  // Reading back

  lemma ReadKeeps(file: FileState, used: set<Uuid>)
    requires file.Written? ==> Consistent(file.kids, used)
    ensures Read(file).Some? ==>
      && Consistent(Read(file).value, used)
      && ViewOf(Read(file).value) == ViewOf(Kids(file))
      && Objects(Read(file).value) == Objects(Kids(file))
  {
    if file.Written? {
      IndentKeeps(file.kids);
    }
  }

  lemma IndentedIsConsistent(kids: seq<Child>, used: set<Uuid>)
    requires Consistent(kids, used)
    ensures Consistent(Indented(kids), used) && ViewOf(Indented(kids)) == ViewOf(kids) && Objects(Indented(kids)) == Objects(kids)
  {
    IndentKeeps(kids);
  }

  predicate HasEntry(r: seq<Entry>, name: string) {
    exists i :: 0 <= i < |r| && r[i].name == name
  }

  predicate DistinctEntries(r: seq<Entry>) {
    forall i, j :: 0 <= i < j < |r| ==> r[i].name != r[j].name
  }

  function AfterEvents(was: View, summary: Summary, agent: Agent): View {
    View(Extended(was.report, By(summary, agent)), was.agents,
         was.authors + if was.report == [] then {} else {(agent.idType, agent.idValue)})
  }

  function AfterAgent(was: View, agent: Agent): View {
    was.(agents := WithAgent(was.agents, agent))
  }

  function AfterValidation(was: View, checked: set<string>, summary: Summary, agent: Agent): View {
    var after := AfterChecks(was, checked, summary, agent);
    if checked == {} then after else AfterAgent(after, agent)
  }

  /** The document once the validation events for the named objects have been added. */
  function AfterChecks(was: View, names: set<string>, summary: Summary, agent: Agent): View {
    View(WithChecks(was.report, names, By(summary, agent)), was.agents,
         was.authors + if names == {} then {} else {(agent.idType, agent.idValue)})
  }

  lemma NothingChecked(was: View, summary: Summary, agent: Agent)
    ensures AfterChecks(was, {}, summary, agent) == was
  {
  }

  lemma CheckOne(r: seq<Entry>, done: set<string>, k: nat, told: Told)
    requires k < |r| && r[k].name !in done && DistinctEntries(r)
    ensures var was := WithChecks(r, done, told)[k];
            WithChecks(r, done + {r[k].name}, told) == WithChecks(r, done, told)[k := Entry(was.name, was.story + [told])]
  {
  }

  lemma OneMoreChecked(sipName: string, formats: map<seq<string>, string>, todo: set<seq<string>>, f: seq<string>, allowed: set<string>)
    requires Name(sipName) && (forall g :: g in formats ==> Names(g))
    requires todo <= formats.Keys && f in todo
    ensures CheckedNames(sipName, formats - (todo - {f}), allowed)
            == CheckedNames(sipName, formats - todo, allowed)
               + (if formats[f] in allowed then {OriginalName(sipName, RelPath(f))} else {})
    ensures OriginalName(sipName, RelPath(f)) !in CheckedNames(sipName, formats - todo, allowed)
    ensures formats[f] in allowed ==> OriginalName(sipName, RelPath(f)) in CheckedNames(sipName, formats, allowed)
  {
    hide OriginalName;
    var less, more := formats - todo, formats - (todo - {f});
    assert forall g :: g in more <==> g in less || g == f;
    forall g | g in less
      ensures OriginalName(sipName, RelPath(g)) != OriginalName(sipName, RelPath(f))
    {
      OriginalNameIsInjective(sipName, f, g);
    }
  }

  /** One file of the validation-event activity: its object is found by name and gets an event. */
  method RecordCheck(doc: Document, name: string, summary: Summary, agent: Agent, uuids: Uuids, ghost was: View, ghost done: set<string>)
    returns (found: bool)
    requires Consistent(doc.kids, uuids.used) && ViewOf(doc.kids) == AfterChecks(was, done, summary, agent)
    requires name !in done && DistinctEntries(was.report)
    modifies doc, uuids
    ensures found <==> HasEntry(was.report, name)
    ensures old(uuids.used) <= uuids.used
    ensures found ==> Consistent(doc.kids, uuids.used) && ViewOf(doc.kids) == AfterChecks(was, done + {name}, summary, agent)
  {
    hide Consistent, Report, Agents, Authors, Objects, Events;
    ReportLength(doc.kids);
    var k := doc.FindObject(name);
    if k.None? {
      forall i | 0 <= i < |was.report|
        ensures was.report[i].name != name
      {
        assert Report(doc.kids)[i].name == was.report[i].name;
        assert Objects(doc.kids)[i].originalName != name;
      }
      return false;
    }
    assert Report(doc.kids)[k.value].name == was.report[k.value].name == name;
    CheckOne(was.report, done, k.value, By(summary, agent));
    doc.Record(k.value, summary, agent, uuids);
    return true;
  }

  /** The loop over the identified formats, in any order; false if a file has no object. */
  method RecordChecks(doc: Document, sipName: string, formats: map<seq<string>, string>, allowed: set<string>,
                      summary: Summary, agent: Agent, uuids: Uuids)
    returns (found: bool, addAgent: bool)
    requires Consistent(doc.kids, uuids.used) && DistinctEntries(ViewOf(doc.kids).report)
    requires Name(sipName) && forall f :: f in formats ==> Names(f)
    modifies doc, uuids
    ensures old(uuids.used) <= uuids.used
    ensures found <==> forall n :: n in CheckedNames(sipName, formats, allowed) ==> HasEntry(ViewOf(old(doc.kids)).report, n)
    ensures found ==> (addAgent <==> CheckedNames(sipName, formats, allowed) != {})
    ensures found ==>
      && Consistent(doc.kids, uuids.used)
      && ViewOf(doc.kids) == AfterChecks(ViewOf(old(doc.kids)), CheckedNames(sipName, formats, allowed), summary, agent)
  {
    hide Consistent, ViewOf, OriginalName, Names, RelPath;
    ghost var was := ViewOf(doc.kids);
    ghost var done: set<string> := {};
    addAgent := false;
    var todo := formats.Keys;
    NothingChecked(was, summary, agent);
    assert CheckedNames(sipName, formats - todo, allowed) == {};
    hide CheckedNames, AfterChecks, HasEntry, DistinctEntries;
    while todo != {}
      invariant todo <= formats.Keys && Consistent(doc.kids, uuids.used) && old(uuids.used) <= uuids.used
      invariant done == CheckedNames(sipName, formats - todo, allowed) && (addAgent <==> done != {})
      invariant forall n :: n in done ==> HasEntry(was.report, n)
      invariant ViewOf(doc.kids) == AfterChecks(was, done, summary, agent)
      decreases todo
    {
      var f :| f in todo;
      OneMoreChecked(sipName, formats, todo, f, allowed);
      todo := todo - {f};
      if formats[f] in allowed {
        var name := OriginalName(sipName, RelPath(f));
        found := RecordCheck(doc, name, summary, agent, uuids, was, done);
        if !found {
          return;
        }
        done := done + {name};
        addAgent := true;
      }
    }
    assert formats - {} == formats;
    found := true;
  }

  lemma OneMoreObject(kids: seq<Child>, o: Object)
    ensures HasObject(Objects(kids), o.originalName) <==> o.originalName in NamesOf(Objects(kids))
    ensures Objects(kids + [ObjectEl(o)]) == Objects(kids) + [o]
    ensures NamesOf(Objects(kids + [ObjectEl(o)])) == NamesOf(Objects(kids)) + {o.originalName}
  {
    assert [ObjectEl(o)][1..] == [];
    ViewsConcat(kids, [ObjectEl(o)]);
    assert forall x :: x in Objects(kids) + [o] <==> x in Objects(kids) || x == o;
  }

  /** Objects for the content files that have none. */
  method AppendObjects(doc: Document, uuids: Uuids, sipName: string, files: seq<seq<string>>) returns (ghost news: seq<Object>)
    modifies doc, uuids
    ensures old(uuids.used) <= uuids.used && doc.kids == old(doc.kids) + AsChildren(news)
    ensures NameList(news) == NewNames(OriginalNames(sipName, files), NamesOf(Objects(old(doc.kids))))
    ensures forall o :: o in news ==> o.links == []
  {
    hide Objects, HasObject, NamesOf, OriginalName, NewNames;
    ghost var names := OriginalNames(sipName, files);
    news := [];
    assert names[0..] == names && old(doc.kids) + AsChildren([]) == old(doc.kids);
    for i := 0 to |files|
      invariant doc.kids == old(doc.kids) + AsChildren(news) && old(uuids.used) <= uuids.used
      invariant NewNames(names, NamesOf(Objects(old(doc.kids)))) == NameList(news) + NewNames(names[i..], NamesOf(Objects(doc.kids)))
      invariant forall o :: o in news ==> o.links == []
    {
      NextName(names, i, NamesOf(Objects(doc.kids)));
      var id := uuids.New();
      var o := Object(id, OriginalName(sipName, RelPath(files[i])), []);
      OneMoreObject(doc.kids, o);
      if HasObject(Objects(doc.kids), o.originalName) {
        assert NamesOf(Objects(doc.kids)) + {names[i]} == NamesOf(Objects(doc.kids));
      } else {
        assert AsChildren(news + [o]) == AsChildren(news) + [ObjectEl(o)];
        assert NameList(news + [o]) == NameList(news) + [o.originalName];
        news := news + [o];
      }
      doc.AddObjectIfNeeded(o);
    }
    assert NewNames(names[|names|..], NamesOf(Objects(doc.kids))) == [] by {
      assert names[|names|..] == [];
      AllNamesAreNew([], NamesOf(Objects(doc.kids)));
    }
  }

  lemma NextName(names: seq<string>, i: nat, known: set<string>)
    requires i < |names|
    ensures NewNames(names[i..], known)
            == (if names[i] in known then [] else [names[i]]) + NewNames(names[i + 1..], known + {names[i]})
  {
    assert names[i..][1..] == names[i + 1..] && names[i..][0] == names[i];
  }

  // The events of a run

  function StructureValidated(typeName: string): Summary {
    Summary("validation", "name=\"Validate SIP structure\"", "valid",
            "SIP structure identified: " + typeName + ". SIP structure matches validation criteria.")
  }

  function NameValidated(sipName: string): Summary {
    Summary("validation", "name=\"Validate SIP name\"", "valid",
            "SIP name \"" + sipName + "\" matches validation criteria.")
  }

  function FormatsChecked(): Summary {
    Summary("validation", "name=\"Check for disallowed file formats\"", "valid", "Format allowed")
  }

  function FormatsValidated(): Summary {
    Summary("validation", "name=\"Validate SIP file formats\"", "valid", "File format complies with specification")
  }

  function MetadataValidated(): Summary {
    Summary("validation", "name=\"Validate SIP metadata\"", "valid", "Metadata validation successful")
  }

  /** The validator handles the file's format. */
  predicate Handled(f: seq<string>, formats: map<seq<string>, string>, allowed: set<string>) {
    f in formats && formats[f] in allowed
  }

  /** What a finished document tells about a content file. */
  function FullStory(isSip: bool, typeName: string, sipName: string, handled: bool, validator: Agent): seq<Told> {
    [By(StructureValidated(typeName), ENDURO), By(NameValidated(sipName), ENDURO)]
    + (if isSip then [By(FormatsChecked(), ENDURO)] else [])
    + (if handled then [By(FormatsValidated(), validator)] else [])
    + [By(MetadataValidated(), ENDURO)]
  }

  /** The agents of a finished document. */
  function Team(anyHandled: bool, validator: Agent): seq<Agent> {
    if !anyHandled || validator == ENDURO then [ENDURO] else [validator, ENDURO]
  }

  /** Original names and no stories yet. */
  predicate Untold(r: seq<Entry>, sipName: string, files: seq<seq<string>>) {
    |r| == |files| && forall i :: 0 <= i < |files| ==> r[i] == Entry(OriginalName(sipName, RelPath(files[i])), [])
  }

  predicate DistinctContentFiles(files: seq<seq<string>>) {
    (forall f :: f in files ==> Names(f)) && forall i, j :: 0 <= i < j < |files| ==> files[i] != files[j]
  }

  lemma NothingWritten(used: set<Uuid>)
    ensures Consistent([], used) && Objects([]) == [] && Events([]) == [] && Agents([]) == []
  {
  }

  lemma {:induction false} ObjectsOnly(os: seq<Object>, used: set<Uuid>)
    requires forall o :: o in os ==> o.links == []
    ensures Consistent(AsChildren(os), used) && Objects(AsChildren(os)) == os
    ensures Events(AsChildren(os)) == [] && Agents(AsChildren(os)) == []
    decreases |os|
  {
    if os == [] {
      NothingWritten(used);
    } else {
      hide Consistent, Objects, Events, Agents, AsChildren;
      var n := |os| - 1;
      ObjectsOnly(os[..n], used);
      assert os[n] in os;
      AppendObject(AsChildren(os[..n]), os[n], used);
      AsChildrenSnoc(os);
      assert os[..n] + [os[n]] == os;
    }
  }

  lemma AsChildrenSnoc(os: seq<Object>)
    requires os != []
    ensures AsChildren(os) == AsChildren(os[..|os| - 1]) + [ObjectEl(os[|os| - 1])]
  {
  }

  lemma FirstAsChild(os: seq<Object>)
    requires os != []
    ensures ObjectEl(os[0]) in AsChildren(os)
  {
    assert AsChildren(os)[0] == ObjectEl(os[0]);
  }

  lemma BeforeObjects(kids: seq<Child>, os: seq<Object>)
    requires os != []
    ensures (forall c, o :: c in kids && o in AsChildren(os) ==> InOrder(c, o))
            <==> forall c :: c in kids ==> !c.EventEl? && !c.AgentEl?
  {
    FirstAsChild(os);
    var first := ObjectEl(os[0]);
    assert forall o :: o in AsChildren(os) ==> o.ObjectEl?;
    hide AsChildren;
    if forall c, o :: c in kids && o in AsChildren(os) ==> InOrder(c, o) {
      forall c | c in kids
        ensures !c.EventEl? && !c.AgentEl?
      {
        assert InOrder(c, first);
      }
    }
  }

  lemma NoChildren(kids: seq<Child>)
    ensures kids + AsChildren([]) == kids
  {
  }

  lemma ConsistentIsOrdered(kids: seq<Child>, used: set<Uuid>)
    requires Consistent(kids, used)
    ensures Ordered(kids)
  {
  }

  /** New objects leave the document in order only as long as it has neither events nor agents. */
  lemma ObjectsKeepOrderIff(kids: seq<Child>, os: seq<Object>)
    requires Ordered(kids) && forall o :: o in os ==> o.links == []
    ensures Ordered(kids + AsChildren(os)) <==> os == [] || (Events(kids) == [] && Agents(kids) == [])
  {
    hide *;
    ObjectsOnly(os, {});
    ConsistentIsOrdered(AsChildren(os), {});
    OrderedConcat(kids, AsChildren(os));
    NoneOfRank(kids);
    if os == [] {
      NoChildren(kids);
    } else {
      BeforeObjects(kids, os);
    }
  }

  /** The objects that a first run creates: one for each content file. */
  lemma FreshObjects(sipName: string, files: seq<seq<string>>, news: seq<Object>, kids: seq<Child>, used: set<Uuid>)
    requires Name(sipName) && DistinctContentFiles(files) && kids == Indented([] + AsChildren(news))
    requires NameList(news) == NewNames(OriginalNames(sipName, files), NamesOf(Objects([])))
    requires forall o :: o in news ==> o.links == []
    ensures Consistent(kids, used)
    ensures var v := ViewOf(kids);
            Untold(v.report, sipName, files) && DistinctEntries(v.report) && v.agents == [] && v.authors == {}
  {
    hide OriginalName;
    var names := OriginalNames(sipName, files);
    forall i, j | 0 <= i < j < |files|
      ensures names[i] != names[j]
    {
      OriginalNameIsInjective(sipName, files[i], files[j]);
    }
    AllNamesAreNew(names, {});
    assert [] + AsChildren(news) == AsChildren(news) && NamesOf(Objects([])) == {};
    ObjectsOnly(news, used);
    IndentedIsConsistent(AsChildren(news), used);
    assert |NameList(news)| == |news|;
    forall i | 0 <= i < |files|
      ensures Report(AsChildren(news))[i] == Entry(names[i], [])
    {
      assert NameList(news)[i] == names[i] && news[i] in news;
    }
  }

  /** The document of a whole run, from the one after its first step. */
  function AfterRun(v: View, isSip: bool, typeName: string, sipName: string, checked: set<string>, validator: Agent): View {
    AfterAgent(
      AfterEvents(
        AfterValidation(BeforeValidation(v, isSip, typeName, sipName), checked, FormatsValidated(), validator),
        MetadataValidated(), ENDURO),
      ENDURO)
  }

  function BeforeValidation(v: View, isSip: bool, typeName: string, sipName: string): View {
    var named := AfterEvents(AfterEvents(v, StructureValidated(typeName), ENDURO), NameValidated(sipName), ENDURO);
    if isSip then AfterEvents(named, FormatsChecked(), ENDURO) else named
  }

  lemma StillDistinct(v: View, isSip: bool, typeName: string, sipName: string)
    requires DistinctEntries(v.report)
    ensures DistinctEntries(BeforeValidation(v, isSip, typeName, sipName).report)
  {
    hide StructureValidated, NameValidated, FormatsChecked;
    var b := BeforeValidation(v, isSip, typeName, sipName).report;
    assert |b| == |v.report| && forall i :: 0 <= i < |b| ==> b[i].name == v.report[i].name;
  }

  /** The files that the validator handles have an object by then. */
  lemma CheckedHaveEntries(v: View, isSip: bool, typeName: string, sipName: string, files: seq<seq<string>>,
                           formats: map<seq<string>, string>, allowed: set<string>)
    requires Untold(v.report, sipName, files) && forall f :: f in formats ==> f in files
    ensures forall n :: n in CheckedNames(sipName, formats, allowed) ==> HasEntry(BeforeValidation(v, isSip, typeName, sipName).report, n)
  {
    hide StructureValidated, NameValidated, FormatsChecked, OriginalName, RelPath;
    var b := BeforeValidation(v, isSip, typeName, sipName).report;
    assert |b| == |v.report| && forall i :: 0 <= i < |b| ==> b[i].name == v.report[i].name;
    forall n | n in CheckedNames(sipName, formats, allowed)
      ensures HasEntry(b, n)
    {
      var f :| f in formats && formats[f] in allowed && n == OriginalName(sipName, RelPath(f));
      var i :| 0 <= i < |files| && files[i] == f;
      assert b[i].name == n;
    }
  }

  lemma CheckedIsHandled(sipName: string, files: seq<seq<string>>, formats: map<seq<string>, string>, allowed: set<string>)
    requires Name(sipName) && DistinctContentFiles(files) && forall f :: f in formats ==> f in files
    ensures forall f :: f in files ==>
      (OriginalName(sipName, RelPath(f)) in CheckedNames(sipName, formats, allowed) <==> Handled(f, formats, allowed))
    ensures CheckedNames(sipName, formats, allowed) != {} <==> exists f :: f in files && Handled(f, formats, allowed)
  {
    hide OriginalName;
    forall f | f in files
      ensures OriginalName(sipName, RelPath(f)) in CheckedNames(sipName, formats, allowed) <==> Handled(f, formats, allowed)
    {
      forall g | g in formats
        ensures OriginalName(sipName, RelPath(f)) == OriginalName(sipName, RelPath(g)) ==> f == g
      {
        OriginalNameIsInjective(sipName, f, g);
      }
    }
    if n :| n in CheckedNames(sipName, formats, allowed) {
      var f :| f in formats && formats[f] in allowed;
      assert f in files && Handled(f, formats, allowed);
    }
    if f :| f in files && Handled(f, formats, allowed) {
      assert OriginalName(sipName, RelPath(f)) in CheckedNames(sipName, formats, allowed);
    }
  }

  /** A run tells the full story of every content file. */
  lemma FullStories(v: View, isSip: bool, typeName: string, sipName: string, files: seq<seq<string>>,
                    formats: map<seq<string>, string>, allowed: set<string>, validator: Agent)
    requires Name(sipName) && DistinctContentFiles(files) && forall f :: f in formats ==> f in files
    requires Untold(v.report, sipName, files)
    ensures var out := AfterRun(v, isSip, typeName, sipName, CheckedNames(sipName, formats, allowed), validator).report;
            |out| == |files| && forall i :: 0 <= i < |files| ==>
              out[i] == Entry(OriginalName(sipName, RelPath(files[i])),
                              FullStory(isSip, typeName, sipName, Handled(files[i], formats, allowed), validator))
  {
    hide OriginalName, CheckedNames, Handled, StructureValidated, NameValidated, FormatsChecked, FormatsValidated,
         MetadataValidated, By, Retold, AfterRun;
    CheckedIsHandled(sipName, files, formats, allowed);
    ReportAfterRun(v, isSip, typeName, sipName, CheckedNames(sipName, formats, allowed), validator);
    RetoldAt(v.report, isSip, By(StructureValidated(typeName), ENDURO), By(NameValidated(sipName), ENDURO), By(FormatsChecked(), ENDURO),
             CheckedNames(sipName, formats, allowed), By(FormatsValidated(), validator), By(MetadataValidated(), ENDURO));
    assert forall i :: 0 <= i < |files| ==> files[i] in files;
  }

  /** The steps of a run on the report: two for every package, one for SIPs, the checks, and a last one. */
  function Retold(r: seq<Entry>, isSip: bool, first: Told, second: Told, third: Told, checked: set<string>, check: Told, last: Told): seq<Entry> {
    var named := Extended(Extended(r, first), second);
    Extended(WithChecks(if isSip then Extended(named, third) else named, checked, check), last)
  }

  lemma ReportAfterRun(v: View, isSip: bool, typeName: string, sipName: string, checked: set<string>, validator: Agent)
    ensures AfterRun(v, isSip, typeName, sipName, checked, validator).report
            == Retold(v.report, isSip, By(StructureValidated(typeName), ENDURO), By(NameValidated(sipName), ENDURO),
                      By(FormatsChecked(), ENDURO), checked, By(FormatsValidated(), validator), By(MetadataValidated(), ENDURO))
  {
    hide StructureValidated, NameValidated, FormatsChecked, FormatsValidated, MetadataValidated, By, Extended, WithChecks, WithAgent;
  }

  lemma RetoldAt(r: seq<Entry>, isSip: bool, first: Told, second: Told, third: Told, checked: set<string>, check: Told, last: Told)
    ensures var out := Retold(r, isSip, first, second, third, checked, check, last);
            |out| == |r| && forall i :: 0 <= i < |r| ==>
              out[i] == Entry(r[i].name, r[i].story + ([first, second] + (if isSip then [third] else [])
                                                       + (if r[i].name in checked then [check] else []) + [last]))
  {
    hide Extended, WithChecks;
    var a := Extended(r, first);
    var b := Extended(a, second);
    var c := if isSip then Extended(b, third) else b;
    var d := WithChecks(c, checked, check);
    ExtendedAt(r, first);
    ExtendedAt(a, second);
    ExtendedAt(b, third);
    WithChecksAt(c, checked, check);
    ExtendedAt(d, last);
  }

  /** The agents after a run are those that its events refer to, and Enduro. */
  lemma WholeTeam(v: View, isSip: bool, typeName: string, sipName: string, checked: set<string>, validator: Agent)
    requires v.agents == [] && v.authors == {}
    ensures var out := AfterRun(v, isSip, typeName, sipName, checked, validator);
            out.agents == Team(checked != {}, validator)
            && forall p :: p in out.authors ==> exists a :: a in out.agents && a.idType == p.0 && a.idValue == p.1
  {
    hide StructureValidated, NameValidated, FormatsChecked, FormatsValidated, MetadataValidated, Extended, WithChecks;
    var out := AfterRun(v, isSip, typeName, sipName, checked, validator);
    assert out.agents == Team(checked != {}, validator);
    assert ENDURO in out.agents && (checked != {} ==> validator in out.agents);
    assert out.authors <= {(ENDURO.idType, ENDURO.idValue)} + if checked == {} then {} else {(validator.idType, validator.idValue)};
  }

  lemma ExtendedAt(r: seq<Entry>, told: Told)
    ensures |Extended(r, told)| == |r|
    ensures forall i :: 0 <= i < |r| ==> Extended(r, told)[i] == Entry(r[i].name, r[i].story + [told])
  {
  }

  lemma WithChecksAt(r: seq<Entry>, names: set<string>, told: Told)
    ensures |WithChecks(r, names, told)| == |r|
    ensures forall i :: 0 <= i < |r| ==>
      WithChecks(r, names, told)[i] == Entry(r[i].name, r[i].story + if r[i].name in names then [told] else [])
  {
    assert forall i :: 0 <= i < |r| ==> r[i].story + [] == r[i].story;
  }

  /** The file after objects `news` have been added for the files without one. */
  ghost predicate ObjectsAdded(before: FileState, after: FileState, sipName: string, files: seq<seq<string>>, news: seq<Object>) {
    && Read(before).Some? && after == Written(Indented(Read(before).value + AsChildren(news)))
    && NameList(news) == NewNames(OriginalNames(sipName, files), NamesOf(Objects(Read(before).value)))
    && forall o :: o in news ==> o.links == []
  }

  class Activities {
    var file: FileState
    const uuids: Uuids
    /** The disk has no faults, so that activities fail only for the reasons that they state. */
    const reliable: bool

    constructor (reliable: bool)
      ensures file == Absent && fresh(uuids) && this.reliable == reliable
    {
      file := Absent;
      uuids := new Uuids();
      this.reliable := reliable;
    }

    /** Whatever has been written completely is in order, with events and links matched. */
    ghost predicate Good()
      reads this, uuids
    {
      file.Written? ==> Consistent(file.kids, uuids.used)
    }

    /** ParseOrInitialize: None if the file cannot be read. */
    method Open() returns (doc: Option<Document>)
      ensures doc.Some? ==> Read(file).Some? && fresh(doc.value) && doc.value.kids == Read(file).value
      ensures reliable && Read(file).Some? ==> doc.Some?
    {
      match file {
        case Absent =>
          var d := new Document([Space]);
          d.Indent();
          return Some(d);
        case Broken =>
          return None;
        case Written(kids) =>
          var readable: bool := *;
          if !readable && !reliable {
            return None;
          }
          var d := new Document(kids);
          d.Indent();
          return Some(d);
      }
    }

    /** A write that is reported as failed may have left a broken file, or all of it. */
    method Write(doc: Document) returns (ok: bool)
      modifies this
      ensures file == Written(doc.kids) || (!ok && file == Broken)
      ensures reliable ==> ok
    {
      ok := *;
      ok := ok || reliable;
      var complete: bool := *;
      file := if ok || complete then Written(doc.kids) else Broken;
    }

    /** The add-objects activity: objects for the content files that have none, at the end of the document. */
    method AddObjects(sipName: string, files: seq<seq<string>>) returns (ok: bool, ghost news: seq<Object>)
      modifies this, uuids
      ensures old(uuids.used) <= uuids.used
      ensures ObjectsAdded(old(file), file, sipName, files, news) || (!ok && (file == old(file) || file == Broken))
      ensures reliable && !old(file).Broken? ==> ok
    {
      news := [];
      var walked: bool := *;
      if !walked && !reliable {
        return false, news;
      }
      var read := Open();
      if read.None? {
        return false, news;
      }
      var doc := read.value;
      news := AppendObjects(doc, uuids, sipName, files);
      doc.Indent();
      ok := Write(doc);
    }

    /** The add-event activity: an event for each object. */
    method AddEvents(summary: Summary, agent: Agent) returns (ok: bool)
      requires Good()
      modifies this, uuids
      ensures Good()
      ensures || (file.Written? && ViewOf(file.kids) == AfterEvents(ViewOf(Kids(old(file))), summary, agent))
              || (!ok && (file == Broken || (file == old(file) && uuids.used == old(uuids.used))))
      ensures reliable && !old(file).Broken? ==> ok
    {
      hide Consistent, Report, Agents, Authors, Objects, Events;
      var read := Open();
      if read.None? {
        return false;
      }
      var doc := read.value;
      ReadKeeps(file, uuids.used);
      ReportLength(doc.kids);
      doc.AppendEventForEachObject(summary, agent, uuids);
      ok := Write(doc);
    }

    /** The add-agent activity. */
    method AddAgent(agent: Agent) returns (ok: bool)
      requires Good()
      modifies this
      ensures Good()
      ensures || (file.Written? && Read(old(file)).Some?
                  && file.kids == Read(old(file)).value + (if agent in Agents(Kids(old(file))) then [] else [AgentEl(agent)])
                  && ViewOf(file.kids) == AfterAgent(ViewOf(Kids(old(file))), agent))
              || (!ok && (file == Broken || file == old(file)))
      ensures reliable && !old(file).Broken? ==> ok
    {
      hide Consistent, Report, Agents, Authors, Objects, Events;
      var read := Open();
      if read.None? {
        return false;
      }
      var doc := read.value;
      ReadKeeps(file, uuids.used);
      AgentAdded(doc.kids, agent, uuids.used);
      assert doc.kids + [] == doc.kids;
      doc.AddAgentIfNeeded(agent);
      ok := Write(doc);
    }

    /**
      The add-validation-event activity: an event for each file whose format the validator handles, in any
      order, and the validator's agent if there was one. Fails if such a file has no object.
    */
    method AddValidationEvents(sipName: string, formats: map<seq<string>, string>, allowed: set<string>, summary: Summary, agent: Agent)
      returns (ok: bool)
      requires Good() && DistinctEntries(ViewOf(Kids(file)).report)
      requires Name(sipName) && forall f :: f in formats ==> Names(f)
      modifies this, uuids
      ensures Good()
      ensures var was, checked := ViewOf(Kids(old(file))), CheckedNames(sipName, formats, allowed);
              || (file.Written? && (forall n :: n in checked ==> HasEntry(was.report, n))
                  && ViewOf(file.kids) == AfterValidation(was, checked, summary, agent))
              || (!ok && (file == Broken || file == old(file)))
      ensures reliable && old(file).Written? ==>
        (ok <==> forall n :: n in CheckedNames(sipName, formats, allowed) ==> HasEntry(ViewOf(Kids(old(file))).report, n))
    {
      hide Consistent, Report, Agents, Authors, Objects, Events, CheckedNames, WithChecks;
      if file.Absent? {
        return false;
      }
      var read := Open();
      if read.None? {
        return false;
      }
      var doc := read.value;
      ReadKeeps(file, uuids.used);
      var found, addAgent := RecordChecks(doc, sipName, formats, allowed, summary, agent, uuids);
      if !found {
        if file.Written? {
          MoreUsed(file.kids, old(uuids.used), uuids.used);
        }
        return false;
      }
      if addAgent {
        AgentAdded(doc.kids, agent, uuids.used);
        doc.AddAgentIfNeeded(agent);
      }
      IndentedIsConsistent(doc.kids, uuids.used);
      doc.Indent();
      ok := Write(doc);
    }

    /**
      writePREMISFile for a package that has no premis.xml. However the run ends, a file that was written
      completely is in order and its links and events are matched. If it succeeds, the objects are the content
      files, each with the full story of its validation, and exactly the agents that took part are there.
    */
    method WritePremisFile(isSip: bool, typeName: string, sipName: string, files: seq<seq<string>>,
                           formats: map<seq<string>, string>, allowed: set<string>, validator: Agent)
      returns (ok: bool)
      requires file == Absent
      requires Name(sipName) && DistinctContentFiles(files) && forall f :: f in formats ==> f in files
      modifies this, uuids
      ensures Good()
      ensures ok ==> file.Written? && |Report(file.kids)| == |files|
      ensures ok ==> forall i :: 0 <= i < |files| ==>
        Report(file.kids)[i]
        == Entry(OriginalName(sipName, RelPath(files[i])),
                 FullStory(isSip, typeName, sipName, Handled(files[i], formats, allowed), validator))
      ensures ok ==> Agents(file.kids) == Team(exists f :: f in files && Handled(f, formats, allowed), validator)
      ensures ok ==> forall e :: e in Events(file.kids) ==>
        exists a :: a in Agents(file.kids) && a.idType == e.agentIdType && a.idValue == e.agentIdValue
      // On a reliable disk it succeeds.
      ensures reliable ==> ok
    {
      hide Consistent, Report, Agents, Authors, Objects, Events, OriginalName, CheckedNames, Handled, ViewOf, Untold,
           DistinctEntries, Indented, AsChildren, NameList, NewNames, FullStory, AfterEvents, AfterAgent, AfterValidation,
           StructureValidated, NameValidated, FormatsChecked, FormatsValidated, MetadataValidated;
      ghost var news;
      ok, news := AddObjects(sipName, files);
      if file.Written? {
        FreshObjects(sipName, files, news, file.kids, uuids.used);
      }
      if !ok {
        return;
      }
      ghost var start, checked := ViewOf(file.kids), CheckedNames(sipName, formats, allowed);
      ok := AddEvents(StructureValidated(typeName), ENDURO);
      if !ok {
        return;
      }
      ok := AddEvents(NameValidated(sipName), ENDURO);
      if !ok {
        return;
      }
      if isSip {
        ok := AddEvents(FormatsChecked(), ENDURO);
        if !ok {
          return;
        }
      }
      StillDistinct(start, isSip, typeName, sipName);
      CheckedHaveEntries(start, isSip, typeName, sipName, files, formats, allowed);
      ok := AddValidationEvents(sipName, formats, allowed, FormatsValidated(), validator);
      if !ok {
        return;
      }
      ok := AddEvents(MetadataValidated(), ENDURO);
      if !ok {
        return;
      }
      ok := AddAgent(ENDURO);
      if !ok {
        return;
      }
      Concluded(start, file.kids, isSip, typeName, sipName, files, formats, allowed, validator);
    }
  }

  /** What a document says whose view is that of a whole run. */
  lemma Concluded(v: View, kids: seq<Child>, isSip: bool, typeName: string, sipName: string, files: seq<seq<string>>,
                  formats: map<seq<string>, string>, allowed: set<string>, validator: Agent)
    requires Name(sipName) && DistinctContentFiles(files) && forall f :: f in formats ==> f in files
    requires Untold(v.report, sipName, files) && v.agents == [] && v.authors == {}
    requires ViewOf(kids) == AfterRun(v, isSip, typeName, sipName, CheckedNames(sipName, formats, allowed), validator)
    ensures |Report(kids)| == |files| && forall i :: 0 <= i < |files| ==>
      Report(kids)[i]
      == Entry(OriginalName(sipName, RelPath(files[i])),
               FullStory(isSip, typeName, sipName, Handled(files[i], formats, allowed), validator))
    ensures Agents(kids) == Team(exists f :: f in files && Handled(f, formats, allowed), validator)
    ensures forall e :: e in Events(kids) ==>
      exists a :: a in Agents(kids) && a.idType == e.agentIdType && a.idValue == e.agentIdValue
  {
    hide Untold, OriginalName, CheckedNames, Handled, Report, Agents, Events, AfterRun, FullStory, Team;
    FullStories(v, isSip, typeName, sipName, files, formats, allowed, validator);
    CheckedIsHandled(sipName, files, formats, allowed);
    WholeTeam(v, isSip, typeName, sipName, CheckedNames(sipName, formats, allowed), validator);
    assert forall e :: e in Events(kids) ==> (e.agentIdType, e.agentIdValue) in Authors(Events(kids));
  }

  lemma AgentAdded(kids: seq<Child>, a: Agent, used: set<Uuid>)
    requires Consistent(kids, used)
    ensures var out := if a in Agents(kids) then kids else kids + [AgentEl(a)];
            && Consistent(out, used) && Objects(out) == Objects(kids)
            && ViewOf(out) == View(Report(kids), WithAgent(Agents(kids), a), Authors(Events(kids)))
  {
    AppendAgent(kids, a, used);
  }

  /**
    Once every content file has its object, adding the objects again adds none, whatever has happened since;
    neither does adding an agent again.
  */
  lemma ReplaysAddNothing(kids: seq<Child>, sipName: string, files: seq<seq<string>>, agent: Agent)
    requires forall f :: f in files ==> HasEntry(Report(kids), OriginalName(sipName, RelPath(f)))
    ensures NewNames(OriginalNames(sipName, files), NamesOf(Objects(Read(Written(kids)).value))) == []
    ensures var once := AfterAgent(ViewOf(kids), agent); AfterAgent(once, agent) == once
  {
    hide OriginalName;
    IndentKeeps(kids);
    var names := OriginalNames(sipName, files);
    forall i | 0 <= i < |names|
      ensures names[i] in NamesOf(Objects(kids))
    {
      assert files[i] in files;
      var k :| 0 <= k < |Report(kids)| && Report(kids)[k].name == names[i];
      assert Objects(kids)[k] in Objects(kids);
    }
    NoNameIsNew(names, NamesOf(Objects(kids)));
  }
}
