/**
  What a finished premis.xml says element by element: for each content file an object, whose links lead to the events of
  its validation, with their texts.
*/
module PremisStories {
  import opened Wrappers
  import opened Paths
  import opened Premis
  import opened PremisDocument
  import opened PremisRun

  lemma {:induction false} NamedIs(es: seq<Event>, id: Uuid)
    requires |Named(es, id)| == 1
    ensures exists e :: e in es && e.id == id && Named(es, id)[0] == Told(e.summary, e.agentIdType, e.agentIdValue)
    decreases |es|
  {
    var init, last := es[..|es| - 1], es[|es| - 1];
    assert last in es && forall e :: e in init ==> e in es;
    if last.id == id {
      assert |Named(init, id)| == 0;
    } else {
      NamedIs(init, id);
    }
  }

  lemma {:induction false} StoryAt(links: seq<Uuid>, es: seq<Event>, k: nat)
    requires (forall id :: id in links ==> |Named(es, id)| == 1) && k < |links|
    ensures |Story(links, es)| == |links| && Story(links, es)[k] == Named(es, links[k])[0]
    decreases |links|
  {
    var init, last := links[..|links| - 1], links[|links| - 1];
    assert last in links && forall id :: id in init ==> id in links;
    StoryLength(links, es);
    StoryLength(init, es);
    if k < |init| {
      StoryAt(init, es, k);
    }
  }

  /** Each link of an object leads to an event, and those events are its story. */
  lemma LinksTell(os: seq<Object>, es: seq<Event>, i: nat, k: nat)
    requires Matched(os, es) && i < |os| && k < |os[i].links|
    ensures |Story(os[i].links, es)| == |os[i].links|
    ensures exists e :: e in es && e.id == os[i].links[k] && Story(os[i].links, es)[k] == Told(e.summary, e.agentIdType, e.agentIdValue)
  {
    forall id | id in os[i].links
      ensures |Named(es, id)| == 1
    {
      AllLinksHave(os, i, id);
      assert id in multiset(AllLinks(os)) && id in EventIds(es);
      NamedOnce(es, id);
    }
    StoryAt(os[i].links, es, k);
    assert os[i].links[k] in os[i].links;
    NamedIs(es, os[i].links[k]);
  }

  lemma {:induction false} ElementsOf(kids: seq<Child>)
    ensures forall o :: o in Objects(kids) <==> ObjectEl(o) in kids
    ensures forall e :: e in Events(kids) <==> EventEl(e) in kids
    ensures forall a :: a in Agents(kids) <==> AgentEl(a) in kids
    decreases |kids|
  {
    if kids != [] {
      ElementsOf(kids[1..]);
      assert kids == [kids[0]] + kids[1..];
    }
  }

  /** The text of a validation event and its agent's identifier. */
  datatype Check = Check(detail: string, outcome: string, agentIdType: string, agentIdValue: string)

  const ENDURO_URL := "https://github.com/artefactual-sdps/sfa-enduro-workflows"

  /** The checks that are recorded for a content file, in their order. */
  function Checks(isSip: bool, typeName: string, sipName: string, handled: bool, validator: Agent): seq<Check> {
    [Check("name=\"Validate SIP structure\"", "SIP structure identified: " + typeName + ". SIP structure matches validation criteria.",
           "url", ENDURO_URL),
     Check("name=\"Validate SIP name\"", "SIP name \"" + sipName + "\" matches validation criteria.", "url", ENDURO_URL)]
    + (if isSip then [Check("name=\"Check for disallowed file formats\"", "Format allowed", "url", ENDURO_URL)] else [])
    + (if handled then [Check("name=\"Validate SIP file formats\"", "File format complies with specification", validator.idType, validator.idValue)] else [])
    + [Check("name=\"Validate SIP metadata\"", "Metadata validation successful", "url", ENDURO_URL)]
  }

  function AsTold(c: Check): Told {
    Told(Summary("validation", c.detail, "valid", c.outcome), c.agentIdType, c.agentIdValue)
  }

  lemma StoryIsChecks(isSip: bool, typeName: string, sipName: string, handled: bool, validator: Agent)
    ensures var story, checks := FullStory(isSip, typeName, sipName, handled, validator), Checks(isSip, typeName, sipName, handled, validator);
            |story| == |checks| && forall k :: 0 <= k < |checks| ==> story[k] == AsTold(checks[k])
  {
  }

  /** The linked events record the checks, in their order. */
  ghost predicate LinksRecord(kids: seq<Child>, links: seq<Uuid>, checks: seq<Check>) {
    |links| == |checks| && forall k :: 0 <= k < |links| ==> Records(kids, links[k], checks[k])
  }

  ghost predicate Records(kids: seq<Child>, id: Uuid, c: Check) {
    exists e :: && EventEl(e) in kids && e.id == id
                && e.summary == Summary("validation", c.detail, "valid", c.outcome)
                && e.agentIdType == c.agentIdType && e.agentIdValue == c.agentIdValue
  }

  lemma ObjectRecords(kids: seq<Child>, i: nat, checks: seq<Check>)
    requires Matched(Objects(kids), Events(kids)) && i < |Objects(kids)|
    requires var story := Report(kids)[i].story; |story| == |checks| && forall k :: 0 <= k < |checks| ==> story[k] == AsTold(checks[k])
    ensures LinksRecord(kids, Objects(kids)[i].links, checks)
  {
    var os, es := Objects(kids), Events(kids);
    var links := os[i].links;
    assert Report(kids)[i].story == Story(links, es);
    ElementsOf(kids);
    OneEventPerLink(os, es, i);
    hide Objects, Events, Matched, Story, Report;
    forall k | 0 <= k < |links|
      ensures Records(kids, links[k], checks[k])
    {
      LinksTell(os, es, i, k);
    }
  }

  /** The content file has an object with its path in the bag, and the object's events record the checks. */
  ghost predicate Described(kids: seq<Child>, sipName: string, f: seq<string>, checks: seq<Check>) {
    exists o :: && ObjectEl(o) in kids && o.originalName == Slashed(["data", "objects", sipName, "content"] + f)
                && LinksRecord(kids, o.links, checks)
  }

  lemma FileIsDescribed(kids: seq<Child>, i: nat, sipName: string, f: seq<string>, isSip: bool, typeName: string, handled: bool, validator: Agent)
    requires Matched(Objects(kids), Events(kids)) && Name(sipName) && Names(f) && i < |Report(kids)| == |Objects(kids)|
    requires Report(kids)[i] == Entry(OriginalName(sipName, RelPath(f)), FullStory(isSip, typeName, sipName, handled, validator))
    requires Report(kids)[i].name == Objects(kids)[i].originalName
    ensures Described(kids, sipName, f, Checks(isSip, typeName, sipName, handled, validator))
  {
    assert ContentDirectory(sipName) == ["data", "objects", sipName, "content"];
    hide Objects, Events, Report, FullStory, Checks, OriginalName, RelPath, Slashed, Matched, LinksRecord, ContentDirectory;
    ElementsOf(kids);
    OriginalNameIsPath(sipName, f);
    StoryIsChecks(isSip, typeName, sipName, handled, validator);
    ObjectRecords(kids, i, Checks(isSip, typeName, sipName, handled, validator));
    assert Objects(kids)[i] in Objects(kids);
  }

  /**
    The file that a run of writePREMISFile leaves: every content file has an object with the recorded checks, there are
    no other objects, and the agents are Enduro and, if it handled a file, the validator.
  */
  lemma FinishedFile(kids: seq<Child>, used: set<Uuid>, isSip: bool, typeName: string, sipName: string, files: seq<seq<string>>,
                     formats: map<seq<string>, string>, allowed: set<string>, validator: Agent)
    requires Consistent(kids, used) && Name(sipName) && DistinctContentFiles(files)
    requires |Report(kids)| == |files|
    requires forall i :: 0 <= i < |files| ==>
      Report(kids)[i]
      == Entry(OriginalName(sipName, RelPath(files[i])),
               FullStory(isSip, typeName, sipName, Handled(files[i], formats, allowed), validator))
    requires Agents(kids) == Team(exists f :: f in files && Handled(f, formats, allowed), validator)
    ensures forall f :: f in files ==>
      Described(kids, sipName, f, Checks(isSip, typeName, sipName, f in formats && formats[f] in allowed, validator))
    ensures |Objects(kids)| == |files|
    ensures forall a :: AgentEl(a) in kids <==>
      || a == Agent("url", ENDURO_URL, "Enduro", "software")
      || (a == validator && exists f :: f in files && f in formats && formats[f] in allowed)
  {
    hide *;
    ReportNames(kids);
    Parts(kids, used, files);
    TeamMembers(kids, files, formats, allowed, validator);
    ElementsOf(kids);
    forall f | f in files
      ensures Described(kids, sipName, f, Checks(isSip, typeName, sipName, f in formats && formats[f] in allowed, validator))
    {
      var i :| 0 <= i < |files| && files[i] == f;
      HandledMeans(f, formats, allowed);
      FileIsDescribed(kids, i, sipName, f, isSip, typeName, Handled(f, formats, allowed), validator);
    }
  }

  lemma ReportNames(kids: seq<Child>)
    ensures |Report(kids)| == |Objects(kids)|
    ensures forall i :: 0 <= i < |Objects(kids)| ==> Report(kids)[i].name == Objects(kids)[i].originalName
  {
  }

  lemma Parts(kids: seq<Child>, used: set<Uuid>, files: seq<seq<string>>)
    ensures Consistent(kids, used) ==> Matched(Objects(kids), Events(kids))
    ensures DistinctContentFiles(files) ==> forall f :: f in files ==> Names(f)
  {
  }

  lemma HandledMeans(f: seq<string>, formats: map<seq<string>, string>, allowed: set<string>)
    ensures Handled(f, formats, allowed) <==> f in formats && formats[f] in allowed
  {
  }

  lemma TeamMembers(kids: seq<Child>, files: seq<seq<string>>, formats: map<seq<string>, string>, allowed: set<string>, validator: Agent)
    requires Agents(kids) == Team(exists f :: f in files && Handled(f, formats, allowed), validator)
    ensures forall a :: a in Agents(kids) <==>
      || a == Agent("url", ENDURO_URL, "Enduro", "software")
      || (a == validator && exists f :: f in files && f in formats && formats[f] in allowed)
  {
    hide Agents;
    assert (exists f :: f in files && Handled(f, formats, allowed)) <==> exists f :: f in files && f in formats && formats[f] in allowed by {
      if f :| f in files && f in formats && formats[f] in allowed {
        assert Handled(f, formats, allowed);
      }
    }
  }
}
