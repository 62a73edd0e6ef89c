/**
  The PREMIS document while it is being built: what links and events say about each object, and the
  operations of internal/premis/premis.go on it.
*/
module PremisDocument {
  import opened Wrappers
  import opened Premis

  // What a document says about its objects

  /** An event as an object's reader sees it: what happened and who did it. */
  datatype Told = Told(summary: Summary, agentIdType: string, agentIdValue: string)

  datatype Entry = Entry(name: string, story: seq<Told>)

  function Tell(e: Event): Told {
    Told(e.summary, e.agentIdType, e.agentIdValue)
  }

  /** The agents that events refer to. */
  function Authors(es: seq<Event>): set<(string, string)> {
    set e | e in es :: (e.agentIdType, e.agentIdValue)
  }

  /** Every object's story goes on with the same event. */
  function Extended(r: seq<Entry>, told: Told): seq<Entry> {
    seq(|r|, i requires 0 <= i < |r| => Entry(r[i].name, r[i].story + [told]))
  }

  /** The events with an identifier: none for a dangling link. */
  function Named(es: seq<Event>, id: Uuid): seq<Told> {
    if es == [] then []
    else Named(es[..|es| - 1], id) + (if es[|es| - 1].id == id then [Tell(es[|es| - 1])] else [])
  }

  function Story(links: seq<Uuid>, es: seq<Event>): seq<Told> {
    if links == [] then [] else Story(links[..|links| - 1], es) + Named(es, links[|links| - 1])
  }

  /** For each object its name and the events that it links to, in the order of the links. */
  function ReportOf(os: seq<Object>, es: seq<Event>): seq<Entry> {
    seq(|os|, i requires 0 <= i < |os| => Entry(os[i].originalName, Story(os[i].links, es)))
  }

  function Report(kids: seq<Child>): seq<Entry> {
    ReportOf(Objects(kids), Events(kids))
  }

  function EventIds(es: seq<Event>): seq<Uuid> {
    seq(|es|, i requires 0 <= i < |es| => es[i].id)
  }

  function AllLinks(os: seq<Object>): seq<Uuid> {
    if os == [] then [] else os[0].links + AllLinks(os[1..])
  }

  /** Links and events correspond one to one: no event identifier occurs twice, and each is linked once. */
  predicate Matched(os: seq<Object>, es: seq<Event>) {
    && (forall i, j :: 0 <= i < j < |es| ==> es[i].id != es[j].id)
    && multiset(AllLinks(os)) == multiset(EventIds(es))
  }

  /** In order, with events and links matched and all event identifiers among those used so far. */
  predicate Consistent(kids: seq<Child>, used: set<Uuid>) {
    && Ordered(kids)
    && Matched(Objects(kids), Events(kids))
    && forall e :: e in Events(kids) ==> e.id in used
  }

  lemma MoreUsed(kids: seq<Child>, used: set<Uuid>, more: set<Uuid>)
    requires Consistent(kids, used) && used <= more
    ensures Consistent(kids, more)
  {
  }

  // One more event, linked to one object

  lemma {:induction false} StoryGrows(links: seq<Uuid>, es: seq<Event>, e: Event)
    requires e.id !in links
    ensures Story(links, es + [e]) == Story(links, es)
    decreases |links|
  {
    if links != [] {
      StoryGrows(links[..|links| - 1], es, e);
      assert (es + [e])[..|es|] == es;
    }
  }

  lemma {:induction false} NamesNothing(es: seq<Event>, id: Uuid)
    requires forall e :: e in es ==> e.id != id
    ensures Named(es, id) == []
    decreases |es|
  {
    if es != [] {
      assert es[|es| - 1] in es;
      NamesNothing(es[..|es| - 1], id);
    }
  }

  lemma {:induction false} AllLinksHave(os: seq<Object>, i: nat, id: Uuid)
    requires i < |os| && id in os[i].links
    ensures id in AllLinks(os)
    decreases |os|
  {
    if i > 0 {
      AllLinksHave(os[1..], i - 1, id);
    }
  }

  lemma {:induction false} AllLinksGrow(os: seq<Object>, k: nat, id: Uuid)
    requires k < |os|
    ensures multiset(AllLinks(os[k := WithLink(os[k], id)])) == multiset(AllLinks(os)) + multiset{id}
    decreases |os|
  {
    var o := WithLink(os[k], id);
    hide *;
    var out := os[k := o];
    LinksOfFirst(os);
    LinksOfFirst(out);
    MoreLinks(os[k], id);
    ChangedAt(os, k, o);
    Regrouped(multiset(os[0].links), multiset(AllLinks(os[1..])), multiset{id});
    if k > 0 {
      AllLinksGrow(os[1..], k - 1, id);
    }
  }

  lemma Regrouped<T>(a: multiset<T>, b: multiset<T>, c: multiset<T>)
    ensures (a + c) + b == (a + b) + c && a + (b + c) == (a + b) + c
  {
  }

  lemma ChangedAt<T>(xs: seq<T>, k: nat, x: T)
    requires k < |xs|
    ensures xs[k := x][0] == if k == 0 then x else xs[0]
    ensures xs[k := x][1..] == if k == 0 then xs[1..] else xs[1..][k - 1 := x]
    ensures k > 0 ==> xs[1..][k - 1] == xs[k]
  {
  }

  lemma MoreLinks(o: Object, id: Uuid)
    ensures multiset(WithLink(o, id).links) == multiset(o.links) + multiset{id}
  {
  }

  lemma LinksOfFirst(os: seq<Object>)
    requires os != []
    ensures multiset(AllLinks(os)) == multiset(os[0].links) + multiset(AllLinks(os[1..]))
  {
  }

  lemma UsedLinks(os: seq<Object>, es: seq<Event>, used: set<Uuid>)
    requires Matched(os, es) && forall e :: e in es ==> e.id in used
    ensures forall i, id :: 0 <= i < |os| && id in os[i].links ==> id in used
  {
    forall i, id | 0 <= i < |os| && id in os[i].links
      ensures id in used
    {
      AllLinksHave(os, i, id);
      assert id in multiset(AllLinks(os));
      assert id in EventIds(es);
    }
  }

  /** The document after an event for the k-th object. */
  function Recorded(kids: seq<Child>, k: nat, e: Event): seq<Child> {
    Linked(WithEvent(kids, e), k, e.id)
  }

  lemma MatchedGrows(os: seq<Object>, es: seq<Event>, k: nat, e: Event)
    requires Matched(os, es) && k < |os| && forall x :: x in es ==> x.id != e.id
    ensures Matched(os[k := WithLink(os[k], e.id)], es + [e])
  {
    AllLinksGrow(os, k, e.id);
    hide AllLinks, WithLink;
    assert EventIds(es + [e]) == EventIds(es) + [e.id];
  }

  /** The story of the one object grows by the event. */
  lemma StoryGrowsBy(links: seq<Uuid>, es: seq<Event>, e: Event)
    requires e.id !in links && forall x :: x in es ==> x.id != e.id
    ensures Story(links + [e.id], es + [e]) == Story(links, es) + [Tell(e)]
  {
    StoryGrows(links, es, e);
    NamesNothing(es, e.id);
    assert (links + [e.id])[..|links|] == links && (es + [e])[..|es|] == es;
  }

  lemma ReportGrows(os: seq<Object>, es: seq<Event>, k: nat, e: Event, used: set<Uuid>)
    requires Matched(os, es) && k < |os| && e.id !in used && forall e :: e in es ==> e.id in used
    ensures ReportOf(os[k := WithLink(os[k], e.id)], es + [e])
            == ReportOf(os, es)[k := Entry(os[k].originalName, Story(os[k].links, es) + [Tell(e)])]
  {
    UsedLinks(os, es, used);
    hide Story, Matched, Tell;
    forall i | 0 <= i < |os|
      ensures Story(os[i].links, es + [e]) == Story(os[i].links, es)
    {
      StoryGrows(os[i].links, es, e);
    }
    StoryGrowsBy(os[k].links, es, e);
  }

  /**
    Recording a fresh event keeps order and matching, adds the event to the end of the one object's story and
    changes nothing else.
  */
  lemma RecordingIsConsistent(kids: seq<Child>, k: nat, e: Event, used: set<Uuid>)
    requires Consistent(kids, used) && k < |Objects(kids)| && e.id !in used
    ensures Consistent(Recorded(kids, k, e), used + {e.id})
    ensures Report(Recorded(kids, k, e)) == Report(kids)[k := Entry(Report(kids)[k].name, Report(kids)[k].story + [Tell(e)])]
    ensures Agents(Recorded(kids, k, e)) == Agents(kids)
    ensures Events(Recorded(kids, k, e)) == Events(kids) + [e]
    ensures |Objects(Recorded(kids, k, e))| == |Objects(kids)|
  {
    hide Objects, Events, Agents, Elements, Ordered, WithEvent, Linked, Matched, ReportOf;
    var os, es := Objects(kids), Events(kids);
    var mid := WithEvent(kids, e);
    ViewsWithEvent(kids, e);
    ViewsLinked(mid, k, e.id);
    EventKeepsOrderIff(kids, e);
    LinkKeepsOrder(mid, k, e.id);
    MatchedGrows(os, es, k, e);
    ReportGrows(os, es, k, e, used);
    assert forall x :: x in es + [e] <==> x in es || x == e;
    assert Report(kids)[k] == Entry(os[k].originalName, Story(os[k].links, es)) by {
      ReportAt(os, es, k);
    }
  }

  lemma ReportAt(os: seq<Object>, es: seq<Event>, k: nat)
    requires k < |os|
    ensures |ReportOf(os, es)| == |os| && ReportOf(os, es)[k] == Entry(os[k].originalName, Story(os[k].links, es))
  {
  }

  /** An object without links at the end of a document that has no events or agents yet. */
  lemma AppendObject(kids: seq<Child>, o: Object, used: set<Uuid>)
    requires Consistent(kids, used) && Events(kids) == [] && Agents(kids) == [] && o.links == []
    ensures Consistent(kids + [ObjectEl(o)], used)
    ensures Objects(kids + [ObjectEl(o)]) == Objects(kids) + [o]
    ensures Events(kids + [ObjectEl(o)]) == [] && Agents(kids + [ObjectEl(o)]) == []
  {
    var one := [ObjectEl(o)];
    assert one[1..] == [];
    NoneOfRank(one);
    assert Objects(one) == [o] && Ordered(one);
    hide Objects, Events, Agents, Ordered;
    ViewsConcat(kids, one);
    NoneOfRank(kids);
    OrderedConcat(kids, one);
    AllLinksConcat(Objects(kids), [o]);
    assert [o][1..] == [] && AllLinks([o]) == [];
    assert AllLinks(Objects(kids)) + [] == AllLinks(Objects(kids));
  }

  lemma {:induction false} AllLinksConcat(a: seq<Object>, b: seq<Object>)
    ensures AllLinks(a + b) == AllLinks(a) + AllLinks(b)
    decreases |a|
  {
    if a == [] {
      assert a + b == b;
    } else {
      assert (a + b)[0] == a[0] && (a + b)[1..] == a[1..] + b;
      AllLinksConcat(a[1..], b);
    }
  }

  /** An agent at the end of any consistent document. */
  lemma AppendAgent(kids: seq<Child>, a: Agent, used: set<Uuid>)
    requires Consistent(kids, used)
    ensures Consistent(kids + [AgentEl(a)], used)
    ensures Objects(kids + [AgentEl(a)]) == Objects(kids) && Events(kids + [AgentEl(a)]) == Events(kids)
    ensures Agents(kids + [AgentEl(a)]) == Agents(kids) + [a]
  {
    var one := [AgentEl(a)];
    hide Objects, Events, Agents, Ordered, Matched, InOrder;
    OneAgent(a);
    ViewsConcat(kids, one);
    assert Objects(kids) + [] == Objects(kids) && Events(kids) + [] == Events(kids);
    OrderedConcat(kids, one);
    forall c | c in kids
      ensures InOrder(c, one[0])
    {
      AgentsComeLast(c, a);
    }
  }

  lemma OneAgent(a: Agent)
    ensures var one := [AgentEl(a)]; Objects(one) == [] && Events(one) == [] && Agents(one) == [a] && Ordered(one)
  {
    var one := [AgentEl(a)];
    assert one[1..] == [];
    NoneOfRank(one);
  }

  lemma AgentsComeLast(c: Child, a: Agent)
    ensures InOrder(c, AgentEl(a))
  {
  }

  // The operations

  /** A source of random identifiers, taken never to repeat one. */
  class Uuids {
    var used: set<Uuid>

    constructor ()
      ensures used == {}
    {
      used := {};
    }

    method New() returns (id: Uuid)
      modifies this
      ensures id !in old(used) && used == old(used) + {id}
    {
      ghost var bound := Unused(used);
      id :| id !in used;
      used := used + {id};
    }

    static lemma Unused(used: set<Uuid>) returns (id: Uuid)
      ensures id !in used
    {
      id := 0;
      var rest := used;
      while rest != {}
        invariant rest <= used && forall u :: u in used && u !in rest ==> u < id
        decreases rest
      {
        var u :| u in rest;
        rest := rest - {u};
        if u >= id {
          id := u + 1;
        }
      }
    }
  }

  class Document {
    var kids: seq<Child>

    constructor (kids: seq<Child>)
      ensures this.kids == kids
    {
      this.kids := kids;
    }

    method Indent()
      modifies this
      ensures kids == Indented(old(kids))
    {
      kids := Indented(kids);
    }

    /** Whether some object has the name: each object is compared in turn. */
    method FindObject(name: string) returns (found: Option<nat>)
      ensures found.Some? <==> HasObject(Objects(kids), name)
      ensures found.Some? ==> found.value < |Objects(kids)| && Objects(kids)[found.value].originalName == name
    {
      var os := Objects(kids);
      for i := 0 to |os|
        invariant forall j :: 0 <= j < i ==> os[j].originalName != name
      {
        if os[i].originalName == name {
          return Some(i);
        }
      }
      return None;
    }

    method AddObjectIfNeeded(o: Object)
      modifies this
      ensures kids == if HasObject(Objects(old(kids)), o.originalName) then old(kids) else old(kids) + [ObjectEl(o)]
    {
      var existing := FindObject(o.originalName);
      if existing.None? {
        kids := kids + [ObjectEl(o)];
      }
    }

    method AddAgentIfNeeded(a: Agent)
      modifies this
      ensures kids == if a in Agents(old(kids)) then old(kids) else old(kids) + [AgentEl(a)]
    {
      hide Agents;
      var agents := Agents(kids);
      for i := 0 to |agents|
        invariant a !in agents[..i] && kids == old(kids)
      {
        if agents[i] == a {
          return;
        }
      }
      kids := kids + [AgentEl(a)];
    }

    /** The position after the last child of a rank, 0 if there is none. */
    method IndexAfter(rank: nat) returns (i: nat)
      ensures i == AfterLast(kids, rank)
    {
      i := |kids|;
      assert kids[..i] == kids;
      while i > 0 && (kids[i - 1].Space? || Rank(kids[i - 1]) != rank)
        invariant i <= |kids| && AfterLast(kids, rank) == AfterLast(kids[..i], rank)
      {
        assert kids[..i][..i - 1] == kids[..i - 1];
        i := i - 1;
      }
    }

    method AddEvent(e: Event)
      modifies this
      ensures kids == WithEvent(old(kids), e)
    {
      var index := IndexAfter(1);
      if index == 0 {
        index := IndexAfter(0);
        if index == 0 {
          index := |Elements(kids)|;
        }
      }
      SplitAtEventIndex(kids, e);
      kids := kids[..index] + [EventEl(e)] + kids[index..];
    }

    method LinkEventToObject(k: nat, e: Event)
      requires k < |Objects(kids)|
      modifies this
      ensures kids == Linked(old(kids), k, e.id)
    {
      kids := Linked(kids, k, e.id);
    }

    /** An event is added and linked to the k-th object. */
    method Record(k: nat, summary: Summary, agent: Agent, uuids: Uuids)
      requires Consistent(kids, uuids.used) && k < |Objects(kids)|
      modifies this, uuids
      ensures old(uuids.used) <= uuids.used
      ensures Consistent(kids, uuids.used) && |Report(kids)| == |Report(old(kids))|
      ensures var told := Told(summary, agent.idType, agent.idValue);
              Report(kids) == Report(old(kids))[k := Entry(Report(old(kids))[k].name, Report(old(kids))[k].story + [told])]
      ensures Agents(kids) == Agents(old(kids))
      ensures Authors(Events(kids)) == Authors(Events(old(kids))) + {(agent.idType, agent.idValue)}
    {
      hide Consistent, Objects, Events, Agents, WithEvent, Linked, Report;
      var id := uuids.New();
      var e := Event(id, summary, agent.idType, agent.idValue);
      RecordingIsConsistent(kids, k, e, old(uuids.used));
      ReportLength(kids);
      ViewsWithEvent(kids, e);
      AddEvent(e);
      LinkEventToObject(k, e);
      assert Authors(Events(kids)) == Authors(Events(old(kids))) + {(agent.idType, agent.idValue)} by {
        assert forall x :: x in Events(kids) <==> x in Events(old(kids)) || x == e;
      }
    }

    /** AppendEventXMLForEachObject: an event of its own for each object. */
    method AppendEventForEachObject(summary: Summary, agent: Agent, uuids: Uuids)
      requires Consistent(kids, uuids.used)
      modifies this, uuids
      ensures Consistent(kids, uuids.used) && old(uuids.used) <= uuids.used
      ensures Report(kids) == Extended(Report(old(kids)), Told(summary, agent.idType, agent.idValue))
      ensures Agents(kids) == Agents(old(kids))
      ensures Authors(Events(kids))
              == Authors(Events(old(kids))) + (if Objects(old(kids)) == [] then {} else {(agent.idType, agent.idValue)})
    {
      hide Consistent, Agents, Authors, Report, Objects, Events;
      ReportLength(kids);
      var n := |Objects(kids)|;
      ghost var was, told := Report(kids), Told(summary, agent.idType, agent.idValue);
      for k := 0 to n
        invariant Consistent(kids, uuids.used) && old(uuids.used) <= uuids.used && |Report(kids)| == n
        invariant forall i :: 0 <= i < n ==> Report(kids)[i] == if i < k then Extended(was, told)[i] else was[i]
        invariant Agents(kids) == Agents(old(kids))
        invariant Authors(Events(kids))
                  == Authors(Events(old(kids))) + (if k == 0 then {} else {(agent.idType, agent.idValue)})
      {
        ReportLength(kids);
        Record(k, summary, agent, uuids);
      }
    }
  }

  lemma ReportLength(kids: seq<Child>)
    ensures |Report(kids)| == |Objects(kids)|
    ensures forall i :: 0 <= i < |Report(kids)| ==> Report(kids)[i].name == Objects(kids)[i].originalName
  {
  }

  /** A link of a matched document names exactly one event, so an object tells of as many events as it links to. */
  lemma {:induction false} OneEventPerLink(os: seq<Object>, es: seq<Event>, i: nat)
    requires Matched(os, es) && i < |os|
    ensures |Story(os[i].links, es)| == |os[i].links|
  {
    forall id | id in os[i].links
      ensures |Named(es, id)| == 1
    {
      AllLinksHave(os, i, id);
      assert id in multiset(AllLinks(os)) && id in EventIds(es);
      NamedOnce(es, id);
    }
    StoryLength(os[i].links, es);
  }

  lemma {:induction false} NamedOnce(es: seq<Event>, id: Uuid)
    requires id in EventIds(es) && forall i, j :: 0 <= i < j < |es| ==> es[i].id != es[j].id
    ensures |Named(es, id)| == 1
    decreases |es|
  {
    var n := |es| - 1;
    if es[n].id == id {
      NamesNothing(es[..n], id);
    } else {
      var k :| 0 <= k < |es| && EventIds(es)[k] == id;
      assert EventIds(es[..n])[k] == id;
      NamedOnce(es[..n], id);
    }
  }

  lemma {:induction false} StoryLength(links: seq<Uuid>, es: seq<Event>)
    requires forall id :: id in links ==> |Named(es, id)| == 1
    ensures |Story(links, es)| == |links|
    decreases |links|
  {
    if links != [] {
      assert links[|links| - 1] in links;
      StoryLength(links[..|links| - 1], es);
    }
  }
}
