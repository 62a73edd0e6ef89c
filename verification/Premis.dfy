/**
  The PREMIS document builder (internal/premis/premis.go). The root element's children are a list that is
  appended to and inserted into by index; text between the elements counts as children, too.
*/
module Premis {
  import opened Wrappers
  import opened Paths

  type Uuid = nat

  datatype Agent = Agent(idType: string, idValue: string, name: string, kind: string)

  datatype Summary = Summary(kind: string, detail: string, outcome: string, outcomeDetail: string)

  datatype Event = Event(id: Uuid, summary: Summary, agentIdType: string, agentIdValue: string)

  datatype Object = Object(id: Uuid, originalName: string, links: seq<Uuid>)

  datatype Child = Space | ObjectEl(obj: Object) | EventEl(event: Event) | AgentEl(agent: Agent)

  // Views of the children

  function Elements(kids: seq<Child>): seq<Child> {
    if kids == [] then [] else (if kids[0].Space? then [] else [kids[0]]) + Elements(kids[1..])
  }

  function Objects(kids: seq<Child>): seq<Object> {
    if kids == [] then [] else (if kids[0].ObjectEl? then [kids[0].obj] else []) + Objects(kids[1..])
  }

  function Events(kids: seq<Child>): seq<Event> {
    if kids == [] then [] else (if kids[0].EventEl? then [kids[0].event] else []) + Events(kids[1..])
  }

  function Agents(kids: seq<Child>): seq<Agent> {
    if kids == [] then [] else (if kids[0].AgentEl? then [kids[0].agent] else []) + Agents(kids[1..])
  }

  function Rank(c: Child): nat
    requires !c.Space?
  {
    match c
    case ObjectEl(_) => 0
    case EventEl(_) => 1
    case AgentEl(_) => 2
  }

  predicate InOrder(a: Child, b: Child) {
    a.Space? || b.Space? || Rank(a) <= Rank(b)
  }

  /** First objects, then events, then agents. */
  predicate Ordered(kids: seq<Child>) {
    kids == [] || (Ordered(kids[1..]) && forall c :: c in kids[1..] ==> InOrder(kids[0], c))
  }

  /** Indenting drops the text between the elements and puts new text around each. */
  function Indented(kids: seq<Child>): seq<Child> {
    if Elements(kids) == [] then [] else Spaced(Elements(kids)) + [Space]
  }

  function Spaced(els: seq<Child>): seq<Child> {
    if els == [] then [] else [Space, els[0]] + Spaced(els[1..])
  }

  // Changing the children

  /** The position after the last child with the given rank; 0 if there is none. */
  function AfterLast(kids: seq<Child>, rank: nat): nat {
    if kids == [] then 0
    else
      var c := kids[|kids| - 1];
      if !c.Space? && Rank(c) == rank then |kids| else AfterLast(kids[..|kids| - 1], rank)
  }

  /** After the last event, else after the last object, else at the number of elements (not of children). */
  function EventIndex(kids: seq<Child>): nat {
    if AfterLast(kids, 1) > 0 then AfterLast(kids, 1)
    else if AfterLast(kids, 0) > 0 then AfterLast(kids, 0)
    else |Elements(kids)|
  }

  function WithEvent(kids: seq<Child>, e: Event): seq<Child> {
    AfterLastInside(kids, 0);
    AfterLastInside(kids, 1);
    ElementsAreFewer(kids);
    kids[..EventIndex(kids)] + [EventEl(e)] + kids[EventIndex(kids)..]
  }

  function WithLink(o: Object, id: Uuid): Object {
    o.(links := o.links + [id])
  }

  /** The k-th object gets a link to an event. */
  function Linked(kids: seq<Child>, k: nat, id: Uuid): seq<Child> {
    if kids == [] then []
    else if !kids[0].ObjectEl? then [kids[0]] + Linked(kids[1..], k, id)
    else if k == 0 then [ObjectEl(WithLink(kids[0].obj, id))] + kids[1..]
    else [kids[0]] + Linked(kids[1..], k - 1, id)
  }

  predicate HasObject(os: seq<Object>, name: string) {
    exists i :: 0 <= i < |os| && os[i].originalName == name
  }

  lemma {:induction false} AfterLastInside(kids: seq<Child>, rank: nat)
    ensures AfterLast(kids, rank) <= |kids|
    ensures AfterLast(kids, rank) > 0 ==>
      var c := kids[AfterLast(kids, rank) - 1]; !c.Space? && Rank(c) == rank
    ensures forall i :: AfterLast(kids, rank) <= i < |kids| ==> kids[i].Space? || Rank(kids[i]) != rank
    decreases |kids|
  {
    if kids != [] {
      AfterLastInside(kids[..|kids| - 1], rank);
    }
  }

  lemma {:induction false} ElementsAreFewer(kids: seq<Child>)
    ensures |Elements(kids)| <= |kids|
    decreases |kids|
  {
    if kids != [] {
      ElementsAreFewer(kids[1..]);
    }
  }

  // Views of changed children

  lemma {:induction false} ElementsConcat(a: seq<Child>, b: seq<Child>)
    ensures Elements(a + b) == Elements(a) + Elements(b)
    decreases |a|
  {
    if a == [] {
      assert a + b == b;
    } else {
      assert (a + b)[0] == a[0] && (a + b)[1..] == a[1..] + b;
      ElementsConcat(a[1..], b);
    }
  }

  lemma ViewsConcat(a: seq<Child>, b: seq<Child>)
    ensures Objects(a + b) == Objects(a) + Objects(b)
    ensures Events(a + b) == Events(a) + Events(b)
    ensures Agents(a + b) == Agents(a) + Agents(b)
  {
    hide Objects, Events, Agents;
    ObjectsConcat(a, b);
    EventsConcat(a, b);
    AgentsConcat(a, b);
  }

  lemma {:induction false} ObjectsConcat(a: seq<Child>, b: seq<Child>)
    ensures Objects(a + b) == Objects(a) + Objects(b)
    decreases |a|
  {
    if a == [] {
      assert a + b == b;
    } else {
      assert (a + b)[0] == a[0] && (a + b)[1..] == a[1..] + b;
      ObjectsConcat(a[1..], b);
    }
  }

  lemma {:induction false} EventsConcat(a: seq<Child>, b: seq<Child>)
    ensures Events(a + b) == Events(a) + Events(b)
    decreases |a|
  {
    if a == [] {
      assert a + b == b;
    } else {
      assert (a + b)[0] == a[0] && (a + b)[1..] == a[1..] + b;
      EventsConcat(a[1..], b);
    }
  }

  lemma {:induction false} AgentsConcat(a: seq<Child>, b: seq<Child>)
    ensures Agents(a + b) == Agents(a) + Agents(b)
    decreases |a|
  {
    if a == [] {
      assert a + b == b;
    } else {
      assert (a + b)[0] == a[0] && (a + b)[1..] == a[1..] + b;
      AgentsConcat(a[1..], b);
    }
  }

  lemma {:induction false} ViewsOfElements(kids: seq<Child>)
    ensures Elements(Elements(kids)) == Elements(kids)
    ensures Objects(Elements(kids)) == Objects(kids)
    ensures Events(Elements(kids)) == Events(kids)
    ensures Agents(Elements(kids)) == Agents(kids)
    decreases |kids|
  {
    if kids != [] {
      ViewsOfElements(kids[1..]);
      if kids[0].Space? {
        assert Elements(kids) == Elements(kids[1..]);
      } else {
        assert Elements(kids)[1..] == Elements(kids[1..]);
      }
    }
  }

  lemma {:induction false} ElementsOfSpaced(els: seq<Child>)
    ensures Elements(Spaced(els)) == Elements(els)
    decreases |els|
  {
    if els != [] {
      var s := Spaced(els[1..]);
      assert Spaced(els)[1..] == [els[0]] + s && ([els[0]] + s)[1..] == s;
      ElementsOfSpaced(els[1..]);
    }
  }

  lemma {:induction false} NoneOfRank(kids: seq<Child>)
    ensures Objects(kids) == [] <==> forall c :: c in kids ==> !c.ObjectEl?
    ensures Events(kids) == [] <==> forall c :: c in kids ==> !c.EventEl?
    ensures Agents(kids) == [] <==> forall c :: c in kids ==> !c.AgentEl?
    decreases |kids|
  {
    if kids != [] {
      NoneOfRank(kids[1..]);
      assert kids == [kids[0]] + kids[1..];
      assert forall c :: c in kids <==> c == kids[0] || c in kids[1..];
    }
  }

  lemma {:induction false} OrderedConcat(a: seq<Child>, b: seq<Child>)
    ensures Ordered(a + b) <==> Ordered(a) && Ordered(b) && forall c, d :: c in a && d in b ==> InOrder(c, d)
    decreases |a|
  {
    if a == [] {
      assert a + b == b;
    } else {
      assert (a + b)[0] == a[0] && (a + b)[1..] == a[1..] + b;
      OrderedConcat(a[1..], b);
      assert forall c :: c in a <==> c == a[0] || c in a[1..];
    }
  }

  lemma {:induction false} OrderIsOfElements(kids: seq<Child>)
    ensures Ordered(Elements(kids)) <==> Ordered(kids)
    ensures forall c :: c in Elements(kids) <==> c in kids && !c.Space?
    decreases |kids|
  {
    if kids != [] {
      OrderIsOfElements(kids[1..]);
      assert forall c :: c in kids <==> c == kids[0] || c in kids[1..];
      assert kids[0].Space? || Elements(kids)[1..] == Elements(kids[1..]);
      if kids[0].Space? {
        assert Elements(kids) == Elements(kids[1..]);
      }
    }
  }

  /** Indenting changes neither what the document says nor its order. */
  lemma IndentKeeps(kids: seq<Child>)
    ensures Elements(Indented(kids)) == Elements(kids)
    ensures Objects(Indented(kids)) == Objects(kids)
    ensures Events(Indented(kids)) == Events(kids)
    ensures Agents(Indented(kids)) == Agents(kids)
    ensures Ordered(Indented(kids)) <==> Ordered(kids)
  {
    var els, ind := Elements(kids), Indented(kids);
    ViewsOfElements(kids);
    ElementsOfSpaced(els);
    ElementsConcat(Spaced(els), [Space]);
    assert Elements(ind) == els;
    ViewsOfElements(ind);
    OrderIsOfElements(kids);
    OrderIsOfElements(ind);
  }

  /** Where a new event goes: right after the last event or object, if there is one. */
  lemma EventIndexFacts(kids: seq<Child>)
    ensures EventIndex(kids) <= |kids|
    ensures forall j :: EventIndex(kids) <= j < |kids| ==> !kids[j].EventEl?
    ensures Events(kids) != [] ==> EventIndex(kids) > 0 && kids[EventIndex(kids) - 1].EventEl?
    ensures Events(kids) == [] && Objects(kids) != [] ==>
      EventIndex(kids) > 0 && kids[EventIndex(kids) - 1].ObjectEl? && forall j :: EventIndex(kids) <= j < |kids| ==> !kids[j].ObjectEl?
    ensures Events(kids) == [] && Objects(kids) == [] ==> EventIndex(kids) == |Elements(kids)|
  {
    hide Elements, Events, Objects, AfterLast;
    AfterLastInside(kids, 0);
    AfterLastInside(kids, 1);
    ElementsAreFewer(kids);
    NoneOfRank(kids);
    assert forall i :: 0 <= i < |kids| ==> kids[i] in kids;
  }

  lemma SplitAtEventIndex(kids: seq<Child>, e: Event)
    ensures EventIndex(kids) <= |kids|
    ensures kids == kids[..EventIndex(kids)] + kids[EventIndex(kids)..]
    ensures WithEvent(kids, e) == kids[..EventIndex(kids)] + ([EventEl(e)] + kids[EventIndex(kids)..])
  {
    EventIndexFacts(kids);
  }

  /** A new event comes after all other events, and nothing else changes. */
  lemma ViewsWithEvent(kids: seq<Child>, e: Event)
    ensures Objects(WithEvent(kids, e)) == Objects(kids)
    ensures Events(WithEvent(kids, e)) == Events(kids) + [e]
    ensures Agents(WithEvent(kids, e)) == Agents(kids)
  {
    SplitAtEventIndex(kids, e);
    EventIndexFacts(kids);
    var a, b := kids[..EventIndex(kids)], kids[EventIndex(kids)..];
    assert Events(b) == [] by {
      NoneOfRank(b);
    }
    ViewsInserted(a, e, b);
    hide WithEvent, EventIndex;
    ViewsConcat(a, b);
  }

  lemma ViewsInserted(a: seq<Child>, e: Event, b: seq<Child>)
    ensures Objects(a + ([EventEl(e)] + b)) == Objects(a) + Objects(b)
    ensures Events(a + ([EventEl(e)] + b)) == Events(a) + ([e] + Events(b))
    ensures Agents(a + ([EventEl(e)] + b)) == Agents(a) + Agents(b)
  {
    ViewsConcat(a, [EventEl(e)] + b);
    assert ([EventEl(e)] + b)[1..] == b;
    assert [] + Objects(b) == Objects(b) && [] + Agents(b) == Agents(b);
  }

  lemma OrderInserted(a: seq<Child>, e: Event, b: seq<Child>)
    requires Ordered(a + b)
    ensures Ordered(a + ([EventEl(e)] + b)) <==> (forall c :: c in a ==> !c.AgentEl?) && (forall c :: c in b ==> !c.ObjectEl?)
  {
    OrderedConcat(a, b);
    OrderedConcat(a, [EventEl(e)] + b);
    assert ([EventEl(e)] + b)[1..] == b && ([EventEl(e)] + b)[0] == EventEl(e);
    assert forall c :: c in [EventEl(e)] + b <==> c == EventEl(e) || c in b;
    assert (forall c :: c in b ==> InOrder(EventEl(e), c)) <==> (forall c :: c in b ==> !c.ObjectEl?);
    assert (forall c :: c in a ==> InOrder(c, EventEl(e))) <==> (forall c :: c in a ==> !c.AgentEl?);
    assert EventEl(e) in [EventEl(e)] + b;
  }

  /** In an ordered document, what stands before an element is at most of its rank, and what follows at least. */
  lemma AroundElement(kids: seq<Child>, i: nat)
    requires Ordered(kids) && i < |kids|
    ensures forall c :: c in kids[..i] ==> InOrder(c, kids[i])
    ensures forall c :: c in kids[i + 1..] ==> InOrder(kids[i], c)
  {
    assert kids == kids[..i] + kids[i..];
    OrderedConcat(kids[..i], kids[i..]);
    assert kids[i] in kids[i..] && kids[i..][0] == kids[i] && kids[i..][1..] == kids[i + 1..];
  }

  /**
    Exactly when a new event leaves the document in order: there is an event or an object already, or no
    agent stands before the insertion point.
  */
  lemma EventKeepsOrderIff(kids: seq<Child>, e: Event)
    requires Ordered(kids)
    ensures |Elements(kids)| <= |kids|
    ensures Ordered(WithEvent(kids, e)) <==>
      Events(kids) != [] || Objects(kids) != [] || forall c :: c in kids[..|Elements(kids)|] ==> !c.AgentEl?
  {
    hide Elements, Events, Objects, Ordered, AfterLast;
    SplitAtEventIndex(kids, e);
    EventIndexFacts(kids);
    ElementsAreFewer(kids);
    var i := EventIndex(kids);
    var a, b := kids[..i], kids[i..];
    hide WithEvent, EventIndex;
    OrderInserted(a, e, b);
    if Events(kids) != [] || Objects(kids) != [] {
      AroundElement(kids, i - 1);
      assert a == kids[..i - 1] + [kids[i - 1]] && b == kids[i - 1 + 1..];
      assert forall c :: c in a ==> !c.AgentEl?;
      forall c | c in b
        ensures !c.ObjectEl?
      {
        var j :| i <= j < |kids| && c == kids[j];
        assert Events(kids) != [] ==> InOrder(kids[i - 1], c);
      }
    } else {
      NoneOfRank(kids);
      assert forall c :: c in b ==> c in kids;
    }
  }

  lemma TwoAgents(x: Agent, y: Agent)
    ensures var els := [AgentEl(x), AgentEl(y)];
            && Elements(els) == els && Ordered(els)
            && Indented(els) == [Space, AgentEl(x), Space, AgentEl(y), Space]
  {
    var els, last := [AgentEl(x), AgentEl(y)], [AgentEl(y)];
    assert els[1..] == last && last[1..] == [];
    assert Elements([]) == [] && Spaced([]) == [];
    assert Elements(last) == last && Spaced(last) == [Space, AgentEl(y)];
    assert Elements(els) == els && Spaced(els) == [Space, AgentEl(x), Space, AgentEl(y)];
    assert Ordered([]);
    assert Ordered(last);
  }

  /** A document with two agents and no object, as read from a file: a new event lands between them. */
  lemma EventAmongAgents(x: Agent, y: Agent, e: Event)
    ensures var kids := Indented([AgentEl(x), AgentEl(y)]);
            && WithEvent(kids, e) == [Space, AgentEl(x), EventEl(e), Space, AgentEl(y), Space]
            && Ordered(kids) && !Ordered(WithEvent(kids, e))
  {
    hide AfterLast, EventIndex, WithEvent, Objects, Events;
    var els := [AgentEl(x), AgentEl(y)];
    TwoAgents(x, y);
    NoneOfRank(els);
    var kids := Indented(els);
    IndentKeeps(els);
    EventKeepsOrderIff(kids, e);
    assert kids[..2][1] == AgentEl(x);
    SplitAtEventIndex(kids, e);
    EventIndexFacts(kids);
  }

  lemma {:induction false} ViewsLinked(kids: seq<Child>, k: nat, id: Uuid)
    requires k < |Objects(kids)|
    ensures |Linked(kids, k, id)| == |kids|
    ensures Objects(Linked(kids, k, id)) == Objects(kids)[k := WithLink(Objects(kids)[k], id)]
    ensures Events(Linked(kids, k, id)) == Events(kids)
    ensures Agents(Linked(kids, k, id)) == Agents(kids)
    decreases |kids|
  {
    var out := Linked(kids, k, id);
    if !kids[0].ObjectEl? {
      ViewsLinked(kids[1..], k, id);
      assert out[1..] == Linked(kids[1..], k, id);
    } else if k > 0 {
      ViewsLinked(kids[1..], k - 1, id);
      assert out[1..] == Linked(kids[1..], k - 1, id);
    } else {
      assert out[1..] == kids[1..];
    }
  }

  lemma {:induction false} LinkKeepsOrder(kids: seq<Child>, k: nat, id: Uuid)
    ensures Ordered(Linked(kids, k, id)) <==> Ordered(kids)
    ensures |Linked(kids, k, id)| == |kids|
    ensures forall i :: 0 <= i < |kids| ==>
      kids[i] == Linked(kids, k, id)[i] || (kids[i].ObjectEl? && Linked(kids, k, id)[i].ObjectEl?)
    decreases |kids|
  {
    var out := Linked(kids, k, id);
    if kids != [] {
      if !kids[0].ObjectEl? {
        LinkKeepsOrder(kids[1..], k, id);
        assert out[1..] == Linked(kids[1..], k, id);
      } else if k > 0 {
        LinkKeepsOrder(kids[1..], k - 1, id);
        assert out[1..] == Linked(kids[1..], k - 1, id);
      } else {
        assert out[1..] == kids[1..];
      }
      SameRanks(kids, out);
    }
  }

  /** Swapping children for others of the same rank does not change the relation to the first one. */
  lemma SameRanks(kids: seq<Child>, out: seq<Child>)
    requires |out| == |kids| > 0
    requires forall i :: 0 <= i < |kids| ==> kids[i] == out[i] || (kids[i].ObjectEl? && out[i].ObjectEl?)
    ensures (forall c :: c in kids[1..] ==> InOrder(kids[0], c)) <==> (forall c :: c in out[1..] ==> InOrder(out[0], c))
  {
    assert forall i :: 1 <= i < |kids| ==> kids[i] in kids[1..] && out[i] in out[1..];
    assert forall i :: 1 <= i < |kids| ==> (InOrder(kids[0], kids[i]) <==> InOrder(out[0], out[i]));
  }
}
