/** Gossip as a distributed protocol: nodes with their dictionaries of seen ids, copies in flight, and
    atomic broadcasts, deliveries and cleanups in any order. */
module GossipNetwork {
  import opened Types
  import opened Sums

  const EXPIRY_TIME: real := 300.0

  /** Node addresses, numbered. */
  type NodeId = nat

  type Id = bytes

  /** The static peer relation. */
  type Graph = map<NodeId, set<NodeId>>

  ghost predicate Symmetric(g: Graph) {
    forall u, v :: u in g && v in g[u] ==> v in g && u in g[v] && u != v
  }

  /** A copy of a message on its way. */
  datatype Copy = Copy(from: NodeId, to: NodeId)

  /** `flight` holds the copies in flight per id; `sends` and `accepted` are history: how many copies of an id were
      sent, and how often a node's handler accepted it. */
  datatype Net = Net(seen: map<NodeId, map<Id, real>>, flight: map<Id, multiset<Copy>>,
                     sends: map<Id, nat>, accepted: multiset<(NodeId, Id)>)

  datatype Event =
    | Broadcast(origin: NodeId, id: Id, now: real)
    | Deliver(copy: Copy, id: Id, verdict: bool, now: real)
    | Cleanup(node: NodeId, now: real)

  function Flight(n: Net, id: Id): multiset<Copy> {
    if id in n.flight then n.flight[id] else multiset{}
  }

  function Sends(n: Net, id: Id): nat {
    if id in n.sends then n.sends[id] else 0
  }

  predicate Seen(n: Net, v: NodeId, id: Id) {
    v in n.seen && id in n.seen[v]
  }

  // ----- One node: the functions the class `GossipNodes.Gossip` is proved against -----

  /** The handler: a message is accepted when its id is not in the dictionary and the application's handler
      returns True; only then is it recorded and passed on. */
  function Receive(seen: map<Id, real>, id: Id, verdict: bool, now: real): (map<Id, real>, bool) {
    if id in seen || !verdict then (seen, false) else (seen[id := now], true)
  }

  function Expire(seen: map<Id, real>, now: real): (r: map<Id, real>) {
    map id | id in seen && now - seen[id] <= EXPIRY_TIME :: seen[id]
  }

  // ----- The network -----

  function CopiesTo(from: NodeId, targets: set<NodeId>): set<Copy> {
    set v | v in targets :: Copy(from, v)
  }

  /** `broadcast_message` to every peer of `v` but those in `excepted`. */
  function SendAll(g: Graph, n: Net, v: NodeId, id: Id, excepted: set<NodeId>): Net
    requires v in g
  {
    var copies := CopiesTo(v, g[v] - excepted);
    n.(flight := n.flight[id := Flight(n, id) + multiset(copies)],
       sends := n.sends[id := Sends(n, id) + |copies|])
  }

  function BroadcastStep(g: Graph, n: Net, v: NodeId, id: Id, now: real): Net {
    if v !in g || v !in n.seen || id in n.seen[v] then n
    else SendAll(g, n.(seen := n.seen[v := n.seen[v][id := now]]), v, id, {})
  }

  function Take(n: Net, c: Copy, id: Id): Net {
    n.(flight := n.flight[id := Flight(n, id) - multiset{c}])
  }

  function DeliverStep(g: Graph, n: Net, c: Copy, id: Id, verdict: bool, now: real): Net {
    if c.to !in g || c.to !in n.seen || c !in Flight(n, id) then n else
    var (seen, accepts) := Receive(n.seen[c.to], id, verdict, now);
    if !accepts then Take(n, c, id)
    else SendAll(g, Take(n, c, id).(seen := n.seen[c.to := seen], accepted := n.accepted + multiset{(c.to, id)}),
                 c.to, id, {c.from})
  }

  function CleanupStep(n: Net, v: NodeId, now: real): Net {
    if v !in n.seen then n else n.(seen := n.seen[v := Expire(n.seen[v], now)])
  }

  function Step(g: Graph, n: Net, e: Event): Net {
    match e
    case Broadcast(v, id, now) => BroadcastStep(g, n, v, id, now)
    case Deliver(c, id, verdict, now) => DeliverStep(g, n, c, id, verdict, now)
    case Cleanup(v, now) => CleanupStep(n, v, now)
  }

  function Run(g: Graph, n: Net, events: seq<Event>): Net
    decreases |events|
  {
    if events == [] then n else Step(g, Run(g, n, events[..|events| - 1]), events[|events| - 1])
  }

  /** Nobody has heard of `id`, and every node has a dictionary. */
  ghost predicate Unheard(g: Graph, n: Net, id: Id) {
    && n.seen.Keys == g.Keys
    && (forall v :: v in g ==> !Seen(n, v, id))
    && Flight(n, id) == multiset{} && Sends(n, id) == 0
    && (forall v :: n.accepted[(v, id)] == 0)
  }

  ghost function SeenBy(n: Net, id: Id): set<NodeId> {
    set v | v in n.seen && id in n.seen[v]
  }

  // ----- One id at a time -----

  /** What a network state says about one id. */
  datatype View = View(seen: set<NodeId>, flight: multiset<Copy>, sends: nat)

  ghost function ViewOf(n: Net, id: Id): View {
    View(SeenBy(n, id), Flight(n, id), Sends(n, id))
  }

  /** A copy taken out of flight by a node that does not accept it. */
  function Drop(w: View, c: Copy): View {
    w.(flight := w.flight - multiset{c})
  }

  /** A copy accepted: recorded, and sent on to every peer but its sender. */
  function Accept(g: Graph, w: View, c: Copy): View
    requires c.to in g
  {
    var copies := CopiesTo(c.to, g[c.to] - {c.from});
    View(w.seen + {c.to}, w.flight - multiset{c} + multiset(copies), w.sends + |copies|)
  }

  /** Recording one id at one node. */
  lemma RecordSeen(n: Net, m: Net, v: NodeId, id: Id, now: real, other: Id)
    requires v in n.seen && m.seen == n.seen[v := n.seen[v][id := now]]
    ensures SeenBy(m, other) == if other == id then SeenBy(n, id) + {v} else SeenBy(n, other)
  {
  }

  lemma SendAllView(g: Graph, n: Net, v: NodeId, id: Id, excepted: set<NodeId>, other: Id)
    requires v in g
    ensures var m := SendAll(g, n, v, id, excepted);
            var copies := CopiesTo(v, g[v] - excepted);
            && m.seen == n.seen && m.accepted == n.accepted
            && ViewOf(m, other) == if other == id
                 then View(SeenBy(n, id), Flight(n, id) + multiset(copies), Sends(n, id) + |copies|)
                 else ViewOf(n, other)
  {
    assert SeenBy(SendAll(g, n, v, id, excepted), other) == SeenBy(n, other);
  }

  lemma TakeView(n: Net, c: Copy, id: Id, other: Id)
    ensures Take(n, c, id).seen == n.seen && Take(n, c, id).accepted == n.accepted
    ensures ViewOf(Take(n, c, id), other) == if other == id then Drop(ViewOf(n, id), c) else ViewOf(n, other)
  {
    assert SeenBy(Take(n, c, id), other) == SeenBy(n, other);
  }

  /** Events of one id do not touch another, and a delivery drops or accepts. */
  lemma DeliverView(g: Graph, n: Net, c: Copy, id: Id, verdict: bool, now: real, other: Id)
    requires n.seen.Keys == g.Keys
    ensures var m := DeliverStep(g, n, c, id, verdict, now);
            && m.seen.Keys == g.Keys
            && (other != id || c.to !in g || c !in Flight(n, id) ==> ViewOf(m, other) == ViewOf(n, other))
            && (c.to in g && c in Flight(n, id) ==>
                  ViewOf(m, id) == if verdict && c.to !in SeenBy(n, id) then Accept(g, ViewOf(n, id), c)
                                   else Drop(ViewOf(n, id), c))
  {
    TakeView(n, c, id, id);
    TakeView(n, c, id, other);
    if c.to in g && c in Flight(n, id) && verdict && id !in n.seen[c.to] {
      AcceptView(g, n, c, id, now, id);
      AcceptView(g, n, c, id, now, other);
    }
  }

  lemma AcceptView(g: Graph, n: Net, c: Copy, id: Id, now: real, other: Id)
    requires n.seen.Keys == g.Keys && c.to in g && c in Flight(n, id) && id !in n.seen[c.to]
    ensures var m := DeliverStep(g, n, c, id, true, now);
            && m.seen == n.seen[c.to := n.seen[c.to][id := now]]
            && m.accepted == n.accepted + multiset{(c.to, id)}
            && ViewOf(m, other) == if other == id then Accept(g, ViewOf(n, id), c) else ViewOf(n, other)
  {
    var taken := Take(n, c, id);
    TakeView(n, c, id, other);
    hide SendAll, CopiesTo, Take, SeenBy;
    var heard := taken.(seen := n.seen[c.to := n.seen[c.to][id := now]],
                        accepted := n.accepted + multiset{(c.to, id)});
    RecordSeen(taken, heard, c.to, id, now, other);
    SendAllView(g, heard, c.to, id, {c.from}, other);
  }

  lemma BroadcastView(g: Graph, n: Net, origin: NodeId, id: Id, now: real, other: Id)
    requires n.seen.Keys == g.Keys
    ensures var m := BroadcastStep(g, n, origin, id, now);
            && m.seen.Keys == g.Keys
            && (other != id ==> ViewOf(m, other) == ViewOf(n, other))
            && (origin in g && id !in n.seen[origin] ==>
                  var copies := CopiesTo(origin, g[origin]);
                  && m.seen == n.seen[origin := n.seen[origin][id := now]]
                  && m.accepted == n.accepted
                  && ViewOf(m, id) == View(SeenBy(n, id) + {origin}, Flight(n, id) + multiset(copies),
                                           Sends(n, id) + |copies|))
  {
    hide SendAll, CopiesTo;
    if origin in g && id !in n.seen[origin] {
      var heard := n.(seen := n.seen[origin := n.seen[origin][id := now]]);
      assert g[origin] - {} == g[origin];
      RecordSeen(n, heard, origin, id, now, id);
      RecordSeen(n, heard, origin, id, now, other);
      SendAllView(g, heard, origin, id, {}, id);
      SendAllView(g, heard, origin, id, {}, other);
    }
  }

  // ----- Coverage and cost -----

  /** Not a broadcast or a refusal of `id`, and not a cleanup that forgets it. Other ids may do anything. */
  predicate Calm(n: Net, e: Event, id: Id) {
    match e
    case Broadcast(_, other, _) => other != id
    case Deliver(_, other, verdict, _) => other == id ==> verdict
    case Cleanup(v, now) => Seen(n, v, id) ==> now - n.seen[v][id] <= 300.0
  }

  /** Every event is calm in the state it finds. */
  predicate Undisturbed(g: Graph, n: Net, events: seq<Event>, id: Id) {
    forall i :: 0 <= i < |events| ==> Calm(Run(g, n, events[..i]), events[i], id)
  }

  lemma UndisturbedBefore(g: Graph, n: Net, events: seq<Event>, id: Id)
    requires Undisturbed(g, n, events, id) && events != []
    ensures var front := events[..|events| - 1];
            Undisturbed(g, n, front, id) && Calm(Run(g, n, front), events[|front|], id)
  {
    hide Calm, Run;
    var front := events[..|events| - 1];
    forall i | 0 <= i < |front| ensures Calm(Run(g, n, front[..i]), front[i], id) {
      assert front[..i] == events[..i];
    }
  }

  ghost function Degrees(g: Graph, s: set<NodeId>): map<NodeId, int> {
    map v | v in s && v in g :: |g[v]|
  }

  /** Each peer of a node that has seen the id has seen it or has a copy in flight from that node, and copies come
      from nodes that have seen it. */
  ghost predicate Covers(g: Graph, w: View, origin: NodeId) {
    && origin in w.seen && w.seen <= g.Keys
    && (forall u, v :: u in w.seen && v in g[u] ==> v in w.seen || Copy(u, v) in w.flight)
    && (forall c :: c in w.flight ==> c.from in w.seen && c.to in g[c.from])
  }

  /** The copies sent so far are the degrees of the nodes that have seen the id, less one for each but the origin. */
  ghost predicate Counts(g: Graph, w: View) {
    w.sends == Total(Degrees(g, w.seen)) - |w.seen| + 1
  }

  /** The flooding invariant. */
  ghost predicate Flooding(g: Graph, w: View, origin: NodeId) {
    Covers(g, w, origin) && Counts(g, w)
  }

  lemma {:induction false} CopiesCount(from: NodeId, targets: set<NodeId>)
    ensures |CopiesTo(from, targets)| == |targets|
  {
    if targets != {} {
      var v :| v in targets;
      CopiesCount(from, targets - {v});
      assert CopiesTo(from, targets) == CopiesTo(from, targets - {v}) + {Copy(from, v)};
    }
  }

  lemma DegreesAdd(g: Graph, s: set<NodeId>, v: NodeId)
    requires v in g && v !in s
    ensures Total(Degrees(g, s + {v})) == Total(Degrees(g, s)) + |g[v]|
  {
    TotalUpdate(Degrees(g, s), v, |g[v]|);
    assert Degrees(g, s + {v}) == Degrees(g, s)[v := |g[v]|];
  }

  lemma BroadcastFloods(g: Graph, n: Net, origin: NodeId, id: Id, now: real)
    requires Symmetric(g) && Unheard(g, n, id) && origin in g
    ensures var n' := Step(g, n, Broadcast(origin, id, now));
            n'.seen.Keys == g.Keys && Flooding(g, ViewOf(n', id), origin)
  {
    BroadcastView(g, n, origin, id, now, id);
    CopiesCount(origin, g[origin]);
    assert SeenBy(n, id) == {};
    DegreesAdd(g, {}, origin);
    assert {} + {origin} == {origin};
    assert Degrees(g, {}) == map[];
    assert forall v :: v in g[origin] ==> Copy(origin, v) in CopiesTo(origin, g[origin]);
  }

  lemma AcceptCovers(g: Graph, w: View, origin: NodeId, c: Copy)
    requires Symmetric(g) && Covers(g, w, origin) && c in w.flight && c.to !in w.seen
    ensures c.to in g && Covers(g, Accept(g, w, c), origin)
  {
    var w' := Accept(g, w, c);
    forall u, v | u in w'.seen && v in g[u] ensures v in w'.seen || Copy(u, v) in w'.flight {
      if u == c.to && v != c.from {
        assert Copy(u, v) in CopiesTo(c.to, g[c.to] - {c.from});
      }
    }
  }

  lemma AcceptCounts(g: Graph, w: View, origin: NodeId, c: Copy)
    requires Symmetric(g) && Covers(g, w, origin) && Counts(g, w) && c in w.flight && c.to !in w.seen
    ensures c.to in g && Counts(g, Accept(g, w, c))
  {
    var targets := g[c.to] - {c.from};
    assert c.from in g[c.to];
    hide Symmetric, Covers;
    CopiesCount(c.to, targets);
    assert g[c.to] == targets + {c.from};
    assert |g[c.to]| == |targets| + 1;
    DegreesAdd(g, w.seen, c.to);
  }

  lemma StepFloods(g: Graph, n: Net, id: Id, origin: NodeId, e: Event)
    requires Symmetric(g) && n.seen.Keys == g.Keys && Flooding(g, ViewOf(n, id), origin) && Calm(n, e, id)
    ensures Step(g, n, e).seen.Keys == g.Keys
    ensures Flooding(g, ViewOf(Step(g, n, e), id), origin)
  {
    hide SeenBy, Flight, Sends, BroadcastStep, DeliverStep, Degrees, Accept;
    var w := ViewOf(n, id);
    match e {
      case Broadcast(v, other, now) => BroadcastView(g, n, v, other, now, id);
      case Deliver(c, other, verdict, now) =>
        DeliverView(g, n, c, other, verdict, now, id);
        if other == id && c in w.flight && c.to !in w.seen {
          AcceptCovers(g, w, origin, c);
          AcceptCounts(g, w, origin, c);
        }
      case Cleanup(v, now) => CleanupView(n, v, now, id);
    }
  }

  /** A cleanup that does not forget the id does not show. */
  lemma CleanupView(n: Net, v: NodeId, now: real, id: Id)
    requires Calm(n, Cleanup(v, now), id)
    ensures ViewOf(CleanupStep(n, v, now), id) == ViewOf(n, id)
    ensures CleanupStep(n, v, now).seen.Keys == n.seen.Keys
  {
    assert SeenBy(CleanupStep(n, v, now), id) == SeenBy(n, id);
  }

  lemma {:induction false} RunFloods(g: Graph, n: Net, id: Id, origin: NodeId, events: seq<Event>)
    requires Symmetric(g) && n.seen.Keys == g.Keys && Flooding(g, ViewOf(n, id), origin)
    requires Undisturbed(g, n, events, id)
    ensures Run(g, n, events).seen.Keys == g.Keys
    ensures Flooding(g, ViewOf(Run(g, n, events), id), origin)
    decreases |events|
  {
    hide Flooding, ViewOf, Calm, Symmetric, Step, Undisturbed;
    if events != [] {
      var front, last := events[..|events| - 1], events[|events| - 1];
      UndisturbedBefore(g, n, events, id);
      RunFloods(g, n, id, origin, front);
      StepFloods(g, Run(g, n, front), id, origin, last);
    }
  }

  /** Not a broadcast or a refusal of `id`, no delivery of it before `start`, and no cleanup after the deadline. */
  predicate Prompt(e: Event, id: Id, start: real) {
    match e
    case Broadcast(_, other, _) => other != id
    case Deliver(_, other, verdict, now) => other == id ==> verdict && now >= start
    case Cleanup(_, now) => now <= start + 300.0
  }

  ghost predicate RecordedSince(n: Net, id: Id, start: real) {
    forall v :: Seen(n, v, id) ==> n.seen[v][id] >= start
  }

  lemma StepRecordsSince(g: Graph, n: Net, id: Id, start: real, e: Event)
    requires RecordedSince(n, id, start) && Prompt(e, id, start)
    ensures RecordedSince(Step(g, n, e), id, start) && Calm(n, e, id)
  {
    hide BroadcastStep, DeliverStep;
    match e {
      case Broadcast(v, other, now) => BroadcastRecords(g, n, v, other, now);
      case Deliver(c, other, verdict, now) => DeliverAccepts(g, n, c, other, verdict, now);
      case Cleanup(v, now) =>
    }
  }

  lemma {:induction false} PromptRunRecordsSince(g: Graph, n: Net, id: Id, start: real, events: seq<Event>)
    requires RecordedSince(n, id, start) && forall i :: 0 <= i < |events| ==> Prompt(events[i], id, start)
    ensures RecordedSince(Run(g, n, events), id, start)
    decreases |events|
  {
    hide Step, Prompt, RecordedSince;
    if events != [] {
      var front := events[..|events| - 1];
      PromptRunRecordsSince(g, n, id, start, front);
      assert Prompt(events[|front|], id, start);
      StepRecordsSince(g, Run(g, n, front), id, start, events[|front|]);
    }
  }

  /** Cleanups anywhere within 300 seconds of the broadcast forget nothing of it, so coverage and the exact cost hold
      with them. */
  lemma CleanupsInTimeForgetNothing(g: Graph, n: Net, origin: NodeId, id: Id, start: real, events: seq<Event>)
    requires Unheard(g, n, id) && origin in g
    requires forall i :: 0 <= i < |events| ==> Prompt(events[i], id, start)
    ensures Undisturbed(g, Step(g, n, Broadcast(origin, id, start)), events, id)
  {
    var n' := Step(g, n, Broadcast(origin, id, start));
    BroadcastRecords(g, n, origin, id, start);
    assert RecordedSince(n', id, start);
    hide Step, Prompt, RecordedSince, Calm, Run;
    forall i | 0 <= i < |events| ensures Calm(Run(g, n', events[..i]), events[i], id) {
      var front := events[..i];
      assert forall j :: 0 <= j < i ==> front[j] == events[j];
      PromptRunRecordsSince(g, n', id, start, front);
      assert Prompt(events[i], id, start);
      StepRecordsSince(g, Run(g, n', front), id, start, events[i]);
    }
  }

  /** `path` leads from its first node to its last along peers. */
  ghost predicate IsPath(g: Graph, path: seq<NodeId>) {
    && |path| >= 1 && path[0] in g
    && forall i :: 0 < i < |path| ==> Adjacent(g, path[i - 1], path[i])
  }

  ghost predicate Adjacent(g: Graph, u: NodeId, v: NodeId) {
    u in g && v in g[u]
  }

  lemma {:induction false} SeenAlongPath(g: Graph, w: View, origin: NodeId, path: seq<NodeId>)
    requires Flooding(g, w, origin) && w.flight == multiset{}
    requires IsPath(g, path) && path[0] == origin
    ensures path[|path| - 1] in w.seen
    decreases |path|
  {
    if |path| > 1 {
      SeenAlongPath(g, w, origin, path[..|path| - 1]);
    }
  }

  /** Gossip reaches everyone: broadcast an unheard id, let anything happen but refusals of it and cleanups that forget
      it; once no copy of it is in flight, every node with a path from the origin has seen it. */
  lemma GossipReachesEveryone(g: Graph, n: Net, origin: NodeId, id: Id, now: real, events: seq<Event>,
                              path: seq<NodeId>)
    requires Symmetric(g) && Unheard(g, n, id) && origin in g
    requires Undisturbed(g, Step(g, n, Broadcast(origin, id, now)), events, id)
    requires Flight(Run(g, Step(g, n, Broadcast(origin, id, now)), events), id) == multiset{}
    requires IsPath(g, path) && path[0] == origin
    ensures Seen(Run(g, Step(g, n, Broadcast(origin, id, now)), events), path[|path| - 1], id)
  {
    hide Flooding, Symmetric, Unheard, Undisturbed, Step, Run;
    var n' := Step(g, n, Broadcast(origin, id, now));
    BroadcastFloods(g, n, origin, id, now);
    RunFloods(g, n', id, origin, events);
    SeenAlongPath(g, ViewOf(Run(g, n', events), id), origin, path);
  }

  // ----- The exact cost -----

  /** An edge once, from its smaller end. */
  ghost function Edges(g: Graph): set<Copy> {
    set u, v | u in g && v in g[u] && u < v :: Copy(u, v)
  }

  /** An edge once from each end that is in `sources`. */
  ghost function Arcs(g: Graph, sources: set<NodeId>): set<Copy> {
    set u, v | u in sources && u in g && v in g[u] :: Copy(u, v)
  }

  lemma {:induction false} ArcsCount(g: Graph, sources: set<NodeId>)
    requires sources <= g.Keys
    ensures |Arcs(g, sources)| == Total(Degrees(g, sources))
  {
    if sources == {} {
      assert Degrees(g, sources) == map[] && Arcs(g, sources) == {};
    } else {
      var u :| u in sources;
      var rest := sources - {u};
      ArcsCount(g, rest);
      DegreesAdd(g, rest, u);
      assert rest + {u} == sources;
      CopiesCount(u, g[u]);
      ArcsSplit(g, rest, u);
    }
  }

  lemma ArcsSplit(g: Graph, rest: set<NodeId>, u: NodeId)
    requires u in g && u !in rest
    ensures Arcs(g, rest + {u}) == Arcs(g, rest) + CopiesTo(u, g[u])
    ensures Arcs(g, rest) !! CopiesTo(u, g[u])
  {
  }

  function Reverse(c: Copy): Copy {
    Copy(c.to, c.from)
  }

  ghost function Reversed(s: set<Copy>): set<Copy> {
    set c | c in s :: Reverse(c)
  }

  lemma {:induction false} ReversedCount(s: set<Copy>)
    ensures |Reversed(s)| == |s|
  {
    if s != {} {
      var c :| c in s;
      ReversedCount(s - {c});
      assert Reversed(s) == Reversed(s - {c}) + {Reverse(c)};
      assert Reverse(c) !in Reversed(s - {c});
    }
  }

  lemma ArcsAreEdgesBothWays(g: Graph)
    requires Symmetric(g)
    ensures Arcs(g, g.Keys) == Edges(g) + Reversed(Edges(g))
    ensures Edges(g) !! Reversed(Edges(g))
  {
    forall c | c in Arcs(g, g.Keys) ensures c in Edges(g) + Reversed(Edges(g)) {
      if c.to < c.from {
        assert Reverse(c) in Edges(g);
        assert Reverse(Reverse(c)) == c;
      }
    }
    forall c | c in Edges(g) + Reversed(Edges(g)) ensures c in Arcs(g, g.Keys) {}
  }

  /** The degrees of a symmetric graph sum to twice its edges. */
  lemma DegreeSum(g: Graph)
    requires Symmetric(g)
    ensures Total(Degrees(g, g.Keys)) == 2 * |Edges(g)|
  {
    ArcsCount(g, g.Keys);
    ReversedCount(Edges(g));
    ArcsAreEdgesBothWays(g);
  }

  ghost predicate ConnectedFrom(g: Graph, origin: NodeId) {
    forall v :: v in g ==> exists path :: IsPath(g, path) && path[0] == origin && path[|path| - 1] == v
  }

  /** The exact cost of one broadcast: on a connected graph, once no copy is in flight, exactly 2|E| - |V| + 1 copies
      were sent, whatever the order of deliveries. */
  lemma GossipCost(g: Graph, n: Net, origin: NodeId, id: Id, now: real, events: seq<Event>)
    requires Symmetric(g) && Unheard(g, n, id) && origin in g
    requires Undisturbed(g, Step(g, n, Broadcast(origin, id, now)), events, id)
    requires ConnectedFrom(g, origin)
    requires Flight(Run(g, Step(g, n, Broadcast(origin, id, now)), events), id) == multiset{}
    ensures Sends(Run(g, Step(g, n, Broadcast(origin, id, now)), events), id) == 2 * |Edges(g)| - |g| + 1
  {
    hide Symmetric, Unheard, Undisturbed, Step, Run, Degrees, Edges, Total;
    var n' := Step(g, n, Broadcast(origin, id, now));
    var w := ViewOf(Run(g, n', events), id);
    BroadcastFloods(g, n, origin, id, now);
    RunFloods(g, n', id, origin, events);
    forall v | v in g ensures v in w.seen {
      var path :| IsPath(g, path) && path[0] == origin && path[|path| - 1] == v;
      SeenAlongPath(g, w, origin, path);
    }
    assert w.seen == g.Keys;
    DegreeSum(g);
  }

  /** Termination: every delivery, accepted or not, lowers (unseen nodes, copies in flight) lexicographically. */
  lemma DeliveryLowersMeasure(g: Graph, n: Net, c: Copy, id: Id, verdict: bool, now: real)
    requires n.seen.Keys == g.Keys && c.to in g && c in Flight(n, id)
    ensures var n' := Step(g, n, Deliver(c, id, verdict, now));
            || |g.Keys - SeenBy(n', id)| < |g.Keys - SeenBy(n, id)|
            || (SeenBy(n', id) == SeenBy(n, id) && |Flight(n', id)| < |Flight(n, id)|)
  {
    DeliverView(g, n, c, id, verdict, now, id);
    hide Flight, DeliverStep;
    var seen := SeenBy(n, id);
    if verdict && c.to !in seen {
      assert g.Keys - (seen + {c.to}) == g.Keys - seen - {c.to};
    }
  }

  // ----- Acceptance at most once -----

  function Time(e: Event): real {
    e.now
  }

  /** Not a second broadcast of `id`, and not a delivery of it after the deadline. */
  predicate InTime(e: Event, id: Id, start: real) {
    match e
    case Broadcast(_, other, _) => other != id
    case Deliver(_, other, _, now) => other == id ==> now <= start + 300.0
    case Cleanup(_, _) => true
  }

  /** Time never runs backwards from `start` on, no second broadcast of `id`, and copies of it arrive in time. */
  predicate Timely(events: seq<Event>, id: Id, start: real) {
    && Ordered(events, start)
    && (forall i :: 0 <= i < |events| ==> InTime(events[i], id, start))
  }

  predicate Ordered(events: seq<Event>, start: real) {
    && (forall i :: 0 <= i < |events| ==> Time(events[i]) >= start)
    && (forall i, j :: 0 <= i < j < |events| ==> Time(events[i]) <= Time(events[j]))
  }

  /** Up to time `now`, whoever accepted the id or sent it first still remembers it while copies may arrive. */
  ghost predicate Remembered(g: Graph, n: Net, id: Id, origin: NodeId, start: real, now: real) {
    && n.seen.Keys == g.Keys
    && n.accepted[(origin, id)] == 0
    && (forall v :: n.accepted[(v, id)] <= 1)
    && (now <= start + 300.0 ==>
          forall v :: v == origin || n.accepted[(v, id)] == 1 ==> Seen(n, v, id) && n.seen[v][id] >= start)
  }

  /** Which entries and acceptances a delivery changes. */
  lemma DeliverAccepts(g: Graph, n: Net, c: Copy, id: Id, verdict: bool, now: real)
    ensures var m := DeliverStep(g, n, c, id, verdict, now);
            || (m.seen == n.seen && m.accepted == n.accepted)
            || (&& c.to in n.seen && id !in n.seen[c.to]
                && m.seen == n.seen[c.to := n.seen[c.to][id := now]]
                && m.accepted == n.accepted + multiset{(c.to, id)})
  {
    hide Flight;
  }

  lemma BroadcastRecords(g: Graph, n: Net, v: NodeId, id: Id, now: real)
    ensures var m := BroadcastStep(g, n, v, id, now);
            && m.accepted == n.accepted
            && (m.seen == n.seen || (v in n.seen && m.seen == n.seen[v := n.seen[v][id := now]]))
  {
    hide Flight;
  }

  lemma DeliverRemembers(g: Graph, n: Net, id: Id, origin: NodeId, start: real, now: real,
                         c: Copy, other: Id, verdict: bool, at: real)
    requires Remembered(g, n, id, origin, start, now) && now <= at && start <= at
    requires other == id ==> at <= start + 300.0
    ensures Remembered(g, DeliverStep(g, n, c, other, verdict, at), id, origin, start, at)
  {
    DeliverAccepts(g, n, c, other, verdict, at);
    hide DeliverStep;
    if other == id && c.to in n.seen && id !in n.seen[c.to] {
      assert c.to != origin && n.accepted[(c.to, id)] == 0;
    }
  }

  lemma StepRemembers(g: Graph, n: Net, id: Id, origin: NodeId, start: real, now: real, e: Event)
    requires Remembered(g, n, id, origin, start, now) && now <= Time(e) && start <= Time(e)
    requires InTime(e, id, start)
    ensures Remembered(g, Step(g, n, e), id, origin, start, Time(e))
  {
    hide BroadcastStep, DeliverStep;
    match e {
      case Broadcast(v, other, at) => BroadcastRecords(g, n, v, other, at);
      case Deliver(c, other, verdict, at) => DeliverRemembers(g, n, id, origin, start, now, c, other, verdict, at);
      case Cleanup(v, at) =>
    }
  }

  lemma {:induction false} RunRemembers(g: Graph, n: Net, id: Id, origin: NodeId, start: real, events: seq<Event>)
    requires Remembered(g, n, id, origin, start, start) && Timely(events, id, start)
    ensures Remembered(g, Run(g, n, events), id, origin, start,
                       if events == [] then start else Time(events[|events| - 1]))
    decreases |events|
  {
    if events != [] {
      var front, last := events[..|events| - 1], events[|events| - 1];
      RunRemembers(g, n, id, origin, start, front);
      assert events[|events| - 1] == last;
      StepRemembers(g, Run(g, n, front), id, origin, start,
                    if front == [] then start else Time(front[|front| - 1]), last);
    }
  }

  /** Acceptance at most once, with cleanups anywhere: if every copy of an id is delivered no later than 300 seconds
      after the origin recorded it, no handler accepts it twice, and the origin's own never does. */
  lemma GossipAcceptsAtMostOnce(g: Graph, n: Net, origin: NodeId, id: Id, start: real, events: seq<Event>, v: NodeId)
    requires Unheard(g, n, id) && origin in g && Timely(events, id, start)
    ensures var last := Run(g, Step(g, n, Broadcast(origin, id, start)), events);
            last.accepted[(v, id)] <= 1 && last.accepted[(origin, id)] == 0
  {
    RunRemembers(g, Step(g, n, Broadcast(origin, id, start)), id, origin, start, events);
  }

  const TRIANGLE: Graph := map[0 := {1, 2}, 1 := {0, 2}, 2 := {0, 1}]

  const QUIET: Net := Net(map[0 := map[], 1 := map[], 2 := map[]], map[], map[], multiset{})

  /** Node 1 and node 2 accept node 0's copies at once; node 2 cleans up at `delay` and then gets node 1's copy. */
  function LateRun(id: Id, delay: real): seq<Event> {
    [Deliver(Copy(0, 1), id, true, 0.0), Deliver(Copy(0, 2), id, true, 0.0),
     Cleanup(2, delay), Deliver(Copy(1, 2), id, true, delay)]
  }

  /** The state after the broadcast and the first two deliveries. */
  function BeforeCleanup(id: Id): Net {
    DeliverStep(TRIANGLE, Informed(id), Copy(0, 2), id, true, 0.0)
  }

  function Informed(id: Id): Net {
    DeliverStep(TRIANGLE, BroadcastStep(TRIANGLE, QUIET, 0, id, 0.0), Copy(0, 1), id, true, 0.0)
  }

  lemma Announced(id: Id)
    ensures var n := BroadcastStep(TRIANGLE, QUIET, 0, id, 0.0);
            && n.seen == map[0 := map[id := 0.0], 1 := map[], 2 := map[]]
            && n.accepted == multiset{}
            && Copy(0, 1) in Flight(n, id) && Copy(0, 2) in Flight(n, id)
  {
    BroadcastView(TRIANGLE, QUIET, 0, id, 0.0, id);
    hide BroadcastStep;
    assert Copy(0, 1) in CopiesTo(0, TRIANGLE[0]) && Copy(0, 2) in CopiesTo(0, TRIANGLE[0]);
  }

  lemma FirstHop(id: Id)
    ensures var n := Informed(id);
            && n.seen == map[0 := map[id := 0.0], 1 := map[id := 0.0], 2 := map[]]
            && n.accepted == multiset{(1, id)}
            && Copy(1, 2) in Flight(n, id) && Copy(0, 2) in Flight(n, id)
  {
    hide BroadcastStep, DeliverStep, SeenBy, Sends;
    Announced(id);
    assert Copy(1, 2) in CopiesTo(1, TRIANGLE[1] - {0});
    AcceptView(TRIANGLE, BroadcastStep(TRIANGLE, QUIET, 0, id, 0.0), Copy(0, 1), id, 0.0, id);
  }

  lemma SecondHop(id: Id)
    ensures var n := BeforeCleanup(id);
            && n.seen == map[0 := map[id := 0.0], 1 := map[id := 0.0], 2 := map[id := 0.0]]
            && Copy(1, 2) in Flight(n, id)
            && n.accepted == multiset{(1, id), (2, id)}
  {
    hide DeliverStep, Informed, SeenBy, Sends;
    FirstHop(id);
    AcceptView(TRIANGLE, Informed(id), Copy(0, 2), id, 0.0, id);
  }

  lemma LateAccept(id: Id, delay: real)
    requires delay > 300.0
    ensures var n := CleanupStep(BeforeCleanup(id), 2, delay);
            DeliverStep(TRIANGLE, n, Copy(1, 2), id, true, delay).accepted[(2, id)] == 2
  {
    SecondHop(id);
    var before := BeforeCleanup(id);
    hide BeforeCleanup, DeliverStep;
    var n := CleanupStep(before, 2, delay);
    assert n.seen.Keys == TRIANGLE.Keys && id !in n.seen[2];
    assert Flight(n, id) == Flight(before, id);
    AcceptView(TRIANGLE, n, Copy(1, 2), id, delay, id);
  }

  /** The deadline is needed: for every delay above 300 seconds there is a run, in order of time, in which a copy
      that arrives after it is accepted a second time. */
  lemma LateCopyIsAcceptedTwice(id: Id, delay: real)
    requires delay > 300.0
    ensures Symmetric(TRIANGLE) && Unheard(TRIANGLE, QUIET, id)
    ensures Ordered(LateRun(id, delay), 0.0)
    ensures Run(TRIANGLE, Step(TRIANGLE, QUIET, Broadcast(0, id, 0.0)), LateRun(id, delay)).accepted[(2, id)] == 2
  {
    hide Run, BroadcastStep, DeliverStep, CleanupStep;
    LateAccept(id, delay);
    var events := LateRun(id, delay);
    FourSteps(TRIANGLE, BroadcastStep(TRIANGLE, QUIET, 0, id, 0.0), events[0], events[1], events[2], events[3]);
  }

  lemma FourSteps(g: Graph, n: Net, a: Event, b: Event, c: Event, d: Event)
    ensures Run(g, n, [a, b, c, d]) == Step(g, Step(g, Step(g, Step(g, n, a), b), c), d)
  {
    hide Step;
    assert Run(g, n, [a]) == Step(g, n, a) by {
      assert [a][..0] == [];
    }
    assert Run(g, n, [a, b]) == Step(g, Step(g, n, a), b) by {
      assert [a, b][..1] == [a];
    }
    assert Run(g, n, [a, b, c]) == Step(g, Step(g, Step(g, n, a), b), c) by {
      assert [a, b, c][..2] == [a, b];
    }
    assert [a, b, c, d][..3] == [a, b, c];
  }
}
