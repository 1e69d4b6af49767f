/** Requests, responses and timeouts as a state machine: which handler fires, for what, and how often. */
module Correlation {
  import opened Types

  const DEFAULT_TIMEOUT: real := 10.0

  /** A connection's address, and the identity of a response handler. */
  type Conn = nat
  type Callback = nat

  datatype Entry = Entry(expireAt: real, callback: Callback)

  /** A handler invoked: for which request, and with a payload or, on timeout, nothing. */
  datatype Firing = Firing(conn: Conn, id: int, callback: Callback, reply: Option<bytes>)

  /** `registered` is history: who registered a handler under which message id. */
  datatype Desk = Desk(lastId: int, pending: map<(Conn, int), Entry>, fired: multiset<Firing>,
                       registered: map<int, (Conn, Callback)>)

  datatype Event =
    | Send(conn: Conn, callback: Option<Callback>, timeout: Option<real>, now: real)
    | Response(conn: Conn, id: int, payload: bytes)
    | Sweep(now: real)

  const IDLE: Desk := Desk(0, map[], multiset{}, map[])

  /** `response_timeout or DEFAULT_TIMEOUT`: no timeout and a zero one both mean the default. */
  function Timeout(timeout: Option<real>): real {
    if timeout.None? || timeout.value == 0.0 then DEFAULT_TIMEOUT else timeout.value
  }

  function SendStep(d: Desk, conn: Conn, callback: Option<Callback>, timeout: Option<real>, now: real): Desk {
    var id := d.lastId + 1;
    if callback.None? then d.(lastId := id) else
    d.(lastId := id,
       pending := d.pending[(conn, id) := Entry(now + Timeout(timeout), callback.value)],
       registered := d.registered[id := (conn, callback.value)])
  }

  function ResponseStep(d: Desk, conn: Conn, id: int, payload: bytes): Desk {
    if (conn, id) !in d.pending then d else
    d.(pending := d.pending - {(conn, id)},
       fired := d.fired + multiset{Firing(conn, id, d.pending[(conn, id)].callback, Some(payload))})
  }

  function Expired(pending: map<(Conn, int), Entry>, now: real): set<(Conn, int)> {
    set k | k in pending && now >= pending[k].expireAt
  }

  function TimeoutOf(pending: map<(Conn, int), Entry>, k: (Conn, int)): Firing
    requires k in pending
  {
    Firing(k.0, k.1, pending[k].callback, None)
  }

  function TimeoutsOf(pending: map<(Conn, int), Entry>, keys: set<(Conn, int)>): set<Firing>
    requires keys <= pending.Keys
  {
    set k | k in keys :: TimeoutOf(pending, k)
  }

  function SweepStep(d: Desk, now: real): Desk {
    var gone := Expired(d.pending, now);
    d.(pending := d.pending - gone, fired := d.fired + multiset(TimeoutsOf(d.pending, gone)))
  }

  function Step(d: Desk, e: Event): Desk {
    match e
    case Send(conn, callback, timeout, now) => SendStep(d, conn, callback, timeout, now)
    case Response(conn, id, payload) => ResponseStep(d, conn, id, payload)
    case Sweep(now) => SweepStep(d, now)
  }

  function Run(events: seq<Event>): Desk
    decreases |events|
  {
    if events == [] then IDLE else Step(Run(events[..|events| - 1]), events[|events| - 1])
  }

  // ----- The invariant -----

  /** Exactly one firing for request `id`, and it is the registered handler's. */
  ghost predicate FiredOnce(d: Desk, id: int)
    requires id in d.registered
  {
    exists f :: Fires(d, f, id)
  }

  ghost predicate Fires(d: Desk, f: Firing, id: int)
    requires id in d.registered
  {
    && d.fired[f] == 1 && f.id == id
    && (f.conn, f.callback) == d.registered[id]
    && forall g :: g in d.fired && g.id == id ==> g == f
  }

  ghost predicate NeverFired(d: Desk, id: int) {
    forall g :: g in d.fired ==> g.id != id
  }

  /** Every registered request is pending and has not fired, or is not pending and has fired exactly once; nothing
      else is pending or has fired. */
  ghost predicate Correlated(d: Desk) {
    && (forall id :: id in d.registered ==> id <= d.lastId)
    && (forall k :: k in d.pending ==>
          k.1 in d.registered && d.registered[k.1] == (k.0, d.pending[k].callback))
    && (forall g :: g in d.fired ==> g.id in d.registered)
    && (forall id :: id in d.registered ==> Settled(d, id))
  }

  ghost predicate Settled(d: Desk, id: int)
    requires id in d.registered
  {
    if (d.registered[id].0, id) in d.pending then NeverFired(d, id) else FiredOnce(d, id)
  }

  lemma FireKeeps(d: Desk, e: Desk, added: set<Firing>, id: int)
    requires Correlated(d) && id in d.registered
    requires e.registered == d.registered && e.fired == d.fired + multiset(added)
    requires forall g :: g in added ==> g.id != id
    ensures NeverFired(d, id) ==> NeverFired(e, id)
    ensures FiredOnce(d, id) ==> FiredOnce(e, id)
  {
    if FiredOnce(d, id) {
      var f :| Fires(d, f, id);
      assert f !in added;
      assert Fires(e, f, id);
    }
  }

  lemma FireNow(d: Desk, e: Desk, added: set<Firing>, f: Firing, id: int)
    requires Correlated(d) && id in d.registered && NeverFired(d, id)
    requires e.registered == d.registered && e.fired == d.fired + multiset(added)
    requires f in added && f.id == id && (f.conn, f.callback) == d.registered[id]
    requires forall g :: g in added && g.id == id ==> g == f
    ensures FiredOnce(e, id)
  {
    assert Fires(e, f, id);
  }

  lemma OnceIsNotNever(d: Desk, id: int)
    requires id in d.registered && FiredOnce(d, id)
    ensures !NeverFired(d, id)
  {
    var f :| Fires(d, f, id);
    assert f in d.fired;
  }

  /** Registering another request leaves a request settled. */
  lemma RegisterKeeps(d: Desk, e: Desk, id: int)
    requires id in d.registered && id in e.registered && d.registered[id] == e.registered[id] && d.fired == e.fired
    requires (d.registered[id].0, id) in d.pending <==> (d.registered[id].0, id) in e.pending
    requires Settled(d, id)
    ensures Settled(e, id)
  {
    if FiredOnce(d, id) {
      var f :| Fires(d, f, id);
      assert Fires(e, f, id);
    }
  }

  lemma SendKeeps(d: Desk, conn: Conn, callback: Option<Callback>, timeout: Option<real>, now: real)
    requires Correlated(d)
    ensures Correlated(SendStep(d, conn, callback, timeout, now))
  {
    hide FiredOnce, Timeout, Settled;
    var e := SendStep(d, conn, callback, timeout, now);
    forall id | id in e.registered ensures Settled(e, id) {
      if id in d.registered {
        RegisterKeeps(d, e, id);
      } else {
        NewRequestIsSettled(d, e, id);
      }
    }
  }

  lemma NewRequestIsSettled(d: Desk, e: Desk, id: int)
    requires Correlated(d) && id !in d.registered && e.fired == d.fired
    requires id in e.registered && (e.registered[id].0, id) in e.pending
    ensures Settled(e, id)
  {
  }

  lemma ResponseKeeps(d: Desk, conn: Conn, id: int, payload: bytes)
    requires Correlated(d)
    ensures Correlated(ResponseStep(d, conn, id, payload))
  {
    var e := ResponseStep(d, conn, id, payload);
    if (conn, id) in d.pending {
      var f := Firing(conn, id, d.pending[(conn, id)].callback, Some(payload));
      assert multiset({f}) == multiset{f};
      forall i | i in e.registered ensures Settled(e, i) {
        if i == id {
          FireNow(d, e, {f}, f, i);
        } else {
          FireKeeps(d, e, {f}, i);
        }
      }
    }
  }

  lemma SweepKeeps(d: Desk, now: real)
    requires Correlated(d)
    ensures Correlated(SweepStep(d, now))
  {
    var e := SweepStep(d, now);
    var gone := Expired(d.pending, now);
    var firings := TimeoutsOf(d.pending, gone);
    forall i | i in e.registered ensures Settled(e, i) {
      var k := (d.registered[i].0, i);
      if k in gone {
        FireNow(d, e, firings, TimeoutOf(d.pending, k), i);
      } else {
        FireKeeps(d, e, firings, i);
      }
    }
  }

  /** Correlation, over every sequence of sends, responses and sweeps: each registered response handler is still
      pending or has fired exactly once, on its own connection and for its own request. */
  lemma {:induction false} EveryHandlerFiresAtMostOnce(events: seq<Event>)
    ensures Correlated(Run(events))
    decreases |events|
  {
    if events != [] {
      var front := events[..|events| - 1];
      EveryHandlerFiresAtMostOnce(front);
      match events[|events| - 1] {
        case Send(conn, callback, timeout, now) => SendKeeps(Run(front), conn, callback, timeout, now);
        case Response(conn, id, payload) => ResponseKeeps(Run(front), conn, id, payload);
        case Sweep(now) => SweepKeeps(Run(front), now);
      }
    }
  }

  /** A duplicate or late response, and one from another connection than the request's, change nothing at all. */
  lemma StrayResponseIsIgnored(events: seq<Event>, conn: Conn, id: int, payload: bytes)
    requires var d := Run(events);
             id !in d.registered || conn != d.registered[id].0 || !NeverFired(d, id)
    ensures Step(Run(events), Response(conn, id, payload)) == Run(events)
  {
    EveryHandlerFiresAtMostOnce(events);
  }

  /** The first response of a pending request fires its handler with exactly that payload, and the request is done. */
  lemma FirstResponseFires(events: seq<Event>, conn: Conn, id: int, payload: bytes)
    requires var d := Run(events);
             id in d.registered && conn == d.registered[id].0 && NeverFired(d, id)
    ensures var d := Run(events);
            var e := Step(d, Response(conn, id, payload));
            && Fires(e, Firing(conn, id, d.registered[id].1, Some(payload)), id)
            && (conn, id) !in e.pending
  {
    hide Run;
    EveryHandlerFiresAtMostOnce(events);
    FirstResponse(Run(events), conn, id, payload);
  }

  lemma FirstResponse(d: Desk, conn: Conn, id: int, payload: bytes)
    requires Correlated(d) && id in d.registered && conn == d.registered[id].0 && NeverFired(d, id)
    ensures var e := ResponseStep(d, conn, id, payload);
            Fires(e, Firing(conn, id, d.registered[id].1, Some(payload)), id) && (conn, id) !in e.pending
  {
    hide FiredOnce;
    if (conn, id) !in d.pending {
      OnceIsNotNever(d, id);
    }
  }

  /** A sweep leaves no expired entry, fires each of them with no payload, and touches no other. */
  lemma SweepIsExact(d: Desk, now: real, k: (Conn, int))
    requires Correlated(d)
    ensures var e := SweepStep(d, now);
            && (k in e.pending <==> k in d.pending && now < d.pending[k].expireAt)
            && (k in e.pending ==> e.pending[k] == d.pending[k])
            && (k in d.pending && d.pending[k].expireAt <= now ==>
                  e.fired[Firing(k.0, k.1, d.pending[k].callback, None)] == 1)
  {
    var e := SweepStep(d, now);
    if k in d.pending && d.pending[k].expireAt <= now {
      var f := TimeoutOf(d.pending, k);
      assert NeverFired(d, k.1);
      assert f in TimeoutsOf(d.pending, Expired(d.pending, now));
      assert d.fired[f] == 0;
    }
  }

  // ----- Why a handler fires -----

  /** What one event settles about the request `id` sent on `conn` with this deadline: a response on its connection, or
      a sweep at or after the deadline, which is `Some(None)`. */
  function Settles(e: Event, conn: Conn, id: int, deadline: real): Option<Option<bytes>> {
    match e
    case Response(c, i, payload) => if c == conn && i == id then Some(Some(payload)) else None
    case Sweep(now) => if now >= deadline then Some(None) else None
    case Send(_, _, _, _) => None
  }

  function Earlier(verdict: Option<Option<bytes>>, later: Option<Option<bytes>>): Option<Option<bytes>> {
    if verdict.Some? then verdict else later
  }

  /** What ends the request: the first event that settles it. */
  function Verdict(after: seq<Event>, conn: Conn, id: int, deadline: real): Option<Option<bytes>>
    decreases |after|
  {
    if after == [] then None
    else Earlier(Verdict(after[..|after| - 1], conn, id, deadline), Settles(after[|after| - 1], conn, id, deadline))
  }

  /** The request stands as its verdict says: still pending under its deadline, or over, with one firing that carries
      the verdict. */
  ghost predicate Stands(d: Desk, conn: Conn, id: int, entry: Entry, verdict: Option<Option<bytes>>) {
    && id in d.registered && d.registered[id] == (conn, entry.callback)
    && match verdict
       case None => (conn, id) in d.pending && d.pending[(conn, id)] == entry && NeverFired(d, id)
       case Some(reply) => (conn, id) !in d.pending && Fires(d, Firing(conn, id, entry.callback, reply), id)
  }

  lemma SendLeavesStanding(d: Desk, e: Event, conn: Conn, id: int, entry: Entry, verdict: Option<Option<bytes>>)
    requires Correlated(d) && Stands(d, conn, id, entry, verdict) && e.Send?
    ensures Stands(Step(d, e), conn, id, entry, verdict)
  {
    hide Settled, Timeout;
    assert d.lastId + 1 != id;
  }

  lemma ResponseSettles(d: Desk, c: Conn, i: int, payload: bytes, conn: Conn, id: int, entry: Entry,
                        verdict: Option<Option<bytes>>)
    requires Correlated(d) && Stands(d, conn, id, entry, verdict)
    ensures Stands(ResponseStep(d, c, i, payload), conn, id, entry,
                   Earlier(verdict, Settles(Response(c, i, payload), conn, id, entry.expireAt)))
  {
    hide Settled;
    assert (c, id) in d.pending ==> c == conn;
  }

  lemma SweepSettles(d: Desk, now: real, conn: Conn, id: int, entry: Entry, verdict: Option<Option<bytes>>)
    requires Correlated(d) && Stands(d, conn, id, entry, verdict)
    ensures Stands(SweepStep(d, now), conn, id, entry,
                   Earlier(verdict, Settles(Sweep(now), conn, id, entry.expireAt)))
  {
    hide Settled, FiredOnce;
    var gone := Expired(d.pending, now);
    var firings := TimeoutsOf(d.pending, gone);
    forall g | g in firings && g.id == id ensures verdict.None? && g == TimeoutOf(d.pending, (conn, id)) {
      var k :| k in gone && g == TimeoutOf(d.pending, k);
      assert k.0 == conn;
    }
    if verdict.None? && now >= entry.expireAt {
      assert TimeoutOf(d.pending, (conn, id)) in firings;
    } else {
      assert forall g :: g in firings ==> g.id != id;
    }
  }

  lemma StepSettles(d: Desk, e: Event, conn: Conn, id: int, entry: Entry, verdict: Option<Option<bytes>>)
    requires Correlated(d) && Stands(d, conn, id, entry, verdict)
    ensures Stands(Step(d, e), conn, id, entry, Earlier(verdict, Settles(e, conn, id, entry.expireAt)))
  {
    hide Stands, Correlated, SendStep, ResponseStep, SweepStep;
    match e {
      case Send(_, _, _, _) => SendLeavesStanding(d, e, conn, id, entry, verdict);
      case Response(c, i, payload) => ResponseSettles(d, c, i, payload, conn, id, entry, verdict);
      case Sweep(now) => SweepSettles(d, now, conn, id, entry, verdict);
    }
  }

  /** Every request ends as it should, over every sequence of sends, responses and sweeps after it: while neither has
      come its handler is pending and silent; after that it has fired exactly once, with the payload of the first
      response on its connection if that came before the first sweep at or after its deadline, and with nothing if
      the sweep did. */
  lemma {:induction false} RequestEndsAsItShould(before: seq<Event>, conn: Conn, callback: Callback,
                                                timeout: Option<real>, now: real, after: seq<Event>)
    ensures var events := before + [Send(conn, Some(callback), timeout, now)] + after;
            var id, entry := Run(before).lastId + 1, Entry(now + Timeout(timeout), callback);
            Stands(Run(events), conn, id, entry, Verdict(after, conn, id, entry.expireAt))
    decreases |after|
  {
    hide Stands, Correlated, Timeout, Step, Settles;
    var sent := before + [Send(conn, Some(callback), timeout, now)];
    var id, entry := Run(before).lastId + 1, Entry(now + Timeout(timeout), callback);
    if after == [] {
      assert sent + after == sent;
      RequestStarts(before, conn, callback, timeout, now);
    } else {
      var front, last := after[..|after| - 1], after[|after| - 1];
      RequestEndsAsItShould(before, conn, callback, timeout, now, front);
      assert (sent + after)[..|sent + after| - 1] == sent + front;
      EveryHandlerFiresAtMostOnce(sent + front);
      StepSettles(Run(sent + front), last, conn, id, entry, Verdict(front, conn, id, entry.expireAt));
    }
  }

  lemma RunMore(events: seq<Event>, e: Event)
    ensures Run(events + [e]) == Step(Run(events), e)
  {
    hide Step;
    assert (events + [e])[..|events|] == events;
  }

  lemma RequestStarts(before: seq<Event>, conn: Conn, callback: Callback, timeout: Option<real>, now: real)
    ensures Stands(Run(before + [Send(conn, Some(callback), timeout, now)]), conn, Run(before).lastId + 1,
                   Entry(now + Timeout(timeout), callback), None)
  {
    hide Stands, Correlated, Timeout, SendStep, Run;
    RunMore(before, Send(conn, Some(callback), timeout, now));
    EveryHandlerFiresAtMostOnce(before);
    NewRequestStands(Run(before), conn, callback, timeout, now);
  }

  lemma NewRequestStands(d: Desk, conn: Conn, callback: Callback, timeout: Option<real>, now: real)
    requires Correlated(d)
    ensures Stands(SendStep(d, conn, Some(callback), timeout, now), conn, d.lastId + 1,
                   Entry(now + Timeout(timeout), callback), None)
  {
    hide Settled, Timeout;
  }
}
