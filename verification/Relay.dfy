/** How a parent's copy of a child's sessions follows the child's own registry:
    the relays on the child's end of the tunnel (src/south.ts), the frames on the
    wire, and the parent's own writes of a freshly fetched list (src/http.ts:504). */
module Relay {
  import opened JsText
  import opened Wrappers
  import opened HubRegistry

  /** The frames the child sends for what its own registry announces: its relays
      listen for events of this machine and pass them on. */
  function Frames(notes: seq<Note>): seq<TunnelEvent> {
    if notes == [] then []
    else
      var note := notes[0];
      (if note.Applied? && note.name == "runtime" && Relayed(note.event) then [note.event] else []) + Frames(notes[1..])
  }

  /** What happens in the child's own registry while the tunnel is up: events of any
      instance, snapshots of its own children only. */
  datatype ChildEvent = ChildEvent(name: string, event: TunnelEvent)

  predicate Allowed(e: ChildEvent) { Relayed(e.event) || e.name != "runtime" }

  function ChildRun(b: Book, events: seq<ChildEvent>): Book
    decreases |events|
  {
    if events == [] then b else ChildRun(Apply(b, events[0].name, events[0].event), events[1..])
  }

  predicate LocalRun(events: seq<ChildEvent>) {
    forall e <- events :: Allowed(e)
  }

  lemma {:induction false} FramesConcat(a: seq<Note>, b: seq<Note>)
    ensures Frames(a + b) == Frames(a) + Frames(b)
  {
    if a == [] {
      assert a + b == b && [] + Frames(b) == Frames(b);
    } else {
      FramesConcat(a[1..], b);
      assert (a + b)[1..] == a[1..] + b && (a + b)[0] == a[0];
      var head := if a[0].Applied? && a[0].name == "runtime" && Relayed(a[0].event) then [a[0].event] else [];
      assert head + (Frames(a[1..]) + Frames(b)) == (head + Frames(a[1..])) + Frames(b);
    }
  }

  /** The events of this machine among all. */
  function Local(events: seq<ChildEvent>): seq<TunnelEvent> {
    if events == [] then []
    else (if events[0].name == "runtime" then [events[0].event] else []) + Local(events[1..])
  }

  lemma FramesOf(e: ChildEvent)
    requires Allowed(e)
    ensures Frames([Applied(e.name, e.event)]) == if e.name == "runtime" then [e.event] else []
    ensures Frames([WentOnline(e.name), Applied(e.name, e.event)]) == if e.name == "runtime" then [e.event] else []
  {
    var x, y := WentOnline(e.name), Applied(e.name, e.event);
    assert [y][1..] == [] && [x, y][1..] == [y];
  }

  lemma OneFrame(b: Book, e: ChildEvent)
    requires "runtime" in b.instances && Allowed(e)
    ensures var c := Apply(b, e.name, e.event);
      Frames(c.notes) == Frames(b.notes) + (if e.name == "runtime" then [e.event] else []) && "runtime" in c.instances
  {
    hide Frames;
    var x, y := WentOnline(e.name), Applied(e.name, e.event);
    FramesOf(e);
    FramesConcat(b.notes, [y]);
    FramesConcat(b.notes, [x, y]);
    assert b.notes + [x] + [y] == b.notes + [x, y];
    assert Frames(b.notes) + [] == Frames(b.notes);
  }

  /** The child relays its own events, all of them and in order. */
  lemma {:induction false} RelaysItsOwn(child: Book, events: seq<ChildEvent>)
    requires "runtime" in child.instances && LocalRun(events)
    ensures Frames(ChildRun(child, events).notes) == Frames(child.notes) + Local(events)
    decreases |events|
  {
    if events == [] {
      assert Frames(child.notes) + [] == Frames(child.notes);
    } else {
      var e := events[0];
      assert e in events && forall x <- events[1..] :: x in events;
      OneFrame(child, e);
      RelaysItsOwn(Apply(child, e.name, e.event), events[1..]);
      Regroup(Frames(child.notes), if e.name == "runtime" then [e.event] else [], Local(events[1..]));
    }
  }

  // ---- one session of a registry ------------------------------------------

  /** The recorded agents of a session, if it is recorded. */
  function SessionAt(b: Book, name: string, session: string): Option<seq<AgentInfo>> {
    if name in b.instances && session in b.instances[name].snapshot.sessions
    then Some(b.instances[name].snapshot.sessions[session]) else None
  }

  /** What an event does to one session, whatever the rest of the registry is. */
  function Effect(was: Option<seq<AgentInfo>>, e: TunnelEvent, session: string): Option<seq<AgentInfo>>
    requires Relayed(e)
  {
    match e
    case AgentStatus(s, agent) =>
      if s != session then was else Some(Upsert(if was.Some? then was.value else [], agent))
    case SessionAdded(s, agents) => if s != session then was else Some(agents)
    case SessionRemoved(s) => if s != session then was else None
  }

  /** The event says outright what the session holds. */
  predicate Resets(e: TunnelEvent, session: string) {
    (e.SessionAdded? && e.session == session) || (e.SessionRemoved? && e.session == session)
  }

  predicate AllRelayed(events: seq<TunnelEvent>) {
    forall e <- events :: Relayed(e)
  }

  function Effects(was: Option<seq<AgentInfo>>, events: seq<TunnelEvent>, session: string): Option<seq<AgentInfo>>
    requires AllRelayed(events)
    decreases |events|
  {
    if events == [] then was
    else
      assert events[0] in events && forall e <- events[1..] :: e in events;
      Effects(Effect(was, events[0], session), events[1..], session)
  }

  function ApplyAll(b: Book, name: string, events: seq<TunnelEvent>): Book
    decreases |events|
  {
    if events == [] then b else ApplyAll(Apply(b, name, events[0]), name, events[1..])
  }

  lemma ApplyAt(b: Book, name: string, e: TunnelEvent, session: string)
    requires name in b.instances && Relayed(e)
    ensures name in Apply(b, name, e).instances
    ensures SessionAt(Apply(b, name, e), name, session) == Effect(SessionAt(b, name, session), e, session)
  {
  }

  lemma {:induction false} ApplyAllAt(b: Book, name: string, events: seq<TunnelEvent>, session: string)
    requires name in b.instances && AllRelayed(events)
    ensures name in ApplyAll(b, name, events).instances
    ensures SessionAt(ApplyAll(b, name, events), name, session) == Effects(SessionAt(b, name, session), events, session)
    decreases |events|
  {
    if events != [] {
      assert events[0] in events && forall e <- events[1..] :: e in events;
      ApplyAt(b, name, events[0], session);
      ApplyAllAt(Apply(b, name, events[0]), name, events[1..], session);
    }
  }

  /** A reset makes the past of a session irrelevant. */
  lemma {:induction false} ResetForgets(x: Option<seq<AgentInfo>>, y: Option<seq<AgentInfo>>,
      events: seq<TunnelEvent>, session: string)
    requires AllRelayed(events)
    requires x == y || exists e <- events :: Resets(e, session)
    ensures Effects(x, events, session) == Effects(y, events, session)
    decreases |events|
  {
    if events != [] {
      var e, rest := events[0], events[1..];
      assert e in events && (forall f <- rest :: f in events) && forall f <- events :: f == e || f in rest;
      ResetForgets(Effect(x, e, session), Effect(y, e, session), rest, session);
    }
  }

  lemma {:induction false} EffectsConcat(was: Option<seq<AgentInfo>>, a: seq<TunnelEvent>, b: seq<TunnelEvent>,
      session: string)
    requires AllRelayed(a) && AllRelayed(b) && AllRelayed(a + b)
    ensures Effects(was, a + b, session) == Effects(Effects(was, a, session), b, session)
    decreases |a|
  {
    if a == [] {
      assert a + b == b;
    } else {
      assert (a + b)[1..] == a[1..] + b && (a + b)[0] == a[0];
      assert a[0] in a && forall e <- a[1..] :: e in a;
      EffectsConcat(Effect(was, a[0], session), a[1..], b, session);
    }
  }

  // ---- the link -----------------------------------------------------------

  /** The child's registry, the frames under way, and the parent's registry. */
  datatype Link = Link(child: Book, wire: seq<TunnelEvent>, parent: Book)

  /** An event in the child's registry, the arrival of a frame, or the parent's write of
      a list it has fetched through the tunnel, whenever that comes. */
  datatype Move = InChild(e: ChildEvent) | Arrives | FreshList(session: string, agents: seq<AgentInfo>)

  predicate Sound(l: Link, name: string) {
    "runtime" in l.child.instances && name in l.parent.instances && AllRelayed(l.wire)
  }

  predicate Valid(m: Move) { m.InChild? ==> Allowed(m.e) }

  /** What the child sends for one event. */
  function Sent(e: ChildEvent): seq<TunnelEvent> { if e.name == "runtime" then [e.event] else [] }

  function Moved(l: Link, m: Move, name: string): Link {
    match m
    case InChild(e) => l.(child := Apply(l.child, e.name, e.event), wire := l.wire + Sent(e))
    case Arrives => if l.wire == [] then l else l.(parent := Apply(l.parent, name, l.wire[0]), wire := l.wire[1..])
    case FreshList(session, agents) => l.(parent := Apply(l.parent, name, SessionAdded(session, agents)))
  }

  function AfterMoves(l: Link, moves: seq<Move>, name: string): Link
    decreases |moves|
  {
    if moves == [] then l else AfterMoves(Moved(l, moves[0], name), moves[1..], name)
  }

  /** What the parent will hold of a session once all frames under way have arrived. */
  function Coming(l: Link, name: string, session: string): Option<seq<AgentInfo>>
    requires Sound(l, name)
  {
    Effects(SessionAt(l.parent, name, session), l.wire, session)
  }

  predicate CopyAgrees(l: Link, name: string, session: string)
    requires Sound(l, name)
  {
    Coming(l, name, session) == SessionAt(l.child, "runtime", session)
  }

  lemma InChildMoves(l: Link, e: ChildEvent, name: string, session: string)
    requires Sound(l, name) && Allowed(e)
    ensures var w := Moved(l, InChild(e), name);
      && Sound(w, name)
      && var x, y := Coming(l, name, session), SessionAt(l.child, "runtime", session);
         if e.name == "runtime"
         then Coming(w, name, session) == Effect(x, e.event, session)
           && SessionAt(w.child, "runtime", session) == Effect(y, e.event, session)
         else Coming(w, name, session) == x && SessionAt(w.child, "runtime", session) == y
  {
    if e.name == "runtime" {
      ApplyAt(l.child, "runtime", e.event, session);
      EffectsConcat(SessionAt(l.parent, name, session), l.wire, [e.event], session);
      assert [e.event][1..] == [];
    } else {
      assert l.wire + [] == l.wire;
    }
  }

  lemma ArrivesMoves(l: Link, name: string, session: string)
    requires Sound(l, name)
    ensures var w := Moved(l, Arrives, name); Sound(w, name) && Coming(w, name, session) == Coming(l, name, session)
  {
    if l.wire != [] {
      assert l.wire[0] in l.wire && forall e <- l.wire[1..] :: e in l.wire;
      ApplyAt(l.parent, name, l.wire[0], session);
    }
  }

  /** A fetched list that is out of date by the time the frames under way are in. */
  predicate Parts(l: Link, m: Move, name: string, session: string)
    requires Sound(l, name)
  {
    && m.FreshList? && m.session == session
    && Effects(Some(m.agents), l.wire, session) != SessionAt(l.child, "runtime", session)
  }

  /** The parent's copy of a session keeps to the child's own across exactly the moves
      that are no outdated list. */
  lemma CopiesPartExactlyWhen(l: Link, m: Move, name: string, session: string)
    requires Sound(l, name) && Valid(m)
    ensures Sound(Moved(l, m, name), name)
    ensures CopyAgrees(l, name, session) ==>
      (CopyAgrees(Moved(l, m, name), name, session) <==> !Parts(l, m, name, session))
  {
    match m
    case InChild(e) => InChildMoves(l, e, name, session);
    case Arrives => ArrivesMoves(l, name, session);
    case FreshList(s, agents) => ApplyAt(l.parent, name, SessionAdded(s, agents), session);
  }

  predicate NeverParts(l: Link, moves: seq<Move>, name: string, session: string)
    decreases |moves|
  {
    moves == [] ||
    (Sound(l, name) && Valid(moves[0]) && !Parts(l, moves[0], name, session)
      && NeverParts(Moved(l, moves[0], name), moves[1..], name, session))
  }

  lemma {:induction false} CopiesStay(l: Link, moves: seq<Move>, name: string, session: string)
    requires Sound(l, name) && CopyAgrees(l, name, session) && NeverParts(l, moves, name, session)
    ensures Sound(AfterMoves(l, moves, name), name) && CopyAgrees(AfterMoves(l, moves, name), name, session)
    decreases |moves|
  {
    if moves != [] {
      CopiesPartExactlyWhen(l, moves[0], name, session);
      CopiesStay(Moved(l, moves[0], name), moves[1..], name, session);
    }
  }

  /** THE COPIES CONVERGE. From whatever the two registries hold, once the child adds or
      removes a session its copy at the parent agrees, frames under way counted in, and
      goes on agreeing as long as no outdated list is written; with nothing under way
      the parent holds just what the child does. */
  lemma CopiesConverge(l: Link, e: ChildEvent, moves: seq<Move>, name: string, session: string)
    requires Sound(l, name) && e.name == "runtime" && Relayed(e.event) && Resets(e.event, session)
    requires NeverParts(Moved(l, InChild(e), name), moves, name, session)
    ensures var w := AfterMoves(Moved(l, InChild(e), name), moves, name);
      && Sound(w, name) && CopyAgrees(w, name, session)
      && (w.wire == [] ==> SessionAt(w.parent, name, session) == SessionAt(w.child, "runtime", session))
  {
    InChildMoves(l, e, name, session);
    CopiesStay(Moved(l, InChild(e), name), moves, name, session);
  }

  /** With a reset of the session under way no list can be outdated. */
  lemma ResetsHeal(l: Link, m: Move, name: string, session: string)
    requires Sound(l, name) && CopyAgrees(l, name, session) && exists e <- l.wire :: Resets(e, session)
    ensures !Parts(l, m, name, session)
  {
    if m.FreshList? {
      ResetForgets(Some(m.agents), SessionAt(l.parent, name, session), l.wire, session);
    }
  }

  /** A list fetched before the child re-lists a session, and written after the frame
      about it has arrived, parts the copies. */
  lemma AFreshListParts(l: Link, name: string, session: string, before: seq<AgentInfo>, now: seq<AgentInfo>)
    requires Sound(l, name) && l.wire == [] && before != now
    ensures var relist := InChild(ChildEvent("runtime", SessionAdded(session, now)));
      var w := AfterMoves(l, [relist, Arrives, FreshList(session, before)], name);
      && Sound(w, name) && w.wire == [] && !CopyAgrees(w, name, session)
  {
    var e := ChildEvent("runtime", SessionAdded(session, now));
    var v1 := Moved(l, InChild(e), name);
    var v2 := Moved(v1, Arrives, name);
    InChildMoves(l, e, name, session);
    ArrivesMoves(v1, name, session);
    CopiesPartExactlyWhen(v2, FreshList(session, before), name, session);
    ThreeMoves(l, InChild(e), Arrives, FreshList(session, before), name);
  }

  lemma ThreeMoves(l: Link, a: Move, b: Move, c: Move, name: string)
    ensures AfterMoves(l, [a, b, c], name) == Moved(Moved(Moved(l, a, name), b, name), c, name)
  {
    hide Moved;
    var v2 := Moved(Moved(l, a, name), b, name);
    assert [a, b, c][1..] == [b, c] && [b, c][1..] == [c] && [c][1..] == [];
    assert AfterMoves(v2, [c], name) == Moved(v2, c, name);
    assert AfterMoves(Moved(l, a, name), [b, c], name) == AfterMoves(v2, [c], name);
  }
}
