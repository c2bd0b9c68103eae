/** The parent's end of one child tunnel (src/tunnel.ts, `ChildConnection`): the
    ledger of requests and event subscriptions. Ids are the connection's counter;
    steps are its calls and callbacks, in any order. */
module ChildTunnel {

  datatype Outcome = Answered | Refused | TimedOut | Dead

  /** What callers of the connection see, and the frames it sends. `Released` is a
      call of a subscription's close function; it sends an unsub frame or nothing. */
  datatype Obs =
    | Sent(id: nat, sub: bool)
    | Settled(id: nat, outcome: Outcome)
    | Event(id: nat, name: string)
    | Closed(id: nat)
    | Released(id: nat, unsub: bool)

  datatype Entry = Entry(id: nat, sub: bool)

  datatype View = View(pending: seq<Entry>, armed: set<nat>, subs: seq<nat>, issued: nat,
                       handed: set<nat>, log: seq<Obs>, gone: nat)

  datatype Step =
    | Issue(sub: bool)
    | Response(id: nat, ok: bool)
    | Timer(id: nat)
    | HerdrEvent(id: nat, name: string)
    | SubClosed(id: nat)
    | Release(id: nat)
    | Gone

  const START := View([], {}, [], 0, {}, [], 0)

  predicate IsPending(pending: seq<Entry>, id: nat) {
    exists e <- pending :: e.id == id
  }

  /** Deletes a key of an insertion-ordered map. */
  function Without(pending: seq<Entry>, id: nat): seq<Entry> {
    if pending == [] then []
    else (if pending[0].id == id then [] else [pending[0]]) + Without(pending[1..], id)
  }

  function Minus(subs: seq<nat>, id: nat): seq<nat> {
    if subs == [] then []
    else (if subs[0] == id then [] else [subs[0]]) + Minus(subs[1..], id)
  }

  function Deaths(pending: seq<Entry>): seq<Obs> {
    seq(|pending|, i requires 0 <= i < |pending| => Settled(pending[i].id, Dead))
  }

  function Closures(subs: seq<nat>): seq<Obs> {
    seq(|subs|, i requires 0 <= i < |subs| => Closed(subs[i]))
  }

  function Next(v: View, s: Step): View {
    match s
    case Issue(sub) =>
      var id := v.issued + 1;
      v.(issued := id, armed := v.armed + {id}, pending := v.pending + [Entry(id, sub)], log := v.log + [Sent(id, sub)])
    case Response(id, ok) =>
      if !IsPending(v.pending, id) then v
      else
        var live := ok && Entry(id, true) in v.pending;
        v.(pending := Without(v.pending, id), armed := v.armed - {id},
           subs := if live then v.subs + [id] else v.subs,
           handed := if live then v.handed + {id} else v.handed,
           log := v.log + [Settled(id, if ok then Answered else Refused)])
    case Timer(id) =>
      if id !in v.armed then v
      else v.(pending := Without(v.pending, id), armed := v.armed - {id}, log := v.log + [Settled(id, TimedOut)])
    case HerdrEvent(id, name) =>
      if id !in v.subs then v else v.(log := v.log + [Event(id, name)])
    case SubClosed(id) =>
      if id !in v.subs then v else v.(subs := Minus(v.subs, id), log := v.log + [Closed(id)])
    case Release(id) =>
      if id !in v.handed then v
      else v.(subs := Minus(v.subs, id), log := v.log + [Released(id, id in v.subs)])
    case Gone =>
      v.(pending := [], armed := {}, subs := [], log := v.log + (Deaths(v.pending) + Closures(v.subs)),
          gone := v.gone + 1)
  }

  function After(v: View, run: seq<Step>): View
    decreases |run|
  {
    if run == [] then v else After(Next(v, run[0]), run[1..])
  }

  // ---- the connection -----------------------------------------------------

  class ChildConnection {
    const name: string
    var pending: seq<Entry>
    var armed: set<nat>
    var subs: seq<nat>
    var issued: nat
    var log: seq<Obs>
    var onGone: nat
    ghost var handed: set<nat>

    ghost function Now(): View reads this {
      View(pending, armed, subs, issued, handed, log, onGone)
    }

    constructor (name: string)
      ensures Now() == START && this.name == name
    {
      this.name := name;
      pending, armed, subs, issued, log, onGone, handed := [], {}, [], 0, [], 0, {};
    }

    /** `request` and `subscribe` share one counter and one ledger. */
    method Issue(sub: bool) returns (id: nat)
      modifies this
      ensures Now() == Next(old(Now()), Step.Issue(sub)) && id == old(issued) + 1
    {
      issued := issued + 1;
      id := issued;
      armed := armed + {id};
      pending := pending + [Entry(id, sub)];
      log := log + [Sent(id, sub)];
    }

    method RouteResponse(id: nat, ok: bool)
      modifies this
      ensures Now() == Next(old(Now()), Response(id, ok))
    {
      if !IsPending(pending, id) { return; }
      var sub := Entry(id, true) in pending;
      pending := Without(pending, id);
      armed := armed - {id};
      if ok && sub {
        subs := subs + [id];
        handed := handed + {id};
      }
      log := log + [Settled(id, if ok then Answered else Refused)];
    }

    method OnTimer(id: nat)
      requires id in armed
      modifies this
      ensures Now() == Next(old(Now()), Timer(id))
    {
      armed := armed - {id};
      pending := Without(pending, id);
      log := log + [Settled(id, TimedOut)];
    }

    method RouteEvent(id: nat, name: string)
      modifies this
      ensures Now() == Next(old(Now()), HerdrEvent(id, name))
    {
      if id in subs { log := log + [Event(id, name)]; }
    }

    method RouteSubClosed(id: nat)
      modifies this
      ensures Now() == Next(old(Now()), SubClosed(id))
    {
      if id in subs {
        subs := Minus(subs, id);
        log := log + [Closed(id)];
      }
    }

    /** The close function a subscriber holds. */
    method Release(id: nat)
      requires id in handed
      modifies this
      ensures Now() == Next(old(Now()), Step.Release(id))
    {
      var live := id in subs;
      MinusMissing(subs, id);
      if live { subs := Minus(subs, id); }
      log := log + [Released(id, live)];
    }

    method Gone()
      modifies this
      ensures Now() == Next(old(Now()), Step.Gone)
    {
      ghost var was := Now();
      for i := 0 to |pending|
        invariant pending == was.pending && subs == was.subs
        invariant Now() == was.(armed := armed, log := was.log + Deaths(was.pending[..i]))
      {
        assert Deaths(pending[..i + 1]) == Deaths(pending[..i]) + [Settled(pending[i].id, Dead)];
        armed := armed - {pending[i].id};
        log := log + [Settled(pending[i].id, Dead)];
      }
      assert pending[..|pending|] == pending;
      pending, armed := [], {};
      for i := 0 to |subs|
        invariant subs == was.subs
        invariant Now() == was.(pending := [], armed := {},
            log := was.log + (Deaths(was.pending) + Closures(was.subs[..i])))
      {
        assert Closures(subs[..i + 1]) == Closures(subs[..i]) + [Closed(subs[i])];
        log := log + [Closed(subs[i])];
      }
      assert subs[..|subs|] == subs;
      subs := [];
      onGone := onGone + 1;
    }
  }

  lemma {:induction false} MinusMissing(subs: seq<nat>, id: nat)
    ensures id !in subs ==> Minus(subs, id) == subs
    ensures forall n :: n in Minus(subs, id) <==> n in subs && n != id
  {
    if subs != [] {
      MinusMissing(subs[1..], id);
      assert subs == [subs[0]] + subs[1..];
    }
  }

  lemma {:induction false} WithoutMembers(pending: seq<Entry>, id: nat)
    ensures forall e :: e in Without(pending, id) <==> e in pending && e.id != id
  {
    if pending != [] {
      WithoutMembers(pending[1..], id);
      assert pending == [pending[0]] + pending[1..];
    }
  }

  // ---- the life of one id -------------------------------------------------

  /** How far an id has come, as told by the log alone. */
  datatype Phase = Unissued | Waiting(sub: bool) | Finished | Live | Ended | Broken

  function Advance(p: Phase, o: Obs, id: nat): Phase {
    if o.id != id then p
    else match o
      case Sent(_, sub) => if p == Unissued then Waiting(sub) else Broken
      case Settled(_, outcome) =>
        if !p.Waiting? then Broken else if p.sub && outcome == Answered then Live else Finished
      case Event(_, _) => if p == Live then Live else Broken
      case Closed(_) => if p == Live then Ended else Broken
      case Released(_, unsub) =>
        if (p == Live && unsub) || (p == Ended && !unsub) then Ended else Broken
  }

  function PhaseOf(log: seq<Obs>, id: nat): Phase {
    if log == [] then Unissued
    else Advance(PhaseOf(log[..|log| - 1], id), log[|log| - 1], id)
  }

  lemma PhaseSnoc(log: seq<Obs>, o: Obs, id: nat)
    ensures PhaseOf(log + [o], id) == Advance(PhaseOf(log, id), o, id)
  {
    assert (log + [o])[..|log|] == log;
  }

  /** The ledger and the log tell the same story about one id. */
  ghost predicate Agrees(v: View, id: nat) {
    var p := PhaseOf(v.log, id);
    && p != Broken
    && (p == Unissued <==> id == 0 || id > v.issued)
    && (forall sub :: Entry(id, sub) in v.pending <==> p == Waiting(sub))
    && (id in v.armed <==> p.Waiting?)
    && (id in v.subs <==> p == Live)
    && (id in v.handed <==> p == Live || p == Ended)
  }

  ghost predicate OneEntryAnId(pending: seq<Entry>) {
    forall i, j :: 0 <= i < j < |pending| ==> pending[i].id != pending[j].id
  }

  ghost predicate NoRepeats(subs: seq<nat>) {
    forall i, j :: 0 <= i < j < |subs| ==> subs[i] != subs[j]
  }

  ghost predicate Distinct(v: View) {
    OneEntryAnId(v.pending) && NoRepeats(v.subs)
  }

  ghost predicate Inv(v: View) {
    Distinct(v) && forall id: nat :: Agrees(v, id)
  }

  lemma {:induction false} WithoutDistinct(pending: seq<Entry>, id: nat)
    requires OneEntryAnId(pending)
    ensures OneEntryAnId(Without(pending, id))
  {
    if pending != [] {
      var rest := pending[1..];
      assert forall e <- rest :: e.id != pending[0].id;
      WithoutDistinct(rest, id);
      WithoutMembers(rest, id);
      assert forall e <- Without(rest, id) :: e in rest;
    }
  }

  lemma {:induction false} MinusDistinct(subs: seq<nat>, id: nat)
    requires NoRepeats(subs)
    ensures NoRepeats(Minus(subs, id))
  {
    if subs != [] {
      var rest := subs[1..];
      assert forall n <- rest :: n != subs[0];
      MinusDistinct(rest, id);
      MinusMissing(rest, id);
      var tail := Minus(rest, id);
      forall i, j | 0 <= i < j < |Minus(subs, id)| ensures Minus(subs, id)[i] != Minus(subs, id)[j] {
        assert Minus(subs, id) == if subs[0] == id then tail else [subs[0]] + tail;
        assert subs[0] !in tail;
      }
    }
  }

  lemma StepKeepsDistinct(v: View, s: Step)
    requires Inv(v)
    ensures Distinct(Next(v, s))
  {
    match s
    case Issue(_) => assert Agrees(v, v.issued + 1); FreshLast(v);
    case Response(id, _) => WithoutDistinct(v.pending, id); assert Agrees(v, id);
    case Timer(id) => WithoutDistinct(v.pending, id);
    case HerdrEvent(_, _) =>
    case SubClosed(id) => MinusDistinct(v.subs, id);
    case Release(id) => MinusDistinct(v.subs, id);
    case Gone =>
  }

  lemma FreshLast(v: View)
    requires Agrees(v, v.issued + 1)
    ensures forall e <- v.pending :: e.id != v.issued + 1
  {
    forall e | e in v.pending ensures e.id != v.issued + 1 {
      assert e == Entry(e.id, e.sub);
    }
  }

  lemma {:induction false} DeathsPhase(log: seq<Obs>, pending: seq<Entry>, id: nat)
    requires OneEntryAnId(pending)
    ensures PhaseOf(log + Deaths(pending), id) ==
      if IsPending(pending, id) then Advance(PhaseOf(log, id), Settled(id, Dead), id) else PhaseOf(log, id)
    decreases |pending|
  {
    if pending == [] {
      assert log + Deaths(pending) == log;
    } else {
      var k := |pending| - 1;
      var front, last := pending[..k], pending[k];
      assert pending == front + [last];
      DeathsPhase(log, front, id);
      assert log + Deaths(pending) == (log + Deaths(front)) + [Settled(last.id, Dead)];
      PhaseSnoc(log + Deaths(front), Settled(last.id, Dead), id);
    }
  }

  lemma {:induction false} ClosuresPhase(log: seq<Obs>, subs: seq<nat>, id: nat)
    requires NoRepeats(subs)
    ensures PhaseOf(log + Closures(subs), id) ==
      if id in subs then Advance(PhaseOf(log, id), Closed(id), id) else PhaseOf(log, id)
    decreases |subs|
  {
    if subs == [] {
      assert log + Closures(subs) == log;
    } else {
      var k := |subs| - 1;
      var front, last := subs[..k], subs[k];
      assert subs == front + [last];
      ClosuresPhase(log, front, id);
      assert log + Closures(subs) == (log + Closures(front)) + [Closed(last)];
      PhaseSnoc(log + Closures(front), Closed(last), id);
    }
  }

  lemma PendingEntry(pending: seq<Entry>, id: nat)
    ensures IsPending(pending, id) <==> Entry(id, true) in pending || Entry(id, false) in pending
  {
    forall e | e in pending && e.id == id ensures e == Entry(id, true) || e == Entry(id, false) {}
  }

  lemma GoneAgrees(v: View, id: nat)
    requires Distinct(v) && Agrees(v, id)
    ensures Agrees(Next(v, Gone), id)
    ensures PhaseOf(Next(v, Gone).log, id) ==
      if PhaseOf(v.log, id).Waiting? then Finished else if PhaseOf(v.log, id) == Live then Ended else PhaseOf(v.log, id)
  {
    DeathsPhase(v.log, v.pending, id);
    ClosuresPhase(v.log + Deaths(v.pending), v.subs, id);
    assert v.log + (Deaths(v.pending) + Closures(v.subs)) == (v.log + Deaths(v.pending)) + Closures(v.subs);
    PendingEntry(v.pending, id);
  }

  lemma IssueAgrees(v: View, sub: bool, id: nat)
    requires Agrees(v, id)
    ensures Agrees(Next(v, Issue(sub)), id)
  {
    hide PhaseOf;
    assert forall e :: e in v.pending + [Entry(v.issued + 1, sub)] <==> e in v.pending || e == Entry(v.issued + 1, sub);
    PhaseSnoc(v.log, Sent(v.issued + 1, sub), id);
  }

  lemma ResponseAgrees(v: View, n: nat, ok: bool, id: nat)
    requires Agrees(v, id) && Agrees(v, n)
    ensures Agrees(Next(v, Response(n, ok)), id)
  {
    PendingEntry(v.pending, n);
    WithoutMembers(v.pending, n);
    PhaseSnoc(v.log, Settled(n, if ok then Answered else Refused), id);
  }

  lemma TimerAgrees(v: View, n: nat, id: nat)
    requires Agrees(v, id) && Agrees(v, n)
    ensures Agrees(Next(v, Timer(n)), id)
  {
    WithoutMembers(v.pending, n);
    PhaseSnoc(v.log, Settled(n, TimedOut), id);
  }

  lemma SubscriptionAgrees(v: View, s: Step, id: nat)
    requires s.HerdrEvent? || s.SubClosed? || s.Release?
    requires Agrees(v, id) && Agrees(v, s.id)
    ensures Agrees(Next(v, s), id)
  {
    MinusMissing(v.subs, s.id);
    match s
    case HerdrEvent(n, name) => PhaseSnoc(v.log, Event(n, name), id);
    case SubClosed(n) => PhaseSnoc(v.log, Closed(n), id);
    case Release(n) => PhaseSnoc(v.log, Released(n, n in v.subs), id);
  }

  lemma StepKeepsInv(v: View, s: Step)
    requires Inv(v)
    ensures Inv(Next(v, s))
  {
    StepKeepsDistinct(v, s);
    forall id: nat ensures Agrees(Next(v, s), id) {
      match s
      case Issue(sub) => IssueAgrees(v, sub, id);
      case Response(n, ok) => ResponseAgrees(v, n, ok, id);
      case Timer(n) => TimerAgrees(v, n, id);
      case Gone => GoneAgrees(v, id);
      case _ => SubscriptionAgrees(v, s, id);
    }
  }

  lemma {:induction false} RunKeepsInv(v: View, run: seq<Step>)
    requires Inv(v)
    ensures Inv(After(v, run))
    decreases |run|
  {
    if run != [] {
      StepKeepsInv(v, run[0]);
      RunKeepsInv(Next(v, run[0]), run[1..]);
    }
  }

  lemma ReachedInv(run: seq<Step>)
    ensures Inv(After(START, run))
  {
    forall id: nat ensures Agrees(START, id) {}
    RunKeepsInv(START, run);
  }

  // ---- settlement ---------------------------------------------------------

  function Settlements(log: seq<Obs>, id: nat): nat {
    if log == [] then 0
    else Settlements(log[..|log| - 1], id) + (if log[|log| - 1].Settled? && log[|log| - 1].id == id then 1 else 0)
  }

  function Issues(log: seq<Obs>, id: nat): nat {
    if log == [] then 0
    else Issues(log[..|log| - 1], id) + (if log[|log| - 1].Sent? && log[|log| - 1].id == id then 1 else 0)
  }

  lemma {:induction false} PhaseCounts(log: seq<Obs>, id: nat)
    requires PhaseOf(log, id) != Broken
    ensures Settlements(log, id) == if PhaseOf(log, id).Unissued? || PhaseOf(log, id).Waiting? then 0 else 1
    ensures Issues(log, id) == if PhaseOf(log, id).Unissued? then 0 else 1
  {
    if log != [] { PhaseCounts(log[..|log| - 1], id); }
  }

  /** At every point the ids issued are 1 to the counter, each sent in one frame,
      and split into those still pending, with their timer armed, and those settled
      exactly once. */
  lemma IdsSplit(run: seq<Step>, id: nat)
    ensures var v := After(START, run);
      && Issues(v.log, id) == (if 1 <= id <= v.issued then 1 else 0)
      && Settlements(v.log, id) == (if 1 <= id <= v.issued && !IsPending(v.pending, id) then 1 else 0)
      && (IsPending(v.pending, id) <==> id in v.armed)
      && (IsPending(v.pending, id) ==> 1 <= id <= v.issued)
  {
    ReachedInv(run);
    var v := After(START, run);
    assert Agrees(v, id);
    PhaseCounts(v.log, id);
    PendingEntry(v.pending, id);
  }

  /** The death of the tunnel settles all that is pending and ends every live
      subscription; a second report of it adds nothing to the log. */
  lemma DeathSettlesAll(run: seq<Step>, id: nat)
    ensures var v := After(START, run); var dead := Next(v, Gone);
      && Settlements(dead.log, id) == (if 1 <= id <= v.issued then 1 else 0)
      && (IsPending(v.pending, id) ==> Settlements(v.log, id) == 0)
      && dead.pending == [] && dead.armed == {} && dead.subs == []
      && (id in v.subs ==> PhaseOf(dead.log, id) == Ended)
      && Next(dead, Gone) == dead.(gone := dead.gone + 1)
  {
    ReachedInv(run);
    var v := After(START, run);
    IdsSplit(run, id);
    assert Agrees(v, id);
    GoneAgrees(v, id);
    PhaseCounts(Next(v, Gone).log, id);
    assert Next(v, Gone).log + (Deaths([]) + Closures([])) == Next(v, Gone).log;
  }

  // ---- subscriptions ------------------------------------------------------

  lemma {:induction false} NotBrokenBefore(log: seq<Obs>, i: nat, id: nat)
    requires i <= |log| && PhaseOf(log, id) != Broken
    ensures PhaseOf(log[..i], id) != Broken
    decreases |log|
  {
    if i < |log| {
      var front := log[..|log| - 1];
      NotBrokenBefore(front, i, id);
      assert front[..i] == log[..i];
    } else {
      assert log[..i] == log;
    }
  }

  /** What the log of a live subscription holds so far. */
  ghost predicate AckedAndOpen(log: seq<Obs>, id: nat) {
    && Settled(id, Answered) in log
    && forall o <- log :: o.id == id ==> !o.Closed? && !o.Released?
  }

  lemma {:induction false} LiveMeans(log: seq<Obs>, id: nat)
    ensures PhaseOf(log, id) == Live ==> AckedAndOpen(log, id)
    ensures PhaseOf(log, id) in {Unissued, Waiting(true), Waiting(false), Finished, Live} ==>
      forall o <- log :: o.id == id ==> !o.Closed? && !o.Released?
  {
    if log != [] {
      LiveMeans(log[..|log| - 1], id);
      assert log == log[..|log| - 1] + [log[|log| - 1]];
    }
  }

  /** An event or an `onClose` reaches a subscriber, and an unsub frame is sent, only
      after the ack and before the first end of the subscription, from either side.
      So `onClose` comes at most once, never after the subscriber released it, and
      no event follows it. */
  lemma SubscriptionsAreOrderly(run: seq<Step>, i: nat)
    requires i < |After(START, run).log|
    requires var o := After(START, run).log[i]; o.Event? || o.Closed? || (o.Released? && o.unsub)
    ensures var log := After(START, run).log; AckedAndOpen(log[..i], log[i].id)
  {
    ReachedInv(run);
    var v := After(START, run);
    var id := v.log[i].id;
    assert Agrees(v, id);
    NotBrokenBefore(v.log, i + 1, id);
    assert v.log[..i + 1] == v.log[..i] + [v.log[i]];
    PhaseSnoc(v.log[..i], v.log[i], id);
    LiveMeans(v.log[..i], id);
  }

  // ---- what the log so far calls for --------------------------------------

  predicate SettledIn(log: seq<Obs>, id: nat) {
    exists o <- log :: o.id == id && o.Settled?
  }

  predicate EndedIn(log: seq<Obs>, id: nat) {
    exists o <- log :: o.id == id && (o.Closed? || o.Released?)
  }

  /** Sent and not settled yet. */
  predicate Unanswered(log: seq<Obs>, id: nat, sub: bool) {
    Sent(id, sub) in log && !SettledIn(log, id)
  }

  /** Acked as a subscription, and ended by neither side. */
  predicate OpenIn(log: seq<Obs>, id: nat) {
    Sent(id, true) in log && Settled(id, Answered) in log && !EndedIn(log, id)
  }

  /** How far an id has come, in so many words. */
  ghost predicate PhaseSays(log: seq<Obs>, id: nat) {
    var p := PhaseOf(log, id);
    && (forall sub :: Sent(id, sub) in log ==> match p
          case Unissued => false
          case Waiting(s) => s == sub
          case Finished => !sub || Settled(id, Answered) !in log
          case _ => sub)
    && (p == Unissued ==> forall o <- log :: o.id != id)
    && (p.Waiting? ==> Sent(id, p.sub) in log)
    && (SettledIn(log, id) <==> p in {Finished, Live, Ended})
    && (p in {Live, Ended} ==> Sent(id, true) in log && Settled(id, Answered) in log)
    && (EndedIn(log, id) <==> p == Ended)
  }

  lemma {:induction false} PhaseReads(log: seq<Obs>, id: nat)
    requires PhaseOf(log, id) != Broken
    ensures PhaseSays(log, id)
  {
    if log != [] {
      var front, last := log[..|log| - 1], log[|log| - 1];
      assert log == front + [last];
      PhaseReads(front, id);
      assert forall o :: o in log <==> o in front || o == last;
    }
  }

  /** Over every run the log alone decides what a response does: it settles what has
      been sent and not settled, as answered or refused, and nothing else. */
  lemma ResponsesSettle(run: seq<Step>, id: nat, ok: bool)
    ensures var v := After(START, run);
      Next(v, Response(id, ok)).log == v.log +
        (if Unanswered(v.log, id, true) || Unanswered(v.log, id, false)
         then [Settled(id, if ok then Answered else Refused)] else [])
  {
    ReachedInv(run);
    var v := After(START, run);
    assert Agrees(v, id);
    PhaseReads(v.log, id);
    PendingEntry(v.pending, id);
    assert v.log + [] == v.log;
  }

  /** Likewise a timer that fires. */
  lemma TimersSettle(run: seq<Step>, id: nat)
    ensures var v := After(START, run);
      Next(v, Timer(id)).log == v.log +
        (if Unanswered(v.log, id, true) || Unanswered(v.log, id, false) then [Settled(id, TimedOut)] else [])
  {
    ReachedInv(run);
    var v := After(START, run);
    assert Agrees(v, id);
    PhaseReads(v.log, id);
    assert v.log + [] == v.log;
  }

  /** And what reaches a subscriber: an event, the child's end of the subscription, and
      with its own release an unsub frame, exactly while it is acked and not ended. */
  lemma OpenSubscriptionsDeliver(run: seq<Step>, id: nat, name: string)
    ensures var v := After(START, run); var live := OpenIn(v.log, id);
      && Next(v, HerdrEvent(id, name)).log == v.log + (if live then [Event(id, name)] else [])
      && Next(v, SubClosed(id)).log == v.log + (if live then [Closed(id)] else [])
      && (Settled(id, Answered) in v.log && Sent(id, true) in v.log ==>
            Next(v, Release(id)).log == v.log + [Released(id, live)])
  {
    ReachedInv(run);
    var v := After(START, run);
    assert Agrees(v, id);
    PhaseReads(v.log, id);
    assert v.log + [] == v.log;
  }

  /** The death of the tunnel settles as dead whatever is unanswered and closes whatever
      is open, and tells nobody else. */
  lemma DeathTells(run: seq<Step>, o: Obs)
    ensures var v := After(START, run); var said := Next(v, Gone).log[|v.log|..];
      && Next(v, Gone).log[..|v.log|] == v.log
      && (o in said <==>
            || (o == Settled(o.id, Dead) && (Unanswered(v.log, o.id, true) || Unanswered(v.log, o.id, false)))
            || (o == Closed(o.id) && OpenIn(v.log, o.id)))
  {
    ReachedInv(run);
    var v := After(START, run);
    assert Agrees(v, o.id);
    PhaseReads(v.log, o.id);
    PendingEntry(v.pending, o.id);
    var said := Next(v, Gone).log[|v.log|..];
    assert said == Deaths(v.pending) + Closures(v.subs);
    DeathsMembers(v.pending, o);
    ClosuresMembers(v.subs, o);
  }

  lemma DeathsMembers(pending: seq<Entry>, o: Obs)
    ensures o in Deaths(pending) <==> o == Settled(o.id, Dead) && IsPending(pending, o.id)
  {
    if o == Settled(o.id, Dead) && IsPending(pending, o.id) {
      var e :| e in pending && e.id == o.id;
      var i :| 0 <= i < |pending| && pending[i] == e;
      assert Deaths(pending)[i] == o;
    }
  }

  lemma ClosuresMembers(subs: seq<nat>, o: Obs)
    ensures o in Closures(subs) <==> o == Closed(o.id) && o.id in subs
  {
    if o == Closed(o.id) && o.id in subs {
      var i :| 0 <= i < |subs| && subs[i] == o.id;
      assert Closures(subs)[i] == o;
    }
  }

  /** Over every run a call sends one frame, under an id the log has never seen. */
  lemma IssuesAreNew(run: seq<Step>, sub: bool)
    ensures var v := After(START, run); var w := Next(v, Issue(sub));
      && w.log == v.log + [Sent(w.issued, sub)]
      && (forall o <- v.log :: o.id != w.issued)
      && Unanswered(w.log, w.issued, sub)
  {
    ReachedInv(run);
    var v := After(START, run);
    assert Agrees(v, v.issued + 1);
    PhaseReads(v.log, v.issued + 1);
  }
}
