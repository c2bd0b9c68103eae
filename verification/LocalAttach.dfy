/** The broker's attachment to its local sessions (src/local-attach.ts,
    `LocalHerdr`). Probes, re-lists and channel deaths overlap freely; object
    identity tells a continuation whether the session it captured is still the
    tracked one. Steps are the stretches between awaits. */
module LocalAttach {
  import opened JsText
  import Hub = HubRegistry

  type AgentInfo = Hub.AgentInfo

  /** A dedicated event channel. */
  class SessionEvents {
    const owner: TrackedSession
    const session: string
    const paneKey: string
    var open: bool

    constructor (owner: TrackedSession, session: string, paneKey: string)
      ensures this.owner == owner && this.session == session && this.paneKey == paneKey && open
    {
      this.owner, this.session, this.paneKey, this.open := owner, session, paneKey, true;
    }

    method Close()
      modifies this
      ensures !open
    {
      open := false;
    }
  }

  class TrackedSession {
    var events: SessionEvents?

    constructor ()
      ensures events == null
    {
      events := null;
    }
  }

  /** A probe in flight for one name: of a name not tracked, of a tracked session
      without a channel, or past its probe and joined. */
  datatype Probe = Fresh | Known(existing: TrackedSession) | Joined

  /** `tracked` and `channels` are all objects ever made; `events` the channel each
      tracked object points to; `registry` the agents recorded for a session. */
  datatype View = View(
    sessions: map<string, TrackedSession>, tracked: set<TrackedSession>,
    events: map<TrackedSession, SessionEvents>, channels: set<SessionEvents>, open: set<SessionEvents>,
    connecting: map<string, Probe>, stopped: bool, registry: map<string, seq<AgentInfo>>)

  datatype Step =
    | BeginProbe(name: string)
    | ProbeAnswered(name: string, made: TrackedSession)
    | ProbeFailed(name: string)
    | EndProbe(name: string)
    | ResumeRefresh(name: string, captured: TrackedSession, agents: seq<AgentInfo>, channel: SessionEvents)
    | AgentEvent(channel: SessionEvents, agent: AgentInfo)
    | ChannelClosed(channel: SessionEvents)
    | FreshList(name: string, agents: seq<AgentInfo>)
    | Forget(name: string)
    | Stop

  const START := View(map[], {}, map[], {}, {}, map[], false, map[])

  function Ids(agents: seq<AgentInfo>): seq<string> {
    if agents == [] then [] else [agents[0].id] + Ids(agents[1..])
  }

  function PaneKey(agents: seq<AgentInfo>): string {
    Join(Sort(Ids(agents)), ",")
  }

  /** Whether `t` is the object tracked under `name`. */
  predicate Current(v: View, name: string, t: TrackedSession) {
    name in v.sessions && v.sessions[name] == t
  }

  /** Closing whatever channel a tracked object points to. */
  function Shut(v: View, t: TrackedSession): set<SessionEvents> {
    if t in v.events then v.open - {v.events[t]} else v.open
  }

  predicate NeedsChannel(v: View, t: TrackedSession, agents: seq<AgentInfo>) {
    t !in v.events || v.events[t].paneKey != PaneKey(agents)
  }

  /** Whether a resumed refresh finds what it captured still tracked. */
  predicate Relists(v: View, name: string, captured: TrackedSession) {
    !v.stopped && Current(v, name, captured)
  }

  predicate Applies(v: View, s: Step) {
    s.ResumeRefresh? && Relists(v, s.name, s.captured)
  }

  function Next(v: View, s: Step): View {
    match s
    case BeginProbe(name) =>
      if name in v.connecting || (name in v.sessions && v.sessions[name] in v.events) then v
      else v.(connecting := v.connecting[name := if name in v.sessions then Known(v.sessions[name]) else Fresh])
    case ProbeAnswered(name, t) =>
      if name !in v.connecting || v.connecting[name] != Fresh then v
      else if v.stopped then v.(connecting := v.connecting - {name})
      else v.(sessions := v.sessions[name := t], tracked := v.tracked + {t}, connecting := v.connecting[name := Joined])
    case ProbeFailed(name) =>
      if name !in v.connecting then v
      else
        var w := v.(connecting := v.connecting - {name});
        if Retires(v, name) then w.(sessions := v.sessions - {name}, registry := v.registry - {name}) else w
    case EndProbe(name) => v.(connecting := v.connecting - {name})
    case ResumeRefresh(name, t, agents, channel) =>
      if !Applies(v, s) then v
      else
        var w := v.(registry := v.registry[name := agents]);
        if !NeedsChannel(v, t, agents) then w
        else w.(open := Shut(v, t) + {channel}, channels := v.channels + {channel}, events := v.events[t := channel])
    case AgentEvent(c, agent) =>
      if c !in v.open then v
      else
        var agents := if c.session in v.registry then v.registry[c.session] else [];
        v.(registry := v.registry[c.session := Hub.Upsert(agents, agent)])
    case ChannelClosed(c) =>
      v.(open := v.open - {c},
         events := if c.owner in v.events && v.events[c.owner] == c then v.events - {c.owner} else v.events)
    case FreshList(name, agents) => v.(registry := v.registry[name := agents])
    case Forget(name) =>
      if name !in v.sessions then v
      else v.(open := Shut(v, v.sessions[name]), sessions := v.sessions - {name}, registry := v.registry - {name})
    case Stop =>
      v.(stopped := true, sessions := map[],
         open := set c | c in v.open && !(exists t <- v.sessions.Values :: t in v.events && v.events[t] == c))
  }

  /** A failed probe of a session that is still the tracked one. */
  predicate Retires(v: View, name: string) {
    && name in v.connecting && v.connecting[name].Known?
    && !v.stopped && Current(v, name, v.connecting[name].existing)
  }

  /** New objects are new; only channels that were made can close. */
  predicate Possible(v: View, s: Step) {
    match s
    case ProbeAnswered(_, t) => t !in v.tracked && t !in v.events
    case ResumeRefresh(name, t, agents, c) =>
      t in v.tracked && c !in v.channels && c.owner == t && c.session == name && c.paneKey == PaneKey(agents)
    case ChannelClosed(c) => c in v.channels
    case _ => true
  }

  function After(v: View, run: seq<Step>): View
    decreases |run|
  {
    if run == [] then v else After(Next(v, run[0]), run[1..])
  }

  predicate PossibleRun(v: View, run: seq<Step>)
    decreases |run|
  {
    run == [] || (Possible(v, run[0]) && PossibleRun(Next(v, run[0]), run[1..]))
  }

  // ---- the invariant ------------------------------------------------------

  ghost predicate OneName(v: View) {
    forall m <- v.sessions, n <- v.sessions :: v.sessions[m] == v.sessions[n] ==> m == n
  }

  /** For a tracked session the only open channel is the one it points to. */
  ghost predicate OneChannel(v: View, name: string) {
    name in v.sessions ==>
      var t := v.sessions[name];
      && (t in v.events ==> v.events[t] in v.open)
      && forall c <- v.channels :: c.owner == t ==>
           c.session == name && (c in v.open <==> t in v.events && v.events[t] == c)
  }

  ghost predicate Inv(v: View) {
    && OneName(v)
    && v.sessions.Values <= v.tracked
    && v.open <= v.channels
    && (forall t <- v.events :: t in v.tracked && v.events[t] in v.channels && v.events[t].owner == t)
    && (forall c <- v.channels :: c.owner in v.tracked)
    && (forall name :: OneChannel(v, name))
    && (forall name <- v.connecting :: v.connecting[name] == Fresh ==> name !in v.sessions)
    && (v.stopped ==> v.sessions == map[])
  }

  lemma ProbeKeepsInv(v: View, s: Step)
    requires Inv(v) && Possible(v, s) && (s.BeginProbe? || s.ProbeAnswered? || s.ProbeFailed? || s.EndProbe?)
    ensures Inv(Next(v, s))
  {
    var w := Next(v, s);
    forall name ensures OneChannel(w, name) {
      assert OneChannel(v, name);
    }
  }

  lemma RefreshKeepsInv(v: View, s: Step)
    requires Inv(v) && Possible(v, s) && s.ResumeRefresh?
    ensures Inv(Next(v, s))
  {
    var w := Next(v, s);
    forall name ensures OneChannel(w, name) {
      assert OneChannel(v, name);
      assert OneChannel(v, s.name);
    }
  }

  lemma ClosingKeepsInv(v: View, s: Step)
    requires Inv(v) && Possible(v, s) && (s.AgentEvent? || s.ChannelClosed? || s.FreshList? || s.Forget? || s.Stop?)
    ensures Inv(Next(v, s))
  {
    var w := Next(v, s);
    forall name ensures OneChannel(w, name) {
      assert OneChannel(v, name);
    }
  }

  lemma StepKeepsInv(v: View, s: Step)
    requires Inv(v) && Possible(v, s)
    ensures Inv(Next(v, s))
  {
    match s
    case ResumeRefresh(_, _, _, _) => RefreshKeepsInv(v, s);
    case BeginProbe(_) => ProbeKeepsInv(v, s);
    case ProbeAnswered(_, _) => ProbeKeepsInv(v, s);
    case ProbeFailed(_) => ProbeKeepsInv(v, s);
    case EndProbe(_) => ProbeKeepsInv(v, s);
    case _ => ClosingKeepsInv(v, s);
  }

  lemma {:induction false} RunKeepsInv(v: View, run: seq<Step>)
    requires Inv(v) && PossibleRun(v, run)
    ensures Inv(After(v, run))
    decreases |run|
  {
    if run != [] {
      StepKeepsInv(v, run[0]);
      RunKeepsInv(Next(v, run[0]), run[1..]);
    }
  }

  /** Over every run a tracked session has no open channel but its own. */
  lemma OnlyOneChannelASession(run: seq<Step>, name: string)
    requires PossibleRun(START, run)
    ensures OneChannel(After(START, run), name)
  {
    forall n ensures OneChannel(START, n) {}
    RunKeepsInv(START, run);
  }

  // ---- stale continuations ------------------------------------------------

  /** An object that was tracked once and is not any more. */
  ghost predicate Stale(v: View, t: TrackedSession) {
    t in v.tracked && t !in v.sessions.Values
  }

  lemma StaleForGood(v: View, s: Step, t: TrackedSession)
    requires Inv(v) && Possible(v, s) && Stale(v, t)
    ensures Stale(Next(v, s), t)
  {
  }

  /** A refresh that captured a session which is no longer tracked does nothing,
      whatever happened in between, a new session of the same name included. */
  lemma {:induction false} StaleRefreshIsInert(v: View, run: seq<Step>, s: Step)
    requires Inv(v) && PossibleRun(v, run)
    requires s.ResumeRefresh? && Stale(v, s.captured)
    ensures Next(After(v, run), s) == After(v, run)
    decreases |run|
  {
    if run != [] {
      StaleForGood(v, run[0], s.captured);
      StepKeepsInv(v, run[0]);
      StaleRefreshIsInert(Next(v, run[0]), run[1..], s);
    }
  }

  lemma RefreshAcrossForget(v: View, run: seq<Step>, s: Step)
    requires Inv(v) && s.ResumeRefresh? && Current(v, s.name, s.captured)
    requires PossibleRun(Next(v, Forget(s.name)), run)
    ensures var w := After(Next(v, Forget(s.name)), run); Next(w, s) == w
  {
    StepKeepsInv(v, Forget(s.name));
    StaleRefreshIsInert(Next(v, Forget(s.name)), run, s);
  }

  lemma RefreshAcrossStop(v: View, run: seq<Step>, s: Step)
    requires Inv(v) && s.ResumeRefresh? && Current(v, s.name, s.captured)
    requires PossibleRun(Next(v, Stop), run)
    ensures var w := After(Next(v, Stop), run); Next(w, s) == w
  {
    StepKeepsInv(v, Stop);
    StaleRefreshIsInert(Next(v, Stop), run, s);
  }

  /** A probe that fails retires nothing but the session it captured, and that only
      while it is tracked; either way its name can be probed again. */
  lemma FailedProbesRetireTheirOwn(v: View, name: string)
    requires name in v.connecting && !v.stopped
    ensures var w := Next(v, ProbeFailed(name));
      && name !in w.connecting
      && (if v.connecting[name].Known? && name in v.sessions && v.sessions[name] == v.connecting[name].existing
          then w.sessions == v.sessions - {name} && w.registry == v.registry - {name}
          else w.sessions == v.sessions && w.registry == v.registry)
      && w.open == v.open && w.events == v.events
  {
  }

  /** However a probe ends, the name can be probed again, unless it has a channel. */
  lemma ProbesCanBeRepeated(v: View, s: Step)
    requires s.ProbeFailed? || s.EndProbe?
    ensures var w := Next(v, s);
      s.name in Next(w, BeginProbe(s.name)).connecting <==>
        !(s.name in w.sessions && w.sessions[s.name] in w.events)
  {
  }

  /** A probe starts for a name exactly when none is under way and it is not tracked or
      has no channel; what is tracked is remembered. */
  lemma ProbesStartIff(v: View, name: string)
    ensures var w := Next(v, BeginProbe(name));
      if name !in v.connecting && (name !in v.sessions || v.sessions[name] !in v.events)
      then w.connecting == v.connecting[name := if name in v.sessions then Known(v.sessions[name]) else Fresh]
      else w == v
  {
  }

  /** A probe that is answered after the stop only gives its name free. */
  lemma AnsweredAfterStop(v: View, name: string, t: TrackedSession)
    requires v.stopped && name in v.connecting && v.connecting[name] == Fresh
    ensures Next(v, ProbeAnswered(name, t)) == v.(connecting := v.connecting - {name})
  {
  }

  /** A status event puts its agent into its session's list, in place of the one with
      its id, and keeps every other agent and every other session. */
  lemma StatusesAreRecorded(v: View, c: SessionEvents, agent: AgentInfo)
    requires c in v.open
    ensures var w := Next(v, AgentEvent(c, agent));
      && c.session in w.registry && agent in w.registry[c.session]
      && (forall name :: name != c.session ==> (name in w.registry <==> name in v.registry))
      && (forall name <- v.registry :: name != c.session ==> w.registry[name] == v.registry[name])
      && (c.session in v.registry ==>
            forall a <- v.registry[c.session] :: a.id != agent.id ==> a in w.registry[c.session])
  {
    var agents := if c.session in v.registry then v.registry[c.session] else [];
    Hub.UpsertOne(agents, agent);
    forall a | a in agents && a.id != agent.id ensures a in Hub.Upsert(agents, agent) {
      var i :| 0 <= i < |agents| && agents[i] == a;
      assert Hub.Upsert(agents, agent)[i] == a;
    }
  }

  // ---- leaks --------------------------------------------------------------

  ghost predicate NoLeak(v: View) {
    forall c <- v.open :: c.owner in v.sessions.Values
  }

  /** A failed probe retires a session that has a channel all the same, because an
      overlapping refresh opened one meanwhile. */
  predicate RetiresWithChannel(v: View, s: Step) {
    s.ProbeFailed? && Retires(v, s.name) && v.sessions[s.name] in v.events
  }

  lemma OwnerStays(v: View, s: Step, c: SessionEvents, name: string)
    requires Inv(v) && Possible(v, s) && !RetiresWithChannel(v, s)
    requires c in v.open && Current(v, name, c.owner) && c in Next(v, s).open
    ensures Current(Next(v, s), name, c.owner)
  {
    assert OneChannel(v, name);
  }

  lemma OwnerIsCurrent(v: View, s: Step, c: SessionEvents)
    requires Possible(v, s) && c !in v.open && c in Next(v, s).open
    ensures s.ResumeRefresh? && c.owner == s.captured && Current(Next(v, s), s.name, c.owner)
  {
  }

  lemma OwnersStay(v: View, s: Step)
    requires Inv(v) && Possible(v, s) && NoLeak(v) && !RetiresWithChannel(v, s)
    ensures NoLeak(Next(v, s))
  {
    var w := Next(v, s);
    forall c | c in w.open ensures c.owner in w.sessions.Values {
      if c in v.open {
        var name :| name in v.sessions && v.sessions[name] == c.owner;
        OwnerStays(v, s, c, name);
      } else {
        OwnerIsCurrent(v, s, c);
      }
    }
  }

  /** Every open channel stays with a tracked session, except across exactly that
      failed probe. */
  lemma LeaksExactlyWhen(v: View, s: Step)
    requires Inv(v) && Possible(v, s) && NoLeak(v)
    ensures NoLeak(Next(v, s)) <==> !RetiresWithChannel(v, s)
  {
    if RetiresWithChannel(v, s) {
      var t := v.sessions[s.name];
      assert OneChannel(v, s.name);
      var w := Next(v, s);
      assert v.events[t] in w.open;
      forall n | n in w.sessions ensures w.sessions[n] != t {
        assert n in v.sessions && n != s.name;
      }
    } else {
      OwnersStay(v, s);
    }
  }

  ghost predicate NeverLeaks(v: View, run: seq<Step>)
    decreases |run|
  {
    run == [] || (!RetiresWithChannel(v, run[0]) && NeverLeaks(Next(v, run[0]), run[1..]))
  }

  /** What the registry lists for this machine is tracked, until the stop. */
  ghost predicate ListsTracked(v: View) {
    v.stopped || v.registry.Keys <= v.sessions.Keys
  }

  /** A write for a session that is not tracked: a list fetched before the session was
      retired, or a status event from a leaked channel. */
  predicate Strays(v: View, s: Step) {
    !v.stopped && match s
      case FreshList(name, _) => name !in v.sessions
      case AgentEvent(c, _) => c in v.open && c.session !in v.sessions
      case _ => false
  }

  lemma StraysExactlyWhen(v: View, s: Step)
    requires Inv(v) && ListsTracked(v)
    ensures ListsTracked(Next(v, s)) <==> !Strays(v, s)
  {
    var w := Next(v, s);
    if Strays(v, s) {
      var name := if s.FreshList? then s.name else s.channel.session;
      assert name in w.registry.Keys && name !in w.sessions.Keys;
    } else {
      assert !w.stopped ==> w.registry.Keys <= w.sessions.Keys;
    }
  }

  predicate NeverStrays(v: View, run: seq<Step>)
    decreases |run|
  {
    run == [] || (!Strays(v, run[0]) && NeverStrays(Next(v, run[0]), run[1..]))
  }

  lemma {:induction false} RunListsTracked(v: View, run: seq<Step>)
    requires Inv(v) && ListsTracked(v) && PossibleRun(v, run) && NeverStrays(v, run)
    ensures ListsTracked(After(v, run))
    decreases |run|
  {
    if run != [] {
      StepKeepsInv(v, run[0]);
      StraysExactlyWhen(v, run[0]);
      RunListsTracked(Next(v, run[0]), run[1..]);
    }
  }

  predicate NoLateList(v: View, run: seq<Step>)
    decreases |run|
  {
    run == [] || (!(run[0].FreshList? && Strays(v, run[0])) && NoLateList(Next(v, run[0]), run[1..]))
  }

  /** Without a leak only a late list can stray. */
  lemma {:induction false} TidyRunsNeverStray(v: View, run: seq<Step>)
    requires Inv(v) && NoLeak(v) && PossibleRun(v, run) && NeverLeaks(v, run) && NoLateList(v, run)
    ensures NeverStrays(v, run)
    decreases |run|
  {
    if run != [] {
      var s := run[0];
      if s.AgentEvent? && s.channel in v.open {
        var name :| name in v.sessions && v.sessions[name] == s.channel.owner;
        assert OneChannel(v, name);
      }
      StepKeepsInv(v, s);
      OwnersStay(v, s);
      TidyRunsNeverStray(Next(v, s), run[1..]);
    }
  }

  /** The registry as the fetched lists of a run leave it. */
  function FreshWrites(registry: map<string, seq<AgentInfo>>, run: seq<Step>): map<string, seq<AgentInfo>>
    decreases |run|
  {
    if run == [] then registry
    else FreshWrites(if run[0].FreshList? then registry[run[0].name := run[0].agents] else registry, run[1..])
  }

  /** After the stop nothing is open, nothing opens, and only lists that were being
      fetched are still written to the registry. */
  lemma {:induction false} StoppedForGood(v: View, run: seq<Step>)
    requires Inv(v) && v.stopped && v.open == {} && PossibleRun(v, run)
    ensures var w := After(v, run);
      w.stopped && w.open == {} && w.sessions == map[] && w.registry == FreshWrites(v.registry, run)
    decreases |run|
  {
    if run != [] {
      StepKeepsInv(v, run[0]);
      StoppedForGood(Next(v, run[0]), run[1..]);
    }
  }

  /** The stop closes every channel exactly when none has leaked before. */
  lemma StopClosesAllIff(v: View)
    requires Inv(v)
    ensures Next(v, Stop).open == {} <==> NoLeak(v)
  {
    var w := Next(v, Stop);
    if NoLeak(v) {
      OwnersStay(v, Stop);
      assert NoLeak(w) && w.sessions == map[];
    } else {
      var c :| c in v.open && c.owner !in v.sessions.Values;
      assert forall t <- v.sessions.Values :: t in v.events ==> v.events[t].owner == t;
      assert c in w.open;
    }
  }

  lemma StopEndsEverything(v: View, run: seq<Step>)
    requires Inv(v) && NoLeak(v) && PossibleRun(Next(v, Stop), run)
    ensures var w := After(Next(v, Stop), run);
      w.open == {} && w.sessions == map[] && w.registry == FreshWrites(v.registry, run)
  {
    StepKeepsInv(v, Stop);
    StopClosesAllIff(v);
    StoppedForGood(Next(v, Stop), run);
  }

  // ---- the runs that go wrong ---------------------------------------------

  lemma {:induction false} RunConcat(v: View, a: seq<Step>, b: seq<Step>)
    ensures After(v, a + b) == After(After(v, a), b)
    ensures PossibleRun(v, a + b) == (PossibleRun(v, a) && PossibleRun(After(v, a), b))
    decreases |a|
  {
    if a == [] {
      assert a + b == b;
    } else {
      assert (a + b)[1..] == a[1..] + b;
      RunConcat(Next(v, a[0]), a[1..], b);
    }
  }

  lemma TwoSteps(v: View, a: Step, b: Step)
    ensures After(v, [a, b]) == Next(Next(v, a), b)
    ensures PossibleRun(v, [a, b]) == (Possible(v, a) && Possible(Next(v, a), b))
  {
    hide Next, Possible;
    assert [a, b][1..] == [b] && [b][1..] == [];
    assert After(Next(v, a), [b]) == Next(Next(v, a), b);
    assert PossibleRun(Next(v, a), [b]) == Possible(Next(v, a), b);
  }

  /** A session that was tracked, listed, and has lost its channel. */
  function Down(name: string, t: TrackedSession, one: SessionEvents): View {
    View(map[name := t], {t}, map[], {one}, {}, map[], false, map[name := []])
  }

  /** Its probe is under way. */
  function Probing(name: string, t: TrackedSession, one: SessionEvents): View {
    Down(name, t, one).(connecting := map[name := Known(t)])
  }

  lemma ItGoesDown(name: string, t: TrackedSession, one: SessionEvents) returns (run: seq<Step>)
    requires one.owner == t && one.session == name && one.paneKey == PaneKey([])
    ensures PossibleRun(START, run) && After(START, run) == Down(name, t, one)
  {
    hide PaneKey;
    var asked := View(map[], {}, map[], {}, {}, map[name := Fresh], false, map[]);
    var found := View(map[name := t], {t}, map[], {}, {}, map[name := Joined], false, map[]);
    var up := View(map[name := t], {t}, map[t := one], {one}, {one}, map[name := Joined], false, map[name := []]);
    var idle := up.(connecting := map[]);
    assert Next(START, BeginProbe(name)) == asked;
    assert Next(asked, ProbeAnswered(name, t)) == found;
    TwoSteps(START, BeginProbe(name), ProbeAnswered(name, t));
    assert Next(found, ResumeRefresh(name, t, [], one)) == up;
    assert Next(up, EndProbe(name)) == idle;
    TwoSteps(found, ResumeRefresh(name, t, [], one), EndProbe(name));
    assert map[t := one] - {t} == map[];
    assert Next(idle, ChannelClosed(one)) == Down(name, t, one);
    assert After(idle, [ChannelClosed(one)]) == Next(idle, ChannelClosed(one))
        by { assert [ChannelClosed(one)][1..] == []; }
    assert PossibleRun(idle, [ChannelClosed(one)]) by { assert [ChannelClosed(one)][1..] == []; }
    hide Next, Possible;
    RunConcat(found, [ResumeRefresh(name, t, [], one), EndProbe(name)], [ChannelClosed(one)]);
    RunConcat(START, [BeginProbe(name), ProbeAnswered(name, t)],
              [ResumeRefresh(name, t, [], one), EndProbe(name)] + [ChannelClosed(one)]);
    run := [BeginProbe(name), ProbeAnswered(name, t)]
         + ([ResumeRefresh(name, t, [], one), EndProbe(name)] + [ChannelClosed(one)]);
  }

  /** That failed probe can happen: the channel dies, a re-list that was already
      under way resumes during the probe, and the probe then fails. */
  lemma ALeakIsReachable(name: string, t: TrackedSession, one: SessionEvents, two: SessionEvents)
      returns (run: seq<Step>)
    requires one != two && forall c <- {one, two} :: c.owner == t && c.session == name && c.paneKey == PaneKey([])
    ensures PossibleRun(START, run) && !NoLeak(After(START, run))
  {
    hide PaneKey;
    var down, probing := Down(name, t, one), Probing(name, t, one);
    var before := ItGoesDown(name, t, one);
    var last := [BeginProbe(name), ResumeRefresh(name, t, [], two)] + [ProbeFailed(name)];
    var reopened := probing.(events := map[t := two], channels := {one, two}, open := {two});
    assert Next(down, BeginProbe(name)) == probing;
    assert Next(probing, ResumeRefresh(name, t, [], two)) == reopened;
    TwoSteps(down, BeginProbe(name), ResumeRefresh(name, t, [], two));
    assert After(reopened, [ProbeFailed(name)]) == Next(reopened, ProbeFailed(name))
        by { assert [ProbeFailed(name)][1..] == []; }
    assert PossibleRun(reopened, [ProbeFailed(name)]) by { assert [ProbeFailed(name)][1..] == []; }
    assert two in Next(reopened, ProbeFailed(name)).open && Next(reopened, ProbeFailed(name)).sessions == map[];
    hide Next, Possible;
    RunConcat(down, [BeginProbe(name), ResumeRefresh(name, t, [], two)], [ProbeFailed(name)]);
    RunConcat(START, before, last);
    run := before + last;
  }

  /** A list can come late: while it is being fetched the session's probe fails, which
      retires it, and the list then puts it back into the registry. */
  lemma AListComesLate(name: string, t: TrackedSession, one: SessionEvents, agents: seq<AgentInfo>)
      returns (run: seq<Step>)
    requires one.owner == t && one.session == name && one.paneKey == PaneKey([])
    ensures PossibleRun(START, run) && !ListsTracked(After(START, run)) && NoLeak(After(START, run))
  {
    hide PaneKey;
    var down, probing := Down(name, t, one), Probing(name, t, one);
    var before := ItGoesDown(name, t, one);
    var last := [BeginProbe(name), ProbeFailed(name)] + [FreshList(name, agents)];
    var gone := Next(probing, ProbeFailed(name));
    assert Next(down, BeginProbe(name)) == probing;
    TwoSteps(down, BeginProbe(name), ProbeFailed(name));
    assert After(gone, [FreshList(name, agents)]) == Next(gone, FreshList(name, agents)) by {
      assert [FreshList(name, agents)][1..] == [];
    }
    assert PossibleRun(gone, [FreshList(name, agents)]) by { assert [FreshList(name, agents)][1..] == []; }
    assert gone.sessions == map[] && gone.open == {};
    var w := Next(gone, FreshList(name, agents));
    assert name in w.registry.Keys && name !in w.sessions.Keys && w.open == {};
    hide Next, Possible;
    RunConcat(down, [BeginProbe(name), ProbeFailed(name)], [FreshList(name, agents)]);
    RunConcat(START, before, last);
    run := before + last;
  }

  // ---- what a channel listens to ------------------------------------------

  /** The panes named in a channel's subscriptions. */
  function SubscribedPanes(key: string): seq<string> {
    if key == "" then [] else Split(key, ',')
  }

  lemma KeyListsPanes(agents: seq<AgentInfo>)
    requires forall id <- Ids(agents) :: id != "" && ',' !in id
    ensures multiset(SubscribedPanes(PaneKey(agents))) == multiset(Ids(agents))
  {
    var sorted := Sort(Ids(agents));
    SortSorts(Ids(agents));
    assert forall a <- sorted :: a in multiset(sorted);
    if sorted != [] {
      assert sorted[0] in sorted;
      SplitJoin(sorted, ',');
      assert Join(sorted, ",") != "";
    }
  }

  lemma {:induction false} IdsAre(agents: seq<AgentInfo>)
    ensures |Ids(agents)| == |agents| && forall i :: 0 <= i < |agents| ==> Ids(agents)[i] == agents[i].id
  {
    if agents != [] { IdsAre(agents[1..]); }
  }

  /** A pane is listened to if and only if an agent with its id was listed. */
  lemma PanesAreTheAgents(agents: seq<AgentInfo>, pane: string)
    requires forall a <- agents :: a.id != "" && ',' !in a.id
    ensures pane in SubscribedPanes(PaneKey(agents)) <==> exists a <- agents :: a.id == pane
  {
    IdsAre(agents);
    forall id <- Ids(agents) ensures id != "" && ',' !in id {
      var i :| 0 <= i < |agents| && Ids(agents)[i] == id;
      assert agents[i] in agents;
    }
    KeyListsPanes(agents);
    assert pane in SubscribedPanes(PaneKey(agents)) <==> pane in multiset(Ids(agents));
    if a :| a in agents && a.id == pane {
      var i :| 0 <= i < |agents| && agents[i] == a;
      assert Ids(agents)[i] == pane;
    }
    if pane in Ids(agents) {
      var i :| 0 <= i < |agents| && Ids(agents)[i] == pane;
      assert agents[i] in agents;
    }
  }

  /** A re-list that goes through leaves the session with an open channel that
      listens to exactly the panes it recorded. */
  lemma RefreshSubscribes(v: View, s: Step)
    requires Inv(v) && Possible(v, s) && Applies(v, s)
    requires forall id <- Ids(s.agents) :: id != "" && ',' !in id
    ensures var w := Next(v, s);
      && s.name in w.registry && w.registry[s.name] == s.agents
      && s.captured in w.events && w.events[s.captured] in w.open
      && multiset(SubscribedPanes(w.events[s.captured].paneKey)) == multiset(Ids(s.agents))
  {
    KeyListsPanes(s.agents);
    assert OneChannel(v, s.name);
  }

  // ---- the attachment -----------------------------------------------------

  /** Channel `c` belongs to one of these sessions. */
  ghost predicate ShutBy(v: View, names: set<string>, c: SessionEvents) {
    exists n <- names :: n in v.sessions && v.sessions[n] in v.events && v.events[v.sessions[n]] == c
  }

  lemma ShutByOneMore(v: View, names: set<string>, name: string)
    requires name in v.sessions
    ensures forall c :: ShutBy(v, names + {name}, c) <==>
      ShutBy(v, names, c) || (v.sessions[name] in v.events && v.events[v.sessions[name]] == c)
  {
    forall c ensures ShutBy(v, names + {name}, c) <==>
      ShutBy(v, names, c) || (v.sessions[name] in v.events && v.events[v.sessions[name]] == c)
    {
      assert forall n :: n in names + {name} <==> n in names || n == name;
    }
  }

  ghost function ShutAll(v: View, names: set<string>): View {
    v.(open := set c | c in v.open && !ShutBy(v, names, c))
  }

  lemma ShutNone(v: View)
    ensures ShutAll(v, {}) == v
  {
    assert forall c <- v.open :: !ShutBy(v, {}, c);
  }

  lemma ShutAllAndOne(v: View, names: set<string>, name: string)
    requires name in v.sessions
    ensures var w := ShutAll(v, names); w.(open := Shut(w, v.sessions[name])) == ShutAll(v, names + {name})
  {
    ShutByOneMore(v, names, name);
  }

  lemma StopIs(v: View)
    ensures Next(v, Stop) == ShutAll(v, v.sessions.Keys).(stopped := true, sessions := map[])
  {
    forall c ensures ShutBy(v, v.sessions.Keys, c) <==>
        exists t <- v.sessions.Values :: t in v.events && v.events[t] == c {
      assert forall n <- v.sessions :: v.sessions[n] in v.sessions.Values;
    }
  }

  lemma ClosedIs(v: View, c: SessionEvents)
    ensures Next(v, ChannelClosed(c)) == v.(open := v.open - {c},
      events := if c.owner in v.events && v.events[c.owner] == c then v.events - {c.owner} else v.events)
  {
  }

  lemma ForgetIs(v: View, name: string)
    ensures Next(v, Forget(name)) == if name !in v.sessions then v
      else v.(open := Shut(v, v.sessions[name]), sessions := v.sessions - {name}, registry := v.registry - {name})
  {
  }

  lemma RelistIs(v: View, name: string, t: TrackedSession, agents: seq<AgentInfo>, channel: SessionEvents)
    requires Relists(v, name, t) && NeedsChannel(v, t, agents)
    ensures Next(v, ResumeRefresh(name, t, agents, channel)) ==
      v.(registry := v.registry[name := agents], open := Shut(v, t) + {channel},
         channels := v.channels + {channel}, events := v.events[t := channel])
  {
  }

  class LocalHerdr {
    var sessions: map<string, TrackedSession>
    var connecting: map<string, Probe>
    var stopped: bool
    var registry: map<string, seq<AgentInfo>>
    ghost var tracked: set<TrackedSession>
    ghost var channels: set<SessionEvents>

    ghost predicate Valid() reads this, tracked {
      && sessions.Values <= tracked
      && (forall t <- tracked :: t.events != null ==> t.events in channels)
      && (forall c <- channels :: c.owner in tracked)
    }

    ghost function Events(): map<TrackedSession, SessionEvents> reads this`tracked, tracked {
      map t | t in tracked && t.events != null :: t.events
    }

    ghost function Open(): set<SessionEvents> reads this`channels, channels {
      set c | c in channels && c.open
    }

    ghost function Now(): View reads this, tracked, channels {
      View(sessions, tracked, Events(), channels, Open(), connecting, stopped, registry)
    }

    constructor ()
      ensures Valid() && Now() == START
    {
      sessions, connecting, stopped, registry, tracked, channels := map[], map[], false, map[], {}, {};
    }

    /** One endpoint of a rescan, up to the ping; `true` when a ping was sent. */
    method VisitEndpoint(name: string) returns (probing: bool)
      requires Valid()
      modifies this`connecting
      ensures Valid() && Now() == Next(old(Now()), BeginProbe(name))
      ensures probing <==> name !in old(connecting) && name in connecting
    {
      if name in connecting { return false; }
      if name in sessions {
        if sessions[name].events == null {
          connecting := connecting[name := Known(sessions[name])];
          return true;
        }
        return false;
      }
      connecting := connecting[name := Fresh];
      probing := true;
    }

    method OnProbeAnswered(name: string) returns (made: TrackedSession?)
      requires Valid() && name in connecting && connecting[name] == Fresh
      modifies this
      ensures Valid() && (made == null <==> old(stopped)) && (made != null ==> fresh(made) && made.events == null)
      ensures made == null ==> Now() == old(Now()).(connecting := old(connecting) - {name})
      ensures made != null ==> Now() == Next(old(Now()), ProbeAnswered(name, made))
    {
      if stopped {
        connecting := connecting - {name};
        return null;
      }
      made := new TrackedSession();
      tracked := tracked + {made};
      sessions := sessions[name := made];
      connecting := connecting[name := Joined];
    }

    method OnProbeFailed(name: string)
      requires Valid() && name in connecting
      modifies this
      ensures Valid() && Now() == Next(old(Now()), ProbeFailed(name))
    {
      if connecting[name].Known? && !stopped && name in sessions && sessions[name] == connecting[name].existing {
        sessions := sessions - {name};
        registry := registry - {name};
      }
      connecting := connecting - {name};
    }

    method OnProbeDone(name: string)
      requires Valid()
      modifies this`connecting
      ensures Valid() && Now() == Next(old(Now()), EndProbe(name))
    {
      connecting := connecting - {name};
    }

    /** A re-list once herdr has answered (or failed, with no agents); the new
        channel, when one was needed. */
    method Refresh(name: string, captured: TrackedSession, agents: seq<AgentInfo>) returns (channel: SessionEvents?)
      requires Valid() && captured in tracked
      modifies this, captured, channels
      ensures Valid() && (channel != null ==> fresh(channel))
      ensures channel != null ==> channel.owner == captured && channel.session == name
      ensures channel != null ==> channel.paneKey == PaneKey(agents)
      ensures channel != null <==> Relists(old(Now()), name, captured) && NeedsChannel(old(Now()), captured, agents)
      ensures channel != null ==> Now() == Next(old(Now()), ResumeRefresh(name, captured, agents, channel))
      ensures channel == null && Relists(old(Now()), name, captured) ==>
          Now() == old(Now()).(registry := old(registry)[name := agents])
      ensures channel == null && !Relists(old(Now()), name, captured) ==> Now() == old(Now())
    {
      ghost var was := Now();
      if stopped || name !in sessions || sessions[name] != captured { return null; }
      registry := registry[name := agents];
      ghost var listed := Now();
      assert listed == was.(registry := was.registry[name := agents]);
      if captured.events == null || captured.events.paneKey != PaneKey(agents) {
        channel := Reopen(name, captured, PaneKey(agents));
        RelistIs(was, name, captured, agents, channel);
      } else {
        channel := null;
      }
    }

    method Reopen(name: string, t: TrackedSession, key: string) returns (channel: SessionEvents)
      requires Valid() && t in tracked
      modifies this`channels, t, channels
      ensures Valid() && fresh(channel)
      ensures channel.owner == t && channel.session == name && channel.paneKey == key
      ensures Now() == old(Now()).(open := Shut(old(Now()), t) + {channel},
        channels := old(channels) + {channel}, events := old(Events())[t := channel])
    {
      CloseOne(t);
      hide Shut;
      ghost var shut := Now();
      channel := new SessionEvents(t, name, key);
      assert Now() == shut && Valid();
      Point(t, channel);
    }

    method Point(t: TrackedSession, channel: SessionEvents)
      requires Valid() && t in tracked && channel.owner == t && channel.open && channel !in channels
      modifies this`channels, t
      ensures Valid() && Now() == old(Now()).(open := old(Open()) + {channel},
        channels := old(channels) + {channel}, events := old(Events())[t := channel])
    {
      channels := channels + {channel};
      t.events := channel;
    }

    method OnAgentEvent(channel: SessionEvents, agent: AgentInfo)
      requires Valid() && channel in channels && channel.open
      modifies this`registry
      ensures Valid() && Now() == Next(old(Now()), AgentEvent(channel, agent))
    {
      var agents := if channel.session in registry then registry[channel.session] else [];
      agents := Hub.UpsertAgent(agents, agent);
      registry := registry[channel.session := agents];
    }

    /** A list of agents that was asked for over HTTP has come in; nothing is checked. */
    method OnFreshList(name: string, agents: seq<AgentInfo>)
      requires Valid()
      modifies this`registry
      ensures Valid() && Now() == Next(old(Now()), FreshList(name, agents))
    {
      registry := registry[name := agents];
    }

    method OnChannelClosed(channel: SessionEvents)
      requires Valid() && channel in channels
      modifies channel, channel.owner
      ensures Valid() && Now() == Next(old(Now()), ChannelClosed(channel))
    {
      hide Next;
      ClosedIs(Now(), channel);
      ghost var was := Now();
      channel.open := false;
      assert Now() == was.(open := was.open - {channel});
      if channel.owner.events == channel { Unpoint(channel.owner); }
    }

    method Unpoint(t: TrackedSession)
      requires Valid() && t in tracked
      modifies t
      ensures Valid() && Now() == old(Now()).(events := old(Events()) - {t})
    {
      t.events := null;
    }

    method ForgetSession(name: string)
      requires Valid()
      modifies this, channels
      ensures Valid() && Now() == Next(old(Now()), Forget(name))
    {
      hide Next;
      ForgetIs(Now(), name);
      if name !in sessions { return; }
      hide Shut;
      CloseOne(sessions[name]);
      Untrack(name);
    }

    method Untrack(name: string)
      requires Valid()
      modifies this`sessions, this`registry
      ensures Valid() && Now() == old(Now()).(sessions := old(sessions) - {name}, registry := old(registry) - {name})
    {
      sessions := sessions - {name};
      registry := registry - {name};
    }

    method StopAll()
      requires Valid()
      modifies this, channels
      ensures Valid() && Now() == Next(old(Now()), Stop)
    {
      ghost var was := Now();
      CloseAll();
      stopped := true;
      sessions := map[];
      StopIs(was);
    }

    method CloseAll()
      requires Valid()
      modifies channels
      ensures Valid()
      ensures Now() == ShutAll(old(Now()), old(Now()).sessions.Keys)
    {
      hide Shut, ShutAll, ShutBy;
      ghost var was := Now();
      ghost var shut: set<string> := {};
      var left := sessions.Keys;
      ShutNone(was);
      while left != {}
        invariant left <= sessions.Keys && Valid() && sessions == was.sessions
        invariant shut + left == sessions.Keys && Now() == ShutAll(was, shut)
        decreases |left|
      {
        var name :| name in left;
        ShutAllAndOne(was, shut, name);
        CloseOne(sessions[name]);
        shut, left := shut + {name}, left - {name};
      }
      assert shut == sessions.Keys;
    }

    method CloseOne(t: TrackedSession)
      requires Valid() && t in tracked
      modifies if t.events == null then {} else {t.events}
      ensures Valid() && Now() == old(Now()).(open := Shut(old(Now()), t))
    {
      if t.events != null { t.events.Close(); }
    }
  }
}
