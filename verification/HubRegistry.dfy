/** The parent's view of its children: the hub's connections (src/tunnel.ts,
    `TunnelHub`), the registry they write (src/registry.ts) and the enrolment step
    that writes both (src/ws-server.ts, `acceptChild`). */
module HubRegistry {
  import opened Wrappers
  import opened JsText
  import ChildTunnel

  type ChildConnection = ChildTunnel.ChildConnection

  const PROTO_VERSION: int := 2

  datatype Status = Working | Blocked | Idle
  datatype AgentInfo = AgentInfo(id: string, title: string, status: Status)
  type Sessions = map<string, seq<AgentInfo>>
  datatype Snapshot = Snapshot(platform: string, herdrVersion: string, sessions: Sessions)
  datatype Stored = Stored(online: bool, snapshot: Snapshot)

  /** The first frame of an enrolling child. */
  datatype Hello = Malformed | OtherType | Hello(proto: int, snapshot: Snapshot)

  /** Later frames that reach the registry; any other frame leaves it alone. */
  datatype TunnelEvent =
    | AgentStatus(session: string, agent: AgentInfo)
    | SessionAdded(session: string, agents: seq<AgentInfo>)
    | SessionRemoved(session: string)
    | NewSnapshot(snapshot: Snapshot)

  /** What the registry announces: a name's coming and going, and every event it
      applies. */
  datatype Note = WentOnline(name: string) | WentOffline(name: string) | Applied(name: string, event: TunnelEvent)

  /** What the child's end of the tunnel sends: it relays no snapshots. */
  predicate Relayed(e: TunnelEvent) { !e.NewSnapshot? }

  /** The registry's entries and what it has announced. */
  datatype Book = Book(instances: map<string, Stored>, notes: seq<Note>)

  datatype View = View(children: map<string, ChildConnection>, book: Book)

  datatype Step =
    | Greet(conn: ChildConnection, hello: Hello)
    | Frame(conn: ChildConnection, event: TunnelEvent)
    | Death(conn: ChildConnection)
    | LocalEvent(name: string, event: TunnelEvent)
    | RuntimeSnapshot(snapshot: Snapshot)

  // ---- the registry -------------------------------------------------------

  function Upsert(agents: seq<AgentInfo>, agent: AgentInfo): seq<AgentInfo> {
    if agents == [] then [agent]
    else if agents[0].id == agent.id then [agent] + agents[1..]
    else [agents[0]] + Upsert(agents[1..], agent)
  }

  function AgentsOf(sessions: Sessions, session: string): seq<AgentInfo> {
    if session in sessions then sessions[session] else []
  }

  function ApplySession(sessions: Sessions, e: TunnelEvent): Sessions
    requires Relayed(e)
  {
    match e
    case AgentStatus(session, agent) => sessions[session := Upsert(AgentsOf(sessions, session), agent)]
    case SessionAdded(session, agents) => sessions[session := agents]
    case SessionRemoved(session) => sessions - {session}
  }

  predicate Online(b: Book, name: string) {
    name in b.instances && b.instances[name].online
  }

  /** The registry after an event and what it announces. */
  function Apply(b: Book, name: string, e: TunnelEvent): Book {
    match e
    case NewSnapshot(snapshot) =>
      b.(instances := b.instances[name := Stored(true, snapshot)],
         notes := (if Online(b, name) then b.notes else b.notes + [WentOnline(name)]) + [Applied(name, e)])
    case _ =>
      if name !in b.instances then b
      else
        var entry := b.instances[name];
        b.(instances := b.instances[name :=
            entry.(snapshot := entry.snapshot.(sessions := ApplySession(entry.snapshot.sessions, e)))],
            notes := b.notes + [Applied(name, e)])
  }

  function MarkOffline(b: Book, name: string): Book {
    if !Online(b, name) then b
    else b.(instances := b.instances[name := b.instances[name].(online := false)],
        notes := b.notes + [WentOffline(name)])
  }

  predicate Accepted(hello: Hello) { hello.Hello? && hello.proto == PROTO_VERSION }

  function Next(v: View, s: Step): View {
    match s
    case Greet(conn, hello) =>
      if !Accepted(hello) then v
      else
        View(v.children[conn.name := conn], Apply(v.book, conn.name, NewSnapshot(hello.snapshot)))
    case Frame(conn, e) => v.(book := Apply(v.book, conn.name, e))
    case Death(conn) =>
      if conn.name in v.children && v.children[conn.name] == conn
      then View(v.children - {conn.name}, MarkOffline(v.book, conn.name))
      else v
    case LocalEvent(name, e) => v.(book := Apply(v.book, name, e))
    case RuntimeSnapshot(snapshot) => v.(book := Apply(v.book, "runtime", NewSnapshot(snapshot)))
  }

  function After(v: View, run: seq<Step>): View
    decreases |run|
  {
    if run == [] then v else After(Next(v, run[0]), run[1..])
  }

  // ---- the objects --------------------------------------------------------

  method UpsertAgent(agents: seq<AgentInfo>, agent: AgentInfo) returns (out: seq<AgentInfo>)
    ensures out == Upsert(agents, agent)
  {
    var i := 0;
    while i < |agents| && agents[i].id != agent.id
      invariant 0 <= i <= |agents|
      invariant Upsert(agents, agent) == agents[..i] + Upsert(agents[i..], agent)
    {
      assert agents[i..][1..] == agents[i + 1..];
      assert agents[..i] + ([agents[i]] + Upsert(agents[i + 1..], agent)) ==
          agents[..i + 1] + Upsert(agents[i + 1..], agent);
      i := i + 1;
    }
    if i == |agents| { return agents + [agent]; }
    assert agents[i..][1..] == agents[i + 1..];
    assert agents[i := agent] == agents[..i] + ([agent] + agents[i + 1..]);
    out := agents[i := agent];
  }

  class Registry {
    var instances: map<string, Stored>
    var notes: seq<Note>

    ghost function Now(): Book reads this { Book(instances, notes) }

    constructor ()
      ensures instances == map[] && notes == []
    {
      instances, notes := map[], [];
    }

    method ReplaceSnapshot(name: string, snapshot: Snapshot)
      modifies this
      ensures Now() == Apply(old(Now()), name, NewSnapshot(snapshot))
    {
      var wasOnline := name in instances && instances[name].online;
      instances := instances[name := Stored(true, snapshot)];
      if !wasOnline { notes := notes + [WentOnline(name)]; }
      notes := notes + [Applied(name, NewSnapshot(snapshot))];
    }

    method ApplyEvent(name: string, e: TunnelEvent)
      requires Relayed(e)
      modifies this
      ensures Now() == Apply(old(Now()), name, e)
    {
      if name !in instances { return; }
      var entry := instances[name];
      var sessions := entry.snapshot.sessions;
      match e {
        case AgentStatus(session, agent) =>
          var agents := AgentsOf(sessions, session);
          agents := UpsertAgent(agents, agent);
          sessions := sessions[session := agents];
        case SessionAdded(session, agents) => sessions := sessions[session := agents];
        case SessionRemoved(session) => sessions := sessions - {session};
      }
      instances := instances[name := entry.(snapshot := entry.snapshot.(sessions := sessions))];
      notes := notes + [Applied(name, e)];
    }

    method SetOffline(name: string)
      modifies this
      ensures Now() == MarkOffline(old(Now()), name)
    {
      if name !in instances || !instances[name].online { return; }
      instances := instances[name := instances[name].(online := false)];
      notes := notes + [WentOffline(name)];
    }
  }

  class TunnelHub {
    const registry: Registry
    var children: map<string, ChildConnection>

    ghost function Now(): View reads this, registry {
      View(children, registry.Now())
    }

    constructor (registry: Registry)
      ensures this.registry == registry && children == map[]
    {
      this.registry, children := registry, map[];
    }

    /** Enrolment, up to the welcome; the replaced connection's close is only asked
        for here and reported later. The result is a close code or none. */
    method AcceptChild(conn: ChildConnection, hello: Hello) returns (code: Option<int>)
      modifies this, registry
      ensures Now() == Next(old(Now()), Greet(conn, hello))
      ensures code == match hello
        case Hello(proto, _) => if proto == PROTO_VERSION then None else Some(4001)
        case _ => Some(4000)
    {
      if !hello.Hello? { return Some(4000); }
      if hello.proto != PROTO_VERSION { return Some(4001); }
      registry.ReplaceSnapshot(conn.name, hello.snapshot);
      children := children[conn.name := conn];
      code := None;
    }

    method Route(conn: ChildConnection, e: TunnelEvent)
      modifies registry
      ensures Now() == Next(old(Now()), Frame(conn, e))
    {
      if e.NewSnapshot? {
        registry.ReplaceSnapshot(conn.name, e.snapshot);
      } else {
        registry.ApplyEvent(conn.name, e);
      }
    }

    method OnGone(conn: ChildConnection)
      modifies this, registry
      ensures Now() == Next(old(Now()), Death(conn))
    {
      if conn.name in children && children[conn.name] == conn {
        children := children - {conn.name};
        registry.SetOffline(conn.name);
      }
    }
  }

  /** A status event replaces or appends one agent and leaves the others in place. */
  lemma {:induction false} UpsertOne(agents: seq<AgentInfo>, agent: AgentInfo)
    ensures var out := Upsert(agents, agent);
      && agent in out
      && |agents| <= |out| <= |agents| + 1
      && (|out| == |agents| <==> exists a <- agents :: a.id == agent.id)
      && forall i: nat :: i < |agents| ==> out[i] == agents[i] || (out[i] == agent && agents[i].id == agent.id)
  {
    if agents != [] && agents[0].id != agent.id {
      UpsertOne(agents[1..], agent);
      assert agents == [agents[0]] + agents[1..];
    }
  }

  // ---- agreement ----------------------------------------------------------

  ghost predicate AgreesAt(v: View, name: string) {
    Online(v.book, name) <==> name in v.children
  }

  /** The hub holds a connection for exactly the children that are online. */
  ghost predicate Agree(v: View) {
    forall name :: name != "runtime" ==> AgreesAt(v, name)
  }

  /** At boot every persisted entry comes back offline. */
  ghost predicate Booted(v: View) {
    v.children == map[] && v.book.notes == [] && forall name <- v.book.instances :: !v.book.instances[name].online
  }

  /** The one kind of step that can part hub and registry: a snapshot applied to a
      name that the hub has no connection for. */
  predicate Permitted(v: View, s: Step) {
    match s
    case Frame(conn, NewSnapshot(_)) => conn.name in v.children || conn.name == "runtime"
    case LocalEvent(name, NewSnapshot(_)) => name in v.children || name == "runtime"
    case _ => true
  }

  lemma StepAgrees(v: View, s: Step)
    requires Agree(v)
    ensures Agree(Next(v, s)) <==> Permitted(v, s)
  {
    var w := Next(v, s);
    if Permitted(v, s) {
      forall name | name != "runtime" ensures AgreesAt(w, name) {
        assert AgreesAt(v, name);
      }
    } else {
      var name := if s.Frame? then s.conn.name else s.name;
      assert !AgreesAt(w, name);
    }
  }

  /** Frames as the child's end relays them, and local code as it is. */
  predicate Ordinary(s: Step) {
    (s.Frame? || s.LocalEvent?) ==> Relayed(s.event)
  }

  lemma {:induction false} AgreeAlways(v: View, run: seq<Step>)
    requires Agree(v) && forall s <- run :: Ordinary(s)
    ensures Agree(After(v, run))
    decreases |run|
  {
    if run != [] {
      assert run[0] in run && forall s <- run[1..] :: s in run;
      StepAgrees(v, run[0]);
      AgreeAlways(Next(v, run[0]), run[1..]);
    }
  }

  /** From boot on, whatever connects, talks, dies once or dies twice in whatever
      order: a child is online exactly when the hub holds a connection for it. */
  lemma HubAndRegistryAgree(v: View, run: seq<Step>)
    requires Booted(v) && forall s <- run :: Ordinary(s)
    ensures Agree(After(v, run))
  {
    forall name ensures AgreesAt(v, name) {}
    AgreeAlways(v, run);
  }

  lemma ThreeSteps(v: View, a: Step, b: Step, c: Step)
    ensures After(v, [a, b, c]) == Next(Next(Next(v, a), b), c)
  {
    assert [a, b, c][1..] == [b, c] && [b, c][1..] == [c] && [c][1..] == [];
    var w := Next(Next(v, a), b);
    assert After(w, [c]) == Next(w, c);
    assert After(Next(v, a), [b, c]) == After(w, [c]);
  }

  /** A snapshot frame still in flight on a connection whose death was seen would
      put a child online that nothing can reach. */
  lemma SnapshotAfterDeath(conn: ChildConnection, snapshot: Snapshot)
    requires conn.name != "runtime"
    ensures var run := [Greet(conn, Hello(PROTO_VERSION, snapshot)), Death(conn), Frame(conn, NewSnapshot(snapshot))];
      !Agree(After(View(map[], Book(map[], [])), run))
  {
    var start := View(map[], Book(map[], []));
    var greet, death, frame := Greet(conn, Hello(PROTO_VERSION, snapshot)), Death(conn),
        Frame(conn, NewSnapshot(snapshot));
    ThreeSteps(start, greet, death, frame);
    var dead := Next(Next(start, greet), death);
    assert conn.name !in dead.children;
    assert !AgreesAt(Next(dead, frame), conn.name);
  }

  // ---- replacement --------------------------------------------------------

  predicate Current(v: View, conn: ChildConnection) {
    conn.name in v.children && v.children[conn.name] == conn
  }

  /** The run without the death reports of one connection. */
  function Unreported(run: seq<Step>, conn: ChildConnection): seq<Step> {
    if run == [] then []
    else (if run[0] == Death(conn) then [] else [run[0]]) + Unreported(run[1..], conn)
  }

  /** Once a connection has been replaced, its death may be reported at any time and
      any number of times: every run ends as if it never were. */
  lemma {:induction false} LateDeathsNeverShow(v: View, run: seq<Step>, conn: ChildConnection)
    requires !Current(v, conn) && forall s <- run :: s.Greet? ==> s.conn != conn
    ensures After(v, run) == After(v, Unreported(run, conn))
    decreases |run|
  {
    if run != [] {
      assert run[0] in run && forall s <- run[1..] :: s in run;
      LateDeathsNeverShow(Next(v, run[0]), run[1..], conn);
      var rest := Unreported(run[1..], conn);
      assert run[0] != Death(conn) ==> ([run[0]] + rest)[1..] == rest;
      assert [] + rest == rest;
    }
  }

  /** Both of a connection's death reports together do what one does. */
  lemma DyingTwice(v: View, conn: ChildConnection)
    ensures Next(Next(v, Death(conn)), Death(conn)) == Next(v, Death(conn))
    ensures Agree(v) && conn.name != "runtime" && conn.name in v.children && v.children[conn.name] == conn ==>
      !Online(Next(v, Death(conn)).book, conn.name)
  {
    assert conn.name != "runtime" && Agree(v) ==> AgreesAt(v, conn.name);
  }

  predicate LeavesAlone(s: Step, conn: ChildConnection) {
    && Ordinary(s)
    && s != Death(conn)
    && (s.Greet? ==> s.conn.name != conn.name)
  }

  /** A reattached child stays online until its own connection dies or is replaced,
      however many deaths of its earlier connections are reported meanwhile. */
  lemma {:induction false} ReattachedStaysOnline(v: View, conn: ChildConnection, run: seq<Step>)
    requires Online(v.book, conn.name) && conn.name in v.children && v.children[conn.name] == conn
    requires forall s <- run :: LeavesAlone(s, conn)
    ensures var w := After(v, run);
      Online(w.book, conn.name) && conn.name in w.children && w.children[conn.name] == conn
    decreases |run|
  {
    if run != [] {
      assert run[0] in run && forall s <- run[1..] :: s in run;
      ReattachedStaysOnline(Next(v, run[0]), conn, run[1..]);
    }
  }

  // ---- what is recorded ---------------------------------------------------

  /** A hello with protocol 2 puts its connection in the hub and its snapshot in the
      registry, online; any other first frame changes nothing. */
  lemma HellosAreRecorded(v: View, conn: ChildConnection, hello: Hello)
    ensures var w := Next(v, Greet(conn, hello));
      if hello.Hello? && hello.proto == 2
      then Current(w, conn) && conn.name in w.book.instances
        && w.book.instances[conn.name] == Stored(true, hello.snapshot)
        && forall n :: n != conn.name ==>
             ((n in w.children <==> n in v.children) && (n in w.book.instances <==> n in v.book.instances))
      else w == v
  {
  }

  /** The steps that bring news of a name. */
  predicate Tells(s: Step, name: string) {
    match s
    case Greet(conn, _) => conn.name == name
    case Frame(conn, _) => conn.name == name
    case LocalEvent(n, _) => n == name
    case RuntimeSnapshot(_) => name == "runtime"
    case Death(_) => false
  }

  /** STALE BEATS SILENT. Over every run without news of a name, however often its
      connections die, its last-known snapshot stays. */
  lemma {:induction false} LastKnownStays(v: View, run: seq<Step>, name: string)
    requires name in v.book.instances && forall s <- run :: !Tells(s, name)
    ensures var w := After(v, run);
      name in w.book.instances && w.book.instances[name].snapshot == v.book.instances[name].snapshot
    decreases |run|
  {
    if run != [] {
      assert run[0] in run && forall s <- run[1..] :: s in run;
      LastKnownStays(Next(v, run[0]), run[1..], name);
    }
  }

  /** This machine's own snapshot replaces its own entry and no other. */
  lemma OwnSnapshotIsRecorded(v: View, snapshot: Snapshot)
    ensures var w := Next(v, RuntimeSnapshot(snapshot));
      && w.children == v.children
      && "runtime" in w.book.instances && w.book.instances["runtime"] == Stored(true, snapshot)
      && w.book.instances - {"runtime"} == v.book.instances - {"runtime"}
  {
  }

  // ---- announcements ------------------------------------------------------

  /** Whether the announcements of one name's coming and going alternate, starting
      with online, and what the last one said. */
  function Announced(notes: seq<Note>, name: string): Option<bool> {
    if notes == [] then Some(false)
    else Heard(Announced(notes[..|notes| - 1], name), notes[|notes| - 1], name)
  }

  function Heard(before: Option<bool>, note: Note, name: string): Option<bool> {
    if note.name != name || note.Applied? then before
    else if before == Some(note.WentOffline?) then Some(note.WentOnline?)
    else None
  }

  lemma AnnouncedSnoc(notes: seq<Note>, note: Note, name: string)
    ensures Announced(notes + [note], name) == Heard(Announced(notes, name), note, name)
  {
    assert (notes + [note])[..|notes|] == notes;
  }

  /** The announcements about a name alternate and end with its state. */
  ghost predicate Told(b: Book, name: string) {
    Announced(b.notes, name) == Some(Online(b, name))
  }

  lemma ApplyTells(b: Book, who: string, e: TunnelEvent, name: string)
    requires Told(b, name)
    ensures Told(Apply(b, who, e), name)
  {
    hide Announced, ApplySession;
    AnnouncedSnoc(b.notes, WentOnline(who), name);
    AnnouncedSnoc(b.notes, Applied(who, e), name);
    AnnouncedSnoc(b.notes + [WentOnline(who)], Applied(who, e), name);
  }

  lemma OfflineTells(b: Book, who: string, name: string)
    requires Told(b, name)
    ensures Told(MarkOffline(b, who), name)
  {
    AnnouncedSnoc(b.notes, WentOffline(who), name);
  }

  lemma StepTells(v: View, s: Step, name: string)
    requires Told(v.book, name)
    ensures Told(Next(v, s).book, name)
  {
    match s
    case Greet(conn, hello) => if Accepted(hello) { ApplyTells(v.book, conn.name, NewSnapshot(hello.snapshot), name); }
    case Frame(conn, e) => ApplyTells(v.book, conn.name, e, name);
    case Death(conn) => OfflineTells(v.book, conn.name, name);
    case LocalEvent(who, e) => ApplyTells(v.book, who, e, name);
    case RuntimeSnapshot(snapshot) => ApplyTells(v.book, "runtime", NewSnapshot(snapshot), name);
  }

  lemma {:induction false} RunTells(v: View, run: seq<Step>, name: string)
    requires Told(v.book, name)
    ensures Told(After(v, run).book, name)
    decreases |run|
  {
    if run != [] {
      StepTells(v, run[0], name);
      RunTells(Next(v, run[0]), run[1..], name);
    }
  }

  lemma BootTellsNothing(v: View, name: string)
    requires Booted(v)
    ensures Told(v.book, name)
  {
  }

  /** From boot on, over every run, the announcements of any name's coming and going
      alternate and the last one says what the registry says: no client is told of a
      child twice or not at all. */
  lemma AnnouncementsAlternate(v: View, run: seq<Step>, name: string)
    requires Booted(v)
    ensures Announced(After(v, run).book.notes, name) == Some(Online(After(v, run).book, name))
  {
    BootTellsNothing(v, name);
    RunTells(v, run, name);
  }
}
