/** The three callers that clean up after an ended workspace
    (src/workspace-ops.ts, src/daemon.ts:170, src/http.ts:176). Each stretch of
    code between two awaits is one step on the three stores; herdr's replies are
    parameters of the step. A step that archives reads the clock once. */
module WorkspaceRows {
  import opened Wrappers
  import opened JsText
  import opened State

  /** What the three stores hold for one session. */
  datatype View = View(index: map<string, WorkspaceMeta>, agents: Rows, archive: Archive)

  datatype CloseReply = Closed | NotFound | Failed

  datatype Step =
    | Reaped(ws: string, now: int)
    | CloseReturns(ws: string, reply: CloseReply, now: int)
    | StopRemoves(pane: string, now: int)
    | StopLists(pane: string, live: Option<bool>, now: int)
    | WorktreeRemoved(ws: string)
    | WorkspaceSpawned(ws: string, meta: WorkspaceMeta)
    | AgentSpawned(pane: string, agent: AgentMeta)
    | Demolished

  function Lookup(index: map<string, WorkspaceMeta>, ws: string): Option<WorkspaceMeta> {
    if ws in index then Some(index[ws]) else None
  }

  function CwdOf(meta: Option<WorkspaceMeta>): Option<string> {
    if meta.Some? then Some(meta.value.cwd) else None
  }

  function TitleOf(meta: Option<WorkspaceMeta>): Option<string> {
    if meta.Some? then meta.value.title else None
  }

  /** The workspace id a pane id starts with. */
  function Head(pane: string): string {
    Split(pane, ':')[0]
  }

  function ArchiveAll(archive: Archive, metas: seq<AgentMeta>, meta: Option<WorkspaceMeta>, now: int): Archive
    decreases |metas|
  {
    if metas == [] then archive
    else ArchiveAll(Recorded(archive, metas[0], CwdOf(meta), TitleOf(meta), now), metas[1..], meta, now)
  }

  function Reap(v: View, ws: string, now: int): View {
    View(v.index - {ws}, Part(v.agents, ws, false),
      ArchiveAll(v.archive, Metas(Part(v.agents, ws, true)), Lookup(v.index, ws), now))
  }

  function Stop(v: View, pane: string, now: int): View {
    var meta := Lookup(v.index, Head(pane));
    var ended := RowAt(v.agents, pane);
    v.(agents := DropRow(v.agents, pane),
       archive := if ended.Some? then Recorded(v.archive, ended.value, CwdOf(meta), TitleOf(meta), now) else v.archive)
  }

  /** Whether a step runs the whole reap of a workspace. */
  predicate Reaps(v: View, s: Step) {
    || s.Reaped?
    || (s.CloseReturns? && (s.reply.Closed? || (s.reply.NotFound? && s.ws in v.index)))
    || (s.StopLists? && s.live == Some(false))
  }

  function Target(s: Step): Option<string> {
    match s
    case Reaped(ws, _) => Some(ws)
    case CloseReturns(ws, _, _) => Some(ws)
    case StopRemoves(pane, _) => Some(Head(pane))
    case StopLists(pane, _, _) => Some(Head(pane))
    case WorktreeRemoved(ws) => Some(ws)
    case WorkspaceSpawned(ws, _) => Some(ws)
    case AgentSpawned(pane, _) => Some(Head(pane))
    case Demolished => None
  }

  function Next(v: View, s: Step): View {
    match s
    case Reaped(ws, now) => Reap(v, ws, now)
    case CloseReturns(ws, _, now) => if Reaps(v, s) then Reap(v, ws, now) else v
    case StopRemoves(pane, now) => Stop(v, pane, now)
    case StopLists(pane, _, now) => if Reaps(v, s) then Reap(v, Head(pane), now) else v
    case WorktreeRemoved(ws) => v.(index := v.index - {ws}, agents := Part(v.agents, ws, false))
    case WorkspaceSpawned(ws, meta) => v.(index := v.index[ws := meta])
    case AgentSpawned(pane, agent) => v.(agents := PutRow(v.agents, pane, agent))
    case Demolished => View(map[], [], map[])
  }

  function After(v: View, run: seq<Step>): View
    decreases |run|
  {
    if run == [] then v else After(Next(v, run[0]), run[1..])
  }

  // ---- the operations on the stores ---------------------------------------

  class OpsDeps {
    const index: WorkspaceIndex
    const agents: AgentIndex
    const resumable: ResumableIndex

    constructor (index: WorkspaceIndex, agents: AgentIndex, resumable: ResumableIndex)
      ensures this.index == index && this.agents == agents && this.resumable == resumable
    {
      this.index, this.agents, this.resumable := index, agents, resumable;
    }

    ghost predicate Valid() reads this, agents { agents.Valid() }

    ghost function Rows(session: string): View reads this, index, agents, resumable {
      View(index.All(session), agents.All(session), resumable.All(session))
    }

    /** Archives a workspace's conversations, then drops its row. */
    method ReapWorkspaceRow(session: string, ws: string, now: int) returns (held: bool)
      requires Valid()
      modifies index, agents, resumable
      ensures Valid() && held == (ws in old(Rows(session)).index)
      ensures Rows(session) == Next(old(Rows(session)), Reaped(ws, now))
      ensures forall s :: s != session ==> Rows(s) == old(Rows(s))
    {
      var meta := index.Get(session, ws);
      var removed := agents.RemoveWorkspace(session, ws);
      ghost var was := resumable.All(session);
      for i := 0 to |removed|
        invariant Valid()
        invariant index.All(session) == old(index.All(session)) &&
            agents.All(session) == Part(old(agents.All(session)), ws, false)
        invariant ArchiveAll(resumable.All(session), removed[i..], meta, now) == ArchiveAll(was, removed, meta, now)
        invariant forall s :: s != session ==> Rows(s) == old(Rows(s))
      {
        assert removed[i..][1..] == removed[i + 1..];
        resumable.Record(session, removed[i], CwdOf(meta), TitleOf(meta), now);
      }
      index.Remove(session, ws);
      held := meta.Some?;
    }

    /** The close call once herdr has replied: `Ok(alreadyClosed)` or the error. */
    method CloseWorkspace(session: string, ws: string, reply: CloseReply, now: int)
        returns (result: Result<bool, CloseReply>)
      requires Valid()
      modifies index, agents, resumable
      ensures Valid() && Rows(session) == Next(old(Rows(session)), CloseReturns(ws, reply, now))
      ensures forall s :: s != session ==> Rows(s) == old(Rows(s))
      ensures result.Ok? <==> Reaps(old(Rows(session)), CloseReturns(ws, reply, now))
      ensures result.Ok? ==> result.value == reply.NotFound?
    {
      if reply.Failed? { return Err(reply); }
      if reply.NotFound? && index.Get(session, ws).None? { return Err(reply); }
      var _ := ReapWorkspaceRow(session, ws, now);
      result := Ok(reply.NotFound?);
    }

    /** The stop call once herdr has closed the pane. */
    method StopAgent(session: string, pane: string, now: int)
      requires Valid()
      modifies agents, resumable
      ensures Valid() && Rows(session) == Next(old(Rows(session)), StopRemoves(pane, now))
      ensures forall s :: s != session ==> Rows(s) == old(Rows(s))
    {
      var ended := agents.Remove(session, pane);
      var meta := index.Get(session, Head(pane));
      if ended.Some? {
        resumable.Record(session, ended.value, CwdOf(meta), TitleOf(meta), now);
      }
    }

    /** The stop call once herdr has listed its workspaces, or failed to. */
    method StopAgentListed(session: string, pane: string, live: Option<bool>, now: int)
      requires Valid()
      modifies index, agents, resumable
      ensures Valid() && Rows(session) == Next(old(Rows(session)), StopLists(pane, live, now))
      ensures forall s :: s != session ==> Rows(s) == old(Rows(s))
    {
      if live == Some(false) {
        var _ := ReapWorkspaceRow(session, Head(pane), now);
      }
    }

    method RemoveWorktree(session: string, ws: string)
      requires Valid()
      modifies index, agents
      ensures Valid() && Rows(session) == Next(old(Rows(session)), WorktreeRemoved(ws))
      ensures forall s :: s != session ==> Rows(s) == old(Rows(s))
    {
      index.Remove(session, ws);
      var _ := agents.RemoveWorkspace(session, ws);
    }

    method SpawnWorkspace(session: string, ws: string, meta: WorkspaceMeta)
      requires Valid()
      modifies index
      ensures Valid() && Rows(session) == Next(old(Rows(session)), WorkspaceSpawned(ws, meta))
      ensures forall s :: s != session ==> Rows(s) == old(Rows(s))
    {
      index.Set(session, ws, meta);
    }

    method SpawnAgent(session: string, pane: string, meta: AgentMeta)
      requires Valid()
      modifies agents
      ensures Valid() && Rows(session) == Next(old(Rows(session)), AgentSpawned(pane, meta))
      ensures forall s :: s != session ==> Rows(s) == old(Rows(s))
    {
      agents.Set(session, pane, meta);
    }

    /** The part of a demolition that touches these stores. */
    method DemolishRows(session: string)
      requires Valid()
      modifies index, agents, resumable
      ensures Valid() && Rows(session) == Next(old(Rows(session)), Demolished)
      ensures forall s :: s != session ==> Rows(s) == old(Rows(s))
    {
      agents.RemoveSession(session);
      resumable.RemoveSession(session);
      index.RemoveSession(session);
    }
  }

  // ---- prefix and head ----------------------------------------------------

  lemma {:induction false} HeadUpTo(a: string, b: string)
    requires ':' !in a
    ensures Head(a + [':'] + b) == a
  {
    SplitAtSeparator(a, ':', b);
    SplitNone(a, ':');
  }

  lemma {:induction false} HeadIsPrefix(pane: string)
    ensures ':' !in Head(pane) && |Head(pane)| <= |pane| && pane[..|Head(pane)|] == Head(pane)
    ensures pane != Head(pane) ==> InWorkspace(pane, Head(pane))
  {
    if pane != "" && pane[0] != ':' {
      HeadIsPrefix(pane[1..]);
      assert Head(pane) == [pane[0]] + Head(pane[1..]);
      assert pane == [pane[0]] + pane[1..];
      var h := Head(pane[1..]);
      assert pane[1..] != h ==> pane[1..][..|h + ":"|] == h + ":";
      assert pane[1..] != h ==> pane[..|Head(pane) + ":"|] == [pane[0]] + pane[1..][..|h + ":"|];
      assert [pane[0]] + (h + ":") == ([pane[0]] + h) + ":";
    }
  }

  /** The prefix test of one store and the split of the other pick the same panes. */
  predicate PrefixMatchesHead(ws: string, pane: string) {
    InWorkspace(pane, ws) <==> (Head(pane) == ws && pane != ws)
  }

  lemma PrefixIsHead(ws: string)
    ensures (forall pane :: PrefixMatchesHead(ws, pane)) <==> ':' !in ws
  {
    if ':' in ws {
      var pane := ws + ":";
      HeadIsPrefix(pane);
      assert InWorkspace(pane, ws) && !PrefixMatchesHead(ws, pane);
    } else {
      forall pane ensures PrefixMatchesHead(ws, pane) {
        HeadIsPrefix(pane);
        if InWorkspace(pane, ws) {
          var rest := pane[|ws| + 1..];
          assert pane == pane[..|ws| + 1] + rest && pane[..|ws| + 1] == ws + ":";
          HeadUpTo(ws, rest);
        }
      }
    }
  }

  // ---- what archiving adds ------------------------------------------------

  /** A row that leaves a resumable conversation behind. */
  predicate Pinned(m: AgentMeta, id: string) {
    id != "" && m.sessionId == Some(id)
  }

  /** The archive entry left for `id` by a workspace that ended with these rows. */
  ghost predicate LeftBy(e: ResumableMeta, id: string, kind: string, meta: WorkspaceMeta, now: int) {
    e == ResumableMeta(id, kind, meta.cwd, now, if Truthy(meta.title) then meta.title else None)
  }

  lemma {:induction false} ArchiveAllAt(archive: Archive, metas: seq<AgentMeta>, meta: Option<WorkspaceMeta>,
      now: int, id: string)
    ensures var out := ArchiveAll(archive, metas, meta, now);
      if Truthy(CwdOf(meta)) && (exists m <- metas :: Pinned(m, id))
      then id in out && exists m <- metas :: Pinned(m, id) && LeftBy(out[id], id, m.kind, meta.value, now)
      else (id in out <==> id in archive) && (id in archive ==> id in out && out[id] == archive[id])
    decreases |metas|
  {
    if metas != [] {
      ArchiveAllAt(Recorded(archive, metas[0], CwdOf(meta), TitleOf(meta), now), metas[1..], meta, now, id);
      assert forall m :: m in metas <==> m == metas[0] || m in metas[1..];
      assert metas[0] in metas;
    }
  }

  lemma {:induction false} MetaMembers(rows: Rows, m: AgentMeta)
    ensures m in Metas(rows) <==> exists r <- rows :: r.1 == m
  {
    if rows != [] {
      MetaMembers(rows[1..], m);
      assert rows[0] in rows;
      assert forall r :: r in rows <==> r == rows[0] || r in rows[1..];
    }
  }

  lemma ReapArchive(v: View, ws: string, now: int, id: string)
    requires OneRowAPane(v.agents)
    ensures var out := Reap(v, ws, now).archive; var meta := Lookup(v.index, ws);
      if Truthy(CwdOf(meta)) && (exists r <- v.agents :: InWorkspace(r.0, ws) && Pinned(r.1, id))
      then id in out && exists r <- v.agents ::
        InWorkspace(r.0, ws) && Pinned(r.1, id) && LeftBy(out[id], id, r.1.kind, meta.value, now)
      else (id in out <==> id in v.archive) && (id in v.archive ==> id in out && out[id] == v.archive[id])
  {
    var inside := Part(v.agents, ws, true);
    var metas := Metas(inside);
    PartMembers(v.agents, ws, true);
    forall m ensures m in metas <==> exists r <- inside :: r.1 == m {
      MetaMembers(inside, m);
    }
    ArchiveAllAt(v.archive, metas, Lookup(v.index, ws), now, id);
    assert forall r <- inside :: r.1 in metas;
  }

  // ---- every step ---------------------------------------------------------

  lemma StepKeepsRecords(v: View, s: Step)
    requires OneRowAPane(v.agents)
    ensures OneRowAPane(Next(v, s).agents)
  {
    match s
    case Reaped(ws, _) => PartMembers(v.agents, ws, false);
    case CloseReturns(ws, _, _) => PartMembers(v.agents, ws, false);
    case StopRemoves(pane, _) => DropRowMembers(v.agents, pane);
    case StopLists(pane, _, _) => PartMembers(v.agents, Head(pane), false);
    case WorktreeRemoved(ws) => PartMembers(v.agents, ws, false);
    case WorkspaceSpawned(_, _) =>
    case AgentSpawned(pane, agent) => PutRowMembers(v.agents, pane, agent);
    case Demolished =>
  }

  lemma {:induction false} RunKeepsRecords(v: View, run: seq<Step>)
    requires OneRowAPane(v.agents)
    ensures OneRowAPane(After(v, run).agents)
    decreases |run|
  {
    if run != [] {
      StepKeepsRecords(v, run[0]);
      RunKeepsRecords(Next(v, run[0]), run[1..]);
    }
  }

  /** No step leaves an agent row behind in a workspace whose row it drops. */
  lemma DroppingTheRowDropsItsAgents(v: View, s: Step, ws: string)
    requires OneRowAPane(v.agents)
    requires ws in v.index && ws !in Next(v, s).index
    ensures forall r <- Next(v, s).agents :: !InWorkspace(r.0, ws)
  {
    PartMembers(v.agents, ws, false);
  }

  /** What one close, stop or reap step does to every conversation: the ids of the
      pinned rows it removes are archived under the directory of the step's
      workspace, and no other entry of the archive changes. */
  lemma StepConserves(v: View, s: Step, id: string)
    requires OneRowAPane(v.agents)
    requires s.StopRemoves? || Reaps(v, s)
    ensures var out := Next(v, s); var meta := Lookup(v.index, Target(s).value);
      if Truthy(CwdOf(meta)) && (exists r <- v.agents :: r !in out.agents && Pinned(r.1, id))
      then id in out.archive && exists r <- v.agents ::
        r !in out.agents && Pinned(r.1, id) && LeftBy(out.archive[id], id, r.1.kind, meta.value, s.now)
      else
        && (id in out.archive <==> id in v.archive)
        && (id in v.archive ==> id in out.archive && out.archive[id] == v.archive[id])
  {
    var out := Next(v, s);
    if s.StopRemoves? {
      DropRowMembers(v.agents, s.pane);
      RowAtMember(v.agents, s.pane);
      assert forall r <- v.agents :: r !in out.agents <==> r.0 == s.pane;
      assert RowAt(v.agents, s.pane).Some? ==> (s.pane, RowAt(v.agents, s.pane).value) in v.agents;
    } else {
      var ws := Target(s).value;
      PartMembers(v.agents, ws, false);
      ReapArchive(v, ws, s.now, id);
      assert forall r <- v.agents :: r !in out.agents <==> InWorkspace(r.0, ws);
    }
  }

  /** Which steps can touch the archive at all. */
  lemma OtherStepsKeepTheArchive(v: View, s: Step)
    requires !s.StopRemoves? && !Reaps(v, s) && !s.Demolished?
    ensures Next(v, s).archive == v.archive
  {
  }

  lemma {:induction false} ArchivedStays(v: View, run: seq<Step>, id: string)
    requires OneRowAPane(v.agents) && id in v.archive
    requires forall s <- run :: !s.Demolished?
    ensures id in After(v, run).archive
    decreases |run|
  {
    if run != [] {
      assert run[0] in run;
      ArchiveGrows(v, run[0], id);
      StepKeepsRecords(v, run[0]);
      ArchivedStays(Next(v, run[0]), run[1..], id);
    }
  }

  /** Conservation over whole runs: a conversation ended by a close, stop or reap
      step while its workspace row gave a directory can be resumed for as long as
      the session is not demolished, whatever else happens before or after. */
  lemma EndedConversationsStayResumable(v: View, before: seq<Step>, s: Step, later: seq<Step>,
      row: (string, AgentMeta), id: string)
    requires OneRowAPane(v.agents)
    requires var u := After(v, before);
      && (s.StopRemoves? || Reaps(u, s))
      && row in u.agents && row !in Next(u, s).agents && Pinned(row.1, id)
      && Truthy(CwdOf(Lookup(u.index, Target(s).value)))
    requires forall t <- later :: !t.Demolished?
    ensures id in After(Next(After(v, before), s), later).archive
  {
    RunKeepsRecords(v, before);
    StepConserves(After(v, before), s, id);
    StepKeepsRecords(After(v, before), s);
    ArchivedStays(Next(After(v, before), s), later, id);
  }

  lemma {:induction false} NothingInside(rows: Rows, ws: string)
    requires forall r <- rows :: !InWorkspace(r.0, ws)
    ensures Part(rows, ws, true) == [] && Part(rows, ws, false) == rows
  {
    if rows != [] {
      assert rows[0] in rows && forall r <- rows[1..] :: r in rows;
      NothingInside(rows[1..], ws);
      assert [rows[0]] + rows[1..] == rows;
    }
  }

  /** A second reap changes nothing at all, and a close that herdr no longer knows
      leaves the stores as they are. */
  lemma ReapIsIdempotent(v: View, ws: string, first: int, second: int)
    requires OneRowAPane(v.agents)
    ensures Reap(Reap(v, ws, first), ws, second) == Reap(v, ws, first)
  {
    var once := Reap(v, ws, first);
    PartMembers(v.agents, ws, false);
    NothingInside(once.agents, ws);
    assert once.index - {ws} == once.index;
  }

  // ---- who held the row ---------------------------------------------------

  function Held(v: View, ws: string): nat { if ws in v.index then 1 else 0 }

  /** Reaps of `ws` in a run that found its row. */
  function Wins(v: View, run: seq<Step>, ws: string): nat
    decreases |run|
  {
    if run == [] then 0
    else
      var won := if Reaps(v, run[0]) && Target(run[0]) == Some(ws) && ws in v.index then 1 else 0;
      won + Wins(Next(v, run[0]), run[1..], ws)
  }

  function Births(run: seq<Step>, ws: string): nat {
    if run == [] then 0
    else (if run[0].WorkspaceSpawned? && run[0].ws == ws then 1 else 0) + Births(run[1..], ws)
  }

  /** Of all the reaps in any run, at most one per row reports that it held it. */
  lemma {:induction false} OneWinnerARow(v: View, run: seq<Step>, ws: string)
    ensures Wins(v, run, ws) + Held(After(v, run), ws) <= Held(v, ws) + Births(run, ws)
    decreases |run|
  {
    if run != [] {
      OneWinnerARow(Next(v, run[0]), run[1..], ws);
    }
  }

  // ---- confluence ---------------------------------------------------------

  /** Steps of close calls, stops and events on `ws`, whatever herdr replies to
      them. */
  predicate Concerns(s: Step, ws: string) {
    match s
    case Reaped(w, _) => w == ws
    case CloseReturns(w, _, _) => w == ws
    case StopRemoves(pane, _) => InWorkspace(pane, ws)
    case StopLists(pane, _, _) => Head(pane) == ws
    case _ => false
  }

  predicate Ending(run: seq<Step>, ws: string) {
    forall s <- run :: Concerns(s, ws)
  }

  /** The step tells the broker that herdr has no such workspace any more. */
  predicate Confirms(s: Step) {
    match s
    case Reaped(_, _) => true
    case CloseReturns(_, reply, _) => !reply.Failed?
    case StopLists(_, live, _) => live == Some(false)
    case _ => false
  }

  predicate Decisive(run: seq<Step>) {
    exists s <- run :: Confirms(s)
  }

  datatype Conversation = Conversation(kind: string, cwd: string, title: Option<string>)

  /** An archive entry without its time stamp. */
  function Kept(archive: Archive, id: string): Option<Conversation> {
    if id in archive then Some(Conversation(archive[id].kind, archive[id].cwd, archive[id].title)) else None
  }

  /** Where a workspace's end must lead: its rows are gone, its pinned
      conversations are archived with its directory, all else is as before. */
  ghost predicate Settled(v: View, ws: string, out: View) {
    && out.index == v.index - {ws}
    && out.agents == Part(v.agents, ws, false)
    && forall id :: SettledAt(v, ws, out.archive, out.agents, id)
  }

  /** `agents` are the rows still there; the others of `ws` have been archived. */
  ghost predicate SettledAt(v: View, ws: string, archive: Archive, agents: Rows, id: string) {
    var meta := Lookup(v.index, ws);
    if Truthy(CwdOf(meta)) && (exists r <- v.agents :: InWorkspace(r.0, ws) && r !in agents && Pinned(r.1, id))
    then exists r <- v.agents ::
      && InWorkspace(r.0, ws) && r !in agents && Pinned(r.1, id)
      && Kept(archive, id) == Some(Ended(r.1, meta.value))
    else Kept(archive, id) == Kept(v.archive, id)
  }

  function Ended(m: AgentMeta, meta: WorkspaceMeta): Conversation {
    Conversation(m.kind, meta.cwd, if Truthy(meta.title) then meta.title else None)
  }

  /** Rows that share a pinned id name the same tool. */
  ghost predicate OneKindAnId(v: View, ws: string) {
    forall a <- v.agents, b <- v.agents ::
      InWorkspace(a.0, ws) && InWorkspace(b.0, ws) && Truthy(a.1.sessionId) && a.1.sessionId == b.1.sessionId
      ==> a.1.kind == b.1.kind
  }

  /** Between the first step and the settled end. */
  ghost predicate Settling(v: View, ws: string, u: View) {
    && OneRowAPane(u.agents)
    && u.index == v.index
    && Part(u.agents, ws, false) == Part(v.agents, ws, false)
    && (forall r <- u.agents :: InWorkspace(r.0, ws) ==> r in v.agents)
    && forall id :: SettledAt(v, ws, u.archive, u.agents, id)
  }

  lemma {:induction false} DropInside(rows: Rows, pane: string, ws: string)
    requires InWorkspace(pane, ws)
    ensures Part(DropRow(rows, pane), ws, false) == Part(rows, ws, false)
  {
    if rows != [] && rows[0].0 != pane {
      DropInside(rows[1..], pane, ws);
    }
  }

  lemma StopSettles(v: View, ws: string, u: View, pane: string, now: int)
    requires ':' !in ws && InWorkspace(pane, ws) && Settling(v, ws, u)
    ensures Settling(v, ws, Stop(u, pane, now))
  {
    var out := Stop(u, pane, now);
    DropInside(u.agents, pane, ws);
    DropRowMembers(u.agents, pane);
    RowAtMember(u.agents, pane);
    PrefixIsHead(ws);
    assert PrefixMatchesHead(ws, pane);
    forall id ensures SettledAt(v, ws, out.archive, out.agents, id) {
      assert SettledAt(v, ws, u.archive, u.agents, id);
      var ended := RowAt(u.agents, pane);
      if ended.Some? {
        assert (pane, ended.value) in v.agents && (pane, ended.value) !in out.agents;
      } else {
        DropMissing(u.agents, pane);
      }
    }
  }

  lemma ReapSettles(v: View, ws: string, u: View, now: int)
    requires OneRowAPane(v.agents) && Settling(v, ws, u)
    ensures Settled(v, ws, Reap(u, ws, now))
  {
    var out := Reap(u, ws, now);
    PartMembers(v.agents, ws, false);
    forall id ensures SettledAt(v, ws, out.archive, out.agents, id) {
      assert SettledAt(v, ws, u.archive, u.agents, id);
      ReapArchive(u, ws, now, id);
    }
  }

  lemma SettledStays(v: View, ws: string, u: View, s: Step)
    requires OneRowAPane(v.agents) && ':' !in ws && Settled(v, ws, u) && Concerns(s, ws)
    ensures Next(u, s) == u
  {
    PartMembers(v.agents, ws, false);
    NothingInside(u.agents, ws);
    assert u.index - {ws} == u.index;
    if s.StopRemoves? {
      RowAtMember(u.agents, s.pane);
      DropMissing(u.agents, s.pane);
    }
  }

  lemma {:induction false} SettledForGood(v: View, ws: string, u: View, run: seq<Step>)
    requires OneRowAPane(v.agents) && ':' !in ws && Settled(v, ws, u) && Ending(run, ws)
    ensures After(u, run) == u
    decreases |run|
  {
    if run != [] {
      assert run[0] in run && forall s <- run[1..] :: s in run;
      SettledStays(v, ws, u, run[0]);
      SettledForGood(v, ws, u, run[1..]);
    }
  }

  lemma {:induction false} SettlesFrom(v: View, ws: string, u: View, run: seq<Step>)
    requires OneRowAPane(v.agents) && ':' !in ws && ws in v.index && Settling(v, ws, u)
    requires Ending(run, ws) && Decisive(run)
    ensures Settled(v, ws, After(u, run))
    decreases |run|
  {
    var s, rest := run[0], run[1..];
    assert s in run && (forall t <- rest :: t in run) && forall t <- run :: t == s || t in rest;
    if Confirms(s) {
      ReapSettles(v, ws, u, s.now);
      SettledForGood(v, ws, Next(u, s), rest);
    } else {
      if s.StopRemoves? { StopSettles(v, ws, u, s.pane, s.now); }
      SettlesFrom(v, ws, Next(u, s), rest);
    }
  }

  /** Every interleaving of close calls, stops and events that ends a known
      workspace leads to its settled end. */
  lemma EveryEndSettles(v: View, ws: string, run: seq<Step>)
    requires OneRowAPane(v.agents) && ':' !in ws && ws in v.index
    requires Ending(run, ws) && Decisive(run)
    ensures Settled(v, ws, After(v, run))
  {
    forall id ensures SettledAt(v, ws, v.archive, v.agents, id) {}
    SettlesFrom(v, ws, v, run);
  }

  /** Equal stores up to the time stamps in the archive. */
  ghost predicate SameRows(a: View, b: View) {
    a.index == b.index && a.agents == b.agents && forall id :: Kept(a.archive, id) == Kept(b.archive, id)
  }

  ghost predicate Confluent(v: View, ws: string) {
    forall a, b :: Ending(a, ws) && Decisive(a) && Ending(b, ws) && Decisive(b) ==> SameRows(After(v, a), After(v, b))
  }

  lemma SettledIsUnique(v: View, ws: string, a: View, b: View)
    requires OneRowAPane(v.agents) && Settled(v, ws, a) && Settled(v, ws, b)
    requires OneKindAnId(v, ws) || !Truthy(CwdOf(Lookup(v.index, ws)))
    ensures SameRows(a, b)
  {
    forall id ensures Kept(a.archive, id) == Kept(b.archive, id) {
      assert SettledAt(v, ws, a.archive, a.agents, id) && SettledAt(v, ws, b.archive, b.agents, id);
    }
  }

  /** The panes of `ws` other than one, stopped one after the other. */
  function StopsBut(rows: Rows, ws: string, pane: string): seq<Step> {
    if rows == [] then []
    else
      var here := if InWorkspace(rows[0].0, ws) && rows[0].0 != pane then [StopRemoves(rows[0].0, 0)] else [];
      here + StopsBut(rows[1..], ws, pane)
  }

  lemma {:induction false} AfterConcat(v: View, a: seq<Step>, b: seq<Step>)
    ensures After(v, a + b) == After(After(v, a), b)
    decreases |a|
  {
    if a == [] {
      assert a + b == b;
    } else {
      assert (a + b)[1..] == a[1..] + b;
      AfterConcat(Next(v, a[0]), a[1..], b);
    }
  }

  lemma {:induction false} StopsButEnding(rows: Rows, ws: string, pane: string)
    ensures Ending(StopsBut(rows, ws, pane), ws)
  {
    if rows != [] { StopsButEnding(rows[1..], ws, pane); }
  }

  lemma {:induction false} StoppedBut(v: View, ws: string, pane: string, rows: Rows)
    requires OneRowAPane(v.agents)
    ensures var u := After(v, StopsBut(rows, ws, pane));
      && u.index == v.index && OneRowAPane(u.agents)
      && forall r :: r in u.agents <==>
           (r in v.agents && (r.0 == pane || !InWorkspace(r.0, ws) || forall q <- rows :: q.0 != r.0))
    decreases |rows|
  {
    if rows != [] {
      var x, rest := rows[0].0, rows[1..];
      assert forall q :: q in rows <==> q == rows[0] || q in rest;
      if InWorkspace(x, ws) && x != pane {
        DropRowMembers(v.agents, x);
        var u := Next(v, StopRemoves(x, 0));
        StoppedBut(u, ws, pane, rest);
        assert StopsBut(rows, ws, pane)[1..] == StopsBut(rest, ws, pane);
      } else {
        StoppedBut(v, ws, pane, rest);
        assert StopsBut(rows, ws, pane) == StopsBut(rest, ws, pane);
      }
    }
  }

  /** Any row of the workspace can be made to end last, and then its tool is the
      one archived. */
  lemma AnyRowCanEndLast(v: View, ws: string, row: (string, AgentMeta), id: string) returns (run: seq<Step>)
    requires OneRowAPane(v.agents) && ws in v.index && v.index[ws].cwd != ""
    requires row in v.agents && InWorkspace(row.0, ws) && Pinned(row.1, id)
    ensures Ending(run, ws) && Decisive(run)
    ensures Kept(After(v, run).archive, id) == Some(Ended(row.1, v.index[ws]))
  {
    var stops := StopsBut(v.agents, ws, row.0);
    run := stops + [Reaped(ws, 0)];
    StopsButEnding(v.agents, ws, row.0);
    assert Reaped(ws, 0) in run;
    AfterConcat(v, stops, [Reaped(ws, 0)]);
    StoppedBut(v, ws, row.0, v.agents);
    var u := After(v, stops);
    assert After(u, [Reaped(ws, 0)]) == Reap(u, ws, 0);
    assert row in u.agents;
    ReapArchive(u, ws, 0, id);
  }

  /** The order of close calls, stops and events does not matter exactly when no
      two rows of the workspace pin one id for different tools (a broker-minted id
      is fresh for every spawn, and a resumed one keeps its tool), or there is no
      directory to archive with. */
  lemma ConfluentIff(v: View, ws: string)
    requires OneRowAPane(v.agents) && ':' !in ws && ws in v.index
    ensures Confluent(v, ws) <==> OneKindAnId(v, ws) || v.index[ws].cwd == ""
  {
    if OneKindAnId(v, ws) || v.index[ws].cwd == "" {
      forall a, b | Ending(a, ws) && Decisive(a) && Ending(b, ws) && Decisive(b)
          ensures SameRows(After(v, a), After(v, b)) {
        EveryEndSettles(v, ws, a);
        EveryEndSettles(v, ws, b);
        SettledIsUnique(v, ws, After(v, a), After(v, b));
      }
    } else {
      var a, b :| a in v.agents && b in v.agents && InWorkspace(a.0, ws) && InWorkspace(b.0, ws)
        && Truthy(a.1.sessionId) && a.1.sessionId == b.1.sessionId && a.1.kind != b.1.kind;
      var one := AnyRowCanEndLast(v, ws, a, a.1.sessionId.value);
      var two := AnyRowCanEndLast(v, ws, b, a.1.sessionId.value);
      assert !SameRows(After(v, one), After(v, two));
    }
  }

  // ---- among other workspaces ---------------------------------------------

  /** A step about another workspace than `ws`, and not about a pane id of `ws`
      taken for a workspace. */
  predicate Elsewhere(s: Step, ws: string) {
    Target(s).Some? && Target(s).value != ws && !InWorkspace(Target(s).value, ws)
  }

  ghost predicate Mixed(run: seq<Step>, ws: string) {
    forall s <- run :: Concerns(s, ws) || Elsewhere(s, ws)
  }

  lemma NestedPrefix(pane: string, a: string, b: string)
    ensures InWorkspace(pane, a) && InWorkspace(pane, b) && |a| <= |b| ==> a == b || InWorkspace(b, a)
  {
    if InWorkspace(pane, a) && InWorkspace(pane, b) && |a| <= |b| {
      assert pane[..|a|] == (a + ":")[..|a|] == a && pane[..|b|] == (b + ":")[..|b|] == b;
      assert |a| < |b| ==> b[..|a| + 1] == pane[..|a| + 1];
    }
  }

  lemma OtherPanes(ws: string, other: string, pane: string)
    requires ':' !in ws && ws != other && !InWorkspace(other, ws)
    ensures !(InWorkspace(pane, ws) && InWorkspace(pane, other))
    ensures InWorkspace(pane, ws) ==> Head(pane) == ws
  {
    PrefixIsHead(ws);
    assert PrefixMatchesHead(ws, pane);
    NestedPrefix(pane, ws, other);
    NestedPrefix(pane, other, ws);
    assert InWorkspace(ws, other) ==> ws[|other|] == (other + ":")[|other|];
  }

  /** The rows of `ws` alone. */
  ghost predicate SameInside(v: View, w: View, ws: string) {
    && Lookup(w.index, ws) == Lookup(v.index, ws)
    && forall r: (string, AgentMeta) :: InWorkspace(r.0, ws) ==> (r in w.agents <==> r in v.agents)
  }

  /** Whatever happens to other workspaces leaves the rows of this one alone. */
  lemma ElsewhereStaysAway(v: View, s: Step, ws: string)
    requires OneRowAPane(v.agents) && ':' !in ws && Elsewhere(s, ws)
    ensures SameInside(v, Next(v, s), ws)
  {
    var other := Target(s).value;
    forall pane ensures !(InWorkspace(pane, ws) && InWorkspace(pane, other)) &&
        (InWorkspace(pane, ws) ==> Head(pane) == ws) {
      OtherPanes(ws, other, pane);
    }
    match s
    case StopRemoves(pane, _) => DropRowMembers(v.agents, pane);
    case AgentSpawned(pane, agent) => PutRowMembers(v.agents, pane, agent);
    case WorkspaceSpawned(_, _) =>
    case _ => PartMembers(v.agents, other, false);
  }

  /** A conversation of `ws` that still has its row or is archived already. */
  ghost predicate Safe(v: View, ws: string, id: string) {
    id in v.archive || exists r <- v.agents :: InWorkspace(r.0, ws) && Pinned(r.1, id)
  }

  /** Known with a directory, or gone with all its agents. */
  ghost predicate KnownOrGone(v: View, ws: string) {
    if ws in v.index then v.index[ws].cwd != "" else forall r <- v.agents :: !InWorkspace(r.0, ws)
  }

  lemma ArchiveGrows(v: View, s: Step, id: string)
    requires OneRowAPane(v.agents) && !s.Demolished? && id in v.archive
    ensures id in Next(v, s).archive
  {
    if s.StopRemoves? || Reaps(v, s) { StepConserves(v, s, id); } else { OtherStepsKeepTheArchive(v, s); }
  }

  lemma MixedStep(v: View, s: Step, ws: string, id: string)
    requires OneRowAPane(v.agents) && ':' !in ws && KnownOrGone(v, ws)
    requires Concerns(s, ws) || Elsewhere(s, ws)
    ensures KnownOrGone(Next(v, s), ws) && (Safe(v, ws, id) ==> Safe(Next(v, s), ws, id))
    ensures ws in Next(v, s).index ==> ws in v.index && (Concerns(s, ws) ==> !Confirms(s))
  {
    if id in v.archive { ArchiveGrows(v, s, id); }
    if Concerns(s, ws) {
      EndingStep(v, s, ws, id);
    } else {
      ElsewhereStaysAway(v, s, ws);
      assert Lookup(Next(v, s).index, ws) == Lookup(v.index, ws);
    }
  }

  lemma EndingStep(v: View, s: Step, ws: string, id: string)
    requires OneRowAPane(v.agents) && ':' !in ws && KnownOrGone(v, ws)
    requires Concerns(s, ws) && (id in v.archive ==> id in Next(v, s).archive)
    ensures KnownOrGone(Next(v, s), ws) && (Safe(v, ws, id) ==> Safe(Next(v, s), ws, id))
    ensures ws in Next(v, s).index ==> ws in v.index && !Confirms(s)
  {
    if s.StopRemoves? {
      PrefixIsHead(ws);
      assert PrefixMatchesHead(ws, s.pane);
      DropRowMembers(v.agents, s.pane);
      StepConserves(v, s, id);
    } else {
      PartMembers(v.agents, ws, false);
      if Reaps(v, s) { StepConserves(v, s, id); }
    }
  }

  lemma {:induction false} MixedRun(v: View, ws: string, run: seq<Step>, id: string)
    requires OneRowAPane(v.agents) && ':' !in ws && KnownOrGone(v, ws) && Mixed(run, ws)
    ensures var w := After(v, run);
      && KnownOrGone(w, ws) && (Safe(v, ws, id) ==> Safe(w, ws, id))
      && (ws in w.index ==> ws in v.index && forall s <- run :: Concerns(s, ws) ==> !Confirms(s))
    decreases |run|
  {
    if run != [] {
      var s, rest := run[0], run[1..];
      assert s in run && (forall t <- rest :: t in run) && forall t <- run :: t == s || t in rest;
      MixedStep(v, s, ws, id);
      StepKeepsRecords(v, s);
      MixedRun(Next(v, s), ws, rest, id);
    }
  }

  /** In the middle of whatever goes on in other workspaces, one decisive step ends
      a known workspace for good: its row and its agents are gone, and every
      conversation it had can be resumed. */
  lemma EndsAmongOthers(v: View, ws: string, run: seq<Step>)
    requires OneRowAPane(v.agents) && ':' !in ws && ws in v.index && v.index[ws].cwd != ""
    requires Mixed(run, ws) && exists s <- run :: Concerns(s, ws) && Confirms(s)
    ensures var w := After(v, run);
      && ws !in w.index
      && (forall r <- w.agents :: !InWorkspace(r.0, ws))
      && forall r <- v.agents, id :: InWorkspace(r.0, ws) && Pinned(r.1, id) ==> id in w.archive
  {
    forall r, id | r in v.agents && InWorkspace(r.0, ws) && Pinned(r.1, id) ensures id in After(v, run).archive {
      MixedRun(v, ws, run, id);
    }
    MixedRun(v, ws, run, "");
  }

  // ---- replies that confirm nothing ---------------------------------------

  /** A close that failed, a listing that still names the workspace or could not be
      had, and a close of a workspace that neither side knows leave the stores alone. */
  lemma InertReplies(v: View, s: Step)
    requires s.CloseReturns? || s.StopLists?
    requires s.CloseReturns? ==> s.reply == Failed || (s.reply == NotFound && s.ws !in v.index)
    requires s.StopLists? ==> s.live != Some(false)
    ensures Next(v, s) == v
  {
  }

  predicate Stopped(run: seq<Step>, pane: string) {
    exists s <- run :: s.StopRemoves? && s.pane == pane
  }

  /** As long as herdr confirms no end, closes, stops and events on a workspace keep
      every workspace row, and an agent row goes exactly with the stop of its pane. */
  lemma {:induction false} UnconfirmedRunsOnlyStop(v: View, ws: string, run: seq<Step>)
    requires OneRowAPane(v.agents) && Ending(run, ws)
    requires forall s <- run :: !s.Reaped?
    requires forall s <- run :: s.CloseReturns? ==> s.reply == Failed
    requires forall s <- run :: s.StopLists? ==> s.live != Some(false)
    ensures After(v, run).index == v.index
    ensures forall r :: r in After(v, run).agents <==> r in v.agents && !Stopped(run, r.0)
    decreases |run|
  {
    if run != [] {
      var s, rest := run[0], run[1..];
      assert s in run && (forall t <- rest :: t in run) && forall t <- run :: t == s || t in rest;
      if s.StopRemoves? { DropRowMembers(v.agents, s.pane); } else { InertReplies(v, s); }
      StepKeepsRecords(v, s);
      UnconfirmedRunsOnlyStop(Next(v, s), ws, rest);
    }
  }

  // ---- beginnings and other ends ------------------------------------------

  /** A spawn writes its own row and no other. */
  lemma SpawnsWrite(v: View, ws: string, meta: WorkspaceMeta, pane: string, agent: AgentMeta)
    requires OneRowAPane(v.agents)
    ensures var w := Next(v, WorkspaceSpawned(ws, meta));
      Lookup(w.index, ws) == Some(meta) && w.index - {ws} == v.index - {ws} && w.agents == v.agents
    ensures var w := Next(v, AgentSpawned(pane, agent));
      && w.index == v.index
      && forall r :: r in w.agents <==> r == (pane, agent) || (r in v.agents && r.0 != pane)
  {
    PutRowMembers(v.agents, pane, agent);
  }

  /** From its spawn on a conversation is safe: once its workspace has been written with
      a directory and its agent with a pinned id, then whatever goes on elsewhere, the
      first confirmed end leaves it resumable. */
  lemma SpawnedConversationsSurvive(v: View, ws: string, meta: WorkspaceMeta, pane: string, agent: AgentMeta,
                                    id: string, run: seq<Step>)
    requires OneRowAPane(v.agents) && ':' !in ws && meta.cwd != "" && InWorkspace(pane, ws) && Pinned(agent, id)
    requires Mixed(run, ws) && exists s <- run :: Concerns(s, ws) && Confirms(s)
    ensures id in After(Next(Next(v, WorkspaceSpawned(ws, meta)), AgentSpawned(pane, agent)), run).archive
  {
    SpawnsWrite(v, ws, meta, pane, agent);
    var u := Next(v, WorkspaceSpawned(ws, meta));
    SpawnsWrite(u, ws, meta, pane, agent);
    StepKeepsRecords(u, AgentSpawned(pane, agent));
    EndsAmongOthers(Next(u, AgentSpawned(pane, agent)), ws, run);
    assert (pane, agent) in Next(u, AgentSpawned(pane, agent)).agents;
  }

  /** Removing a worktree takes the row and the agents of its workspace and leaves all
      else, the archive above all, as it was. */
  lemma WorktreesGoWithoutTrace(v: View, ws: string)
    requires OneRowAPane(v.agents)
    ensures var w := Next(v, WorktreeRemoved(ws));
      && ws !in w.index && (forall other :: other != ws ==> Lookup(w.index, other) == Lookup(v.index, other))
      && (forall r :: r in w.agents <==> r in v.agents && !InWorkspace(r.0, ws))
      && w.archive == v.archive
  {
    PartMembers(v.agents, ws, false);
  }

  /** The next session of a demolished one's name inherits nothing: its run is that of a
      session that never was. */
  lemma DemolitionForgets(v: View, run: seq<Step>)
    ensures After(v, [Demolished] + run) == After(View(map[], [], map[]), run)
  {
    assert ([Demolished] + run)[1..] == run;
  }
}
