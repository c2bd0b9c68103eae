# herdr broker: a verified model

The broker attaches to local `herdr` sockets, federates children over one
tunnel, and keeps its own index of workspaces, agents and conversations. This
project models its stateful core and proves what holds over every run of it.

JavaScript runs one callback at a time, so every `await` is a step boundary.
Each protocol here is a state (`View`), a step function (`Next`), a class whose
methods are the source's own operations and are proved to perform exactly those
steps, and theorems over all runs of steps in any order:

- `ClientLeases`, `ChildTunnel`, `HubRegistry`, `LocalAttach`: event
  subscriptions of a client, the ledger of a tunnel, the hub with the registry,
  the attachment to local sessions.
- `Relay`, `ParentTaps`: the child's end of a tunnel, how the parent's copy of its
  sessions follows, and the taps it opens for the parent.
- `State`, `WorkspaceRows`: the three file-backed stores and the callers that
  race to clean up after an ended workspace.
- `AskLoop`, `Ownership`, `AuthLimit`, `EnvRegistry`: the polling loop of an
  `ask` and its lock, provisioning and bindings, the failed-auth limiter, the
  scoped environment.
- `Ndjson`, `Transcript`, `PathTree` and `FoldTree`, `Porcelain` and `Discard`,
  `EnvDropFile`: codecs, parsers and folds, each against a reader or a
  specification of its own.
- `JsText`, `Wrappers`: string operations with JavaScript's meaning, `Option`
  and `Result`.

## Reading the model

Herdr, git, the clock, JSON parsing, Unicode transformations and digests are
parameters of the operations. What the proofs assume of them is always a
`requires` of the theorem: `JsonLike` (parsing undoes stringifying; the text of
a value is newline-free, trimmed and not empty, as section 7 of RFC 8259 has
control characters escaped), `LineDecoder` (UTF-8 never hides a newline byte),
`CollisionFree` and `HexDigest` (the digest), `Clock` (readings never go back,
and a poll starts later than the previous one). A step that archives several
rows reads the clock once.

A step list stands for an interleaving. Where the step function accepts more
orders than the program can produce (a reply that belongs to no call changes
nothing), the theorems hold for those too.

Some plausible claims are false of the code. The code is modelled as it is, and
the exact condition is proved:

- The three stores end alike for every order of closes, stops and events
  exactly when no two rows of the workspace pin one conversation id for
  different tools, or there is no directory to archive with
  (`WorkspaceRows.ConfluentIff`). Ids are minted fresh or resumed with their
  tool, so the condition holds in practice.
- The prefix test and the `split(":")[0]` of the source select the same panes
  exactly for workspace ids without a colon (`WorkspaceRows.PrefixIsHead`).
- Flattening a folded tree gives the paths back exactly when no path starts
  with a slash (`PathTree.FoldFaithfulIff`).
- Both porcelain parsers take exactly the entries that git printed for entries if
  and only if no rename or copy is marked in the second status column only
  (`Porcelain.WalkReadsEntriesIff`). With one, the status list is always wrong
  (`Porcelain.StatusRecoveredIff`); the discard's paths are right all the same
  exactly when each stray original path stands in for the entry it hides
  (`Porcelain.SelectionReadsEntriesIff`).
- The NDJSON size cap is checked between chunks, so whether a push throws
  depends on the chunking (`Ndjson.ThrowingDependsOnChunking`): some push throws
  exactly when a complete line is malformed or a tail between two chunks is over
  the cap (`Ndjson.FeedReadsWholeText`). When none throws, the chunking does not
  matter.
- Among scopes without a `*` part the key text of an env entry tells one apart
  exactly when no space but the separator has text on both sides
  (`EnvRegistry.OneReadingIff`). A `*` part reads as an absent one; a scope with
  such a part or a second cut overwrites another scope's value
  (`EnvRegistry.KeyCollides`).
- A snapshot frame parts hub and registry exactly when the hub holds no
  connection for the name (`HubRegistry.StepAgrees`,
  `HubRegistry.SnapshotAfterDeath`); the child's end never sends one.
- A failed probe leaks an event channel exactly when an overlapping re-list had
  opened one (`LocalAttach.LeaksExactlyWhen`, `LocalAttach.ALeakIsReachable`).
- The registry lists tracked sessions only, except that a list fetched over HTTP is
  written when it comes, tracked or not (`LocalAttach.StraysExactlyWhen`,
  `LocalAttach.AListComesLate`).
- A parent's copy of a child's session parts from the child's own exactly when such
  a list is written that the frames under way do not correct
  (`Relay.CopiesPartExactlyWhen`, `Relay.AFreshListParts`); the next time the child
  adds or removes the session they agree again (`Relay.CopiesConverge`).
- A child's tap is left without an owner exactly when it is acked after its unsub or
  the end of its tunnel (`ParentTaps.OrphanedExactlyWhen`); it can then stay open
  for good (`ParentTaps.ATapIsLost`).
- Two asks share a lock key exactly when one session name continues the other
  with a colon (`AskLoop.KeysCollideExactlyWhen`).
- The provisioning lock is taken on the email as spelled, bindings are kept on
  the normalized one. A step parts the two exactly when it removes the binding of
  an email being provisioned (`Ownership.SpellingsPartExactlyWhen`); after that two
  spellings can provision at once (`Ownership.RemovalSplitsSpellings`).
- An owned session goes to one token, except across a step that takes the binding
  away from someone who was answered from it: a rebind, a removal, or a failed flight
  that another spelling was answered from (`Ownership.RightfulExactlyWhen`). The last
  needs no administrator (`Ownership.TwoTokensOneSession`).
- A discard's confirm binds HEAD and the list of names, not what is done to them. The
  commands are those the preview's tree called for exactly when the same names are
  untracked and HEAD lists the same of the others
  (`Discard.CommandsAreThePreviewedIff`); a file unstaged in between is deleted
  instead of unstaged (`Discard.AConfirmCanDelete`).
- The cap of eight subscription groups counts slots, not taps being awaited. It
  bounds those too as long as no awaited tap loses its slot, and a step takes such a
  slot exactly when it unsubscribes, closes upstream or closes the socket over an
  awaited tap (`ClientLeases.StrandsExactlyWhen`,
  `ClientLeases.AwaitedTapsAreCapped`); beyond that there is no bound
  (`ClientLeases.AwaitedTapsAreNotCapped`).

`dafny verify dfyconfig.toml` checks the project.

## Model

| member | source | states |
|---|---|---|
| ClientLeases.ClientSocket.SubscribeFrame | src/ws-server.ts:254-276 | the slot is reserved before the await; the ninth group is refused |
| ClientLeases.ClientSocket.OnAck | src/ws-server.ts:287-292 | the handed-back close function is stored under its own id, or called at once if its slot is gone |
| ClientLeases.ClientSocket.OnRefuse | src/ws-server.ts:293-296 | a refused subscribe gives its slot back |
| ClientLeases.ClientSocket.OnUpstreamClose | src/ws-server.ts:269-272 | an upstream close drops the slot, reserved or live |
| ClientLeases.ClientSocket.UnsubscribeFrame | src/ws-server.ts:324-331 | drops the slot and calls its close function once; unknown ids are refused |
| ClientLeases.ClientSocket.OnSocketClose | src/ws-server.ts:246-252 | calls every stored close function once and empties the table |
| ClientLeases.LeasesAreSafe | src/ws-server.ts:244-298 | over every run: each close function handed back is stored, was called once, or its tap was retired upstream; none is called twice; at most 8 slots |
| ClientLeases.NothingIsLeftOpen | src/ws-server.ts:246-252 | after socket close with nothing awaited every close function is accounted for and no slot is left |
| ClientLeases.CallsHaveCauses | src/ws-server.ts:246-331 | over every run a close function is called as often as its unsubscribe, the socket close or a late ack gives cause to, which is at most once |
| ClientLeases.LiveTapsStay | src/ws-server.ts:244-272 | no other subscription's fate touches a live tap |
| ClientLeases.UpstreamCloseFrees | src/ws-server.ts:269-272 | an upstream close frees its slot at once and, over every run, for good; the close function of a live tap is then never called |
| ClientLeases.SubscribesTakeASlotIff | src/ws-server.ts:262-276 | a subscribe reserves a new slot if and only if the socket is open, the frame is sane and fewer than eight are taken |
| ClientLeases.EightFit | src/ws-server.ts:262-276 | any number of subscribes at once take eight slots between them |
| ClientLeases.LateAckReleases | src/ws-server.ts:287-289 | a tap acked any time after the socket closed is released then, exactly once |
| ClientLeases.StrandsExactlyWhen | src/ws-server.ts:262-294 | a step leaves an awaited tap without its slot if and only if it is an unsubscribe, an upstream close or a socket close over an awaited tap |
| ClientLeases.AwaitedTapsAreCapped | src/ws-server.ts:262-276 | over every run without such a step at most 8 taps are awaited |
| ClientLeases.AwaitedTapsAreNotCapped | src/ws-server.ts:262-276 | unsubscribing reserved slots lets any number of taps be awaited |
| ChildTunnel.ChildConnection.Issue | src/tunnel.ts:121-168 | request and subscribe draw from one counter, register a pending entry and arm its timer |
| ChildTunnel.ChildConnection.RouteResponse | src/tunnel.ts:100-106 | a response settles its own pending entry only; an ack makes the subscription live |
| ChildTunnel.ChildConnection.OnTimer | src/tunnel.ts:129-132 | a timer settles its entry as timed out |
| ChildTunnel.ChildConnection.RouteEvent | src/tunnel.ts:113-113 | events of unknown subscriptions are dropped |
| ChildTunnel.ChildConnection.RouteSubClosed | src/tunnel.ts:114-118 | the child's end of a subscription is passed on once |
| ChildTunnel.ChildConnection.Release | src/tunnel.ts:137-140 | the caller's close sends one unsub frame, and nothing if the subscription had ended |
| ChildTunnel.ChildConnection.Gone | src/tunnel.ts:87-97 | rejects all that is pending, closes every live subscription, reports the death |
| ChildTunnel.IdsSplit | src/tunnel.ts:87-168 | over every run: ids are sent once, and split into pending ones with an armed timer and ones settled exactly once |
| ChildTunnel.DeathSettlesAll | src/tunnel.ts:87-97 | after the death every issued id is settled exactly once; a second report of it is silent |
| ChildTunnel.SubscriptionsAreOrderly | src/tunnel.ts:113-145 | events, onClose and the unsub frame come only after the ack and before the first end from either side |
| ChildTunnel.IssuesAreNew | src/tunnel.ts:126-165 | over every run a call sends one frame under an id never seen before |
| ChildTunnel.ResponsesSettle | src/tunnel.ts:100-106 | over every run the log alone tells what a response settles, request or subscription, and as what |
| ChildTunnel.TimersSettle | src/tunnel.ts:129-132 | likewise a timer |
| ChildTunnel.OpenSubscriptionsDeliver | src/tunnel.ts:113-140 | events, the child's end and the unsub frame go through exactly while the subscription is acked and not ended |
| ChildTunnel.DeathTells | src/tunnel.ts:87-97 | the death settles exactly what is unanswered, as dead, and closes exactly what is open |
| HubRegistry.UpsertAgent | src/registry.ts:105-108 | the search loop replaces the first agent of that id or appends |
| HubRegistry.UpsertOne | src/registry.ts:105-108 | at most one agent changes, and one is added exactly when the id was not there |
| HubRegistry.Registry.ReplaceSnapshot | src/registry.ts:87-100 | the entry is online with the snapshot; online is announced only if it was not, the snapshot always |
| HubRegistry.Registry.ApplyEvent | src/registry.ts:102-131 | session and status events change the sessions of a known instance only, and are announced |
| HubRegistry.Registry.SetOffline | src/registry.ts:134-139 | an online entry goes offline, keeping its sessions, and is announced once |
| HubRegistry.TunnelHub.AcceptChild | src/ws-server.ts:195-224 | a valid hello writes registry and hub together; others are refused with 4000 or 4001 |
| HubRegistry.TunnelHub.Route | src/tunnel.ts:107-112 | frames are applied under the connection's own name |
| HubRegistry.TunnelHub.OnGone | src/tunnel.ts:187-199 | only the current connection's death removes it and takes the child offline |
| HubRegistry.StepAgrees | src/tunnel.ts:107-112 | a step keeps hub and registry in agreement if and only if it is no snapshot for an unconnected name |
| HubRegistry.HellosAreRecorded | src/ws-server.ts:205-222 | a hello of protocol 2 puts its connection into the hub and its snapshot, online, into the registry; another first frame changes nothing |
| HubRegistry.LastKnownStays | src/registry.ts:133-139 | over every run without news of a name its last-known snapshot stays |
| HubRegistry.OwnSnapshotIsRecorded | src/local-attach.ts:275-275 | this machine's snapshot replaces its own entry and no other |
| HubRegistry.HubAndRegistryAgree | src/south.ts:39-55 | from boot, over every run of what children relay, a child is online exactly when the hub holds a connection for it |
| HubRegistry.SnapshotAfterDeath | src/tunnel.ts:112-112 | the run on which a late snapshot breaks the agreement |
| HubRegistry.LateDeathsNeverShow | src/tunnel.ts:190-197 | over every run, striking out the death reports of a replaced connection changes nothing |
| HubRegistry.DyingTwice | src/tunnel.ts:83-84 | error and close together do what one of them does, and the child is offline |
| HubRegistry.ReattachedStaysOnline | src/tunnel.ts:186-199 | a reattached child stays online through any run without its own death or replacement |
| HubRegistry.AnnouncementsAlternate | src/registry.ts:87-139 | from boot, over every run, online and offline announcements alternate and end with the current state |
| Relay.RelaysItsOwn | src/south.ts:39-55 | the child relays the events of its own machine, all of them, in order and nothing else |
| Relay.ApplyAllAt | src/registry.ts:102-131 | events act on each session by itself, whatever else the registry holds |
| Relay.CopiesPartExactlyWhen | src/http.ts:504-508 | frames under way counted in, a move keeps the parent's copy of a session equal to the child's if and only if it is no outdated fetched list |
| Relay.CopiesConverge | src/south.ts:39-55 | from any two registries, once the child adds or removes a session the copies agree, and go on agreeing over every run without an outdated list |
| Relay.ResetsHeal | src/http.ts:504-508 | while such an event is under way no fetched list can be outdated |
| Relay.AFreshListParts | src/http.ts:504-508 | the run on which a fetched list parts the copies |
| ParentTaps.ParentLink.OnTapped | src/south.ts:136-137 | an acked tap is stored under its sub id, whatever has happened meanwhile |
| ParentTaps.ParentLink.RouteUnsub | src/south.ts:144-149 | drops and closes what the table holds for the sub id |
| ParentTaps.ParentLink.OnDied | src/south.ts:131-134 | a dead tap drops the entry of its sub id |
| ParentTaps.ParentLink.OnTunnelClosed | src/south.ts:109-115 | closes every tap in the table and empties it |
| ParentTaps.OrphanedExactlyWhen | src/south.ts:125-149 | a step leaves an open tap unwanted or out of the table if and only if it acks a tap whose unsub or whose tunnel's end came before |
| ParentTaps.RefusalsHold | src/south.ts:138-141 | a refused tap is open at no time afterwards |
| ParentTaps.NoTapOutlivesItsTunnel | src/south.ts:109-115 | over every run without such an ack the end of the tunnel closes every open tap |
| ParentTaps.ATapIsLost | src/south.ts:125-149 | with one, a tap stays open for good |
| State.WorkspaceIndex.Set | src/state.ts:87-91 | writes one row of one session |
| State.WorkspaceIndex.Remove | src/state.ts:97-103 | drops one row of one session |
| State.WorkspaceIndex.RemoveSession | src/state.ts:111-117 | drops one session |
| State.AgentIndex.Set | src/state.ts:152-156 | writes one row, keeping the order of the others |
| State.AgentIndex.Remove | src/state.ts:161-169 | drops one row and returns it |
| State.AgentIndex.RemoveWorkspace | src/state.ts:176-190 | the key loop removes and returns exactly the rows with the prefix, in order |
| State.AgentIndex.RemoveSession | src/state.ts:194-200 | drops one session |
| State.ResumableIndex.Record | src/state.ts:247-258 | archives an agent with a pinned id and a known directory, and nothing else |
| State.ResumableIndex.RemoveSession | src/state.ts:278-284 | drops one session |
| State.PartMembers | src/state.ts:180-188 | the loop's two halves split the rows by prefix |
| WorkspaceRows.OpsDeps.ReapWorkspaceRow | src/workspace-ops.ts:419-428 | archives every removed agent with the row's directory, drops the row, says whether it was held; other sessions untouched |
| WorkspaceRows.OpsDeps.CloseWorkspace | src/workspace-ops.ts:151-175 | reaps when herdr closed the workspace, or does not know it while the broker has a row; throws otherwise |
| WorkspaceRows.OpsDeps.StopAgent | src/workspace-ops.ts:1153-1156 | removes the pane's row and archives it with its workspace's directory |
| WorkspaceRows.OpsDeps.StopAgentListed | src/workspace-ops.ts:1174-1185 | only a definite no from herdr reaps |
| WorkspaceRows.OpsDeps.RemoveWorktree | src/workspace-ops.ts:208-214 | drops the row and its agents without archiving |
| WorkspaceRows.OpsDeps.SpawnWorkspace | src/workspace-ops.ts:815-830 | writes the workspace row |
| WorkspaceRows.OpsDeps.SpawnAgent | src/workspace-ops.ts:1020-1020 | writes the agent row, whenever it comes |
| WorkspaceRows.OpsDeps.DemolishRows | src/http.ts:177-188 | empties all three stores for the session |
| WorkspaceRows.PrefixIsHead | src/state.ts:180-183 | the prefix test and `split(":")[0]` agree on all panes if and only if the id has no colon |
| WorkspaceRows.StepConserves | src/workspace-ops.ts:419-428 | a close, stop or reap archives exactly the pinned ids of the rows it removes, with the step's directory, and changes no other entry |
| WorkspaceRows.EndedConversationsStayResumable | src/workspace-ops.ts:1150-1156 | in every run an archived conversation stays until the session is demolished |
| WorkspaceRows.DroppingTheRowDropsItsAgents | src/workspace-ops.ts:419-428 | every step that drops a workspace row drops all its agent rows |
| WorkspaceRows.ReapIsIdempotent | src/workspace-ops.ts:406-410 | the loser of the race changes nothing |
| WorkspaceRows.OneWinnerARow | src/workspace-ops.ts:419-428 | over every run at most one reap per written row reports that it held it |
| WorkspaceRows.EveryEndSettles | src/workspace-ops.ts:402-410 | every interleaving of closes, stops and events, whatever herdr replies to them, in which one confirms the end of a workspace leads to its settled end |
| WorkspaceRows.SettledIsUnique | src/workspace-ops.ts:402-410 | settled ends are equal up to `endedAt` |
| WorkspaceRows.ConfluentIff | src/workspace-ops.ts:402-410 | the order and the inert replies never matter, if and only if pinned ids name one tool each or there is no directory |
| WorkspaceRows.ElsewhereStaysAway | src/state.ts:176-190 | no step about another workspace touches the row or the agent rows of this one |
| WorkspaceRows.EndsAmongOthers | src/workspace-ops.ts:402-428 | amid any activity in other workspaces, one confirmed end of a known workspace leaves no row of it and every conversation it had in the archive |
| WorkspaceRows.InertReplies | src/workspace-ops.ts:152-160 | a failed close, an unconfirmed listing and a close of a workspace nobody knows change nothing |
| WorkspaceRows.UnconfirmedRunsOnlyStop | src/workspace-ops.ts:1150-1174 | over every run on a workspace without a confirmed end no row goes, and an agent row exactly with the stop of its pane |
| WorkspaceRows.SpawnsWrite | src/workspace-ops.ts:815-1020 | a spawn writes its own row and no other |
| WorkspaceRows.SpawnedConversationsSurvive | src/workspace-ops.ts:815-1020 | from spawn to the first confirmed end, amid whatever else, a pinned conversation ends up resumable |
| WorkspaceRows.WorktreesGoWithoutTrace | src/workspace-ops.ts:208-214 | a removed worktree takes its row and agents and leaves all else as it was |
| WorkspaceRows.DemolitionForgets | src/http.ts:172-188 | after a demolition every run is that of a session that never was |
| LocalAttach.LocalHerdr.VisitEndpoint | src/local-attach.ts:281-301 | a name is probed by one rescan at a time, and only if untracked or without a channel |
| LocalAttach.LocalHerdr.OnProbeAnswered | src/local-attach.ts:307-311 | a new session is tracked by a new object, unless stopped |
| LocalAttach.LocalHerdr.OnProbeFailed | src/local-attach.ts:295-303 | a failed probe retires the session only if it is still the one captured |
| LocalAttach.LocalHerdr.OnProbeDone | src/local-attach.ts:301-303 | releases the name |
| LocalAttach.LocalHerdr.Refresh | src/local-attach.ts:340-362 | records the agents and opens a channel if none or for other panes, only for the captured session |
| LocalAttach.LocalHerdr.OnAgentEvent | src/local-attach.ts:321-326 | replaces or appends one agent of the channel's session |
| LocalAttach.LocalHerdr.OnFreshList | src/http.ts:504-508 | writes the fetched list, whether or not the session is still tracked |
| LocalAttach.LocalHerdr.OnChannelClosed | src/local-attach.ts:356-360 | a dead channel is forgotten only by the session that points to it |
| LocalAttach.LocalHerdr.ForgetSession | src/local-attach.ts:382-392 | closes the channel, drops the session and its registry entry |
| LocalAttach.LocalHerdr.StopAll | src/local-attach.ts:477-482 | closes every tracked channel and tracks nothing |
| LocalAttach.OnlyOneChannelASession | src/local-attach.ts:348-362 | over every run a tracked session's only open channel is the one it points to |
| LocalAttach.StaleRefreshIsInert | src/local-attach.ts:344-345 | a refresh that captured a session no longer tracked does nothing after any run |
| LocalAttach.RefreshAcrossForget | src/local-attach.ts:382-392 | in particular across forgetting, even if the name is tracked again |
| LocalAttach.RefreshAcrossStop | src/local-attach.ts:477-482 | and across the stop |
| LocalAttach.ProbesStartIff | src/local-attach.ts:284-306 | a probe starts if and only if none is under way for the name and it is untracked or without a channel |
| LocalAttach.AnsweredAfterStop | src/local-attach.ts:310-317 | a probe answered after the stop only frees its name |
| LocalAttach.FailedProbesRetireTheirOwn | src/local-attach.ts:295-303 | a failed probe retires the session it captured, if that is still tracked, and nothing else |
| LocalAttach.ProbesCanBeRepeated | src/local-attach.ts:301-317 | however a probe ends its name can be probed again |
| LocalAttach.StatusesAreRecorded | src/local-attach.ts:321-326 | a status event keeps every other agent and session |
| LocalAttach.LeaksExactlyWhen | src/local-attach.ts:295-299 | a step orphans an open channel if and only if it is the failed probe of a session that has one |
| LocalAttach.ALeakIsReachable | src/local-attach.ts:290-299 | the run on which that happens |
| LocalAttach.StraysExactlyWhen | src/http.ts:504-508 | a step keeps the registry to tracked sessions, until the stop, if and only if it is no late list and no status event of an untracked session |
| LocalAttach.RunListsTracked | src/local-attach.ts:321-391 | over every run without such a step the registry lists tracked sessions only, until the stop |
| LocalAttach.TidyRunsNeverStray | src/local-attach.ts:281-391 | without a leak only a late list is such a step |
| LocalAttach.AListComesLate | src/http.ts:504-508 | the run on which one is |
| LocalAttach.StopClosesAllIff | src/local-attach.ts:477-482 | the stop closes every channel if and only if none has leaked before |
| LocalAttach.StopEndsEverything | src/local-attach.ts:477-482 | after the stop nothing is open, opens or is tracked, and only fetched lists are still written |
| LocalAttach.RefreshSubscribes | src/local-attach.ts:347-361 | after a refresh the channel listens to exactly the recorded panes |
| LocalAttach.PanesAreTheAgents | src/local-attach.ts:347-347 | a pane is subscribed to if and only if an agent of that id was listed |
| AskLoop.Ask | src/workspace-ops.ts:1614-1683 | the loop returns the outcome that the trace of polls calls for |
| AskLoop.OneOutcome | src/workspace-ops.ts:1624-1683 | a trace calls for exactly one outcome |
| AskLoop.EndsByTheDeadline | src/workspace-ops.ts:1586-1625 | every poll that goes on starts before the deadline, so the loop ends, after ten minutes at most |
| AskLoop.ActiveMeans | src/workspace-ops.ts:1636-1644 | a poll is active by the transcript only if that was written since the ask began, else by the recorded status |
| AskLoop.UnresponsiveMeans | src/workspace-ops.ts:1648-1670 | unresponsive: no poll saw activity or an answer and the start grace passed; transcript evidence is a turn finished since the ask began |
| AskLoop.AnswersEndTheLoop | src/workspace-ops.ts:1626-1635 | a parsed or oversize answer ends the loop at once, a garbled one never |
| AskLoop.BudgetMeans | src/workspace-ops.ts:1586-1586 | two minutes by default, between a second and ten minutes |
| AskLoop.FirstAnswerWins | src/workspace-ops.ts:1626-1632 | a complete answer found by a poll is the result |
| AskLoop.LastLook | src/workspace-ops.ts:1675-1683 | a late answer is returned; a time-out is reported exactly when there is none |
| AskLoop.IdleBreakMeans | src/workspace-ops.ts:1640-1647 | giving up early needs an unbroken idle stretch longer than the grace since the last activity |
| AskLoop.AskLocks.Acquire | src/workspace-ops.ts:1537-1545 | refuses a key in flight, else takes it |
| AskLoop.AskLocks.Release | src/workspace-ops.ts:1547-1551 | frees the key however the ask ended |
| AskLoop.LocksAlwaysAreFlights | src/workspace-ops.ts:1537-1551 | over every run the locks are exactly the asks in flight, one per key |
| AskLoop.FinishedKeysAreFree | src/workspace-ops.ts:1547-1551 | over every run an ask that ended leaves its key free for the next |
| AskLoop.BusyExactlyWhenInFlight | src/workspace-ops.ts:1539-1543 | an ask is refused if and only if one with its key is in flight |
| AskLoop.KeysCollideExactlyWhen | src/workspace-ops.ts:1537-1537 | sessions share a key for some panes if and only if one name continues the other with a colon |
| AskLoop.OneSessionOnePane | src/workspace-ops.ts:1537-1537 | within a session the key tells panes apart |
| Ownership.NamesAreGuarded | src/owners.ts:43-53 | every session name passes the provisioner's guard, is short and plain, and is not `default` |
| Ownership.NamesTellApart | src/owners.ts:43-53 | two emails share a name if and only if slug and six digest digits of their normalized forms agree |
| Ownership.SlugShape | src/owners.ts:45-51 | a slug is one to sixteen letters, digits and single dashes |
| Ownership.PlainNamesAreSlugs | src/owners.ts:45-51 | a short plain mailbox name is its own slug |
| Ownership.UnspellableNamesAreUser | src/owners.ts:51-51 | one without letters or digits is called user |
| Ownership.EmailsAreNormalized | src/owners.ts:58-58 | emails are known by their lower-case form without surrounding blanks |
| Ownership.OwnerRegistry.Bind | src/owners.ts:57-76 | binds an unbound email; keeps the binding for its token; refuses another token |
| Ownership.OwnerRegistry.Rebind | src/owners.ts:96-104 | moves an existing binding to a new token, session untouched |
| Ownership.OwnerRegistry.Remove | src/owners.ts:106-110 | drops the binding |
| Ownership.AuthHandler.TryOnce | src/http.ts:283-319 | waits while the email is locked, answers from the binding, or binds and takes the lock at once |
| Ownership.AuthHandler.IdentifyRequest | src/http.ts:281-319 | a request that arrives runs that stretch once |
| Ownership.AuthHandler.ResumeWaiter | src/http.ts:283-284 | a waiter that resumes runs it again |
| Ownership.AuthHandler.SettleFlight | src/http.ts:306-310 | a failed provisioning removes the binding before anyone can see the lock gone |
| Ownership.AuthHandler.ReleaseLock | src/http.ts:319-324 | frees the lock whichever way it ended |
| Ownership.AtMostOneFlight | src/http.ts:282-324 | over every run the locks are the emails being provisioned, one request each |
| Ownership.NoTwoFlights | src/http.ts:282-283 | no two requests provision for one email string |
| Ownership.WaiterTakesOver | src/http.ts:283-310 | a failed flight leaves no binding; until someone binds the email again a waiter still waits, and once the lock is gone it starts its own flight, whatever else happened |
| Ownership.TokensAreSticky | src/owners.ts:55-104 | only a rebind changes the token of a standing binding |
| Ownership.BindingsLast | src/owners.ts:57-110 | a binding goes only by removal or with a failed flight of its email |
| Ownership.BindingStands | src/owners.ts:12-18 | over any run without a rebind, a removal or a failed flight for its email a binding keeps token and session |
| Ownership.RightfulExactlyWhen | src/http.ts:283-322 | everyone who provisions for an email or was answered with its session keeps its binding across a step if and only if the step dispossesses nobody |
| Ownership.SessionsGoToTheOwner | src/http.ts:284-322 | over every run that dispossesses nobody, failures and retries included, whoever is answered with a session holds its binding |
| Ownership.TwoTokensOneSession | src/http.ts:283-310 | the run on which two tokens are answered with one session, by a failed flight and two spellings alone |
| Ownership.PrimaryIsUnreachable | src/provisioner.ts:27-31 | over every run each bound or answered session is guarded and not `default` |
| Ownership.SpellingsPartExactlyWhen | src/http.ts:283-319 | a step keeps one bound flight per normalized email if and only if it is no removal of an email being provisioned |
| Ownership.SpellingsShareAFlight | src/http.ts:283-319 | over every run without such a removal at most one flight runs per normalized email |
| Ownership.RemovalSplitsSpellings | src/http.ts:306-310 | with one, two spellings fly at once and one failure takes the other's binding |
| AuthLimit.AuthLimiter.Live | src/auth-limit.ts:25-31 | keeps the failures inside the window, and no empty entry |
| AuthLimit.AuthLimiter.Record | src/auth-limit.ts:33-35 | adds one failure to the live ones |
| AuthLimit.AuthLimiter.Success | src/auth-limit.ts:37-39 | forgets the address |
| AuthLimit.AuthLimiter.Blocked | src/auth-limit.ts:41-43 | says whether the live failures reach the maximum |
| AuthLimit.PruningNeverShows | src/auth-limit.ts:25-31 | the pruned map counts as the full history does |
| AuthLimit.BlockedCountsTheWindow | src/auth-limit.ts:25-43 | blocked if and only if at least max failures since the last success fall inside the window of the full history |
| AuthLimit.AddressesAreIndependent | src/auth-limit.ts:25-43 | an address's state depends on the calls about it only |
| AuthLimit.NoEmptyEntries | src/auth-limit.ts:25-31 | no run leaves an empty entry |
| EnvRegistry.EnvRegistry.Set | src/env-registry.ts:73-87 | stores under the cleaned scope or refuses, with the source's error cases |
| EnvRegistry.EnvRegistry.Delete | src/env-registry.ts:105-114 | removes the entry at the cleaned scope or refuses |
| EnvRegistry.EnvRegistry.BestManual | src/env-registry.ts:119-127 | the loop keeps the value of the fallback chain for every name |
| EnvRegistry.EnvRegistry.BestHooks | src/env-registry.ts:129-140 | the loop keeps the first most specific matching hook of each name without a manual value |
| EnvRegistry.EnvRegistry.ResolveForSpawn | src/env-registry.ts:118-146 | manual values by the chain, hooks for the other names, nothing else |
| EnvRegistry.NoTies | src/env-registry.ts:36-45 | distinct scopes that match one spawn differ in specificity |
| EnvRegistry.UpperWordsAreTaken | src/env-registry.ts:74-80 | which names are valid and how long a value may be, on words and ASCII values |
| EnvRegistry.ChosenOnFields | src/env-registry.ts:129-140 | the hook that runs, in terms of the hooks' own kinds, sessions and order |
| EnvRegistry.PutKeepsPlaces | src/env-registry.ts:85-85 | setting an entry anew keeps its place |
| EnvRegistry.ChainFindsTheBest | src/env-registry.ts:119-127 | the fallback chain gives the value at the most specific matching scope |
| EnvRegistry.TableIsTheMap | src/env-registry.ts:73-114 | after any run of sets and deletes whose keys do not clash the table is the map keyed by name and scope |
| EnvRegistry.OneCutsNeverClash | src/env-registry.ts:31-33 | operations on scopes that their keys tell apart never clash |
| EnvRegistry.OrderIsIrrelevant | src/env-registry.ts:118-128 | insertion order never changes a resolved manual value |
| EnvRegistry.KeyInjective | src/env-registry.ts:31-33 | without stars, a scope with one cut shares its key with no other |
| EnvRegistry.OneReadingIff | src/env-registry.ts:31-33 | such a scope is the only reading of its key if and only if it has one cut |
| EnvRegistry.KeyCollides | src/env-registry.ts:31-33 | every scope with a star or a second cut shares its key with another one and overwrites its value |
| EnvDropFile.QuotedReadsBack | src/env-registry.ts:160-168 | a shell reads a quoted value back, quotes and newlines included |
| EnvDropFile.DropFileReadsBack | src/env-registry.ts:160-168 | a shell reads a drop file as exactly its assignments, in order |
| EnvDropFile.SourcedValues | src/env-registry.ts:151-168 | sourcing sets each variable to its value and no other |
| EnvDropFile.DropTextInjective | src/env-registry.ts:160-168 | different assignments have different texts |
| Ndjson.NdjsonDecoder.Push | src/ndjson.ts:20-35 | one push drains the buffer line by line, then checks the cap |
| Ndjson.DrainReadsLines | src/ndjson.ts:24-29 | the loop reads exactly the complete lines and keeps the tail |
| Ndjson.MalformedLeavesTheRest | src/ndjson.ts:24-29 | a malformed line throws and leaves the text after it |
| Ndjson.MalformedPush | src/ndjson.ts:20-35 | a push that throws over a malformed line leaves exactly the text after it |
| Ndjson.FeedReadsWholeText | src/ndjson.ts:20-35 | a run of pushes succeeds if and only if all lines decode and all tails fit; it then equals reading the whole text |
| Ndjson.ChunkingsAgree | src/ndjson.ts:20-35 | two chunkings of one text that do not throw agree |
| Ndjson.RoundTripForEveryChunking | src/ndjson.ts:3-35 | every chunking of encoded frames reads back if and only if every frame's text is within the cap |
| Ndjson.RoundTripWithin | src/ndjson.ts:3-35 | any chunking whose tails fit reads the values back |
| Ndjson.ThrowingDependsOnChunking | src/ndjson.ts:31-33 | one oversize frame passes whole and throws in pieces |
| Transcript.JsonLines | src/transcript.ts:39-52 | the rows of the parsable lines, in order |
| Transcript.ParseClaude | src/transcript.ts:60-96 | the newest deciding row's word, or working at the newest time stamp |
| Transcript.ParseCodex | src/transcript.ts:183-203 | the newest deciding row's word |
| Transcript.ClaudeSaysOneThing | src/transcript.ts:60-96 | what a log says is unique |
| Transcript.CodexSaysOneThing | src/transcript.ts:183-203 | what a log says is unique |
| Transcript.ClaudeTailRefinesFull | src/transcript.ts:269-285 | a deciding row inside the tail gives the tail and the whole file one result, whatever the cut line parses to |
| Transcript.CodexTailRefinesFull | src/transcript.ts:269-285 | the same for codex |
| Transcript.ClaudeProof | src/transcript.ts:238-248 | a transcript-proven done if and only if the newest deciding row is a done row stamped at or after the prompt |
| Transcript.CodexProof | src/transcript.ts:238-248 | the same for codex |
| Transcript.ClaudeAppend | src/transcript.ts:60-96 | rows without a deciding word change neither done nor its time stamp |
| Transcript.CodexAppend | src/transcript.ts:183-203 | the same for codex |
| Transcript.ClaudeOnFields | src/transcript.ts:71-91 | the last row with a stop reason decides, in terms of its word, its time and later tool results |
| Transcript.ClaudeUndecided | src/transcript.ts:92-96 | without one it is working at the newest time |
| Transcript.CodexOnFields | src/transcript.ts:190-202 | the last event row with one of the profile's words decides |
| Transcript.CodexUndecided | src/transcript.ts:190-203 | without one there is no state |
| Transcript.DecisionReads | src/transcript.ts:238-248 | a turn's word counts while fresh, the recorded status otherwise |
| Transcript.TailIsLast | src/transcript.ts:269-285 | the tail is the last 256 KiB |
| Transcript.LinesAreTrimmed | src/transcript.ts:41-50 | blanks around a line do not matter, blank lines are no rows |
| PathTree.FoldKeepsEveryPath | src/git-exec.ts:113-133 | flattening the fold gives a permutation of the paths without leading slashes |
| PathTree.FoldFaithfulIff | src/git-exec.ts:118-123 | it is a permutation of the paths if and only if none starts with a slash |
| PathTree.OneDirectoryAPrefix | src/git-exec.ts:120-130 | one directory node for each distinct directory prefix, and no other |
| PathTree.SortedFoldReadsBack | src/git-exec.ts:138-144 | flattening the fold of sorted paths gives exactly that sequence if and only if none starts with a slash |
| PathTree.PrefixIsContiguous | src/git-exec.ts:138-144 | in sorted order the paths below one directory are contiguous |
| FoldTree.FoldTree | src/git-exec.ts:113-133 | the loops over shared nodes and the directory map build the tree of the fold on values |
| FoldTree.AddPath | src/git-exec.ts:116-131 | adding one path changes the tree as the fold on values does |
| Porcelain.ParseStatus | src/git-exec.ts:160-167 | the index loop reads the tokens as entries, skipping original paths |
| Porcelain.DiscardSelection | src/git-exec.ts:310-325 | the same walk, partitioned, scoped and sorted |
| Porcelain.StatusRecoveredIff | src/git-exec.ts:160-167 | printed entries are recovered if and only if no rename or copy is marked in the second column only |
| Porcelain.PrintedStatusReadsBack | src/git-exec.ts:160-167 | the same on the printed text |
| Porcelain.StateReads | src/git-exec.ts:165-165 | the state shown, on the two columns |
| Porcelain.ScopeReads | src/git-exec.ts:321-322 | a path covers itself and what lies below it |
| Porcelain.ScopesAdd | src/git-exec.ts:321-322 | several paths cover what each does, no paths everything |
| Porcelain.WalkReadsEntriesIff | src/git-exec.ts:160-167 | both parsers take the printed entries for entries if and only if no rename or copy is marked in the second column only |
| Porcelain.SelectionReadsEntries | src/git-exec.ts:310-325 | the discard then sees the printed entries' paths |
| Porcelain.SelectionReadsEntriesIff | src/git-exec.ts:310-325 | it sees them if and only if every stray original path stands in for the entry it hides |
| Discard.EncodeInjective | src/git-exec.ts:348-348 | the digested text determines HEAD and file list, but for nothing and one empty name |
| Discard.SelectedNulFree | src/git-exec.ts:310-325 | no selected name holds a NUL |
| Discard.ConfirmBinds | src/git-exec.ts:346-352 | a preview's confirm executes if and only if HEAD and the list of names are the previewed ones |
| Discard.ConfirmBindsTheCommit | src/git-exec.ts:345-352 | in git's own words: at another commit the confirm is stale, at the same one it executes on the names shown |
| Discard.BadRequestsAre | src/git-exec.ts:337-344 | what is refused outright, on the paths' own text |
| Discard.PreviewThenConfirm | src/git-exec.ts:349-363 | without a confirm nothing is touched; the one shown, sent back over the same tree, executes |
| Discard.CommandsFollowTheTree | src/git-exec.ts:353-363 | restored are the tracked files of the printed tree, unstaged the other tracked ones, deleted the untracked |
| Discard.CommandsAreThePreviewedIff | src/git-exec.ts:353-363 | over one list the commands are the previewed tree's if and only if the untracked part and HEAD's part of it are |
| Discard.AConfirmCanDelete | src/git-exec.ts:346-363 | a file unstaged since the preview is deleted by the confirmed discard |
| Discard.CommandsPartition | src/git-exec.ts:353-363 | restored, unstaged and cleaned files partition the list |
| Discard.CommandKinds | src/git-exec.ts:353-363 | each command gets only its kind of file; cleaning only if untracked was asked for |
| Discard.FilesAreTheWalk | src/git-exec.ts:310-347 | whatever git answered, the list is the walked entries in scope, untracked ones only if asked for |
| Discard.FilesAreTheEntries | src/git-exec.ts:346-347 | where the discard reads what was printed, the list is the printed entries in scope |
| JsText.SortSorts | src/git-exec.ts:142-142 | `sort()` gives a sorted permutation, in UTF-16 order |
| JsText.SplitJoin | src/git-exec.ts:119-119 | splitting undoes joining |
| JsText.ByteLengthIsUtf8 | src/ndjson.ts:31-31 | the byte length is that of the UTF-8 text (RFC 3629, section 3) |
| JsText.Utf8ReadsBack | src/ndjson.ts:31-31 | a character is read back from its bytes |
| JsText.LeqIsUtf16 | src/git-exec.ts:142-142 | the order of `sort` is that of the UTF-16 code units |

## Left out

- Sockets, HTTP and WebSocket plumbing, TLS, child processes and the real file system: every reply of herdr, git or a peer is a parameter.
- JSON, digests, Unicode lower-casing and decomposition, and UTF-8 decoding: parameters with the assumptions named above; a chunk that ends inside a UTF-8 sequence is not modelled.
- Sub and request ids are numbers; their text forms `sub-<n>` and `<name>:<n>` are not modelled.
- State.ResumableIndex.Record: `all()`'s newest-first order and `remove`, which nothing calls, are not modelled.
- State: an unreadable store file reads as empty in the source, which is not modelled; rows keep insertion order, as pane ids are never bare numbers.
- WorkspaceRows.OpsDeps.StopAgentListed: a failing write during the self-heal, which the source swallows, is not modelled.
- WorkspaceRows.OpsDeps.CloseWorkspace: the reply is claimed for the step alone; a close that loses the race to an event can throw, so the run theorems speak of the stores.
- WorkspaceRows.EveryEndSettles: the panes stopped are those of the workspace, whose ids extend its id with a colon; a pane id without a colon belongs to no workspace.
- "Every agent row has a workspace row" is not claimed: a spawn writes its agent row late.
- LocalAttach: the first snapshot that `start` writes, the endpoint list and `tap` are not modelled; a run begins with nothing tracked.
- LocalAttach.LocalHerdr.OnAgentEvent: this machine's own registry entry is taken to exist; the workspace-closed event is `WorkspaceRows.Reaped`.
- HubRegistry: `as_of`, the persisted file and the `counts` and `rollup` sums are not modelled.
- ChildTunnel.ChildConnection.Gone: heartbeats and missed pongs only decide when the death is reported, which may be any time here.
- ParentTaps: reconnecting, and the frames a tap sends, are not modelled; a sub id is taken to come once per tunnel.
- Relay: frames lost with a tunnel are not modelled; a new tunnel's hello replaces the parent's copy with a snapshot of its own.
- AskLoop.Ask: the prompt, the answer directory and the unwrapping of the answer envelope are not modelled; file contents are opaque.
- EnvRegistry.EnvRegistry.ResolveForSpawn: `set_at`, logging and the timing of hook runs are not modelled; the order in which hooks run is left open.
- EnvDropFile: the file's name, mode and the sweep of old files are not modelled.
- Discard.ConfirmBinds: git's quoting of special names in `ls-tree` output is not modelled; names are taken as printed.
- Transcript: the agy, opencode and copilot parsers and the search for session files are left out.
- Ownership.AuthHandler.SettleFlight: what provisioning does between binding and settling is one nondeterministic outcome; presence and audit are left out.
- Module loading, capabilities, policy globs, configuration, OpenAPI, the user interface and the client SDK: plumbing or easy members.
