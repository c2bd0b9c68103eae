/** Asking an agent a question (src/workspace-ops.ts, `ask` and `askInner`): the
    lock on the pane, and the loop that polls the answer file and the turn state.
    A poll's clock readings, file and statuses are inputs. */
module AskLoop {
  import opened Wrappers
  import opened JsText
  import opened Transcript

  datatype FileRead = Absent | Garbled(raw: string) | Parsed(answer: string) | Oversize(raw: string, size: nat)

  /** One turn of the loop: the clock at its condition, the answer file, the
      transcript and the recorded status, and the clock twice more. */
  datatype Poll = Poll(start: int, file: FileRead, turn: Option<TranscriptState>, tier: Option<Status>, mark: int,
      check: int)

  datatype Outcome = Answered(read: FileRead) | Unresponsive(evidence: Evidence) | TimedOut

  /** When the ask starts, the time it asks for, and the two graces. */
  datatype Config = Config(startedAt: int, requested: Option<int>, grace: int, startGrace: int)

  predicate Complete(f: FileRead) { f.Parsed? || f.Oversize? }

  const MIN_BUDGET: nat := 1_000
  const MAX_BUDGET: nat := 600_000

  /** The time an ask may take, from the request. */
  function Budget(requested: Option<int>): nat {
    var wanted := if requested.Some? then requested.value else 120_000;
    if wanted < MIN_BUDGET then MIN_BUDGET else if wanted > MAX_BUDGET then MAX_BUDGET else wanted
  }

  function Deadline(c: Config): int { c.startedAt + Budget(c.requested) }

  function Decided(c: Config, p: Poll): Decision {
    DecideTurn(p.turn, Tier(if p.tier.Some? then p.tier.value else SIdle, None), c.startedAt)
  }

  /** Working or blocked on an approval. */
  predicate Active(c: Config, p: Poll) {
    Decided(c, p).status != SIdle
  }

  /** Readings never go back, and a poll starts later than the one before it. */
  ghost predicate Clock(c: Config, polls: nat -> Poll) {
    && c.startedAt <= polls(0).start
    && forall k: nat :: polls(k).start <= polls(k).mark <= polls(k).check <= polls(k + 1).start &&
        polls(k).start < polls(k + 1).start
  }

  // ---- what the trace of polls calls for ----------------------------------

  ghost predicate SawActive(c: Config, polls: nat -> Poll, k: nat) {
    exists i: nat :: i < k && Active(c, polls(i))
  }

  /** Polls `j` to `k` are one unbroken idle stretch right after an active poll. */
  ghost predicate IdleStretch(c: Config, polls: nat -> Poll, j: nat, k: nat) {
    && 0 < j <= k && Active(c, polls(j - 1))
    && forall i: nat :: j <= i <= k ==> !Active(c, polls(i))
  }

  /** The agent went idle and stayed idle for longer than the grace. */
  ghost predicate GaveUp(c: Config, polls: nat -> Poll, k: nat) {
    exists j: nat :: IdleStretch(c, polls, j, k) && polls(k).check - polls(j).mark > c.grace
  }

  /** The agent never showed activity in the time it has for starting. */
  ghost predicate NeverStarted(c: Config, polls: nat -> Poll, k: nat) {
    !SawActive(c, polls, k + 1) && polls(k).check - c.startedAt > c.startGrace
  }

  predicate PastDeadline(c: Config, p: Poll) {
    p.start >= Deadline(c)
  }

  ghost predicate GoesOn(c: Config, polls: nat -> Poll, k: nat) {
    !PastDeadline(c, polls(k)) && !Complete(polls(k).file) && !GaveUp(c, polls, k) && !NeverStarted(c, polls, k)
  }

  function AtEnd(read: FileRead): Outcome {
    if read == Absent then TimedOut else Answered(read)
  }

  /** `outcome` is what the polls up to `n` call for; `final(n)` is the last look at
      the file. */
  ghost predicate Explains(c: Config, polls: nat -> Poll, final: nat -> FileRead, outcome: Outcome, n: nat) {
    && (forall k: nat :: k < n ==> GoesOn(c, polls, k))
    && !GoesOn(c, polls, n)
    && outcome ==
         if PastDeadline(c, polls(n)) then AtEnd(final(n))
         else if Complete(polls(n).file) then Answered(polls(n).file)
         else if GaveUp(c, polls, n) then AtEnd(final(n))
         else Unresponsive(Decided(c, polls(n)).evidence)
  }

  /** What the loop's two variables remember of the first `n` polls. */
  ghost predicate Remembers(c: Config, polls: nat -> Poll, n: nat, sawWorking: bool, idleSince: Option<int>) {
    && sawWorking == SawActive(c, polls, n)
    && (idleSince.Some? <==> sawWorking && n > 0 && !Active(c, polls(n - 1)))
    && (idleSince.Some? ==> exists j: nat :: IdleStretch(c, polls, j, n - 1) && idleSince == Some(polls(j).mark))
  }

  lemma SawOneMore(c: Config, polls: nat -> Poll, n: nat)
    ensures SawActive(c, polls, n + 1) <==> SawActive(c, polls, n) || Active(c, polls(n))
  {
    if SawActive(c, polls, n + 1) {
      var i: nat :| i < n + 1 && Active(c, polls(i));
      assert i < n || i == n;
    }
  }

  lemma ActivePoll(c: Config, polls: nat -> Poll, n: nat)
    requires Active(c, polls(n))
    ensures Remembers(c, polls, n + 1, true, None) && !GaveUp(c, polls, n) && !NeverStarted(c, polls, n)
  {
    SawOneMore(c, polls, n);
  }

  lemma QuietPoll(c: Config, polls: nat -> Poll, n: nat)
    requires !Active(c, polls(n)) && Remembers(c, polls, n, false, None)
    ensures Remembers(c, polls, n + 1, false, None) && !GaveUp(c, polls, n)
    ensures NeverStarted(c, polls, n) <==> polls(n).check - c.startedAt > c.startGrace
  {
    SawOneMore(c, polls, n);
  }

  lemma IdlePoll(c: Config, polls: nat -> Poll, n: nat, idleSince: Option<int>)
    requires !Active(c, polls(n)) && Remembers(c, polls, n, true, idleSince)
    ensures var since := if idleSince.Some? then idleSince else Some(polls(n).mark);
      && Remembers(c, polls, n + 1, true, since) && !NeverStarted(c, polls, n)
      && (GaveUp(c, polls, n) <==> polls(n).check - since.value > c.grace)
  {
    SawOneMore(c, polls, n);
    var j: nat;
    if idleSince.Some? {
      j :| IdleStretch(c, polls, j, n - 1) && idleSince == Some(polls(j).mark);
    } else {
      j := n;
    }
    assert IdleStretch(c, polls, j, n);
    forall i: nat | IdleStretch(c, polls, i, n) ensures i == j {
      OneStretch(c, polls, i, j, n);
    }
  }

  lemma OneStretch(c: Config, polls: nat -> Poll, i: nat, j: nat, k: nat)
    requires IdleStretch(c, polls, i, k) && IdleStretch(c, polls, j, k)
    ensures i == j
  {
  }

  /** The loop, with the number of polls that went on. */
  method Ask(c: Config, polls: nat -> Poll, final: nat -> FileRead) returns (outcome: Outcome, n: nat)
    requires Clock(c, polls)
    ensures Explains(c, polls, final, outcome, n)
  {
    hide Remembers, GaveUp, NeverStarted, Active;
    n := 0;
    var sawWorking := false;
    var idleSince: Option<int> := None;
    NothingYet(c, polls);
    while polls(n).start < Deadline(c)
      invariant forall k: nat :: k < n ==> GoesOn(c, polls, k)
      invariant Remembers(c, polls, n, sawWorking, idleSince)
      decreases Deadline(c) - polls(n).start
    {
      var p := polls(n);
      if Complete(p.file) { return Answered(p.file), n; }
      if Decided(c, p).status != SIdle {
        Activity(c, p);
        ActivePoll(c, polls, n);
        sawWorking, idleSince := true, None;
      } else if sawWorking {
        Activity(c, p);
        IdlePoll(c, polls, n, idleSince);
        if idleSince.None? { idleSince := Some(p.mark); }
        if p.check - idleSince.value > c.grace { return AtEnd(final(n)), n; }
      } else {
        Activity(c, p);
        Unmarked(c, polls, n, idleSince);
        QuietPoll(c, polls, n);
        if p.check - c.startedAt > c.startGrace { return Unresponsive(Decided(c, p).evidence), n; }
      }
      n := n + 1;
    }
    outcome := AtEnd(final(n));
  }

  lemma NothingYet(c: Config, polls: nat -> Poll)
    ensures Remembers(c, polls, 0, false, None)
  {
  }

  lemma Activity(c: Config, p: Poll)
    ensures Active(c, p) <==> Decided(c, p).status != SIdle
  {
  }

  lemma Unmarked(c: Config, polls: nat -> Poll, n: nat, idleSince: Option<int>)
    requires Remembers(c, polls, n, false, idleSince)
    ensures idleSince == None
  {
  }

  // ---- what an outcome means ----------------------------------------------

  /** The polls call for exactly one outcome, at exactly one poll. */
  lemma OneOutcome(c: Config, polls: nat -> Poll, final: nat -> FileRead, a: Outcome, m: nat, b: Outcome, n: nat)
    requires Explains(c, polls, final, a, m) && Explains(c, polls, final, b, n)
    ensures m == n && a == b
  {
  }

  /** Reaching the deadline, the polls that went on all started before it, so there
      are no more of them than the budget has milliseconds, ten minutes at most. */
  lemma {:induction false} EndsByTheDeadline(c: Config, polls: nat -> Poll, final: nat -> FileRead, outcome: Outcome,
      n: nat)
    requires Clock(c, polls) && Explains(c, polls, final, outcome, n)
    ensures n <= Budget(c.requested) <= MAX_BUDGET && forall k: nat :: k < n ==> polls(k).start < Deadline(c)
  {
    ClockTicks(c, polls, n);
    if n > 0 {
      ClockTicks(c, polls, n - 1);
      assert GoesOn(c, polls, n - 1);
    }
    forall k: nat | k < n ensures polls(k).start < Deadline(c) {
      assert GoesOn(c, polls, k);
    }
  }

  lemma {:induction false} ClockTicks(c: Config, polls: nat -> Poll, k: nat)
    requires Clock(c, polls)
    ensures polls(k).start >= c.startedAt + k
  {
    if k > 0 {
      ClockTicks(c, polls, k - 1);
      assert polls(k - 1).start < polls((k - 1) + 1).start;
    }
  }

  /** The transcript's word counts only from the start of the ask on. */
  predicate FreshTurn(c: Config, p: Poll) {
    p.turn.Some? && p.turn.value.lastRecordAt >= c.startedAt
  }

  /** What makes a poll active: the transcript as long as it is of this turn, and not
      its being done; else the recorded status. */
  lemma ActiveMeans(c: Config, p: Poll)
    ensures FreshTurn(c, p) ==> (Active(c, p) <==> p.turn.value.state != Done)
    ensures !FreshTurn(c, p) ==> (Active(c, p) <==> p.tier == Some(SWorking) || p.tier == Some(SBlocked))
    ensures Decided(c, p).evidence == ByTranscript <==> FreshTurn(c, p)
  {
  }

  /** `agent_unresponsive` means that no poll saw the agent working or blocked, that
      no poll found an answer, and that the time for starting has passed; with
      evidence from the transcript, the transcript says the turn is done. */
  lemma UnresponsiveMeans(c: Config, polls: nat -> Poll, final: nat -> FileRead, evidence: Evidence, n: nat)
    requires Explains(c, polls, final, Unresponsive(evidence), n)
    ensures forall k: nat :: k <= n ==> Decided(c, polls(k)).status == SIdle && !Complete(polls(k).file)
    ensures polls(n).check - c.startedAt > c.startGrace
    ensures evidence == ByTranscript ==> ProvenDone(Decided(c, polls(n)))
    ensures evidence == ByTranscript <==> FreshTurn(c, polls(n))
    ensures FreshTurn(c, polls(n)) ==> polls(n).turn.value.state == Done
    ensures !FreshTurn(c, polls(n)) ==> polls(n).tier in {None, Some(SIdle)}
  {
    ActiveMeans(c, polls(n));
    forall k: nat | k <= n ensures Decided(c, polls(k)).status == SIdle && !Complete(polls(k).file) {
      assert !SawActive(c, polls, n + 1);
      assert k < n ==> GoesOn(c, polls, k);
      assert !Active(c, polls(k));
    }
  }

  /** An answer that some poll finds complete, while the loop is still going, is the
      result: nothing later in the trace can take its place. */
  lemma FirstAnswerWins(c: Config, polls: nat -> Poll, final: nat -> FileRead, outcome: Outcome, n: nat, k: nat)
    requires Explains(c, polls, final, outcome, n)
    requires k <= n && !PastDeadline(c, polls(k)) && Complete(polls(k).file)
    ensures k == n && outcome == Answered(polls(k).file)
  {
    assert !GoesOn(c, polls, k);
  }

  /** Whenever the loop gives up on a trace without a complete answer, an answer
      that landed by the last look is still returned, complete or not; a time-out is
      reported exactly when even then there is none. */
  lemma LastLook(c: Config, polls: nat -> Poll, final: nat -> FileRead, outcome: Outcome, n: nat)
    requires Explains(c, polls, final, outcome, n) && !outcome.Unresponsive?
    requires PastDeadline(c, polls(n)) || !Complete(polls(n).file)
    ensures final(n) != Absent ==> outcome == Answered(final(n))
    ensures outcome == TimedOut <==> final(n) == Absent
  {
  }

  /** Before the deadline the loop gives up on an agent that did start only after
      one unbroken idle stretch, longer than the grace, since its last activity. */
  lemma IdleBreakMeans(c: Config, polls: nat -> Poll, final: nat -> FileRead, outcome: Outcome, n: nat) returns (j: nat)
    requires Explains(c, polls, final, outcome, n) && !outcome.Unresponsive?
    requires !PastDeadline(c, polls(n)) && !Complete(polls(n).file)
    ensures 0 < j <= n && Active(c, polls(j - 1)) && polls(n).check - polls(j).mark > c.grace
    ensures forall i: nat :: j <= i <= n ==> !Active(c, polls(i))
  {
    j :| IdleStretch(c, polls, j, n) && polls(n).check - polls(j).mark > c.grace;
  }

  /** An answer file that parses, or is too large to, ends the loop at the first poll
      that finds it; one that is missing or does not parse yet never does. */
  lemma AnswersEndTheLoop(c: Config, polls: nat -> Poll, final: nat -> FileRead, outcome: Outcome, n: nat)
    requires Explains(c, polls, final, outcome, n)
    ensures forall k: nat :: k < n ==> polls(k).file == Absent || polls(k).file.Garbled?
    ensures polls(n).start < Deadline(c) && (polls(n).file.Parsed? || polls(n).file.Oversize?) ==>
      outcome == Answered(polls(n).file)
    ensures polls(n).file == Absent || polls(n).file.Garbled? || polls(n).start >= Deadline(c) ==>
      outcome.Unresponsive? || outcome == if final(n) == Absent then TimedOut else Answered(final(n))
  {
    forall k: nat | k < n ensures polls(k).file == Absent || polls(k).file.Garbled? {
      assert GoesOn(c, polls, k);
    }
  }

  /** The time an ask has: two minutes unless asked for otherwise, between a second and
      ten minutes. */
  lemma BudgetMeans(requested: int)
    ensures Budget(None) == 120000
    ensures 1000 <= requested <= 600000 ==> Budget(Some(requested)) == requested
    ensures requested < 1000 ==> Budget(Some(requested)) == 1000
    ensures requested > 600000 ==> Budget(Some(requested)) == 600000
  {
  }

  // ---- one ask at a time --------------------------------------------------

  function LockKey(session: string, pane: string): string {
    session + ":" + pane
  }

  /** Asks in flight by a number of their own, each with its key. */
  datatype Asks = Asks(locks: set<string>, flights: map<nat, string>)

  datatype Step = Begin(id: nat, session: string, pane: string) | Finish(id: nat)

  predicate Busy(v: Asks, s: Step) {
    s.Begin? && LockKey(s.session, s.pane) in v.locks
  }

  function Next(v: Asks, s: Step): Asks {
    match s
    case Begin(id, session, pane) =>
      if Busy(v, s) || id in v.flights then v
      else Asks(v.locks + {LockKey(session, pane)}, v.flights[id := LockKey(session, pane)])
    case Finish(id) =>
      if id !in v.flights then v
      else Asks(v.locks - {v.flights[id]}, v.flights - {id})
  }

  function After(v: Asks, run: seq<Step>): Asks
    decreases |run|
  {
    if run == [] then v else After(Next(v, run[0]), run[1..])
  }

  class AskLocks {
    var locks: set<string>
    ghost var flights: map<nat, string>

    ghost function Now(): Asks reads this { Asks(locks, flights) }

    constructor ()
      ensures Now() == Asks({}, map[])
    {
      locks, flights := {}, map[];
    }

    /** The synchronous start of an ask; `None` is `pane_busy`. */
    method Acquire(ghost id: nat, session: string, pane: string) returns (key: Option<string>)
      requires id !in flights
      modifies this
      ensures Now() == Next(old(Now()), Begin(id, session, pane))
      ensures key == if old(Busy(Now(), Begin(id, session, pane))) then None else Some(LockKey(session, pane))
    {
      var k := LockKey(session, pane);
      if k in locks { return None; }
      locks := locks + {k};
      flights := flights[id := k];
      key := Some(k);
    }

    /** Runs however the ask ended. */
    method Release(ghost id: nat, key: string)
      requires id in flights && flights[id] == key
      modifies this
      ensures Now() == Next(old(Now()), Finish(id))
    {
      locks := locks - {key};
      flights := flights - {id};
    }
  }

  /** The locks are the keys of the asks in flight, and no two share one. */
  ghost predicate LocksAreFlights(v: Asks) {
    && v.locks == v.flights.Values
    && forall a <- v.flights, b <- v.flights :: v.flights[a] == v.flights[b] ==> a == b
  }

  lemma StepKeepsLocks(v: Asks, s: Step)
    requires LocksAreFlights(v)
    ensures LocksAreFlights(Next(v, s))
  {
    var w := Next(v, s);
    forall key ensures key in w.locks <==> key in w.flights.Values {
      if s.Begin? {
        if w != v {
          assert w.flights[s.id] == LockKey(s.session, s.pane);
          assert forall id <- v.flights :: id in w.flights && w.flights[id] == v.flights[id];
        }
      } else if s.id in v.flights {
        assert forall id <- v.flights :: id != s.id ==> id in w.flights && w.flights[id] == v.flights[id];
        if key in w.locks {
          var id :| id in v.flights && v.flights[id] == key;
          assert w.flights[id] == key;
        }
      }
    }
  }

  lemma {:induction false} LocksAlwaysAreFlights(v: Asks, run: seq<Step>)
    requires LocksAreFlights(v)
    ensures LocksAreFlights(After(v, run))
    decreases |run|
  {
    if run != [] {
      StepKeepsLocks(v, run[0]);
      LocksAlwaysAreFlights(Next(v, run[0]), run[1..]);
    }
  }

  /** An ask is refused exactly when another one with its key is in flight. */
  lemma BusyExactlyWhenInFlight(run: seq<Step>, id: nat, session: string, pane: string)
    ensures var v := After(Asks({}, map[]), run);
      Busy(v, Begin(id, session, pane)) <==> exists a <- v.flights :: v.flights[a] == LockKey(session, pane)
  {
    LocksAlwaysAreFlights(Asks({}, map[]), run);
  }

  /** However an ask ended, its key is free again at once, and the next ask with that
      key is taken. */
  lemma FinishedKeysAreFree(run: seq<Step>, id: nat, next: nat, session: string, pane: string)
    requires var v := After(Asks({}, map[]), run);
      id in v.flights && v.flights[id] == LockKey(session, pane) && next !in v.flights
    ensures var w := Next(After(Asks({}, map[]), run), Finish(id));
      && id !in w.flights && !Busy(w, Begin(next, session, pane))
      && next in Next(w, Begin(next, session, pane)).flights
  {
    LocksAlwaysAreFlights(Asks({}, map[]), run);
  }

  /** Asks on different sessions can share a key only when one session's name
      continues the other's with a colon; on one session the key tells panes apart. */
  lemma KeysCollideExactlyWhen(a: string, b: string)
    requires a != b
    ensures (exists p, q :: p != "" && q != "" && LockKey(a, p) == LockKey(b, q)) <==>
      StartsWith(b, a + ":") || StartsWith(a, b + ":")
  {
    if StartsWith(b, a + ":") { Collides(a, b, "p1"); }
    if StartsWith(a, b + ":") { Collides(b, a, "p1"); }
    forall p, q | LockKey(a, p) == LockKey(b, q) ensures StartsWith(b, a + ":") || StartsWith(a, b + ":") {
      if |a| <= |b| { LongerContinues(a, p, b, q); } else { LongerContinues(b, q, a, p); }
    }
  }

  /** Every pane of the longer-named session has a twin in the other one. */
  lemma Collides(a: string, b: string, pane: string)
    requires StartsWith(b, a + ":")
    ensures LockKey(a, b[|a| + 1..] + ":" + pane) == LockKey(b, pane)
  {
    assert b == (a + ":") + b[|a| + 1..];
    assert (a + ":") + (b[|a| + 1..] + ":" + pane) == ((a + ":") + b[|a| + 1..]) + ":" + pane;
  }

  lemma LongerContinues(a: string, p: string, b: string, q: string)
    requires |a| <= |b| && a != b && LockKey(a, p) == LockKey(b, q)
    ensures StartsWith(b, a + ":")
  {
    var key := LockKey(a, p);
    assert key[..|a|] == a && key[..|b|] == b && key[|a|] == ':';
    assert |a| == |b| ==> a == b;
    assert b[..|a| + 1] == key[..|a| + 1] == a + ":";
  }

  lemma OneSessionOnePane(session: string, p: string, q: string)
    requires LockKey(session, p) == LockKey(session, q)
    ensures p == q
  {
    assert LockKey(session, p)[|session| + 1..] == p && LockKey(session, q)[|session| + 1..] == q;
  }
}
