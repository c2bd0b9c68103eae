/** The event-subscription leases of one client socket (src/ws-server.ts,
    `acceptClient`). A slot is reserved before the upstream tap is awaited and
    holds the close function afterwards. Steps are the stretches between awaits;
    they may come in any order. */
module ClientLeases {
  import opened Wrappers

  const MAX_GROUPS: nat := 8

  /** A slot holds the placeholder or a close function that upstream handed back
      for the tap `of`. */
  datatype Slot = Placeholder | Closer(of: nat)

  datatype Step =
    | Subscribe(admitted: bool)
    | Ack(sub: nat)
    | Refuse(sub: nat)
    | UpstreamClose(sub: nat)
    | Unsubscribe(sub: nat)
    | SocketClose

  /** The socket's own state (taps, issued, open) and what happened upstream: taps
      being awaited, close functions handed back, calls made to them, and taps
      that upstream reported closed. */
  datatype View = View(taps: map<nat, Slot>, issued: nat, open: bool,
                       inFlight: set<nat>, handed: set<nat>, calls: multiset<nat>, retired: set<nat>)

  const START := View(map[], 0, true, {}, {}, multiset{}, {})

  predicate Admits(v: View, s: Step) {
    s.Subscribe? && v.open && s.admitted && |v.taps| < MAX_GROUPS
  }

  function Stored(v: View): set<nat> {
    set n | n in v.taps && v.taps[n].Closer?
  }

  /** Calling what slot `n` holds. */
  function CallOf(taps: map<nat, Slot>, n: nat): multiset<nat> {
    if n in taps && taps[n].Closer? then multiset{taps[n].of} else multiset{}
  }

  /** Calling what the slots hold, in the order of their making. */
  function CallsUpTo(taps: map<nat, Slot>, last: nat): multiset<nat> {
    if last == 0 then multiset{} else CallsUpTo(taps, last - 1) + CallOf(taps, last)
  }

  function Next(v: View, s: Step): View {
    match s
    case Subscribe(_) =>
      if !Admits(v, s) then v
      else v.(issued := v.issued + 1, taps := v.taps[v.issued + 1 := Placeholder],
          inFlight := v.inFlight + {v.issued + 1})
    case Ack(n) =>
      if n !in v.inFlight then v
      else if n in v.taps then v.(inFlight := v.inFlight - {n}, handed := v.handed + {n},
          taps := v.taps[n := Closer(n)])
      else v.(inFlight := v.inFlight - {n}, handed := v.handed + {n}, calls := v.calls + multiset{n})
    case Refuse(n) =>
      if n !in v.inFlight then v
      else v.(inFlight := v.inFlight - {n}, taps := v.taps - {n})
    case UpstreamClose(n) =>
      if n == 0 || n > v.issued then v else v.(taps := v.taps - {n}, retired := v.retired + {n})
    case Unsubscribe(n) =>
      if !v.open || n !in v.taps then v
      else v.(taps := v.taps - {n}, calls := v.calls + CallOf(v.taps, n))
    case SocketClose =>
      v.(open := false, taps := map[], calls := v.calls + CallsUpTo(v.taps, v.issued))
  }

  function After(v: View, run: seq<Step>): View
    decreases |run|
  {
    if run == [] then v else After(Next(v, run[0]), run[1..])
  }

  // ---- the socket ---------------------------------------------------------

  /** The close functions upstream hands out, told apart by their subscription. */
  class Upstream {
    var calls: multiset<nat>

    constructor ()
      ensures calls == multiset{}
    {
      calls := multiset{};
    }

    method Close(sub: nat)
      modifies this
      ensures calls == old(calls) + multiset{sub}
    {
      calls := calls + multiset{sub};
    }
  }

  class ClientSocket {
    const upstream: Upstream
    var taps: map<nat, Slot>
    var subSeq: nat
    var open: bool
    ghost var inFlight: set<nat>
    ghost var handed: set<nat>
    ghost var retired: set<nat>

    ghost function Now(): View reads this, upstream {
      View(taps, subSeq, open, inFlight, handed, upstream.calls, retired)
    }

    constructor ()
      ensures Now() == START && fresh(upstream)
    {
      upstream := new Upstream();
      taps, subSeq, open := map[], 0, true;
      inFlight, handed, retired := {}, {}, {};
    }

    /** Up to the await. `admitted` stands for the frame's own checks: instance and
        session given, session not owned by another token, subscriptions sane. */
    method SubscribeFrame(admitted: bool) returns (sub: Result<nat, string>)
      requires open
      modifies this
      ensures Now() == Next(old(Now()), Subscribe(admitted))
      ensures sub == if old(Admits(Now(), Subscribe(admitted))) then Ok(old(subSeq) + 1) else Err("bad_request")
    {
      if !admitted || |taps| >= MAX_GROUPS { return Err("bad_request"); }
      subSeq := subSeq + 1;
      taps := taps[subSeq := Placeholder];
      inFlight := inFlight + {subSeq};
      sub := Ok(subSeq);
    }

    method OnAck(sub: nat)
      requires sub in inFlight
      modifies this, upstream
      ensures Now() == Next(old(Now()), Ack(sub))
    {
      inFlight, handed := inFlight - {sub}, handed + {sub};
      if sub !in taps {
        upstream.Close(sub);
      } else {
        taps := taps[sub := Closer(sub)];
      }
    }

    method OnRefuse(sub: nat)
      requires sub in inFlight
      modifies this
      ensures Now() == Next(old(Now()), Refuse(sub))
    {
      inFlight := inFlight - {sub};
      taps := taps - {sub};
    }

    method OnUpstreamClose(sub: nat)
      requires 1 <= sub <= subSeq
      modifies this
      ensures Now() == Next(old(Now()), UpstreamClose(sub))
    {
      taps := taps - {sub};
      retired := retired + {sub};
    }

    method UnsubscribeFrame(sub: nat) returns (found: bool)
      requires open
      modifies this, upstream
      ensures Now() == Next(old(Now()), Unsubscribe(sub)) && found == (sub in old(taps))
    {
      if sub !in taps { return false; }
      var slot := taps[sub];
      taps := taps - {sub};
      if slot.Closer? { upstream.Close(slot.of); }
      found := true;
    }

    method CloseSlot(n: nat)
      modifies upstream
      ensures upstream.calls == old(upstream.calls) + CallOf(taps, n)
    {
      if n in taps && taps[n].Closer? { upstream.Close(taps[n].of); }
    }

    method OnSocketClose()
      modifies this, upstream
      ensures Now() == Next(old(Now()), SocketClose)
    {
      hide Next, CallOf;
      open := false;
      CallAll();
      taps := map[];
      SocketCloseIs(old(Now()));
    }

    method CallAll()
      modifies upstream
      ensures upstream.calls == old(upstream.calls) + CallsUpTo(taps, subSeq)
    {
      hide CallOf;
      for n := 0 to subSeq
        invariant upstream.calls == old(upstream.calls) + CallsUpTo(taps, n)
      {
        CloseSlot(n + 1);
      }
    }
  }

  lemma SocketCloseIs(v: View)
    ensures Next(v, SocketClose) == v.(open := false, taps := map[], calls := v.calls + CallsUpTo(v.taps, v.issued))
  {
  }

  // ---- what every step keeps ----------------------------------------------

  /** How the lease of one subscription stands. A close function that upstream
      handed back is stored, or was called once, or its tap was retired upstream
      while stored. */
  ghost predicate LeaseSafe(v: View, n: nat) {
    && (n in v.taps || n in v.inFlight || n in v.handed || n in v.retired ==> 1 <= n <= v.issued)
    && (n in v.taps && v.taps[n].Placeholder? ==> n in v.inFlight)
    && (n in v.taps && v.taps[n].Closer? ==> v.taps[n].of == n && n in v.handed && v.calls[n] == 0)
    && (n in v.taps ==> n !in v.retired)
    && (n in v.inFlight ==> n !in v.handed)
    && (n in v.handed && n !in v.taps ==> v.calls[n] == 1 || (v.calls[n] == 0 && n in v.retired))
    && (n !in v.handed ==> v.calls[n] == 0)
  }

  ghost predicate Inv(v: View) {
    && (forall n: nat :: LeaseSafe(v, n))
    && |v.taps| <= MAX_GROUPS
    && (!v.open ==> v.taps == map[])
  }

  lemma SmallerMap(m: map<nat, Slot>, n: nat)
    ensures |m - {n}| <= |m|
  {
    if n in m {
      assert m.Keys == (m - {n}).Keys + {n};
    } else {
      assert m - {n} == m;
    }
  }

  lemma GrownMap(m: map<nat, Slot>, n: nat, x: Slot)
    ensures |m[n := x]| == if n in m then |m| else |m| + 1
  {
    assert m[n := x].Keys == m.Keys + {n};
  }

  /** What a step does to the table. */
  lemma TableAfter(v: View, s: Step)
    ensures Next(v, s).taps == v.taps
      || (Admits(v, s) && Next(v, s).taps == v.taps[v.issued + 1 := Placeholder])
      || (s.Ack? && s.sub in v.taps && Next(v, s).taps == v.taps[s.sub := Closer(s.sub)])
      || ((s.Refuse? || s.UpstreamClose? || s.Unsubscribe?) && Next(v, s).taps == v.taps - {s.sub})
      || Next(v, s).taps == map[]
  {
  }

  lemma StepKeepsCap(v: View, s: Step)
    requires |v.taps| <= MAX_GROUPS
    ensures |Next(v, s).taps| <= MAX_GROUPS
  {
    hide Next;
    TableAfter(v, s);
    GrownMap(v.taps, v.issued + 1, Placeholder);
    if s.Ack? { GrownMap(v.taps, s.sub, Closer(s.sub)); }
    if s.Refuse? || s.UpstreamClose? || s.Unsubscribe? { SmallerMap(v.taps, s.sub); }
  }

  /** Closing the socket calls the stored close functions once each. */
  lemma {:induction false} CallsOfOwn(v: View, last: nat, n: nat)
    requires forall m: nat :: LeaseSafe(v, m)
    ensures CallsUpTo(v.taps, last)[n] == if 1 <= n <= last && n in Stored(v) then 1 else 0
  {
    if last > 0 {
      CallsOfOwn(v, last - 1, n);
      assert LeaseSafe(v, last) && LeaseSafe(v, n);
    }
  }

  lemma StepKeepsLease(v: View, s: Step, n: nat)
    requires forall m: nat :: LeaseSafe(v, m)
    ensures LeaseSafe(Next(v, s), n)
  {
    assert LeaseSafe(v, n);
    match s
    case Subscribe(_) => assert LeaseSafe(v, v.issued + 1);
    case Ack(m) =>
    case Refuse(_) =>
    case UpstreamClose(_) =>
    case Unsubscribe(m) => assert LeaseSafe(v, m);
    case SocketClose => CallsOfOwn(v, v.issued, n);
  }

  lemma StepKeepsInv(v: View, s: Step)
    requires Inv(v)
    ensures Inv(Next(v, s))
  {
    StepKeepsCap(v, s);
    forall n: nat ensures LeaseSafe(Next(v, s), n) {
      StepKeepsLease(v, s, n);
    }
  }

  lemma {:induction false} RunKeepsInv(v: View, run: seq<Step>)
    requires Inv(v)
    ensures Inv(After(v, run))
    decreases |run|
  {
    if run != [] {
      StepKeepsInv(v, run[0]);
      RunKeepsInv(Next(v, run[0]), run[1..]);
    }
  }

  /** Where a close function handed back by upstream can be. */
  predicate Accounted(v: View, n: nat) {
    || (n in v.taps && v.taps[n] == Closer(n) && v.calls[n] == 0)
    || (n !in v.taps && v.calls[n] == 1)
    || (n !in v.taps && v.calls[n] == 0 && n in v.retired)
  }

  /** Lease safety over every run. */
  lemma LeasesAreSafe(run: seq<Step>)
    ensures var v := After(START, run);
      && |v.taps| <= MAX_GROUPS
      && (forall n: nat :: v.calls[n] <= 1)
      && (forall n <- v.handed :: Accounted(v, n))
      && (forall n: nat :: v.calls[n] > 0 ==> n in v.handed)
  {
    forall n: nat ensures LeaseSafe(START, n) {}
    RunKeepsInv(START, run);
    var v := After(START, run);
    forall n: nat
      ensures v.calls[n] <= 1 && (v.calls[n] > 0 ==> n in v.handed)
      ensures n in v.handed ==> Accounted(v, n)
    {
      assert LeaseSafe(v, n);
    }
  }

  /** Once the socket is closed and no tap is awaited, every close function handed
      back has been called once, unless upstream had retired its tap. */
  lemma NothingIsLeftOpen(run: seq<Step>)
    requires var v := After(START, run); !v.open && v.inFlight == {}
    ensures var v := After(START, run);
      v.taps == map[] && forall n <- v.handed :: Accounted(v, n)
  {
    forall n: nat ensures LeaseSafe(START, n) {}
    RunKeepsInv(START, run);
    var v := After(START, run);
    forall n <- v.handed ensures Accounted(v, n) {
      assert LeaseSafe(v, n);
    }
  }

  /** The three causes of a call: the client unsubscribes, the socket closes, or the
      ack finds its slot gone. */
  predicate Causes(v: View, s: Step, n: nat) {
    || (s == Unsubscribe(n) && n in Stored(v))
    || (s == SocketClose && n in Stored(v))
    || (s == Ack(n) && n in v.inFlight && n !in v.taps)
  }

  lemma CalledExactlyWhen(v: View, s: Step, n: nat)
    requires Inv(v)
    ensures Next(v, s).calls[n] == v.calls[n] + if Causes(v, s, n) then 1 else 0
  {
    assert LeaseSafe(v, n);
    if s.Unsubscribe? { assert LeaseSafe(v, s.sub); }
    CallsOfOwn(v, v.issued, n);
  }

  function CausesIn(v: View, run: seq<Step>, n: nat): nat
    decreases |run|
  {
    if run == [] then 0 else (if Causes(v, run[0], n) then 1 else 0) + CausesIn(Next(v, run[0]), run[1..], n)
  }

  lemma {:induction false} CallsFrom(v: View, run: seq<Step>, n: nat)
    requires Inv(v)
    ensures After(v, run).calls[n] == v.calls[n] + CausesIn(v, run, n)
    decreases |run|
  {
    if run != [] {
      CalledExactlyWhen(v, run[0], n);
      StepKeepsInv(v, run[0]);
      CallsFrom(Next(v, run[0]), run[1..], n);
    }
  }

  /** Over every run a close function is called as often as there is cause to, which is
      at most once. */
  lemma CallsHaveCauses(run: seq<Step>, n: nat)
    ensures After(START, run).calls[n] == CausesIn(START, run, n) <= 1
  {
    forall m: nat ensures LeaseSafe(START, m) {}
    CallsFrom(START, run, n);
    LeasesAreSafe(run);
  }

  /** A live tap is lost only to its own unsubscribe, its own upstream close or the
      end of the socket; no other subscription can take it. */
  lemma LiveTapsStay(v: View, s: Step, n: nat)
    requires Inv(v) && n in Stored(v)
    requires s != Unsubscribe(n) && s != UpstreamClose(n) && s != SocketClose
    ensures n in Stored(Next(v, s))
  {
    assert LeaseSafe(v, n) && LeaseSafe(v, v.issued + 1);
  }

  /** A tap being awaited when the socket closes is released by its own ack. */
  lemma {:induction false} LateAckReleases(v: View, n: nat, between: seq<Step>)
    requires Inv(v) && n in v.inFlight
    requires forall s <- between :: s != Ack(n) && s != Refuse(n)
    ensures var u := After(Next(v, SocketClose), between);
      var w := Next(u, Ack(n));
      n in u.inFlight && w.calls[n] == 1 && n !in w.taps
  {
    StepKeepsInv(v, SocketClose);
    StaysClosed(Next(v, SocketClose), n, between);
  }

  lemma {:induction false} StaysClosed(v: View, n: nat, between: seq<Step>)
    requires Inv(v) && !v.open && n in v.inFlight
    requires forall s <- between :: s != Ack(n) && s != Refuse(n)
    ensures var u := After(v, between); Inv(u) && !u.open && n in u.inFlight && u.calls[n] == 0 && n !in u.taps
    decreases |between|
  {
    assert LeaseSafe(v, n);
    if between != [] {
      assert between[0] in between && forall s <- between[1..] :: s in between;
      StepKeepsInv(v, between[0]);
      StaysClosed(Next(v, between[0]), n, between[1..]);
    }
  }

  function Churn(from: nat, k: nat): seq<Step>
    decreases k
  {
    if k == 0 then [] else [Subscribe(true), Unsubscribe(from + 1)] + Churn(from + 1, k - 1)
  }

  /** The cap counts slots, not awaited taps: unsubscribing a reserved slot frees it
      at once, so any number of taps can be awaited with no slot taken. */
  lemma {:induction false} AwaitedTapsAreNotCapped(v: View, k: nat)
    requires v.open && v.taps == map[] && forall n <- v.inFlight :: n <= v.issued
    ensures var u := After(v, Churn(v.issued, k));
      u.open && u.taps == map[] && |u.inFlight| == |v.inFlight| + k
    decreases k
  {
    hide Next, After, Churn;
    if k == 0 {
      NoChurn(v);
    } else {
      var two := ChurnOne(v, k);
      AwaitedTapsAreNotCapped(two, k - 1);
    }
  }

  lemma NoChurn(v: View)
    ensures After(v, Churn(v.issued, 0)) == v
  {
    hide Next;
  }

  lemma ChurnOne(v: View, k: nat) returns (two: View)
    requires v.open && v.taps == map[] && k > 0 && forall n <- v.inFlight :: n <= v.issued
    ensures two.open && two.taps == map[] && (forall n <- two.inFlight :: n <= two.issued)
    ensures |two.inFlight| == |v.inFlight| + 1
    ensures After(v, Churn(v.issued, k)) == After(two, Churn(two.issued, k - 1))
  {
    hide Next, After;
    var n := v.issued + 1;
    two := Next(Next(v, Subscribe(true)), Unsubscribe(n));
    OneMoreAwaited(v);
    TwoSteps(v, Subscribe(true), Unsubscribe(n), Churn(n, k - 1));
  }

  lemma Reserves(v: View, n: nat)
    requires Admits(v, Subscribe(true)) && v.taps == map[] && n == v.issued + 1
    ensures Next(v, Subscribe(true)) == v.(issued := n, taps := map[n := Placeholder], inFlight := v.inFlight + {n})
  {
    assert v.taps[n := Placeholder] == map[n := Placeholder];
  }

  lemma Frees(v: View, n: nat)
    requires v.open && v.taps == map[n := Placeholder]
    ensures Next(v, Unsubscribe(n)) == v.(taps := map[])
  {
    assert v.taps - {n} == map[];
  }

  lemma OneMoreAwaited(v: View)
    requires v.open && v.taps == map[] && forall n <- v.inFlight :: n <= v.issued
    ensures var n := v.issued + 1; var two := Next(Next(v, Subscribe(true)), Unsubscribe(n));
      && two.open && two.taps == map[] && two.issued == n
      && two.inFlight == v.inFlight + {n} && |two.inFlight| == |v.inFlight| + 1
  {
    var n := v.issued + 1;
    assert |v.taps| == 0 && Admits(v, Subscribe(true));
    Reserves(v, n);
    Frees(Next(v, Subscribe(true)), n);
    assert n !in v.inFlight;
  }

  lemma TwoSteps(v: View, a: Step, b: Step, rest: seq<Step>)
    ensures After(v, [a, b] + rest) == After(Next(Next(v, a), b), rest)
  {
    var run := [a, b] + rest;
    assert run[0] == a && run[1..] == [b] + rest && run[1..][0] == b && run[1..][1..] == rest;
  }

  /** The awaited taps all hold their slots. */
  predicate AwaitedHoldSlots(v: View) {
    v.inFlight <= v.taps.Keys
  }

  /** A step that takes the slot of a tap still being awaited. */
  predicate Strands(v: View, s: Step) {
    match s
    case Unsubscribe(n) => v.open && n in v.inFlight
    case UpstreamClose(n) => n in v.inFlight
    case SocketClose => v.inFlight != {}
    case _ => false
  }

  lemma StrandsExactlyWhen(v: View, s: Step)
    requires Inv(v) && AwaitedHoldSlots(v)
    ensures AwaitedHoldSlots(Next(v, s)) <==> !Strands(v, s)
  {
    if s.Refuse? || s.UpstreamClose? || s.Unsubscribe? { assert LeaseSafe(v, s.sub); }
    if s == SocketClose && v.inFlight != {} {
      var n :| n in v.inFlight;
      assert n !in Next(v, s).taps.Keys;
    }
  }

  ghost predicate NeverStrands(v: View, run: seq<Step>)
    decreases |run|
  {
    run == [] || (!Strands(v, run[0]) && NeverStrands(Next(v, run[0]), run[1..]))
  }

  lemma SubsetSize(a: set<nat>, b: set<nat>)
    requires a <= b
    ensures |a| <= |b|
  {
    assert b == a + (b - a);
  }

  lemma {:induction false} AwaitedWithinCap(v: View, run: seq<Step>)
    requires Inv(v) && AwaitedHoldSlots(v) && NeverStrands(v, run)
    ensures AwaitedHoldSlots(After(v, run)) && |After(v, run).inFlight| <= MAX_GROUPS
    decreases |run|
  {
    if run == [] {
      SubsetSize(v.inFlight, v.taps.Keys);
    } else {
      StrandsExactlyWhen(v, run[0]);
      StepKeepsInv(v, run[0]);
      AwaitedWithinCap(Next(v, run[0]), run[1..]);
    }
  }

  /** As long as no awaited tap loses its slot, the cap also bounds the awaited
      taps. */
  lemma AwaitedTapsAreCapped(run: seq<Step>)
    requires NeverStrands(START, run)
    ensures |After(START, run).inFlight| <= MAX_GROUPS
  {
    forall n: nat ensures LeaseSafe(START, n) {}
    AwaitedWithinCap(START, run);
  }

  // ---- taps that upstream ends --------------------------------------------

  /** A slot that is free again is free for good: ids never come twice. */
  lemma {:induction false} FreeForGood(v: View, n: nat, run: seq<Step>)
    requires Inv(v) && 1 <= n <= v.issued && n !in v.taps
    ensures var w := After(v, run); Inv(w) && n <= w.issued && n !in w.taps
    ensures n !in v.inFlight ==> After(v, run).calls[n] == v.calls[n]
    decreases |run|
  {
    if run != [] {
      assert LeaseSafe(v, n);
      CalledExactlyWhen(v, run[0], n);
      StepKeepsInv(v, run[0]);
      FreeForGood(Next(v, run[0]), n, run[1..]);
    }
  }

  /** When upstream ends a tap, awaited or live, its slot is free at once and for good;
      the close function of a live one is never called. */
  lemma UpstreamCloseFrees(v: View, n: nat, run: seq<Step>)
    requires Inv(v) && 1 <= n <= v.issued
    ensures n !in Next(v, UpstreamClose(n)).taps && n !in After(Next(v, UpstreamClose(n)), run).taps
    ensures n in Stored(v) ==> After(Next(v, UpstreamClose(n)), run).calls[n] == 0
  {
    assert LeaseSafe(v, n);
    StepKeepsInv(v, UpstreamClose(n));
    FreeForGood(Next(v, UpstreamClose(n)), n, run);
  }

  // ---- the cap ------------------------------------------------------------

  /** A subscribe takes a slot, reserved and awaited, exactly on an open socket, with a
      sane frame and fewer than eight slots taken; otherwise it changes nothing. */
  lemma SubscribesTakeASlotIff(v: View, admitted: bool)
    requires Inv(v)
    ensures var w := Next(v, Subscribe(admitted)); var n := v.issued + 1;
      if v.open && admitted && |v.taps| <= 7
      then n !in v.taps && n in w.taps && w.taps[n] == Placeholder && n in w.inFlight && |w.taps| == |v.taps| + 1
      else w == v
  {
    assert LeaseSafe(v, v.issued + 1);
    GrownMap(v.taps, v.issued + 1, Placeholder);
  }

  function Subscribes(k: nat): seq<Step> {
    if k == 0 then [] else [Subscribe(true)] + Subscribes(k - 1)
  }

  /** Any number of subscribes at once take eight slots between them. */
  lemma {:induction false} EightFit(v: View, k: nat)
    requires Inv(v) && v.open
    ensures var w := After(v, Subscribes(k)); |w.taps| == if |v.taps| + k <= 8 then |v.taps| + k else 8
    decreases k
  {
    if k > 0 {
      SubscribesTakeASlotIff(v, true);
      StepKeepsInv(v, Subscribe(true));
      EightFit(Next(v, Subscribe(true)), k - 1);
      assert Subscribes(k)[1..] == Subscribes(k - 1);
      if |v.taps| == 8 { assert Next(v, Subscribe(true)) == v; }
    }
  }
}
