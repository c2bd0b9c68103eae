/** The taps a child opens for its parent (src/south.ts, `ParentLink`). A tap is stored
    under its sub id only once it is acked, and nothing is checked then: neither that
    the tunnel still stands nor that the parent still wants it. Sub ids are the
    parent's counter for one tunnel and come again on the next. */
module ParentTaps {

  /** One request for a tap, told apart by its position among all. */
  datatype Request = Request(sub: nat, tunnel: nat)

  /** `taps` is the table; upstream knows the taps being opened and the open ones, the
      parent those it still wants. */
  datatype View = View(taps: map<nat, nat>, made: seq<Request>, tunnel: nat,
                       inFlight: set<nat>, open: set<nat>, wanted: set<nat>)

  datatype Step =
    | Sub(sub: nat)
    | Ack(tap: nat)
    | Refuse(tap: nat)
    | Unsub(sub: nat)
    | Died(tap: nat)
    | TunnelClosed

  const START := View(map[], [], 0, {}, {}, {})

  predicate Stored(v: View, tap: nat) {
    tap < |v.made| && v.made[tap].sub in v.taps && v.taps[v.made[tap].sub] == tap
  }

  /** The requests for `sub` on the tunnel that stands. */
  function Named(v: View, sub: nat): set<nat> {
    set i: nat | i < |v.made| && v.made[i] == Request(sub, v.tunnel)
  }

  function Next(v: View, s: Step): View {
    match s
    case Sub(sub) =>
      var tap := |v.made|;
      v.(made := v.made + [Request(sub, v.tunnel)], inFlight := v.inFlight + {tap}, wanted := v.wanted + {tap})
    case Ack(tap) =>
      if tap !in v.inFlight || tap >= |v.made| then v
      else v.(inFlight := v.inFlight - {tap}, open := v.open + {tap}, taps := v.taps[v.made[tap].sub := tap])
    case Refuse(tap) => v.(inFlight := v.inFlight - {tap}, wanted := if tap in v.inFlight then v.wanted - {tap}
        else v.wanted)
    case Unsub(sub) =>
      v.(wanted := v.wanted - Named(v, sub), taps := v.taps - {sub},
         open := if sub in v.taps then v.open - {v.taps[sub]} else v.open)
    case Died(tap) =>
      if tap !in v.open || tap >= |v.made| then v
      else v.(open := v.open - {tap}, wanted := v.wanted - {tap}, taps := v.taps - {v.made[tap].sub})
    case TunnelClosed =>
      v.(open := v.open - v.taps.Values, taps := map[], wanted := {}, tunnel := v.tunnel + 1)
  }

  function After(v: View, run: seq<Step>): View
    decreases |run|
  {
    if run == [] then v else After(Next(v, run[0]), run[1..])
  }

  /** The parent's counter gives no sub id twice on one tunnel. */
  predicate Possible(v: View, s: Step) {
    s.Sub? ==> forall i: nat :: i < |v.made| ==> v.made[i] != Request(s.sub, v.tunnel)
  }

  predicate PossibleRun(v: View, run: seq<Step>)
    decreases |run|
  {
    run == [] || (Possible(v, run[0]) && PossibleRun(Next(v, run[0]), run[1..]))
  }

  // ---- the link -----------------------------------------------------------

  class ParentLink {
    var taps: map<nat, nat>
    var open: set<nat>
    ghost var made: seq<Request>
    ghost var tunnel: nat
    ghost var inFlight: set<nat>
    ghost var wanted: set<nat>

    ghost function Now(): View reads this { View(taps, made, tunnel, inFlight, open, wanted) }

    constructor ()
      ensures Now() == START
    {
      taps, open, made, tunnel, inFlight, wanted := map[], {}, [], 0, {}, {};
    }

    /** A sub frame, up to the await. */
    ghost method RouteSub(sub: nat)
      modifies this
      ensures Now() == Next(old(Now()), Sub(sub))
    {
      inFlight, wanted := inFlight + {|made|}, wanted + {|made|};
      made := made + [Request(sub, tunnel)];
    }

    /** The tap for `sub` has been opened. */
    method OnTapped(sub: nat, tap: nat)
      requires tap in inFlight && tap < |made| && made[tap].sub == sub
      modifies this
      ensures Now() == Next(old(Now()), Ack(tap))
    {
      inFlight := inFlight - {tap};
      open := open + {tap};
      taps := taps[sub := tap];
    }

    method RouteUnsub(sub: nat)
      modifies this
      ensures Now() == Next(old(Now()), Unsub(sub))
    {
      wanted := wanted - Named(Now(), sub);
      if sub in taps { open := open - {taps[sub]}; }
      taps := taps - {sub};
    }

    method OnDied(sub: nat, tap: nat)
      requires tap in open && tap < |made| && made[tap].sub == sub
      modifies this
      ensures Now() == Next(old(Now()), Died(tap))
    {
      open, wanted := open - {tap}, wanted - {tap};
      taps := taps - {sub};
    }

    method OnTunnelClosed()
      modifies this
      ensures Now() == Next(old(Now()), TunnelClosed)
    {
      var left := taps.Keys;
      ghost var done: set<nat> := {};
      while left != {}
        invariant left <= taps.Keys && taps == old(taps)
        invariant made == old(made) && tunnel == old(tunnel) && inFlight == old(inFlight) && wanted == old(wanted)
        invariant open == old(open) - done && forall t :: t in done <==> exists k <- taps :: k !in left && taps[k] == t
        decreases |left|
      {
        var sub :| sub in left;
        open := open - {taps[sub]};
        left, done := left - {sub}, done + {taps[sub]};
      }
      assert done == taps.Values;
      taps, wanted, tunnel := map[], {}, tunnel + 1;
    }
  }

  // ---- orphans ------------------------------------------------------------

  ghost predicate Inv(v: View) {
    && (forall i: nat, j: nat :: i < |v.made| && j < |v.made| && v.made[i] == v.made[j] ==> i == j)
    && (forall i <- v.inFlight :: i < |v.made|) && (forall i <- v.open :: i < |v.made|) && v.inFlight !! v.open
    && (forall i <- v.wanted :: i < |v.made| && v.made[i].tunnel == v.tunnel && (i in v.inFlight || i in v.open))
    && (forall i: nat :: i < |v.made| ==> v.made[i].tunnel <= v.tunnel)
    && (forall k <- v.taps :: v.taps[k] in v.open && v.taps[k] < |v.made| && v.made[v.taps[k]].sub == k)
  }

  lemma StepKeepsInv(v: View, s: Step)
    requires Inv(v) && Possible(v, s)
    ensures Inv(Next(v, s))
  {
  }

  /** Every open tap is in the table and wanted by the parent. */
  ghost predicate Tidy(v: View) {
    forall tap <- v.open :: Stored(v, tap) && tap in v.wanted
  }

  /** The ack of a tap whose unsub or whose tunnel's end came while it was awaited. */
  predicate Orphans(v: View, s: Step) {
    s.Ack? && s.tap in v.inFlight && s.tap !in v.wanted
  }

  lemma OrphanedExactlyWhen(v: View, s: Step)
    requires Inv(v) && Possible(v, s) && Tidy(v)
    ensures Tidy(Next(v, s)) <==> !Orphans(v, s)
  {
    var w := Next(v, s);
    if Orphans(v, s) {
      assert s.tap in w.open;
    } else {
      forall tap | tap in w.open ensures Stored(w, tap) && tap in w.wanted {
        assert tap in v.open ==> Stored(v, tap) && tap in v.wanted;
      }
    }
  }

  predicate NeverOrphans(v: View, run: seq<Step>)
    decreases |run|
  {
    run == [] || (!Orphans(v, run[0]) && NeverOrphans(Next(v, run[0]), run[1..]))
  }

  lemma {:induction false} TidyThroughout(v: View, run: seq<Step>)
    requires Inv(v) && Tidy(v) && PossibleRun(v, run) && NeverOrphans(v, run)
    ensures Inv(After(v, run)) && Tidy(After(v, run))
    decreases |run|
  {
    if run != [] {
      OrphanedExactlyWhen(v, run[0]);
      StepKeepsInv(v, run[0]);
      TidyThroughout(Next(v, run[0]), run[1..]);
    }
  }

  /** Over every run without such an ack the parent wants every tap that is open, and
      the end of the tunnel closes them all. */
  lemma NoTapOutlivesItsTunnel(run: seq<Step>)
    requires PossibleRun(START, run) && NeverOrphans(START, run)
    ensures var v := After(START, run); Tidy(v) && Next(v, TunnelClosed).open == {}
  {
    TidyThroughout(START, run);
    var v := After(START, run);
    assert forall tap <- v.open :: Stored(v, tap) && v.taps[v.made[tap].sub] in v.taps.Values;
  }

  /** With one, a tap can stay open for good: it is acked after the end of its tunnel,
      the next tunnel's tap of the same sub id takes its place in the table, and the
      end of that tunnel closes the wrong one. */
  lemma ATapIsLost(sub: nat)
    ensures var run := [Sub(sub), TunnelClosed, Ack(0), Sub(sub), Ack(1), TunnelClosed];
      PossibleRun(START, run) && After(START, run) == View(map[], [Request(sub, 0), Request(sub, 1)], 2, {}, {0}, {})
  {
    var one, two := [Request(sub, 0)], [Request(sub, 0), Request(sub, 1)];
    var v1 := View(map[], one, 0, {0}, {}, {0});
    var v2 := View(map[], one, 1, {0}, {}, {});
    var v3 := View(map[sub := 0], one, 1, {}, {0}, {});
    var v4 := View(map[sub := 0], two, 1, {1}, {0}, {1});
    var v5 := View(map[sub := 1], two, 1, {}, {0, 1}, {1});
    var v6 := View(map[], two, 2, {}, {0}, {});
    assert Next(START, Sub(sub)) == v1 && Next(v1, TunnelClosed) == v2;
    assert Next(v2, Ack(0)) == v3 && Next(v3, Sub(sub)) == v4;
    assert Next(v4, Ack(1)) == v5;
    assert v5.taps[sub] == 1 && forall x :: x in v5.taps.Values <==> x == 1;
    assert Next(v5, TunnelClosed) == v6;
    assert Possible(v3, Sub(sub)) && Possible(START, Sub(sub));
    hide Next;
    assert PossibleRun(v6, []) && After(v6, []) == v6;
    Then(v5, TunnelClosed, []);
    Then(v4, Ack(1), [TunnelClosed]);
    Then(v3, Sub(sub), [Ack(1), TunnelClosed]);
    Then(v2, Ack(0), [Sub(sub), Ack(1), TunnelClosed]);
    Then(v1, TunnelClosed, [Ack(0), Sub(sub), Ack(1), TunnelClosed]);
    Then(START, Sub(sub), [TunnelClosed, Ack(0), Sub(sub), Ack(1), TunnelClosed]);
  }

  lemma Then(v: View, s: Step, rest: seq<Step>)
    ensures After(v, [s] + rest) == After(Next(v, s), rest)
    ensures PossibleRun(v, [s] + rest) == (Possible(v, s) && PossibleRun(Next(v, s), rest))
  {
    hide Next, Possible;
    assert ([s] + rest)[1..] == rest;
  }

  /** A tap that was refused never opens. */
  lemma {:induction false} RefusedStaysShut(v: View, tap: nat, run: seq<Step>)
    requires Inv(v) && tap < |v.made| && tap !in v.inFlight && tap !in v.open && PossibleRun(v, run)
    ensures var w := After(v, run); tap !in w.open && tap !in w.inFlight
    decreases |run|
  {
    if run != [] {
      StepKeepsInv(v, run[0]);
      RefusedStaysShut(Next(v, run[0]), tap, run[1..]);
    }
  }

  lemma RefusalsHold(v: View, tap: nat, run: seq<Step>)
    requires Inv(v) && tap in v.inFlight && PossibleRun(Next(v, Refuse(tap)), run)
    ensures tap !in Next(v, Refuse(tap)).wanted && tap !in After(Next(v, Refuse(tap)), run).open
  {
    StepKeepsInv(v, Refuse(tap));
    RefusedStaysShut(Next(v, Refuse(tap)), tap, run);
  }
}
