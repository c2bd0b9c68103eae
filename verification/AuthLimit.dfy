/** The sliding-window failed-auth limiter (src/auth-limit.ts). Every call
    prunes the map it reads; the theorem is that pruning never shows. Clock
    readings are parameters. */
module AuthLimit {

  type Failures = map<string, seq<int>>

  function Stamps(failures: Failures, ip: string): seq<int> {
    if ip in failures then failures[ip] else []
  }

  /** The stamps strictly after a cutoff, in order. */
  function After(stamps: seq<int>, cutoff: int): seq<int> {
    if stamps == [] then []
    else (if stamps[0] > cutoff then [stamps[0]] else []) + After(stamps[1..], cutoff)
  }

  function Put(failures: Failures, ip: string, stamps: seq<int>): Failures {
    if stamps == [] then failures - {ip} else failures[ip := stamps]
  }

  class AuthLimiter {
    const max: int
    const windowMs: int
    var failures: Failures

    constructor (max: int, windowMs: int)
      ensures this.max == max && this.windowMs == windowMs && failures == map[]
    {
      this.max, this.windowMs, this.failures := max, windowMs, map[];
    }

    /** Prunes one address to its live failures; an address without any is dropped. */
    method Live(ip: string, now: int) returns (kept: seq<int>)
      modifies this`failures
      ensures kept == After(Stamps(old(failures), ip), now - windowMs)
      ensures failures == Put(old(failures), ip, kept)
    {
      kept := After(Stamps(failures, ip), now - windowMs);
      if |kept| == 0 { failures := failures - {ip}; } else { failures := failures[ip := kept]; }
    }

    /** `now` is read by the prune and `stamp` by the new entry. */
    method Record(ip: string, now: int, stamp: int)
      modifies this`failures
      ensures failures == Apply(windowMs, old(failures), Failed(ip, now, stamp))
    {
      var kept := Live(ip, now);
      failures := failures[ip := kept + [stamp]];
    }

    method Success(ip: string)
      modifies this`failures
      ensures failures == Apply(windowMs, old(failures), Succeeded(ip))
    {
      failures := failures - {ip};
    }

    method Blocked(ip: string, now: int) returns (blocked: bool)
      modifies this`failures
      ensures blocked == IsBlocked(max, windowMs, old(failures), ip, now)
      ensures failures == Apply(windowMs, old(failures), Asked(ip, now))
    {
      var kept := Live(ip, now);
      blocked := |kept| >= max;
    }
  }

  function IsBlocked(max: int, windowMs: int, failures: Failures, ip: string, now: int): bool {
    |After(Stamps(failures, ip), now - windowMs)| >= max
  }

  // ---- runs ---------------------------------------------------------------

  datatype Event =
    | Failed(ip: string, now: int, stamp: int)
    | Succeeded(ip: string)
    | Asked(ip: string, now: int)

  /** The map after one call. */
  function Apply(windowMs: int, failures: Failures, e: Event): Failures {
    match e
    case Failed(ip, now, stamp) => failures[ip := After(Stamps(failures, ip), now - windowMs) + [stamp]]
    case Succeeded(ip) => failures - {ip}
    case Asked(ip, now) => Put(failures, ip, After(Stamps(failures, ip), now - windowMs))
  }

  function Run(windowMs: int, events: seq<Event>): Failures {
    if events == [] then map[]
    else Apply(windowMs, Run(windowMs, events[..|events| - 1]), events[|events| - 1])
  }

  /** No call reads a clock earlier than `start` or later than `end`, and the
      readings never go back. */
  ghost predicate ClockUpTo(events: seq<Event>, end: int) {
    events == [] ||
    var e, before := events[|events| - 1], events[..|events| - 1];
    match e
    case Failed(_, now, stamp) => now <= stamp <= end && ClockUpTo(before, now)
    case Succeeded(_) => ClockUpTo(before, end)
    case Asked(_, now) => now <= end && ClockUpTo(before, now)
  }

  lemma {:induction false} ClockLater(events: seq<Event>, end: int, later: int)
    requires ClockUpTo(events, end) && end <= later
    ensures ClockUpTo(events, later)
  {
    if events != [] && events[|events| - 1].Succeeded? {
      ClockLater(events[..|events| - 1], end, later);
    }
  }

  /** Event `i` recorded a failure of `ip` after the cutoff, and `ip` has not
      succeeded since. */
  ghost predicate Stands(events: seq<Event>, i: nat, ip: string, cutoff: int) {
    && i < |events| && events[i].Failed? && events[i].ip == ip && events[i].stamp > cutoff
    && Succeeded(ip) !in events[i..]
  }

  /** The count on the full history, whatever was pruned in between. */
  ghost function Counted(events: seq<Event>, ip: string, cutoff: int): set<nat> {
    set i: nat | i < |events| && Stands(events, i, ip, cutoff)
  }

  lemma {:induction false} AfterTwice(stamps: seq<int>, early: int, late: int)
    requires early <= late
    ensures After(After(stamps, early), late) == After(stamps, late)
  {
    if stamps != [] {
      AfterTwice(stamps[1..], early, late);
      var rest := After(stamps[1..], early);
      if stamps[0] > early {
        assert ([stamps[0]] + rest)[1..] == rest;
      } else {
        assert [] + rest == rest;
        assert [] + After(stamps[1..], late) == After(stamps[1..], late);
      }
    }
  }

  lemma {:induction false} AfterAppend(stamps: seq<int>, t: int, cutoff: int)
    ensures After(stamps + [t], cutoff) == After(stamps, cutoff) + (if t > cutoff then [t] else [])
  {
    if stamps == [] {
      assert stamps + [t] == [t];
      assert After([t][1..], cutoff) == [];
    } else {
      AfterAppend(stamps[1..], t, cutoff);
      assert (stamps + [t])[1..] == stamps[1..] + [t];
    }
  }

  /** Appending one event changes the counted set in exactly one way. */
  lemma CountedStep(events: seq<Event>, e: Event, ip: string, cutoff: int)
    ensures Counted(events + [e], ip, cutoff) ==
            if e == Succeeded(ip) then {}
            else Counted(events, ip, cutoff) + (if e.Failed? && e.ip == ip && e.stamp > cutoff then {|events|} else {})
  {
    var all := events + [e];
    forall i: nat | i <= |events|
      ensures Stands(all, i, ip, cutoff) <==>
              e != Succeeded(ip) &&
              (Stands(events, i, ip, cutoff) || (i == |events| && e.Failed? && e.ip == ip && e.stamp > cutoff))
    {
      assert all[i..] == events[i..] + [e];
    }
  }

  lemma CountedBelow(events: seq<Event>, ip: string, cutoff: int)
    ensures |events| !in Counted(events, ip, cutoff)
    ensures events == [] ==> Counted(events, ip, cutoff) == {}
  {
  }

  /** The pruned map and the full history give one count for every cutoff that
      is still ahead of the clock's window. */
  lemma {:induction false} PruningNeverShows(windowMs: int, events: seq<Event>, ip: string, now: int, cutoff: int)
    requires ClockUpTo(events, now) && now - windowMs <= cutoff
    ensures |After(Stamps(Run(windowMs, events), ip), cutoff)| == |Counted(events, ip, cutoff)|
  {
    hide Counted, Stands;
    if events == [] {
      CountedBelow(events, ip, cutoff);
    } else {
      var before, e := events[..|events| - 1], events[|events| - 1];
      assert events == before + [e];
      CountedStep(before, e, ip, cutoff);
      var earlier := if e.Succeeded? then now else e.now;
      ClockLater(before, earlier, now);
      PruningNeverShows(windowMs, before, ip, now, cutoff);
      CountedBelow(before, ip, cutoff);
      if e.ip == ip && !e.Succeeded? {
        var stamps := Stamps(Run(windowMs, before), ip);
        AfterTwice(stamps, e.now - windowMs, cutoff);
        if e.Failed? {
          AfterAppend(After(stamps, e.now - windowMs), e.stamp, cutoff);
        }
      }
    }
  }

  /** LIMITER REFINEMENT. After any calls over any addresses, `blocked(ip)` is
      "at least `max` recorded failures of that address since its last success
      fall inside the window", counted on the full history. */
  lemma BlockedCountsTheWindow(max: int, windowMs: int, events: seq<Event>, ip: string, now: int)
    requires ClockUpTo(events, now)
    ensures IsBlocked(max, windowMs, Run(windowMs, events), ip, now) <==> |Counted(events, ip, now - windowMs)| >= max
  {
    PruningNeverShows(windowMs, events, ip, now, now - windowMs);
  }

  /** Addresses do not interfere: calls about other addresses can be struck out
      of the history without changing an address's answer. */
  lemma {:induction false} AddressesAreIndependent(windowMs: int, events: seq<Event>, ip: string)
    ensures Stamps(Run(windowMs, events), ip) == Stamps(Run(windowMs, About(events, ip)), ip)
  {
    if events != [] {
      var before, e := events[..|events| - 1], events[|events| - 1];
      AddressesAreIndependent(windowMs, before, ip);
      if e.ip == ip {
        assert (About(before, ip) + [e])[..|About(before, ip)|] == About(before, ip);
      } else {
        assert About(before, ip) + [] == About(before, ip);
      }
    }
  }

  function About(events: seq<Event>, ip: string): seq<Event> {
    if events == [] then []
    else
      var e := events[|events| - 1];
      About(events[..|events| - 1], ip) + (if e.ip == ip then [e] else [])
  }

  /** Memory stays bounded by live addresses: no address is kept without a stamp. */
  lemma {:induction false} NoEmptyEntries(windowMs: int, events: seq<Event>)
    ensures forall ip <- Run(windowMs, events) :: Run(windowMs, events)[ip] != []
  {
    if events != [] {
      NoEmptyEntries(windowMs, events[..|events| - 1]);
    }
  }
}
