/** Who owns which session: the names (src/owners.ts, src/provisioner.ts), the
    bindings, and the lock that serializes provisioning in `POST /auth`
    (src/http.ts). Lower-casing, Unicode decomposition and the digest are
    parameters. */
module Ownership {
  import opened Wrappers
  import opened JsText

  datatype Text = Text(lower: string -> string, nfkd: string -> string, digest: string -> string)

  // ---- names --------------------------------------------------------------

  predicate Plain(c: char) { 'a' <= c <= 'z' || '0' <= c <= '9' }

  /** Every run of other characters becomes one dash. */
  function Dashed(s: string, inRun: bool): string {
    if s == "" then ""
    else if Plain(s[0]) then [s[0]] + Dashed(s[1..], false)
    else (if inRun then "" else "-") + Dashed(s[1..], true)
  }

  function DropDashes(s: string): string {
    if s != "" && s[0] == '-' then DropDashes(s[1..]) else s
  }

  function ChopDashes(s: string): string {
    if s != "" && s[|s| - 1] == '-' then ChopDashes(s[..|s| - 1]) else s
  }

  function Slice(s: string, n: nat): string {
    if |s| <= n then s else s[..n]
  }

  function Key(t: Text, email: string): string { t.lower(Trim(email)) }

  function Slug(t: Text, normalized: string): string {
    var slug := Slice(ChopDashes(DropDashes(Dashed(t.nfkd(Split(normalized, '@')[0]), false))), 16);
    if slug == "" then "user" else slug
  }

  function SessionNameFor(t: Text, email: string): string {
    var normalized := Key(t, email);
    "u-" + Slug(t, normalized) + "-" + Slice(t.digest(normalized), 6)
  }

  /** A digest is written in hexadecimal. */
  ghost predicate HexDigest(t: Text) {
    forall x :: |t.digest(x)| >= 6 && forall c <- t.digest(x) :: '0' <= c <= '9' || 'a' <= c <= 'f'
  }

  predicate FoundAt(s: string, part: string, i: nat) {
    i + |part| <= |s| && s[i..i + |part|] == part
  }

  predicate Includes(s: string, part: string) {
    exists i: nat :: i <= |s| && FoundAt(s, part, i)
  }

  /** What the provisioner lets through. */
  predicate Guarded(name: string) {
    StartsWith(name, "u-") && !Includes(name, "/") && !Includes(name, "..")
  }

  predicate Tame(s: string) {
    forall c <- s :: Plain(c) || c == '-'
  }

  lemma {:induction false} DashedIsTame(s: string, inRun: bool)
    ensures Tame(Dashed(s, inRun))
  {
    if s != "" { DashedIsTame(s[1..], !Plain(s[0])); }
  }

  lemma {:induction false} TrimmedIsTame(s: string)
    requires Tame(s)
    ensures Tame(DropDashes(s)) && Tame(ChopDashes(s))
  {
    if s != "" {
      TrimmedIsTame(s[1..]);
      TrimmedIsTame(s[..|s| - 1]);
    }
  }

  /** Whatever the email, the name lies in the `u-` namespace the provisioner
      guards, is a single path segment of at most 25 characters, and is not the
      primary session's. */
  lemma NamesAreGuarded(t: Text, email: string)
    requires HexDigest(t)
    ensures var name := SessionNameFor(t, email);
      Guarded(name) && Tame(name) && name != "default" && 10 <= |name| <= 25
  {
    var normalized := Key(t, email);
    var dashed := Dashed(t.nfkd(Split(normalized, '@')[0]), false);
    DashedIsTame(t.nfkd(Split(normalized, '@')[0]), false);
    TrimmedIsTame(dashed);
    TrimmedIsTame(DropDashes(dashed));
    var name := SessionNameFor(t, email);
    var hash := Slice(t.digest(normalized), 6);
    assert forall c <- hash :: c in t.digest(normalized);
    assert Tame(Slug(t, normalized)) && Tame(hash);
    assert name == "u-" + (Slug(t, normalized) + ("-" + hash));
    assert name[..2] == "u-" && name[0] == 'u' && "default"[0] == 'd';
    TameIncludes(name, "/");
    TameIncludes(name, "..");
  }

  lemma TameIncludes(s: string, part: string)
    requires Tame(s) && part != "" && !Plain(part[0]) && part[0] != '-'
    ensures !Includes(s, part)
  {
    forall i: nat | i + |part| <= |s| ensures !FoundAt(s, part, i) {
      assert s[i..i + |part|][0] == s[i] && s[i] in s;
    }
  }

  /** A name tells its email's slug and the first six digits of its digest. */
  lemma NamesTellApart(t: Text, a: string, b: string)
    requires HexDigest(t)
    ensures SessionNameFor(t, a) == SessionNameFor(t, b) <==>
      && Slug(t, Key(t, a)) == Slug(t, Key(t, b))
      && t.digest(Key(t, a))[..6] == t.digest(Key(t, b))[..6]
  {
    NameParts(t, a);
    NameParts(t, b);
  }

  lemma NameParts(t: Text, email: string)
    requires HexDigest(t)
    ensures var name, slug := SessionNameFor(t, email), Slug(t, Key(t, email));
      && |name| == |slug| + 9 && name[2..2 + |slug|] == slug && name[|slug| + 3..] == t.digest(Key(t, email))[..6]
      && name == "u-" + slug + "-" + t.digest(Key(t, email))[..6]
  {
    hide Slug, Key;
    assert Slice(t.digest(Key(t, email)), 6) == t.digest(Key(t, email))[..6];
  }

  lemma {:induction false} PlainDashed(s: string, inRun: bool)
    requires forall c <- s :: Plain(c)
    ensures Dashed(s, inRun) == s
  {
    if s != "" {
      assert s[0] in s && forall c <- s[1..] :: c in s;
      PlainDashed(s[1..], false);
    }
  }

  /** A plain mailbox name of at most sixteen characters is its own slug. */
  lemma PlainNamesAreSlugs(t: Text, email: string, mailbox: string, host: string)
    requires Key(t, email) == mailbox + "@" + host && t.nfkd(mailbox) == mailbox
    requires 1 <= |mailbox| <= 16 && forall c <- mailbox :: Plain(c)
    ensures Slug(t, Key(t, email)) == mailbox
  {
    SplitAtSeparator(mailbox, '@', host);
    assert '@' !in mailbox;
    SplitNone(mailbox, '@');
    PlainDashed(mailbox, false);
    assert mailbox[0] in mailbox && mailbox[|mailbox| - 1] in mailbox;
  }

  predicate NoDoubleDash(s: string) {
    forall i :: 0 <= i < |s| - 1 ==> !(s[i] == '-' && s[i + 1] == '-')
  }

  lemma {:induction false} DashedOnce(s: string, inRun: bool)
    ensures NoDoubleDash(Dashed(s, inRun))
    ensures inRun && Dashed(s, inRun) != "" ==> Dashed(s, inRun)[0] != '-'
  {
    if s != "" { DashedOnce(s[1..], !Plain(s[0])); }
  }

  lemma {:induction false} DropDashesKeeps(s: string)
    requires NoDoubleDash(s)
    ensures NoDoubleDash(DropDashes(s)) && (DropDashes(s) == "" || DropDashes(s)[0] != '-')
  {
    if s != "" && s[0] == '-' {
      assert s == [s[0]] + s[1..];
      DropDashesKeeps(s[1..]);
    }
  }

  lemma {:induction false} ChopDashesKeeps(s: string)
    ensures ChopDashes(s) <= s && (ChopDashes(s) == "" || ChopDashes(s)[|ChopDashes(s)| - 1] != '-')
  {
    if s != "" && s[|s| - 1] == '-' { ChopDashesKeeps(s[..|s| - 1]); }
  }

  /** A slug is one to sixteen letters, digits and single dashes, no dash in front. */
  lemma SlugShape(t: Text, normalized: string)
    ensures var slug := Slug(t, normalized);
      1 <= |slug| <= 16 && Tame(slug) && NoDoubleDash(slug) && slug[0] != '-'
  {
    var dashed := Dashed(t.nfkd(Split(normalized, '@')[0]), false);
    DashedOnce(t.nfkd(Split(normalized, '@')[0]), false);
    DashedIsTame(t.nfkd(Split(normalized, '@')[0]), false);
    TrimmedIsTame(dashed);
    TrimmedIsTame(DropDashes(dashed));
    DropDashesKeeps(dashed);
    ChopDashesKeeps(DropDashes(dashed));
    assert NoDoubleDash(ChopDashes(DropDashes(dashed)));
  }

  lemma {:induction false} NothingPlain(s: string, inRun: bool)
    requires forall c <- s :: !Plain(c)
    ensures Dashed(s, inRun) == if s == "" || inRun then "" else "-"
  {
    if s != "" {
      assert s[0] in s && forall c <- s[1..] :: c in s;
      NothingPlain(s[1..], true);
    }
  }

  /** A mailbox name without a letter or digit to keep is called user. */
  lemma UnspellableNamesAreUser(t: Text, normalized: string)
    requires forall c <- t.nfkd(Split(normalized, '@')[0]) :: !Plain(c)
    ensures Slug(t, normalized) == "user"
  {
    var local := t.nfkd(Split(normalized, '@')[0]);
    NothingPlain(local, false);
    assert "-"[1..] == "" && DropDashes("") == "" && ChopDashes("") == "";
    assert DropDashes(Dashed(local, false)) == "";
  }

  /** An email is known by its lower-case form, whatever blanks surround it. */
  lemma EmailsAreNormalized(t: Text, left: string, email: string, right: string)
    requires Blank(left) && Blank(right) && email != "" && !IsSpace(email[0]) && !IsSpace(email[|email| - 1])
    ensures Key(t, left + email + right) == t.lower(email)
  {
    TrimsBlanks(left, email, right);
  }

  // ---- the protocol -------------------------------------------------------

  datatype Binding = Binding(session: string, token: string)

  datatype Reply = Owns(session: string, provisioned: bool) | EmailTaken | ProvisionFailed

  /** A request waits for the lock, flies (is provisioning), has landed but still
      holds the lock, or is answered. */
  datatype Phase = Waiting | Flying(session: string) | Landed(session: string, ok: bool) | Answered(reply: Reply)
  datatype Request = Request(email: string, token: string, phase: Phase)

  datatype View = View(owners: map<string, Binding>, locks: set<string>, requests: map<nat, Request>)

  datatype Step =
    | Identify(id: nat, email: string, token: string)
    | Resume(id: nat)
    | Settle(id: nat, ok: bool)
    | Release(id: nat)
    | Rebind(email: string, token: string)
    | Remove(email: string)

  const START := View(map[], {}, map[])

  function Try(t: Text, v: View, id: nat, email: string, token: string): View {
    var key := Key(t, email);
    if email in v.locks then v.(requests := v.requests[id := Request(email, token, Waiting)])
    else if key in v.owners then
      var reply := if v.owners[key].token != token then EmailTaken else Owns(v.owners[key].session, false);
      v.(requests := v.requests[id := Request(email, token, Answered(reply))])
    else
      var session := SessionNameFor(t, key);
      View(v.owners[key := Binding(session, token)], v.locks + {email},
           v.requests[id := Request(email, token, Flying(session))])
  }

  function Next(t: Text, v: View, s: Step): View {
    match s
    case Identify(id, email, token) =>
      if id in v.requests then v else Try(t, v, id, email, token)
    case Resume(id) =>
      if id !in v.requests || !v.requests[id].phase.Waiting? then v
      else Try(t, v, id, v.requests[id].email, v.requests[id].token)
    case Settle(id, ok) =>
      if id !in v.requests || !v.requests[id].phase.Flying? then v
      else
        var r := v.requests[id];
        v.(owners := if ok then v.owners else v.owners - {Key(t, r.email)},
           requests := v.requests[id := r.(phase := Landed(r.phase.session, ok))])
    case Release(id) =>
      if id !in v.requests || !v.requests[id].phase.Landed? then v
      else
        var r := v.requests[id];
        var reply := if r.phase.ok then Owns(r.phase.session, true) else ProvisionFailed;
        v.(locks := v.locks - {r.email}, requests := v.requests[id := r.(phase := Answered(reply))])
    case Rebind(email, token) =>
      var key := Key(t, email);
      if key !in v.owners then v else v.(owners := v.owners[key := v.owners[key].(token := token)])
    case Remove(email) => v.(owners := v.owners - {Key(t, email)})
  }

  function After(t: Text, v: View, run: seq<Step>): View
    decreases |run|
  {
    if run == [] then v else After(t, Next(t, v, run[0]), run[1..])
  }

  // ---- the objects --------------------------------------------------------

  class OwnerRegistry {
    const text: Text
    var data: map<string, Binding>

    constructor (text: Text)
      ensures this.text == text && data == map[]
    {
      this.text, data := text, map[];
    }

    /** `Err` is `email_taken`; the flag says whether the binding is new. */
    method Bind(email: string, token: string) returns (r: Result<(Binding, bool), string>)
      modifies this
      ensures var key := Key(text, email); var was := old(data);
        && (key !in was ==> data == was[key := Binding(SessionNameFor(text, key), token)] && r == Ok((data[key], true)))
        && (key in was ==> data == was)
        && (key in was && was[key].token == token ==> r == Ok((was[key], false)))
        && (key in was && was[key].token != token ==> r == Err("email_taken"))
    {
      var key := Key(text, email);
      if key in data {
        if data[key].token != token { return Err("email_taken"); }
        return Ok((data[key], false));
      }
      data := data[key := Binding(SessionNameFor(text, key), token)];
      r := Ok((data[key], true));
    }

    function ByEmail(email: string): Option<Binding> reads this {
      var key := Key(text, email);
      if key in data then Some(data[key]) else None
    }

    method Rebind(email: string, token: string) returns (r: Result<Binding, string>)
      modifies this
      ensures var key := Key(text, email); var was := old(data);
        if key in was then data == was[key := was[key].(token := token)] && r == Ok(data[key])
        else data == was && r == Err("unknown_email")
    {
      var key := Key(text, email);
      if key !in data { return Err("unknown_email"); }
      data := data[key := data[key].(token := token)];
      r := Ok(data[key]);
    }

    method Remove(email: string)
      modifies this
      ensures data == old(data) - {Key(text, email)}
    {
      data := data - {Key(text, email)};
    }
  }

  class AuthHandler {
    const owners: OwnerRegistry
    var locks: set<string>
    var requests: map<nat, Request>

    ghost function Now(): View reads this, owners { View(owners.data, locks, requests) }

    constructor (owners: OwnerRegistry)
      ensures this.owners == owners && Now() == View(owners.data, {}, map[])
    {
      this.owners, locks, requests := owners, {}, map[];
    }

    /** The stretch between a wait on the lock and the next await, for a request that
        arrives or resumes. */
    method TryOnce(id: nat, email: string, token: string)
      modifies this, owners
      ensures Now() == Try(owners.text, old(Now()), id, email, token)
    {
      if email in locks {
        requests := requests[id := Request(email, token, Waiting)];
        return;
      }
      var existing := owners.ByEmail(email);
      if existing.Some? {
        var reply := if existing.value.token != token then EmailTaken else Owns(existing.value.session, false);
        requests := requests[id := Request(email, token, Answered(reply))];
      } else {
        var bound := owners.Bind(email, token);
        locks := locks + {email};
        requests := requests[id := Request(email, token, Flying(bound.value.0.session))];
      }
    }

    method IdentifyRequest(id: nat, email: string, token: string)
      requires id !in requests
      modifies this, owners
      ensures Now() == Next(owners.text, old(Now()), Identify(id, email, token))
    {
      TryOnce(id, email, token);
    }

    method ResumeWaiter(id: nat)
      requires id in requests && requests[id].phase.Waiting?
      modifies this, owners
      ensures Now() == Next(owners.text, old(Now()), Resume(id))
    {
      TryOnce(id, requests[id].email, requests[id].token);
    }

    /** The provisioning either made the session reachable or threw. */
    method SettleFlight(id: nat, ok: bool)
      requires id in requests && requests[id].phase.Flying?
      modifies this, owners
      ensures Now() == Next(owners.text, old(Now()), Settle(id, ok))
    {
      var r := requests[id];
      if !ok { owners.Remove(r.email); }
      requests := requests[id := r.(phase := Landed(r.phase.session, ok))];
    }

    method ReleaseLock(id: nat)
      requires id in requests && requests[id].phase.Landed?
      modifies this
      ensures Now() == Next(owners.text, old(Now()), Release(id))
    {
      var r := requests[id];
      locks := locks - {r.email};
      requests := requests[id := r.(phase := Answered(if r.phase.ok then Owns(r.phase.session, true)
          else ProvisionFailed))];
    }
  }

  // ---- the lock -----------------------------------------------------------

  predicate Flies(v: View, id: nat) {
    id in v.requests && v.requests[id].phase.Flying?
  }

  function KeyOf(t: Text, v: View, id: nat): string
    requires id in v.requests
  {
    Key(t, v.requests[id].email)
  }

  predicate Holds(v: View, id: nat) {
    id in v.requests && (v.requests[id].phase.Flying? || v.requests[id].phase.Landed?)
  }

  /** The locks are the emails of the requests that provision, one request each. */
  ghost predicate LocksHeld(v: View) {
    && (forall id: nat :: Holds(v, id) ==> v.requests[id].email in v.locks)
    && (forall e <- v.locks :: exists id: nat :: Holds(v, id) && v.requests[id].email == e)
    && (forall a: nat, b: nat :: Holds(v, a) && Holds(v, b) && v.requests[a].email == v.requests[b].email ==> a == b)
  }

  lemma SameHolders(v: View, w: View)
    requires LocksHeld(v) && w.locks == v.locks
    requires forall id: nat :: Holds(w, id) <==> Holds(v, id)
    requires forall id: nat :: Holds(v, id) ==> id in w.requests
    requires forall id: nat :: Holds(v, id) ==> w.requests[id].email == v.requests[id].email
    ensures LocksHeld(w)
  {
    forall e | e in w.locks ensures exists id: nat :: Holds(w, id) && w.requests[id].email == e {
      var id: nat :| Holds(v, id) && v.requests[id].email == e;
      assert Holds(w, id);
    }
  }

  lemma OneMoreHolder(v: View, w: View, id: nat, email: string)
    requires LocksHeld(v) && email !in v.locks && w.locks == v.locks + {email}
    requires !Holds(v, id) && id in w.requests && w.requests == v.requests[id := w.requests[id]]
    requires Holds(w, id) && w.requests[id].email == email
    ensures LocksHeld(w)
  {
    assert forall a: nat :: Holds(w, a) <==> Holds(v, a) || a == id;
    forall e | e in w.locks ensures exists a: nat :: Holds(w, a) && w.requests[a].email == e {
      if e != email {
        var a: nat :| Holds(v, a) && v.requests[a].email == e;
        assert Holds(w, a);
      }
    }
  }

  lemma OneHolderLess(v: View, w: View, id: nat)
    requires LocksHeld(v) && Holds(v, id) && id in w.requests && !Holds(w, id)
    requires w.locks == v.locks - {v.requests[id].email} && w.requests == v.requests[id := w.requests[id]]
    ensures LocksHeld(w)
  {
    assert forall a: nat :: Holds(w, a) <==> Holds(v, a) && a != id;
    forall e | e in w.locks ensures exists a: nat :: Holds(w, a) && w.requests[a].email == e {
      var a: nat :| Holds(v, a) && v.requests[a].email == e;
      assert Holds(w, a);
    }
  }

  lemma TryKeepsLocks(t: Text, v: View, id: nat, email: string, token: string)
    requires LocksHeld(v) && !Holds(v, id)
    ensures LocksHeld(Try(t, v, id, email, token))
  {
    var w := Try(t, v, id, email, token);
    if email !in v.locks && Key(t, email) !in v.owners {
      OneMoreHolder(v, w, id, email);
    } else {
      assert forall a: nat :: Holds(w, a) <==> Holds(v, a);
      SameHolders(v, w);
    }
  }

  lemma StepKeepsLocks(t: Text, v: View, s: Step)
    requires LocksHeld(v)
    ensures LocksHeld(Next(t, v, s))
  {
    var w := Next(t, v, s);
    match s
    case Identify(id, email, token) => if id !in v.requests { TryKeepsLocks(t, v, id, email, token); }
    case Resume(id) =>
      if id in v.requests && v.requests[id].phase.Waiting? {
        TryKeepsLocks(t, v, id, v.requests[id].email, v.requests[id].token);
      }
    case Settle(id, _) => SameHolders(v, w);
    case Release(id) => if id in v.requests && v.requests[id].phase.Landed? { OneHolderLess(v, w, id); }
    case Rebind(_, _) => SameHolders(v, w);
    case Remove(_) => SameHolders(v, w);
  }

  /** Over every run the locks are exactly the emails being provisioned, and no two
      requests provision for one. */
  lemma {:induction false} AtMostOneFlight(t: Text, v: View, run: seq<Step>)
    requires LocksHeld(v)
    ensures LocksHeld(After(t, v, run))
    decreases |run|
  {
    if run != [] {
      StepKeepsLocks(t, v, run[0]);
      AtMostOneFlight(t, Next(t, v, run[0]), run[1..]);
    }
  }

  lemma NoTwoFlights(t: Text, run: seq<Step>, a: nat, b: nat)
    requires var v := After(t, START, run);
      Holds(v, a) && Holds(v, b) && v.requests[a].email == v.requests[b].email
    ensures a == b
  {
    AtMostOneFlight(t, START, run);
  }

  /** A flight that failed, and a request that waited for it: the lock goes with the
      failed request's last step, and nothing is bound. */
  predicate Pending(t: Text, v: View, failed: nat, waiter: nat, email: string, token: string) {
    && Key(t, email) !in v.owners
    && waiter in v.requests && v.requests[waiter] == Request(email, token, Waiting)
    && failed in v.requests && v.requests[failed].email == email
    && match v.requests[failed].phase
       case Landed(_, ok) => !ok && email in v.locks
       case Answered(reply) => reply == ProvisionFailed && email !in v.locks
       case _ => false
  }

  /** No step of the run binds the email anew. */
  predicate NeverBound(t: Text, v: View, run: seq<Step>, key: string)
    decreases |run|
  {
    key !in v.owners && (run == [] || NeverBound(t, Next(t, v, run[0]), run[1..], key))
  }

  lemma PendingTry(t: Text, v: View, id: nat, other: string, theirs: string, failed: nat, waiter: nat, email: string,
      token: string)
    requires Pending(t, v, failed, waiter, email, token) && id != failed
    requires id == waiter ==> other == email && theirs == token
    requires Key(t, email) !in Try(t, v, id, other, theirs).owners
    ensures Pending(t, Try(t, v, id, other, theirs), failed, waiter, email, token)
  {
    hide Key, SessionNameFor;
  }

  lemma PendingStays(t: Text, v: View, s: Step, failed: nat, waiter: nat, email: string, token: string)
    requires LocksHeld(v) && Pending(t, v, failed, waiter, email, token)
    requires Key(t, email) !in Next(t, v, s).owners
    ensures Pending(t, Next(t, v, s), failed, waiter, email, token)
  {
    hide Key, Try;
    match s
    case Identify(id, other, theirs) => if id !in v.requests { PendingTry(t, v, id, other, theirs, failed, waiter,
        email, token); }
    case Resume(id) =>
      if id in v.requests && v.requests[id].phase.Waiting? {
        PendingTry(t, v, id, v.requests[id].email, v.requests[id].token, failed, waiter, email, token);
      }
    case Settle(_, _) =>
    case Release(id) => assert Holds(v, failed) && Holds(v, id) && v.requests[id].email == email ==> id == failed;
    case Rebind(_, _) =>
    case Remove(_) =>
  }

  lemma {:induction false} PendingThroughout(t: Text, v: View, run: seq<Step>, failed: nat, waiter: nat,
      email: string, token: string)
    requires LocksHeld(v) && Pending(t, v, failed, waiter, email, token) && NeverBound(t, v, run, Key(t, email))
    ensures Pending(t, After(t, v, run), failed, waiter, email, token)
    decreases |run|
  {
    if run != [] {
      PendingStays(t, v, run[0], failed, waiter, email, token);
      StepKeepsLocks(t, v, run[0]);
      PendingThroughout(t, Next(t, v, run[0]), run[1..], failed, waiter, email, token);
    }
  }

  /** A flight that fails leaves no binding. Until someone binds the email again, and
      whatever else happens meanwhile, a request that waited for it still waits; when
      it resumes it goes on waiting while the lock is held, and once the lock is gone
      it starts a flight of its own. */
  lemma WaiterTakesOver(t: Text, v: View, failing: nat, waiter: nat, between: seq<Step>)
    requires LocksHeld(v)
    requires failing in v.requests && v.requests[failing].phase.Flying?
    requires waiter in v.requests && v.requests[waiter].phase.Waiting? &&
        v.requests[waiter].email == v.requests[failing].email
    requires var failed := Next(t, v, Settle(failing, false));
      NeverBound(t, failed, between, Key(t, v.requests[failing].email))
    ensures var email := v.requests[failing].email;
      var u := After(t, Next(t, v, Settle(failing, false)), between);
      var w := Next(t, u, Resume(waiter));
      && Key(t, email) !in u.owners && waiter in u.requests && u.requests[waiter].phase.Waiting?
      && (email in u.locks ==> w == u)
      && (email !in u.locks ==> Flies(w, waiter))
      && (email !in u.locks ==> Key(t, email) in w.owners && w.owners[Key(t, email)].token == v.requests[waiter].token)
      && failing in u.requests && (email !in u.locks <==> u.requests[failing].phase == Answered(ProvisionFailed))
  {
    var email := v.requests[failing].email;
    assert Holds(v, failing);
    StepKeepsLocks(t, v, Settle(failing, false));
    PendingThroughout(t, Next(t, v, Settle(failing, false)), between, failing, waiter, email, v.requests[waiter].token);
    var u := After(t, Next(t, v, Settle(failing, false)), between);
    assert u.requests[waiter := u.requests[waiter]] == u.requests;
  }

  // ---- the bindings -------------------------------------------------------

  /** Only a rebind changes the token of a binding that stands. */
  lemma TokensAreSticky(t: Text, v: View, s: Step, key: string)
    requires key in v.owners && key in Next(t, v, s).owners
    ensures Next(t, v, s).owners[key] == v.owners[key] ||
      (s.Rebind? && Key(t, s.email) == key && Next(t, v, s).owners[key] == v.owners[key].(token := s.token))
  {
  }

  /** A binding disappears only by removal or with a failed flight for its email. */
  lemma BindingsLast(t: Text, v: View, s: Step, key: string)
    requires key in v.owners && key !in Next(t, v, s).owners
    ensures (s.Remove? && Key(t, s.email) == key) ||
      (s.Settle? && !s.ok && s.id in v.requests && v.requests[s.id].phase.Flying? &&
          Key(t, v.requests[s.id].email) == key)
  {
  }

  /** Steps that may change or drop the binding of one email. */
  predicate Touches(t: Text, v: View, s: Step, key: string) {
    match s
    case Rebind(email, _) => Key(t, email) == key
    case Remove(email) => Key(t, email) == key
    case Settle(id, ok) => !ok && id in v.requests && Key(t, v.requests[id].email) == key
    case _ => false
  }

  predicate NeverTouched(t: Text, v: View, run: seq<Step>, key: string)
    decreases |run|
  {
    run == [] || (!Touches(t, v, run[0], key) && NeverTouched(t, Next(t, v, run[0]), run[1..], key))
  }

  /** First come, first served: through any run without a rebind, a removal or a
      failed flight for its email, a binding keeps its token and its session. */
  lemma {:induction false} BindingStands(t: Text, v: View, run: seq<Step>, key: string)
    requires key in v.owners && NeverTouched(t, v, run, key)
    ensures var w := After(t, v, run); key in w.owners && w.owners[key] == v.owners[key]
    decreases |run|
  {
    if run != [] {
      var w := Next(t, v, run[0]);
      if key in w.owners { TokensAreSticky(t, v, run[0], key); } else { BindingsLast(t, v, run[0], key); }
      BindingStands(t, w, run[1..], key);
    }
  }

  /** Whoever provisions for an email, or was answered with its session, holds its
      binding. */
  predicate Rightful(t: Text, v: View, key: string, id: nat) {
    id in v.requests && KeyOf(t, v, id) == key && Involved(v.requests[id].phase) ==>
      key in v.owners && v.owners[key].token == v.requests[id].token
  }

  predicate Involved(p: Phase) {
    match p
    case Waiting => false
    case Flying(_) => true
    case Landed(_, ok) => ok
    case Answered(reply) => reply.Owns?
  }

  ghost predicate AllRightful(t: Text, v: View, key: string) {
    forall id: nat :: Rightful(t, v, key, id)
  }

  predicate InvolvedIn(t: Text, v: View, key: string, id: nat) {
    id in v.requests && KeyOf(t, v, id) == key && Involved(v.requests[id].phase)
  }

  /** A step that takes the binding away from a request that provisions for it or was
      answered from it: a rebind to another token, a removal, or the failure of a
      flight that someone else was already answered from. */
  ghost predicate Dispossesses(t: Text, v: View, s: Step, key: string) {
    match s
    case Rebind(email, token) =>
      Key(t, email) == key && exists id: nat :: InvolvedIn(t, v, key, id) && v.requests[id].token != token
    case Remove(email) => Key(t, email) == key && exists id: nat :: InvolvedIn(t, v, key, id)
    case Settle(failed, ok) =>
      && !ok && Flies(v, failed) && KeyOf(t, v, failed) == key
      && exists id: nat :: id != failed && InvolvedIn(t, v, key, id)
    case _ => false
  }

  lemma TryIsRightful(t: Text, v: View, id: nat, email: string, token: string, key: string)
    requires AllRightful(t, v, key)
    ensures AllRightful(t, Try(t, v, id, email, token), key)
  {
    hide Key, SessionNameFor;
    forall a: nat ensures Rightful(t, Try(t, v, id, email, token), key, a) {
      assert Rightful(t, v, key, a);
    }
  }

  lemma SettleIsRightfulIff(t: Text, v: View, failed: nat, ok: bool, key: string)
    requires AllRightful(t, v, key)
    ensures AllRightful(t, Next(t, v, Settle(failed, ok)), key) <==> !Dispossesses(t, v, Settle(failed, ok), key)
  {
    hide Key;
    var w := Next(t, v, Settle(failed, ok));
    if Dispossesses(t, v, Settle(failed, ok), key) {
      var id: nat :| id != failed && InvolvedIn(t, v, key, id);
      assert InvolvedIn(t, w, key, id) && !Rightful(t, w, key, id);
    } else {
      forall a: nat ensures Rightful(t, w, key, a) {
        assert Rightful(t, v, key, a);
        assert a != failed && InvolvedIn(t, w, key, a) ==> InvolvedIn(t, v, key, a);
      }
    }
  }

  lemma AdminIsRightfulIff(t: Text, v: View, s: Step, key: string)
    requires AllRightful(t, v, key) && (s.Rebind? || s.Remove?)
    ensures AllRightful(t, Next(t, v, s), key) <==> !Dispossesses(t, v, s, key)
  {
    hide Key;
    var w := Next(t, v, s);
    assert forall a: nat :: InvolvedIn(t, w, key, a) <==> InvolvedIn(t, v, key, a);
    forall a: nat ensures Rightful(t, w, key, a) || (InvolvedIn(t, v, key, a) && Dispossesses(t, v, s, key)) {
      assert Rightful(t, v, key, a);
      assert InvolvedIn(t, v, key, a) || Rightful(t, w, key, a);
    }
    if Dispossesses(t, v, s, key) {
      var id: nat :|
        InvolvedIn(t, v, key, id) && (s.Rebind? ==> v.requests[id].token != s.token);
      assert Rightful(t, v, key, id) && !Rightful(t, w, key, id);
    }
  }

  /** Everyone who provisions for an email or was answered with its session keeps its
      binding, across exactly the steps that do not dispossess anyone. */
  lemma RightfulExactlyWhen(t: Text, v: View, s: Step, key: string)
    requires AllRightful(t, v, key)
    ensures AllRightful(t, Next(t, v, s), key) <==> !Dispossesses(t, v, s, key)
  {
    hide Key, SessionNameFor, Try, AllRightful;
    match s
    case Identify(id, email, token) => TryIsRightful(t, v, id, email, token, key);
    case Resume(id) =>
      if id in v.requests { TryIsRightful(t, v, id, v.requests[id].email, v.requests[id].token, key); }
    case Settle(id, ok) => SettleIsRightfulIff(t, v, id, ok, key);
    case Release(id) => ReleaseIsRightful(t, v, id, key);
    case Rebind(_, _) => AdminIsRightfulIff(t, v, s, key);
    case Remove(_) => AdminIsRightfulIff(t, v, s, key);
  }

  lemma ReleaseIsRightful(t: Text, v: View, id: nat, key: string)
    requires AllRightful(t, v, key)
    ensures AllRightful(t, Next(t, v, Release(id)), key)
  {
    hide Key;
    forall a: nat ensures Rightful(t, Next(t, v, Release(id)), key, a) {
      assert Rightful(t, v, key, a);
    }
  }

  ghost predicate NeverDispossesses(t: Text, v: View, run: seq<Step>, key: string)
    decreases |run|
  {
    run == [] || (!Dispossesses(t, v, run[0], key) && NeverDispossesses(t, Next(t, v, run[0]), run[1..], key))
  }

  lemma {:induction false} RightfulThroughout(t: Text, v: View, run: seq<Step>, key: string)
    requires AllRightful(t, v, key) && NeverDispossesses(t, v, run, key)
    ensures AllRightful(t, After(t, v, run), key)
    decreases |run|
  {
    if run != [] {
      RightfulExactlyWhen(t, v, run[0], key);
      RightfulThroughout(t, Next(t, v, run[0]), run[1..], key);
    }
  }

  predicate AnsweredWith(v: View, id: nat, session: string) {
    && id in v.requests && v.requests[id].phase.Answered? && v.requests[id].phase.reply.Owns?
    && v.requests[id].phase.reply.session == session
  }

  /** Over every run in which no step dispossesses anyone of an email, failed flights
      and retries included, its session goes to one token only: the one that holds the
      binding. */
  lemma SessionsGoToTheOwner(t: Text, run: seq<Step>, id: nat, session: string)
    requires AnsweredWith(After(t, START, run), id, session)
    requires NeverDispossesses(t, START, run, KeyOf(t, After(t, START, run), id))
    ensures var v := After(t, START, run); var key := KeyOf(t, v, id);
      key in v.owners && v.owners[key] == Binding(session, v.requests[id].token)
  {
    var v := After(t, START, run);
    RightfulThroughout(t, START, run, KeyOf(t, v, id));
    assert Rightful(t, v, KeyOf(t, v, id), id);
    AlwaysWellNamed(t, START, run);
    assert NamedRight(t, v.requests[id]);
  }

  /** The session a request is about, once it is about one. */
  function Mentioned(r: Request): Option<string> {
    match r.phase
    case Waiting => None
    case Flying(session) => Some(session)
    case Landed(session, _) => Some(session)
    case Answered(reply) => if reply.Owns? then Some(reply.session) else None
  }

  predicate NamedRight(t: Text, r: Request) {
    Mentioned(r).Some? ==> Mentioned(r).value == SessionNameFor(t, Key(t, r.email))
  }

  ghost predicate WellNamed(t: Text, v: View) {
    && (forall key <- v.owners :: v.owners[key].session == SessionNameFor(t, key))
    && (forall id <- v.requests :: NamedRight(t, v.requests[id]))
  }

  lemma TryWellNamed(t: Text, v: View, id: nat, email: string, token: string)
    requires WellNamed(t, v)
    ensures WellNamed(t, Try(t, v, id, email, token))
  {
    hide SessionNameFor, Key;
    var w := Try(t, v, id, email, token);
    assert NamedRight(t, w.requests[id]);
  }

  lemma StepWellNamed(t: Text, v: View, s: Step)
    requires WellNamed(t, v)
    ensures WellNamed(t, Next(t, v, s))
  {
    hide SessionNameFor, Key, Try;
    match s
    case Identify(id, email, token) => TryWellNamed(t, v, id, email, token);
    case Resume(id) =>
      if id in v.requests { TryWellNamed(t, v, id, v.requests[id].email, v.requests[id].token); }
    case Settle(id, _) => if id in v.requests { assert NamedRight(t, v.requests[id]); }
    case Release(id) => if id in v.requests { assert NamedRight(t, v.requests[id]); }
    case Rebind(_, _) =>
    case Remove(_) =>
  }

  lemma {:induction false} AlwaysWellNamed(t: Text, v: View, run: seq<Step>)
    requires WellNamed(t, v)
    ensures WellNamed(t, After(t, v, run))
    decreases |run|
  {
    if run != [] {
      StepWellNamed(t, v, run[0]);
      AlwaysWellNamed(t, Next(t, v, run[0]), run[1..]);
    }
  }

  /** No run binds, or answers with, a session outside the guarded namespace. */
  lemma PrimaryIsUnreachable(t: Text, run: seq<Step>)
    requires HexDigest(t)
    ensures var v := After(t, START, run);
      && (forall key <- v.owners :: Guarded(v.owners[key].session) && v.owners[key].session != "default")
      && (forall id <- v.requests :: v.requests[id].phase.Answered? && v.requests[id].phase.reply.Owns? ==>
            Guarded(v.requests[id].phase.reply.session) && v.requests[id].phase.reply.session != "default")
  {
    AlwaysWellNamed(t, START, run);
    var v := After(t, START, run);
    assert forall id <- v.requests :: NamedRight(t, v.requests[id]);
    forall email ensures Guarded(SessionNameFor(t, email)) && SessionNameFor(t, email) != "default" {
      NamesAreGuarded(t, email);
    }
  }

  // ---- two spellings of one email -----------------------------------------

  /** Requests that fly for spellings of one email are one request. */
  ghost predicate OneFlightAKey(t: Text, v: View) {
    && (forall id: nat :: Flies(v, id) ==> KeyOf(t, v, id) in v.owners)
    && (forall a: nat, b: nat :: Flies(v, a) && Flies(v, b) && KeyOf(t, v, a) == KeyOf(t, v, b) ==> a == b)
  }

  lemma TryKeepsOneFlight(t: Text, v: View, id: nat, email: string, token: string)
    requires OneFlightAKey(t, v) && !Flies(v, id)
    ensures OneFlightAKey(t, Try(t, v, id, email, token))
  {
    hide Key, SessionNameFor;
    var w := Try(t, v, id, email, token);
    forall a: nat | Flies(w, a) ensures a == id || (Flies(v, a) && KeyOf(t, w, a) == KeyOf(t, v, a)) {}
    assert Flies(w, id) ==> KeyOf(t, w, id) == Key(t, email) && Key(t, email) !in v.owners;
  }

  lemma SettleKeepsOneFlight(t: Text, v: View, id: nat, ok: bool)
    requires OneFlightAKey(t, v)
    ensures OneFlightAKey(t, Next(t, v, Settle(id, ok)))
  {
    hide Key;
    var w := Next(t, v, Settle(id, ok));
    if Flies(v, id) {
      forall a: nat | Flies(w, a) ensures a != id && Flies(v, a) && KeyOf(t, w, a) == KeyOf(t, v, a) &&
          KeyOf(t, v, a) != KeyOf(t, v, id) {}
    }
  }

  /** A removal that hits an email being provisioned. */
  ghost predicate RemovesInFlight(t: Text, v: View, s: Step) {
    s.Remove? && exists id: nat :: Flies(v, id) && KeyOf(t, v, id) == Key(t, s.email)
  }

  lemma RemoveKeepsOneFlight(t: Text, v: View, email: string)
    requires OneFlightAKey(t, v)
    ensures OneFlightAKey(t, Next(t, v, Remove(email))) <==> !RemovesInFlight(t, v, Remove(email))
  {
    hide Key;
    var w := Next(t, v, Remove(email));
    assert forall id: nat :: Flies(w, id) <==> Flies(v, id);
    assert forall id: nat :: Flies(v, id) ==> KeyOf(t, w, id) == KeyOf(t, v, id);
  }

  /** Every flight keeps its binding, and spellings of one email share their flight,
      across every step but a removal that hits an email being provisioned. */
  lemma SpellingsPartExactlyWhen(t: Text, v: View, s: Step)
    requires OneFlightAKey(t, v)
    ensures OneFlightAKey(t, Next(t, v, s)) <==> !RemovesInFlight(t, v, s)
  {
    hide Key, Try;
    var w := Next(t, v, s);
    match s
    case Identify(id, email, token) => if id !in v.requests { TryKeepsOneFlight(t, v, id, email, token); }
    case Resume(id) =>
      if id in v.requests && v.requests[id].phase.Waiting? {
        TryKeepsOneFlight(t, v, id, v.requests[id].email, v.requests[id].token);
      }
    case Settle(id, ok) => SettleKeepsOneFlight(t, v, id, ok);
    case Release(_) => forall a: nat | Flies(w, a) ensures Flies(v, a) && KeyOf(t, w, a) == KeyOf(t, v, a) {}
    case Rebind(_, _) => forall a: nat | Flies(w, a) ensures Flies(v, a) && KeyOf(t, w, a) == KeyOf(t, v, a) {}
    case Remove(email) => RemoveKeepsOneFlight(t, v, email);
  }

  ghost predicate NeverRemovedInFlight(t: Text, v: View, run: seq<Step>)
    decreases |run|
  {
    run == [] || (!RemovesInFlight(t, v, run[0]) && NeverRemovedInFlight(t, Next(t, v, run[0]), run[1..]))
  }

  /** The lock is taken on the email as spelled but bindings on the normalized one;
      as long as no removal hits an email being provisioned, even spellings never
      fly at once. */
  lemma {:induction false} SpellingsShareAFlight(t: Text, v: View, run: seq<Step>)
    requires OneFlightAKey(t, v) && NeverRemovedInFlight(t, v, run)
    ensures OneFlightAKey(t, After(t, v, run))
    decreases |run|
  {
    if run != [] {
      SpellingsPartExactlyWhen(t, v, run[0]);
      SpellingsShareAFlight(t, Next(t, v, run[0]), run[1..]);
    }
  }

  /** With a removal two spellings do fly at once, and the first one's failure takes
      away the binding of the second, which still is on its way. */
  lemma RemovalSplitsSpellings(t: Text, a: string, b: string, token: string)
    requires a != b && Key(t, a) == Key(t, b)
    ensures var v := After(t, START, [Identify(0, a, token), Remove(a), Identify(1, b, token)]);
      && !OneFlightAKey(t, v)
      && Flies(v, 1) && KeyOf(t, v, 1) in v.owners
      && KeyOf(t, v, 1) !in Next(t, v, Settle(0, false)).owners
  {
    hide Key, SessionNameFor;
    var x, y, z := Identify(0, a, token), Remove(a), Identify(1, b, token);
    var v1 := Next(t, START, x);
    var v2 := Next(t, v1, y);
    var v3 := Next(t, v2, z);
    assert Flies(v1, 0) && v2.requests == v1.requests && Key(t, b) !in v2.owners && b !in v2.locks;
    assert Flies(v3, 0) && Flies(v3, 1) && KeyOf(t, v3, 0) == KeyOf(t, v3, 1);
    assert [x, y, z][1..] == [y, z] && [y, z][1..] == [z] && [z][1..] == [];
    assert After(t, v2, [z]) == v3;
    assert After(t, v1, [y, z]) == v3;
    assert After(t, START, [x, y, z]) == v3;
  }

  lemma Then(t: Text, v: View, s: Step, rest: seq<Step>)
    ensures After(t, v, [s] + rest) == After(t, Next(t, v, s), rest)
  {
    assert ([s] + rest)[1..] == rest;
  }

  lemma {:induction false} AfterConcat(t: Text, v: View, a: seq<Step>, b: seq<Step>)
    ensures After(t, v, a + b) == After(t, After(t, v, a), b)
    decreases |a|
  {
    if a == [] {
      assert a + b == b;
    } else {
      assert (a + b)[1..] == a[1..] + b;
      AfterConcat(t, Next(t, v, a[0]), a[1..], b);
    }
  }

  lemma ThenNothing(t: Text, v: View)
    ensures After(t, v, []) == v
  {
  }

  /** Token `x` has asked under two spellings, and its flight has failed. */
  function Stranded(t: Text, a: string, b: string, x: string): View {
    View(map[], {}, map[0 := Request(a, x, Answered(ProvisionFailed)),
                        1 := Request(b, x, Answered(Owns(SessionNameFor(t, Key(t, a)), false)))])
  }

  lemma FlightFails(t: Text, a: string, b: string, x: string)
    requires a != b && Key(t, a) == Key(t, b)
    ensures After(t, START, [Identify(0, a, x), Identify(1, b, x), Settle(0, false), Release(0)]) ==
        Stranded(t, a, b, x)
  {
    hide Key, SessionNameFor, Stranded;
    var session := SessionNameFor(t, Key(t, a));
    var one := Request(b, x, Answered(Owns(session, false)));
    var mine := map[Key(t, a) := Binding(session, x)];
    var v1 := View(mine, {a}, map[0 := Request(a, x, Flying(session))]);
    var v2 := View(mine, {a}, map[0 := Request(a, x, Flying(session)), 1 := one]);
    var v3 := View(map[], {a}, map[0 := Request(a, x, Landed(session, false)), 1 := one]);
    assert Next(t, START, Identify(0, a, x)) == v1;
    assert Next(t, v1, Identify(1, b, x)) == v2;
    assert Next(t, v2, Settle(0, false)) == v3;
    StrandedIs(t, a, b, x);
    assert Next(t, v3, Release(0)) == Stranded(t, a, b, x);
    hide Next, After;
    ThenNothing(t, Stranded(t, a, b, x));
    Then(t, v3, Release(0), []);
    Then(t, v2, Settle(0, false), [Release(0)] + []);
    Then(t, v1, Identify(1, b, x), [Settle(0, false)] + ([Release(0)] + []));
    Then(t, START, Identify(0, a, x), [Identify(1, b, x)] + ([Settle(0, false)] + ([Release(0)] + [])));
    assert [Identify(0, a, x)] + ([Identify(1, b, x)] + ([Settle(0, false)] + ([Release(0)] + []))) ==
      [Identify(0, a, x), Identify(1, b, x), Settle(0, false), Release(0)];
  }

  lemma StrandedIs(t: Text, a: string, b: string, x: string)
    ensures Stranded(t, a, b, x) ==
      View(map[], {}, map[0 := Request(a, x, Answered(ProvisionFailed)),
                          1 := Request(b, x, Answered(Owns(SessionNameFor(t, Key(t, a)), false)))])
  {
  }

  lemma RetrySucceeds(t: Text, v: View, id: nat, email: string, token: string)
    requires id !in v.requests && email !in v.locks && Key(t, email) !in v.owners
    ensures After(t, v, [Identify(id, email, token), Settle(id, true), Release(id)]).requests ==
      v.requests[id := Request(email, token, Answered(Owns(SessionNameFor(t, Key(t, email)), true)))]
  {
    hide Key, SessionNameFor;
    var v1 := Next(t, v, Identify(id, email, token));
    var v2 := Next(t, v1, Settle(id, true));
    var v3 := Next(t, v2, Release(id));
    assert v3.requests == v.requests[id := Request(email, token,
        Answered(Owns(SessionNameFor(t, Key(t, email)), true)))];
    hide Next;
    Then(t, v2, Release(id), []);
    Then(t, v1, Settle(id, true), [Release(id)] + []);
    Then(t, v, Identify(id, email, token), [Settle(id, true)] + ([Release(id)] + []));
    assert [Identify(id, email, token)] + ([Settle(id, true)] + ([Release(id)] + [])) ==
      [Identify(id, email, token), Settle(id, true), Release(id)];
  }

  /** A flight that fails can dispossess: a request for another spelling is answered
      from its binding, which then goes, and the retry binds the same session to
      someone else. Two tokens were given one session, with no rebind and no removal. */
  lemma TwoTokensOneSession(t: Text, a: string, b: string, x: string, y: string)
    requires a != b && Key(t, a) == Key(t, b) && x != y
    ensures var run := [Identify(0, a, x), Identify(1, b, x), Settle(0, false), Release(0)]
                     + [Identify(2, a, y), Settle(2, true), Release(2)];
      var v := After(t, START, run); var session := SessionNameFor(t, Key(t, a));
      && AnsweredWith(v, 1, session) && v.requests[1].token == x
      && AnsweredWith(v, 2, session) && v.requests[2].token == y
  {
    hide Key, SessionNameFor, After, Next;
    FlightFails(t, a, b, x);
    RetrySucceeds(t, Stranded(t, a, b, x), 2, a, y);
    AfterConcat(t, START, [Identify(0, a, x), Identify(1, b, x), Settle(0, false), Release(0)],
                [Identify(2, a, y), Settle(2, true), Release(2)]);
  }
}
