/** The write-only store of env values (src/env-registry.ts): entries keyed by
    name and scope, and the resolution that picks one value a name for a spawn.
    `set_at` stamps are not modelled; a hook's run is a parameter. */
module EnvRegistry {
  import opened Wrappers
  import opened JsText

  datatype Scope = Scope(kind: Option<string>, session: Option<string>)
  datatype Entry = Entry(name: string, scope: Scope, value: string)
  datatype Hook = Hook(name: string, kind: Option<string>, session: Option<string>, command: seq<string>)
  datatype EnvError = BadRequest | EnvDisabled | UnknownEnv | EnvHookFailed

  const VALUE_CAP := 8192

  // ---- names, scopes and keys ---------------------------------------------

  predicate NameStart(c: char) { 'A' <= c <= 'Z' || c == '_' }

  predicate NameChar(c: char) { NameStart(c) || '0' <= c <= '9' }

  /** `^[A-Z_][A-Z0-9_]{0,127}$` */
  predicate ValidName(name: string) {
    1 <= |name| <= 128 && NameStart(name[0]) && forall c <- name :: NameChar(c)
  }

  function TextOf(part: Option<string>): string {
    if part.Some? then part.value else "*"
  }

  function Key(name: string, scope: Scope): string {
    name + " " + TextOf(scope.kind) + " " + TextOf(scope.session)
  }

  /** JavaScript truthiness of an optional string. */
  function CleanPart(part: Option<string>): Option<string> {
    if Truthy(part) then part else None
  }

  function Clean(scope: Scope): Scope {
    Scope(CleanPart(scope.kind), CleanPart(scope.session))
  }

  function Specificity(scope: Scope): nat {
    (if Truthy(scope.kind) then 2 else 0) + (if Truthy(scope.session) then 1 else 0)
  }

  predicate PartMatches(part: Option<string>, actual: string) {
    part == None || part == Some(actual)
  }

  predicate ScopeMatches(scope: Scope, session: string, kind: string) {
    PartMatches(scope.kind, kind) && PartMatches(scope.session, session)
  }

  function HookScope(h: Hook): Scope { Scope(h.kind, h.session) }

  // ---- the entry table ----------------------------------------------------

  predicate WellKeyed(e: Entry) {
    ValidName(e.name) && Clean(e.scope) == e.scope
  }

  /** The table's invariant: an insertion-ordered Map with one entry a key. */
  ghost predicate Table(entries: seq<Entry>) {
    && (forall e <- entries :: WellKeyed(e))
    && (forall i, j :: 0 <= i < j < |entries| ==>
          Key(entries[i].name, entries[i].scope) != Key(entries[j].name, entries[j].scope))
  }

  /** `Map.set`: an existing key keeps its place. */
  function Put(entries: seq<Entry>, e: Entry): seq<Entry> {
    if entries == [] then [e]
    else if Key(entries[0].name, entries[0].scope) == Key(e.name, e.scope) then [e] + entries[1..]
    else [entries[0]] + Put(entries[1..], e)
  }

  /** `Map.delete`. */
  function Drop(entries: seq<Entry>, key: string): seq<Entry> {
    if entries == [] then []
    else if Key(entries[0].name, entries[0].scope) == key then entries[1..]
    else [entries[0]] + Drop(entries[1..], key)
  }

  predicate Has(entries: seq<Entry>, key: string) {
    exists e <- entries :: Key(e.name, e.scope) == key
  }

  lemma ConsMembers(e: Entry, rest: seq<Entry>)
    requires WellKeyed(e) && Table(rest) && forall x <- rest :: Key(x.name, x.scope) != Key(e.name, e.scope)
    ensures Table([e] + rest)
    ensures forall x :: x in [e] + rest <==> x == e || x in rest
  {
    hide Key, WellKeyed;
  }

  lemma {:induction false} PutMembers(entries: seq<Entry>, e: Entry)
    requires Table(entries) && WellKeyed(e)
    ensures Table(Put(entries, e))
    ensures forall x :: x in Put(entries, e) <==>
              x == e || (x in entries && Key(x.name, x.scope) != Key(e.name, e.scope))
  {
    if entries != [] {
      var rest := entries[1..];
      assert entries == [entries[0]] + rest;
      assert forall x <- rest :: Key(x.name, x.scope) != Key(entries[0].name, entries[0].scope);
      if Key(entries[0].name, entries[0].scope) != Key(e.name, e.scope) {
        hide Key, WellKeyed;
        PutMembers(rest, e);
        ConsMembers(entries[0], Put(rest, e));
      }
    }
  }

  lemma {:induction false} DropMembers(entries: seq<Entry>, key: string)
    requires Table(entries)
    ensures Table(Drop(entries, key))
    ensures forall x :: x in Drop(entries, key) <==> x in entries && Key(x.name, x.scope) != key
  {
    if entries != [] {
      var rest := entries[1..];
      assert entries == [entries[0]] + rest;
      assert forall x <- rest :: Key(x.name, x.scope) != Key(entries[0].name, entries[0].scope);
      if Key(entries[0].name, entries[0].scope) != key {
        hide Key, WellKeyed;
        DropMembers(rest, key);
        ConsMembers(entries[0], Drop(rest, key));
      }
    }
  }

  // ---- the reference: a map and a fallback chain --------------------------

  type Env = map<(string, Scope), string>

  lemma TableIsFunctional(entries: seq<Entry>, a: Entry, b: Entry)
    requires Table(entries) && a in entries && b in entries && a.name == b.name && a.scope == b.scope
    ensures a == b
  {
    var i :| 0 <= i < |entries| && entries[i] == a;
    var j :| 0 <= j < |entries| && entries[j] == b;
  }

  /** What a table says, insertion order forgotten. */
  ghost function Contents(entries: seq<Entry>): (env: Env)
    requires Table(entries)
    ensures forall k :: k in env <==> exists e <- entries :: (e.name, e.scope) == k
    ensures forall e <- entries :: (e.name, e.scope) in env && env[(e.name, e.scope)] == e.value
  {
    assert forall a <- entries, b <- entries | a.name == b.name && a.scope == b.scope :: a == b by {
      forall a <- entries, b <- entries | a.name == b.name && a.scope == b.scope ensures a == b {
        TableIsFunctional(entries, a, b);
      }
    }
    map e | e in entries :: (e.name, e.scope) := e.value
  }

  /** The value a spawn should see: its exact scope first, then the kind alone,
      then the session alone, then the unscoped value. */
  function Chain(env: Env, name: string, session: string, kind: string): Option<string> {
    var both, byKind := (name, Scope(Some(kind), Some(session))), (name, Scope(Some(kind), None));
    var bySession, anywhere := (name, Scope(None, Some(session))), (name, Scope(None, None));
    if both in env then Some(env[both])
    else if byKind in env then Some(env[byKind])
    else if bySession in env then Some(env[bySession])
    else if anywhere in env then Some(env[anywhere])
    else None
  }

  predicate Applies(e: Entry, name: string, session: string, kind: string) {
    e.name == name && ScopeMatches(e.scope, session, kind)
  }

  /** `e` is a most specific applicable entry of its table. */
  ghost predicate IsBest(entries: seq<Entry>, e: Entry, session: string, kind: string) {
    && e in entries && ScopeMatches(e.scope, session, kind)
    && forall x <- entries :: Applies(x, e.name, session, kind) ==> Specificity(x.scope) <= Specificity(e.scope)
  }

  /** Two clean scopes that match one spawn never tie. */
  lemma NoTies(a: Scope, b: Scope, session: string, kind: string)
    requires Clean(a) == a && Clean(b) == b
    requires ScopeMatches(a, session, kind) && ScopeMatches(b, session, kind)
    ensures Specificity(a) == Specificity(b) ==> a == b
  {
  }

  ghost predicate CleanEnv(env: Env) {
    forall k <- env :: Clean(k.1) == k.1
  }

  lemma ChainNone(env: Env, name: string, session: string, kind: string)
    requires CleanEnv(env)
    ensures Chain(env, name, session, kind).None? <==>
            forall s: Scope :: ScopeMatches(s, session, kind) ==> (name, s) !in env
  {
    forall s: Scope | ScopeMatches(s, session, kind)
      ensures s == Scope(Some(kind), Some(session)) || s == Scope(Some(kind), None) ||
              s == Scope(None, Some(session)) || s == Scope(None, None)
    {
    }
  }

  lemma ChainTakesTheTop(env: Env, name: string, top: Scope, session: string, kind: string)
    requires CleanEnv(env) && (name, top) in env && ScopeMatches(top, session, kind)
    requires forall s: Scope :: (name, s) in env && ScopeMatches(s, session, kind) ==>
        Specificity(s) <= Specificity(top)
    ensures Chain(env, name, session, kind) == Some(env[(name, top)])
  {
    var both, byKind, bySession := Scope(Some(kind), Some(session)), Scope(Some(kind), None),
        Scope(None, Some(session));
    if (name, both) in env { NoTies(both, top, session, kind); }
    else if (name, byKind) in env { NoTies(byKind, top, session, kind); }
    else if (name, bySession) in env { NoTies(bySession, top, session, kind); }
  }

  lemma ContentsClean(entries: seq<Entry>)
    requires Table(entries)
    ensures CleanEnv(Contents(entries))
  {
    forall k <- Contents(entries) ensures Clean(k.1) == k.1 {
      var e :| e in entries && (e.name, e.scope) == k;
      assert WellKeyed(e);
    }
  }

  lemma ChainNoneInTable(entries: seq<Entry>, name: string, session: string, kind: string)
    requires Table(entries)
    ensures Chain(Contents(entries), name, session, kind).None? <==>
            forall x <- entries :: !Applies(x, name, session, kind)
  {
    var env := Contents(entries);
    ContentsClean(entries);
    ChainNone(env, name, session, kind);
    if exists s: Scope :: ScopeMatches(s, session, kind) && (name, s) in env {
      var s: Scope :| ScopeMatches(s, session, kind) && (name, s) in env;
      var x :| x in entries && (x.name, x.scope) == (name, s);
      assert Applies(x, name, session, kind);
    }
  }

  /** The most specific applicable entry is what the fallback chain finds. */
  lemma ChainFindsTheBest(entries: seq<Entry>, e: Entry, session: string, kind: string)
    requires Table(entries) && IsBest(entries, e, session, kind)
    ensures Chain(Contents(entries), e.name, session, kind) == Some(e.value)
  {
    var env := Contents(entries);
    ContentsClean(entries);
    forall s: Scope | (e.name, s) in env && ScopeMatches(s, session, kind)
        ensures Specificity(s) <= Specificity(e.scope) {
      var x :| x in entries && (x.name, x.scope) == (e.name, s);
      assert Applies(x, e.name, session, kind);
    }
    ChainTakesTheTop(env, e.name, e.scope, session, kind);
  }

  /** The scan's progress over `entries`: one best entry for every name that has
      an applicable one. */
  ghost predicate BestSoFar(entries: seq<Entry>, best: map<string, Entry>, session: string, kind: string) {
    && (forall n <- best :: best[n].name == n && IsBest(entries, best[n], session, kind))
    && (forall e <- entries :: ScopeMatches(e.scope, session, kind) ==> e.name in best)
  }

  lemma BestSoFarStep(entries: seq<Entry>, best: map<string, Entry>, e: Entry, session: string, kind: string)
    requires BestSoFar(entries, best, session, kind)
    ensures !ScopeMatches(e.scope, session, kind) ==> BestSoFar(entries + [e], best, session, kind)
    ensures
      (&& ScopeMatches(e.scope, session, kind) && e.name in best
       && Specificity(e.scope) <= Specificity(best[e.name].scope))
      ==> BestSoFar(entries + [e], best, session, kind)
    ensures ScopeMatches(e.scope, session, kind) &&
            (e.name !in best || Specificity(e.scope) > Specificity(best[e.name].scope)) ==>
              BestSoFar(entries + [e], best[e.name := e], session, kind)
  {
    assert forall x :: x in entries + [e] <==> x in entries || x == e;
  }

  lemma BestIsTheChain(entries: seq<Entry>, best: map<string, Entry>, n: string, session: string, kind: string)
    requires Table(entries) && BestSoFar(entries, best, session, kind)
    ensures Chain(Contents(entries), n, session, kind) == if n in best then Some(best[n].value) else None
  {
    if n in best {
      ChainFindsTheBest(entries, best[n], session, kind);
    } else {
      ChainNoneInTable(entries, n, session, kind);
    }
  }

  // ---- the registry -------------------------------------------------------

  /** Hook `i` is the one that runs for its name: nothing that matches is more
      specific, and nothing as specific is declared before it. */
  ghost predicate IsChosen(hooks: seq<Hook>, i: nat, session: string, kind: string) {
    && i < |hooks| && ScopeMatches(HookScope(hooks[i]), session, kind)
    && forall j ::
         (0 <= j < |hooks| && hooks[j].name == hooks[i].name && ScopeMatches(HookScope(hooks[j]), session, kind)) ==>
         var here, there := Specificity(HookScope(hooks[i])), Specificity(HookScope(hooks[j]));
         there < here || (there == here && i <= j)
  }

  class EnvRegistry {
    const enabled: bool
    const hooks: seq<Hook>
    var entries: seq<Entry>

    ghost predicate Valid() reads this { Table(entries) }

    /** The entries resolution looks at. */
    function Visible(): seq<Entry> reads this { if enabled then entries else [] }

    ghost function Manual(): Env
      requires Valid()
      reads this
    {
      Contents(Visible())
    }

    /** Refuses a hook whose name is malformed or whose command is empty; the
        types stand for the string checks. */
    constructor (enabled: bool, hooks: seq<Hook>)
      requires forall h <- hooks :: ValidName(h.name) && h.command != []
      ensures Valid() && this.enabled == enabled && this.hooks == hooks && entries == []
    {
      this.enabled, this.hooks, this.entries := enabled, hooks, [];
    }

    method Set(name: string, value: string, scope: Scope) returns (r: Result<Entry, EnvError>)
      requires Valid()
      modifies this`entries
      ensures Valid()
      ensures !enabled ==> r == Err(EnvDisabled)
      ensures enabled && !Acceptable(name, value) ==> r == Err(BadRequest)
      ensures enabled && Acceptable(name, value) ==> r == Ok(Entry(name, Clean(scope), value))
      ensures entries == if r.Ok? then Put(old(entries), r.value) else old(entries)
    {
      if !enabled { return Err(EnvDisabled); }
      if !ValidName(name) { return Err(BadRequest); }
      if ByteLength(value) > VALUE_CAP { return Err(BadRequest); }
      var e := Entry(name, Clean(scope), value);
      PutMembers(entries, e);
      entries := Put(entries, e);
      return Ok(e);
    }

    method Delete(name: string, scope: Scope) returns (r: Result<(), EnvError>)
      requires Valid()
      modifies this`entries
      ensures Valid()
      ensures !enabled ==> r == Err(EnvDisabled)
      ensures enabled ==> r == if Has(old(entries), Key(name, Clean(scope))) then Ok(()) else Err(UnknownEnv)
      ensures entries == if r.Ok? then Drop(old(entries), Key(name, Clean(scope))) else old(entries)
    {
      if !enabled { return Err(EnvDisabled); }
      var key := Key(name, Clean(scope));
      DropMembers(entries, key);
      if !Has(entries, key) { return Err(UnknownEnv); }
      entries := Drop(entries, key);
      return Ok(());
    }

    /** The entry a spawn sees for each name it sees one for. */
    method BestManual(session: string, kind: string) returns (best: map<string, Entry>)
      ensures BestSoFar(Visible(), best, session, kind)
    {
      best := map[];
      if !enabled { return; }
      for i := 0 to |entries|
        invariant BestSoFar(entries[..i], best, session, kind)
      {
        var e := entries[i];
        BestSoFarStep(entries[..i], best, e, session, kind);
        assert entries[..i + 1] == entries[..i] + [e];
        if !ScopeMatches(e.scope, session, kind) { continue; }
        if e.name !in best || Specificity(e.scope) > Specificity(best[e.name].scope) {
          best := best[e.name := e];
        }
      }
      assert entries[..|entries|] == entries;
    }

    /** The chosen hook of each name no manual value covers. */
    method BestHooks(manual: set<string>, session: string, kind: string) returns (best: map<string, nat>)
      ensures forall n <- best :: n !in manual && IsChosen(hooks, best[n], session, kind) && hooks[best[n]].name == n
      ensures forall i: nat :: IsChosen(hooks, i, session, kind) && hooks[i].name !in manual ==>
                hooks[i].name in best && best[hooks[i].name] == i
    {
      best := map[];
      for i := 0 to |hooks|
        invariant forall n <- best :: n !in manual
        invariant forall n <- best :: IsChosen(hooks[..i], best[n], session, kind) && hooks[best[n]].name == n
        invariant forall j ::
          (0 <= j < i && hooks[j].name !in manual && ScopeMatches(HookScope(hooks[j]), session, kind)) ==>
            hooks[j].name in best
      {
        var h := hooks[i];
        assert hooks[..i + 1] == hooks[..i] + [h];
        if h.name in manual { continue; }
        if !ScopeMatches(HookScope(h), session, kind) { continue; }
        if h.name !in best || Specificity(HookScope(h)) > Specificity(HookScope(hooks[best[h.name]])) {
          best := best[h.name := i];
        }
      }
      assert hooks[..|hooks|] == hooks;
      forall i: nat | IsChosen(hooks, i, session, kind) && hooks[i].name !in manual
        ensures hooks[i].name in best && best[hooks[i].name] == i
      {
        ChosenIsUnique(hooks, i, best[hooks[i].name], session, kind);
      }
    }

    /** Runs the chosen hooks one after another; the first failure ends it. */
    method RunHooks(manual: map<string, string>, best: map<string, nat>, run: Hook -> Option<string>)
      returns (r: Result<map<string, string>, EnvError>)
      requires forall n <- best :: n !in manual && best[n] < |hooks|
      ensures r.Ok? ==> forall n :: n in r.value <==> n in manual || n in best
      ensures r.Ok? ==> forall n <- manual :: r.value[n] == manual[n]
      ensures r.Ok? ==> forall n <- best :: run(hooks[best[n]]) == Some(r.value[n])
      ensures r.Err? ==> r == Err(EnvHookFailed) && exists n <- best :: run(hooks[best[n]]).None?
    {
      var out, todo := manual, best.Keys;
      while todo != {}
        invariant todo <= best.Keys
        invariant forall n :: n in out <==> n in manual || (n in best && n !in todo)
        invariant forall n <- manual :: out[n] == manual[n]
        invariant forall n <- best :: n !in todo ==> run(hooks[best[n]]) == Some(out[n])
        decreases |todo|
      {
        var name :| name in todo;
        var value := run(hooks[best[name]]);
        if value.None? { return Err(EnvHookFailed); }
        out := out[name := value.value];
        todo := todo - {name};
      }
      return Ok(out);
    }

    /** Every name gets the fallback chain's manual value, else the output of
        its chosen hook; a chosen hook that fails fails the whole resolution. */
    method ResolveForSpawn(session: string, kind: string, run: Hook -> Option<string>)
      returns (r: Result<map<string, string>, EnvError>)
      requires Valid()
      ensures r.Ok? ==> forall n :: Chain(Manual(), n, session, kind).Some? ==>
                n in r.value && r.value[n] == Chain(Manual(), n, session, kind).value
      ensures r.Ok? ==> forall i: nat :: Runs(i, session, kind) ==>
                hooks[i].name in r.value && run(hooks[i]) == Some(r.value[hooks[i].name])
      ensures r.Ok? ==> forall n <- r.value ::
                Chain(Manual(), n, session, kind).Some? || exists i: nat :: Runs(i, session, kind) && hooks[i].name == n
      ensures r.Err? <==> exists i: nat :: Runs(i, session, kind) && run(hooks[i]).None?
      ensures r.Err? ==> r == Err(EnvHookFailed)
    {
      var bestManual := BestManual(session, kind);
      var manual := map n | n in bestManual :: bestManual[n].value;
      forall n ensures Chain(Manual(), n, session, kind) == if n in manual then Some(manual[n]) else None {
        BestIsTheChain(Visible(), bestManual, n, session, kind);
      }
      var bestHook := BestHooks(manual.Keys, session, kind);
      r := RunHooks(manual, bestHook, run);
      assert forall n <- bestHook :: Runs(bestHook[n], session, kind);
      assert forall i: nat :: Runs(i, session, kind) ==> hooks[i].name in bestHook && bestHook[hooks[i].name] == i;
    }

    /** Hook `i` runs for this spawn. */
    ghost predicate Runs(i: nat, session: string, kind: string)
      requires Valid()
      reads this
    {
      IsChosen(hooks, i, session, kind) && Chain(Manual(), hooks[i].name, session, kind).None?
    }
  }

  predicate Acceptable(name: string, value: string) {
    ValidName(name) && ByteLength(value) <= VALUE_CAP
  }

  lemma ChosenIsUnique(hooks: seq<Hook>, i: nat, j: nat, session: string, kind: string)
    requires IsChosen(hooks, i, session, kind) && IsChosen(hooks, j, session, kind) && hooks[i].name == hooks[j].name
    ensures i == j
  {
  }

  // ---- runs of set and delete ---------------------------------------------

  datatype Op = SetOp(name: string, scope: Scope, value: string) | DeleteOp(name: string, scope: Scope)

  function Step(entries: seq<Entry>, op: Op): seq<Entry> {
    match op
    case SetOp(name, scope, value) =>
      if Acceptable(name, value) then Put(entries, Entry(name, Clean(scope), value)) else entries
    case DeleteOp(name, scope) => Drop(entries, Key(name, Clean(scope)))
  }

  function RunOps(ops: seq<Op>): seq<Entry> {
    if ops == [] then [] else Step(RunOps(ops[..|ops| - 1]), ops[|ops| - 1])
  }

  /** The same operations on a plain map keyed by name and scope. */
  function RefRun(ops: seq<Op>): Env {
    if ops == [] then map[]
    else
      var env := RefRun(ops[..|ops| - 1]);
      match ops[|ops| - 1]
      case SetOp(name, scope, value) => if Acceptable(name, value) then env[(name, Clean(scope)) := value] else env
      case DeleteOp(name, scope) => Without(env, name, Clean(scope))
  }

  function Without(env: Env, name: string, scope: Scope): Env {
    map k | k in env && k != (name, scope) :: env[k]
  }

  predicate IsClean(scope: Scope) { Clean(scope) == scope }

  /** The scope part of a key. */
  function Parts(scope: Scope): string { TextOf(scope.kind) + " " + TextOf(scope.session) }

  /** No part is spelled like an absent one. */
  predicate NoStar(scope: Scope) { scope.kind != Some("*") && scope.session != Some("*") }

  /** The separator is the only space of the scope part that could be one. */
  predicate OneCut(scope: Scope) {
    forall i :: 0 < i < |Parts(scope)| - 1 && Parts(scope)[i] == ' ' ==> i == |TextOf(scope.kind)|
  }

  /** No other name and scope have this key. */
  ghost predicate OneReading(name: string, scope: Scope) {
    forall n, s :: ' ' !in n && IsClean(s) && NoStar(s) && Key(n, s) == Key(name, scope) ==> n == name && s == scope
  }

  lemma KeyParts(name: string, scope: Scope)
    ensures Key(name, scope) == name + " " + Parts(scope)
  {
    var k, s := TextOf(scope.kind), TextOf(scope.session);
    assert name + " " + k + " " + s == name + " " + (k + " " + s);
  }

  lemma SameFirstWord(a: string, x: string, b: string, y: string)
    requires ' ' !in a && ' ' !in b && a + " " + x == b + " " + y
    ensures a == b && x == y
  {
    var whole := a + " " + x;
    assert whole[|a|] == ' ' && whole[|b|] == ' ';
    assert forall i :: 0 <= i < |a| ==> whole[i] == a[i] && a[i] != ' ';
    assert forall i :: 0 <= i < |b| ==> whole[i] == b[i] && b[i] != ' ';
    assert whole[..|a|] == a && whole[..|b|] == b && whole[|a| + 1..] == x && whole[|b| + 1..] == y;
  }

  /** Without stars, a scope with one cut shares its key with no other. */
  lemma KeyInjective(name: string, scope: Scope, name': string, scope': Scope)
    requires ' ' !in name && IsClean(scope) && NoStar(scope) && OneCut(scope)
    requires ' ' !in name' && IsClean(scope') && NoStar(scope')
    ensures Key(name, scope) == Key(name', scope') <==> name == name' && scope == scope'
  {
    if Key(name, scope) == Key(name', scope') {
      KeyParts(name, scope);
      KeyParts(name', scope');
      SameFirstWord(name, Parts(scope), name', Parts(scope'));
      var j := |TextOf(scope'.kind)|;
      assert Parts(scope')[j] == ' ' && Parts(scope')[..j] == TextOf(scope'.kind) &&
          Parts(scope')[j + 1..] == TextOf(scope'.session);
      assert j == |TextOf(scope.kind)|;
      assert Parts(scope)[..j] == TextOf(scope.kind) && Parts(scope)[j + 1..] == TextOf(scope.session);
    }
  }

  function PartOf(text: string): Option<string> { if text == "*" then None else Some(text) }

  /** The scope that results from cutting the same text elsewhere. */
  function CutAt(text: string, i: nat): Scope
    requires i < |text|
  {
    Scope(PartOf(text[..i]), PartOf(text[i + 1..]))
  }

  lemma CutReads(name: string, text: string, i: nat)
    requires 0 < i < |text| - 1 && text[i] == ' '
    ensures var s := CutAt(text, i); IsClean(s) && NoStar(s) && Parts(s) == text && |TextOf(s.kind)| == i
  {
    assert text == text[..i] + " " + text[i + 1..];
  }

  /** Exactly the scopes with one cut are told apart by their key. */
  lemma OneReadingIff(name: string, scope: Scope)
    requires ' ' !in name && IsClean(scope) && NoStar(scope)
    ensures OneReading(name, scope) <==> OneCut(scope)
  {
    if OneCut(scope) {
      forall n, s | ' ' !in n && IsClean(s) && NoStar(s) && Key(n, s) == Key(name, scope)
          ensures n == name && s == scope {
        KeyInjective(name, scope, n, s);
      }
    } else {
      var i :| 0 < i < |Parts(scope)| - 1 && Parts(scope)[i] == ' ' && i != |TextOf(scope.kind)|;
      var s := CutAt(Parts(scope), i);
      CutReads(name, Parts(scope), i);
      KeyParts(name, s);
      KeyParts(name, scope);
      assert s != scope;
    }
  }

  function Unstarred(scope: Scope): Scope {
    Scope(if scope.kind == Some("*") then None else scope.kind,
          if scope.session == Some("*") then None else scope.session)
  }

  /** A scope with a star or a second cut shares its key with another one, and
      setting it silently replaces that one's value. */
  lemma KeyCollides(name: string, scope: Scope, value: string, value': string) returns (other: Scope)
    requires IsClean(scope) && !(NoStar(scope) && OneCut(scope))
    requires Acceptable(name, value) && Acceptable(name, value')
    ensures other != scope && IsClean(other) && NoStar(other) && Key(name, other) == Key(name, scope)
    ensures RunOps([SetOp(name, other, value), SetOp(name, scope, value')]) == [Entry(name, scope, value')]
  {
    if NoStar(scope) {
      var i :| 0 < i < |Parts(scope)| - 1 && Parts(scope)[i] == ' ' && i != |TextOf(scope.kind)|;
      other := CutAt(Parts(scope), i);
      CutReads(name, Parts(scope), i);
      KeyParts(name, other);
      KeyParts(name, scope);
    } else {
      other := Unstarred(scope);
    }
    var ops := [SetOp(name, other, value), SetOp(name, scope, value')];
    assert ops[..1] == [ops[0]] && ops[..1][..0] == [];
    assert RunOps(ops[..1]) == [Entry(name, other, value)];
  }

  lemma ContentsAfterPut(entries: seq<Entry>, e: Entry)
    requires Table(entries) && WellKeyed(e)
    requires forall x <- entries :: Key(x.name, x.scope) == Key(e.name, e.scope) ==>
        x.name == e.name && x.scope == e.scope
    ensures Table(Put(entries, e)) && Contents(Put(entries, e)) == Contents(entries)[(e.name, e.scope) := e.value]
  {
    PutMembers(entries, e);
    var env, env' := Contents(entries), Contents(Put(entries, e));
    forall k ensures k in env' <==> k in env || k == (e.name, e.scope) {
      if k in env {
        var x :| x in entries && (x.name, x.scope) == k;
        assert x in Put(entries, e) || k == (e.name, e.scope);
      }
    }
    forall k | k in env' && k != (e.name, e.scope) ensures env'[k] == env[k] {
      var x :| x in Put(entries, e) && (x.name, x.scope) == k;
    }
  }

  lemma ContentsAfterDrop(entries: seq<Entry>, name: string, scope: Scope)
    requires Table(entries)
    requires forall x <- entries :: Key(x.name, x.scope) == Key(name, scope) ==> x.name == name && x.scope == scope
    ensures Table(Drop(entries, Key(name, scope)))
    ensures Contents(Drop(entries, Key(name, scope))) == Without(Contents(entries), name, scope)
  {
    DropMembers(entries, Key(name, scope));
    var left := Drop(entries, Key(name, scope));
    assert forall x :: x in left <==> x in entries && !(x.name == name && x.scope == scope);
    SameContents(left, entries, name, scope);
  }

  lemma SameContents(left: seq<Entry>, entries: seq<Entry>, name: string, scope: Scope)
    requires Table(entries) && Table(left)
    requires forall x :: x in left <==> x in entries && !(x.name == name && x.scope == scope)
    ensures Contents(left) == Without(Contents(entries), name, scope)
  {
    var env, env' := Contents(entries), Contents(left);
    forall n: string, s: Scope ensures (n, s) in env' <==> (n, s) in Without(env, name, scope) {
      if (n, s) in env && (n, s) != (name, scope) {
        var x :| x in entries && (x.name, x.scope) == (n, s);
        assert x in left;
      }
      if (n, s) in env' {
        var x :| x in left && (x.name, x.scope) == (n, s);
      }
    }
    forall k | k in env' ensures k in env && env'[k] == env[k] {
      var x :| x in left && (x.name, x.scope) == k;
    }
    assert env'.Keys == Without(env, name, scope).Keys;
  }

  /** No two of the operations mean different entries by one key. */
  ghost predicate NoClash(ops: seq<Op>) {
    forall a <- ops, b <- ops :: Key(a.name, Clean(a.scope)) == Key(b.name, Clean(b.scope)) ==>
      a.name == b.name && Clean(a.scope) == Clean(b.scope)
  }

  ghost predicate ComesFrom(ops: seq<Op>, e: Entry) {
    exists op <- ops :: op.name == e.name && Clean(op.scope) == e.scope
  }

  /** STORE REFINEMENT. After any run of sets and deletes whose keys do not clash,
      the table is the map keyed by name and scope. */
  lemma {:induction false} TableIsTheMap(ops: seq<Op>)
    requires NoClash(ops)
    ensures Table(RunOps(ops)) && (forall e <- RunOps(ops) :: ComesFrom(ops, e))
    ensures Contents(RunOps(ops)) == RefRun(ops)
  {
    if ops != [] {
      var before, op := ops[..|ops| - 1], ops[|ops| - 1];
      assert op in ops && forall o <- before :: o in ops;
      TableIsTheMap(before);
      var entries, scope := RunOps(before), Clean(op.scope);
      forall x <- entries
        ensures Key(x.name, x.scope) == Key(op.name, scope) ==> x.name == op.name && x.scope == scope
      {
        assert ComesFrom(before, x);
      }
      StepIsTheMap(entries, op);
      forall e <- RunOps(ops) ensures ComesFrom(ops, e) {
        assert e in entries ==> ComesFrom(before, e);
        assert e !in entries ==> e.name == op.name && e.scope == scope;
      }
    }
  }

  lemma StepIsTheMap(entries: seq<Entry>, op: Op)
    requires Table(entries)
    requires forall x <- entries :: Key(x.name, x.scope) == Key(op.name, Clean(op.scope)) ==>
        x.name == op.name && x.scope == Clean(op.scope)
    ensures Table(Step(entries, op))
    ensures forall e <- Step(entries, op) :: e in entries || (e.name == op.name && e.scope == Clean(op.scope))
    ensures Contents(Step(entries, op)) == match op
      case SetOp(name, scope, value) =>
        if Acceptable(name, value) then Contents(entries)[(name, Clean(scope)) := value] else Contents(entries)
      case DeleteOp(name, scope) => Without(Contents(entries), name, Clean(scope))
  {
    hide Key;
    var scope := Clean(op.scope);
    if op.DeleteOp? {
      DropMembers(entries, Key(op.name, scope));
      ContentsAfterDrop(entries, op.name, scope);
    } else if Acceptable(op.name, op.value) {
      PutMembers(entries, Entry(op.name, scope, op.value));
      ContentsAfterPut(entries, Entry(op.name, scope, op.value));
    }
  }

  /** Operations on scopes that their keys tell apart never clash. */
  lemma OneCutsNeverClash(ops: seq<Op>)
    requires forall op <- ops :: ' ' !in op.name && NoStar(Clean(op.scope)) && OneCut(Clean(op.scope))
    ensures NoClash(ops)
  {
    forall a, b | a in ops && b in ops && Key(a.name, Clean(a.scope)) == Key(b.name, Clean(b.scope))
      ensures a.name == b.name && Clean(a.scope) == Clean(b.scope)
    {
      KeyInjective(a.name, Clean(a.scope), b.name, Clean(b.scope));
    }
  }

  /** CANONICAL RESOLUTION. Tables that hold the same entries in any order give
      every spawn the same manual values. */
  lemma OrderIsIrrelevant(one: seq<Entry>, two: seq<Entry>, name: string, session: string, kind: string)
    requires Table(one) && Table(two) && multiset(one) == multiset(two)
    ensures Chain(Contents(one), name, session, kind) == Chain(Contents(two), name, session, kind)
  {
    hide Chain, Table;
    assert forall e :: e in one <==> e in multiset(one);
    assert forall e :: e in two <==> e in multiset(two);
    assert Contents(one) == Contents(two);
  }

  /** Setting an entry anew keeps its place among the others; a new one comes last. */
  lemma {:induction false} PutKeepsPlaces(entries: seq<Entry>, e: Entry)
    ensures var out := Put(entries, e);
      && |out| == |entries| + (if Has(entries, Key(e.name, e.scope)) then 0 else 1)
      && (forall i :: 0 <= i < |entries| ==>
            out[i] == entries[i] || (out[i] == e && Key(entries[i].name, entries[i].scope) == Key(e.name, e.scope)))
  {
    hide Key;
    if entries != [] {
      var first, rest := entries[0], entries[1..];
      assert entries == [first] + rest;
      assert forall x :: x in entries <==> x == first || x in rest;
      if Key(first.name, first.scope) != Key(e.name, e.scope) { PutKeepsPlaces(rest, e); }
    }
  }

  // ---- in the caller's own terms ------------------------------------------

  lemma {:induction false} AsciiBytes(s: string)
    requires forall c <- s :: c as int < 0x80
    ensures ByteLength(s) == |s|
  {
    if s != "" {
      assert s[0] in s && forall c <- s[1..] :: c in s;
      AsciiBytes(s[1..]);
    }
  }

  /** An ASCII value is taken up to 8192 characters, under a name that is an upper-case
      word of at most 128 characters; a lower-case letter or a digit in front spoils
      the name. */
  lemma UpperWordsAreTaken(name: string, value: string)
    requires (forall c <- name :: 'A' <= c <= 'Z') && forall c <- value :: c as int < 0x80
    ensures Acceptable(name, value) <==> 1 <= |name| <= 128 && |value| <= 8192
    ensures 1 <= |name| <= 127 ==> ValidName("_" + name) && ValidName(name + "_") && ValidName(name + "7")
    ensures !ValidName("a" + name) && !ValidName(name + "a") && !ValidName("7" + name)
  {
    AsciiBytes(value);
    assert name != "" ==> name[0] in name;
    assert ("a" + name)[0] == 'a' && ("7" + name)[0] == '7' && (name + "a")[|name|] == 'a';
    assert 'a' in "a" + name && 'a' in name + "a";
  }

  /** Whether an entry's own kind and session admit a spawn. */
  predicate Admits(kind: Option<string>, session: Option<string>, forSession: string, forKind: string) {
    (kind == None || kind == Some(forKind)) && (session == None || session == Some(forSession))
  }

  /** The hook that is run for a name: one that admits the spawn, and no other one for
      that name that does is more particular, a kind counting for more than a session;
      of equals it comes first. */
  lemma ChosenOnFields(hooks: seq<Hook>, i: nat, session: string, kind: string)
    requires session != "" && kind != ""
    ensures IsChosen(hooks, i, session, kind) <==>
      && i < |hooks| && Admits(hooks[i].kind, hooks[i].session, session, kind)
      && forall j: nat ::
           (j < |hooks| && hooks[j].name == hooks[i].name && Admits(hooks[j].kind, hooks[j].session, session, kind)) ==>
             || (hooks[i].kind.Some? && hooks[j].kind.None?)
             || (hooks[i].kind.Some? == hooks[j].kind.Some? && hooks[i].session.Some? && hooks[j].session.None?)
             || (hooks[i].kind.Some? == hooks[j].kind.Some? && hooks[i].session.Some? == hooks[j].session.Some?
                 && i <= j)
  {
    forall j: nat | j < |hooks|
      ensures
        Admits(hooks[j].kind, hooks[j].session, session, kind) <==> ScopeMatches(HookScope(hooks[j]), session, kind)
      ensures Admits(hooks[j].kind, hooks[j].session, session, kind) ==>
        (Specificity(HookScope(hooks[j])) ==
          (if hooks[j].kind.Some? then 2 else 0) + (if hooks[j].session.Some? then 1 else 0))
    {}
  }
}
