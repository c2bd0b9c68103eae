/** The broker's file-backed stores (src/state.ts): workspaces, agents and
    resumable conversations, each keyed by session and then by id. A file is a
    field; a corrupt file reads as empty and is not modelled. */
module State {
  import opened Wrappers
  import opened JsText

  datatype WorkspaceMeta = WorkspaceMeta(cwd: string, title: Option<string>)
  datatype AgentMeta = AgentMeta(sessionId: Option<string>, kind: string, startedAt: int)
  datatype ResumableMeta = ResumableMeta(sessionId: string, kind: string, cwd: string, endedAt: int,
      title: Option<string>)

  // ---- agent rows: an insertion-ordered record ----------------------------

  type Rows = seq<(string, AgentMeta)>

  predicate HasRow(rows: Rows, pane: string) {
    exists r <- rows :: r.0 == pane
  }

  function RowAt(rows: Rows, pane: string): Option<AgentMeta> {
    if rows == [] then None
    else if rows[0].0 == pane then Some(rows[0].1)
    else RowAt(rows[1..], pane)
  }

  function PutRow(rows: Rows, pane: string, meta: AgentMeta): Rows {
    if rows == [] then [(pane, meta)]
    else if rows[0].0 == pane then [(pane, meta)] + rows[1..]
    else [rows[0]] + PutRow(rows[1..], pane, meta)
  }

  function DropRow(rows: Rows, pane: string): Rows {
    if rows == [] then []
    else if rows[0].0 == pane then rows[1..]
    else [rows[0]] + DropRow(rows[1..], pane)
  }

  /** The panes of a workspace share its id as a prefix. */
  predicate InWorkspace(pane: string, workspaceId: string) {
    StartsWith(pane, workspaceId + ":")
  }

  /** Rows of a workspace (`inside`) or of every other one, in order. */
  function Part(rows: Rows, workspaceId: string, inside: bool): Rows {
    if rows == [] then []
    else
      var here := if InWorkspace(rows[0].0, workspaceId) == inside then [rows[0]] else [];
      here + Part(rows[1..], workspaceId, inside)
  }

  function Metas(rows: Rows): seq<AgentMeta> {
    if rows == [] then [] else [rows[0].1] + Metas(rows[1..])
  }

  /** A record has one row a pane. */
  ghost predicate OneRowAPane(rows: Rows) {
    forall i, j :: 0 <= i < j < |rows| ==> rows[i].0 != rows[j].0
  }

  lemma ConsMembers(row: (string, AgentMeta), rest: Rows)
    requires OneRowAPane(rest) && forall r <- rest :: r.0 != row.0
    ensures OneRowAPane([row] + rest)
    ensures forall r :: r in [row] + rest <==> r == row || r in rest
  {
  }

  lemma {:induction false} PutRowMembers(rows: Rows, pane: string, meta: AgentMeta)
    requires OneRowAPane(rows)
    ensures OneRowAPane(PutRow(rows, pane, meta))
    ensures forall r :: r in PutRow(rows, pane, meta) <==> r == (pane, meta) || (r in rows && r.0 != pane)
  {
    if rows != [] {
      var rest := rows[1..];
      assert rows == [rows[0]] + rest;
      assert forall r <- rest :: r.0 != rows[0].0;
      if rows[0].0 != pane { PutRowMembers(rest, pane, meta); }
    }
  }

  lemma {:induction false} DropRowMembers(rows: Rows, pane: string)
    requires OneRowAPane(rows)
    ensures OneRowAPane(DropRow(rows, pane))
    ensures forall r :: r in DropRow(rows, pane) <==> r in rows && r.0 != pane
  {
    if rows != [] {
      var rest := rows[1..];
      assert rows == [rows[0]] + rest;
      assert forall r <- rest :: r.0 != rows[0].0;
      if rows[0].0 != pane {
        DropRowMembers(rest, pane);
        ConsMembers(rows[0], DropRow(rest, pane));
      }
    }
  }

  lemma {:induction false} PartMembers(rows: Rows, workspaceId: string, inside: bool)
    requires OneRowAPane(rows)
    ensures OneRowAPane(Part(rows, workspaceId, inside))
    ensures forall r :: r in Part(rows, workspaceId, inside) <==> r in rows && InWorkspace(r.0, workspaceId) == inside
  {
    if rows != [] {
      var rest := rows[1..];
      assert rows == [rows[0]] + rest;
      assert forall r <- rest :: r.0 != rows[0].0;
      PartMembers(rest, workspaceId, inside);
    }
  }

  lemma {:induction false} RowAtMember(rows: Rows, pane: string)
    requires OneRowAPane(rows)
    ensures RowAt(rows, pane).Some? <==> HasRow(rows, pane)
    ensures forall m :: RowAt(rows, pane) == Some(m) <==> (pane, m) in rows
  {
    if rows != [] {
      var rest := rows[1..];
      assert rows == [rows[0]] + rest;
      assert forall r <- rest :: r.0 != rows[0].0;
      RowAtMember(rest, pane);
    }
  }

  lemma {:induction false} PartConcat(a: Rows, b: Rows, workspaceId: string, inside: bool)
    ensures Part(a + b, workspaceId, inside) == Part(a, workspaceId, inside) + Part(b, workspaceId, inside)
  {
    if a == [] {
      assert a + b == b && [] + Part(b, workspaceId, inside) == Part(b, workspaceId, inside);
    } else {
      PartConcat(a[1..], b, workspaceId, inside);
      assert (a + b)[1..] == a[1..] + b;
      var head := if InWorkspace(a[0].0, workspaceId) == inside then [a[0]] else [];
      var x, y := Part(a[1..], workspaceId, inside), Part(b, workspaceId, inside);
      assert head + (x + y) == (head + x) + y;
    }
  }

  lemma {:induction false} MetasConcat(a: Rows, b: Rows)
    ensures Metas(a + b) == Metas(a) + Metas(b)
  {
    if a == [] {
      assert a + b == b;
    } else {
      MetasConcat(a[1..], b);
      assert (a + b)[1..] == a[1..] + b;
    }
  }

  // ---- the archive --------------------------------------------------------

  type Archive = map<string, ResumableMeta>

  /** Archives one ended agent; a row without a pinned id or a known directory is
      dropped. */
  function Recorded(archive: Archive, meta: AgentMeta, cwd: Option<string>, title: Option<string>, now: int): Archive {
    if !Truthy(meta.sessionId) || !Truthy(cwd) then archive
    else archive[meta.sessionId.value :=
      ResumableMeta(meta.sessionId.value, meta.kind, cwd.value, now, if Truthy(title) then title else None)]
  }

  // ---- the stores ---------------------------------------------------------

  class WorkspaceIndex {
    var data: map<string, map<string, WorkspaceMeta>>

    constructor ()
      ensures data == map[]
    {
      data := map[];
    }

    function All(session: string): map<string, WorkspaceMeta> reads this {
      if session in data then data[session] else map[]
    }

    function Get(session: string, workspaceId: string): Option<WorkspaceMeta> reads this {
      if workspaceId in All(session) then Some(All(session)[workspaceId]) else None
    }

    method Set(session: string, workspaceId: string, meta: WorkspaceMeta)
      modifies this`data
      ensures All(session) == old(All(session))[workspaceId := meta]
      ensures forall s :: s != session ==> All(s) == old(All(s))
    {
      data := data[session := All(session)[workspaceId := meta]];
    }

    method Remove(session: string, workspaceId: string)
      modifies this`data
      ensures All(session) == old(All(session)) - {workspaceId}
      ensures forall s :: s != session ==> All(s) == old(All(s))
    {
      if workspaceId in All(session) {
        data := data[session := data[session] - {workspaceId}];
      }
    }

    method RemoveSession(session: string)
      modifies this`data
      ensures All(session) == map[]
      ensures forall s :: s != session ==> All(s) == old(All(s))
    {
      if session in data { data := data - {session}; }
    }
  }

  class AgentIndex {
    var data: map<string, Rows>

    ghost predicate Valid() reads this {
      forall s <- data :: OneRowAPane(data[s])
    }

    constructor ()
      ensures Valid() && data == map[]
    {
      data := map[];
    }

    function All(session: string): Rows reads this {
      if session in data then data[session] else []
    }

    method Set(session: string, pane: string, meta: AgentMeta)
      requires Valid()
      modifies this`data
      ensures Valid() && All(session) == PutRow(old(All(session)), pane, meta)
      ensures forall s :: s != session ==> All(s) == old(All(s))
    {
      PutRowMembers(All(session), pane, meta);
      data := data[session := PutRow(All(session), pane, meta)];
    }

    method Remove(session: string, pane: string) returns (meta: Option<AgentMeta>)
      requires Valid()
      modifies this`data
      ensures Valid() && meta == RowAt(old(All(session)), pane)
      ensures All(session) == DropRow(old(All(session)), pane)
      ensures forall s :: s != session ==> All(s) == old(All(s))
    {
      meta := RowAt(All(session), pane);
      DropRowMembers(All(session), pane);
      RowAtMember(All(session), pane);
      if meta.Some? {
        data := data[session := DropRow(data[session], pane)];
      } else {
        DropMissing(All(session), pane);
      }
    }

    method RemoveWorkspace(session: string, workspaceId: string) returns (removed: seq<AgentMeta>)
      requires Valid()
      modifies this`data
      ensures Valid() && removed == Metas(Part(old(All(session)), workspaceId, true))
      ensures All(session) == Part(old(All(session)), workspaceId, false)
      ensures forall s :: s != session ==> All(s) == old(All(s))
    {
      if session !in data { return []; }
      var rows := data[session];
      var kept: Rows := [];
      removed := [];
      for i := 0 to |rows|
        invariant data == old(data)
        invariant removed == Metas(Part(rows[..i], workspaceId, true))
        invariant kept == Part(rows[..i], workspaceId, false)
      {
        PartSnoc(rows, i, workspaceId);
        if InWorkspace(rows[i].0, workspaceId) {
          removed := removed + [rows[i].1];
        } else {
          kept := kept + [rows[i]];
        }
      }
      assert rows[..|rows|] == rows;
      PartMembers(rows, workspaceId, false);
      data := data[session := kept];
    }

    method RemoveSession(session: string)
      requires Valid()
      modifies this`data
      ensures Valid() && All(session) == []
      ensures forall s :: s != session ==> All(s) == old(All(s))
    {
      if session in data { data := data - {session}; }
    }
  }

  lemma {:induction false} DropMissing(rows: Rows, pane: string)
    requires RowAt(rows, pane).None?
    ensures DropRow(rows, pane) == rows
  {
    if rows != [] { DropMissing(rows[1..], pane); }
  }

  lemma PartSnoc(rows: Rows, i: nat, workspaceId: string)
    requires i < |rows|
    ensures var here := InWorkspace(rows[i].0, workspaceId);
            && Metas(Part(rows[..i + 1], workspaceId, true)) ==
                 Metas(Part(rows[..i], workspaceId, true)) + (if here then [rows[i].1] else [])
            && Part(rows[..i + 1], workspaceId, false) ==
                 Part(rows[..i], workspaceId, false) + (if here then [] else [rows[i]])
  {
    assert rows[..i + 1] == rows[..i] + [rows[i]];
    PartConcat(rows[..i], [rows[i]], workspaceId, true);
    PartConcat(rows[..i], [rows[i]], workspaceId, false);
    assert [rows[i]][1..] == [];
    MetasConcat(Part(rows[..i], workspaceId, true), Part([rows[i]], workspaceId, true));
    assert Metas([rows[i]]) == [rows[i].1] by { assert Metas([]) == []; }
  }

  class ResumableIndex {
    var data: map<string, Archive>

    constructor ()
      ensures data == map[]
    {
      data := map[];
    }

    function All(session: string): Archive reads this {
      if session in data then data[session] else map[]
    }

    method Record(session: string, meta: AgentMeta, cwd: Option<string>, title: Option<string>, now: int)
      modifies this`data
      ensures All(session) == Recorded(old(All(session)), meta, cwd, title, now)
      ensures forall s :: s != session ==> All(s) == old(All(s))
    {
      if !Truthy(meta.sessionId) || !Truthy(cwd) { return; }
      var row := ResumableMeta(meta.sessionId.value, meta.kind, cwd.value, now, if Truthy(title) then title else None);
      data := data[session := All(session)[meta.sessionId.value := row]];
    }

    method RemoveSession(session: string)
      modifies this`data
      ensures All(session) == map[]
      ensures forall s :: s != session ==> All(s) == old(All(s))
    {
      if session in data { data := data - {session}; }
    }
  }
}
