/**
 * Sending a case to an outside group over one bearer link: the rules, and the
 * statements each request issues against the tables.
 */
module Delegation {
  import opened Wrappers

  type DelegationId = int
  type CaseId = int
  type GroupId = int
  type MemberId = int
  type RequestId = int

  datatype Stage = Sent | Accepted | Closed

  datatype Action = View | Accept | Upload

  predicate Permits(stage: Stage, action: Action) {
    match stage
    case Sent => action == View || action == Accept
    case Accepted => action == View || action == Upload
    case Closed => action == View
  }

  function Rank(stage: Stage): nat { match stage case Sent => 0 case Accepted => 1 case Closed => 2 }

  /** `name` is the snapshot of who accepted; `member` is a foreign key, ON DELETE SET NULL. */
  datatype Row = Row(caseId: CaseId, group: GroupId, token: string, stage: Stage,
                     member: Option<MemberId>, name: Option<string>)

  datatype Member = Member(group: GroupId, name: string)

  /** A delegate's upload; those that predate the column belong to no delegation. */
  datatype File = File(delegation: Option<DelegationId>, filename: string)

  datatype Tables = Tables(rows: map<DelegationId, Row>, members: map<MemberId, Member>, files: seq<File>)

  // ---- what each statement does ------------------------------------------------------------

  predicate IsOpenOn(t: Tables, id: DelegationId, c: CaseId) {
    id in t.rows && t.rows[id].caseId == c && t.rows[id].stage != Closed
  }

  predicate HasOpen(t: Tables, c: CaseId) { exists id :: id in t.rows && IsOpenOn(t, id, c) }

  predicate TokenTaken(t: Tables, token: string) { exists id :: id in t.rows && t.rows[id].token == token }

  /** The INSERT of a send. The unique indexes, not the earlier SELECT, decide. */
  function Insert(t: Tables, id: DelegationId, c: CaseId, g: GroupId, token: string): Tables {
    if id in t.rows || TokenTaken(t, token) || HasOpen(t, c) then t
    else t.(rows := t.rows[id := Row(c, g, token, Sent, None, None)])
  }

  /** The conditional UPDATE of a close. */
  function Close(t: Tables, id: DelegationId, c: CaseId): Tables {
    if !IsOpenOn(t, id, c) then t else t.(rows := t.rows[id := t.rows[id].(stage := Closed)])
  }

  /** The conditional UPDATE of an accept; a member gone meanwhile breaks its foreign key. */
  predicate CanAccept(t: Tables, id: DelegationId, m: MemberId) {
    id in t.rows && t.rows[id].stage == Sent && m in t.members
  }

  function AcceptBy(t: Tables, id: DelegationId, m: MemberId, name: string): Tables {
    if !CanAccept(t, id, m) then t
    else t.(rows := t.rows[id := t.rows[id].(stage := Accepted, member := Some(m), name := Some(name))])
  }

  /** The INSERT of an upload looks at nothing. */
  function Store(t: Tables, id: DelegationId, filename: string): Tables {
    t.(files := t.files + [File(Some(id), filename)])
  }

  function Forget(row: Row, m: MemberId): Row { if row.member == Some(m) then row.(member := None) else row }

  function RemoveMember(t: Tables, m: MemberId): Tables {
    Tables(map id | id in t.rows :: Forget(t.rows[id], m), t.members - {m}, t.files)
  }

  function PutMember(t: Tables, m: MemberId, member: Member): Tables {
    t.(members := t.members[m := member])
  }

  // ---- the same statements on the tables themselves ------------------------------------------

  class Database {
    var rows: map<DelegationId, Row>
    var members: map<MemberId, Member>
    var files: seq<File>

    constructor ()
      ensures Contents() == Tables(map[], map[], [])
    {
      rows, members, files := map[], map[], [];
    }

    function Contents(): Tables reads this { Tables(rows, members, files) }

    method InsertDelegation(id: DelegationId, c: CaseId, g: GroupId, token: string) returns (ok: bool)
      modifies this`rows
      ensures Contents() == Insert(old(Contents()), id, c, g, token)
      ensures ok <==> && id !in old(rows)
                      && (forall k :: k in old(rows) ==> old(rows)[k].token != token)
                      && (forall k :: k in old(rows) ==> old(rows)[k].caseId != c || old(rows)[k].stage == Closed)
      ensures rows == if ok then old(rows)[id := Row(c, g, token, Sent, None, None)] else old(rows)
    {
      var t := Contents();
      if id in rows || TokenTaken(t, token) || HasOpen(t, c) {
        if HasOpen(t, c) { ghost var k :| k in rows && IsOpenOn(t, k, c); }
        return false;
      }
      assert forall k :: k in rows ==> !IsOpenOn(t, k, c);
      rows := rows[id := Row(c, g, token, Sent, None, None)];
      return true;
    }

    method CloseDelegation(id: DelegationId, c: CaseId) returns (ok: bool)
      modifies this`rows
      ensures Contents() == Close(old(Contents()), id, c)
      ensures ok <==> id in old(rows) && old(rows)[id].caseId == c && old(rows)[id].stage != Closed
      ensures rows == if ok then old(rows)[id := old(rows)[id].(stage := Closed)] else old(rows)
    {
      if id !in rows || rows[id].caseId != c || rows[id].stage == Closed { return false; }
      rows := rows[id := rows[id].(stage := Closed)];
      return true;
    }

    method AcceptDelegation(id: DelegationId, m: MemberId, name: string) returns (ok: bool)
      modifies this`rows
      ensures Contents() == AcceptBy(old(Contents()), id, m, name)
      ensures ok <==> id in old(rows) && old(rows)[id].stage == Sent && m in members
      ensures rows == if ok then old(rows)[id := old(rows)[id].(stage := Accepted, member := Some(m), name := Some(name))]
                      else old(rows)
    {
      if id !in rows || rows[id].stage != Sent || m !in members { return false; }
      rows := rows[id := rows[id].(stage := Accepted, member := Some(m), name := Some(name))];
      return true;
    }

    method InsertUpload(id: DelegationId, filename: string)
      modifies this`files
      ensures Contents() == Store(old(Contents()), id, filename)
    {
      files := files + [File(Some(id), filename)];
    }

    /** DELETE of a group member, with the foreign key's ON DELETE SET NULL. */
    method DeleteMember(m: MemberId)
      modifies this`rows, this`members
      ensures m !in members && forall k :: k in old(members) && k != m ==> k in members && members[k] == old(members)[k]
      ensures members.Keys <= old(members).Keys && rows.Keys == old(rows).Keys
      // No row refers to the member any more, and nothing else of any row has changed: the name it signed stays.
      ensures forall id :: id in rows ==> rows[id].member != Some(m)
      ensures forall id :: id in rows && old(rows)[id].member != Some(m) ==> rows[id] == old(rows)[id]
      ensures forall id :: id in rows && old(rows)[id].member == Some(m) ==> rows[id].(member := Some(m)) == old(rows)[id]
      ensures Contents() == RemoveMember(old(Contents()), m)
    {
      rows := map id | id in rows :: if rows[id].member == Some(m) then rows[id].(member := None) else rows[id];
      members := members - {m};
      assert forall id :: id in rows ==> rows[id] == Forget(old(rows)[id], m);
      assert rows == RemoveMember(old(Contents()), m).rows;
    }

    /** SELECT filename WHERE delegation_id = id, in insertion order. */
    method FilesOf(id: DelegationId) returns (names: seq<string>)
      ensures names == NamesOf(files, id)
    {
      names := [];
      for i := 0 to |files|
        invariant names == NamesOf(files[..i], id)
      {
        assert files[..i + 1][..i] == files[..i];
        if files[i].delegation == Some(id) { names := names + [files[i].filename]; }
      }
      assert files[..|files|] == files;
    }
  }

  function NamesOf(files: seq<File>, id: DelegationId): seq<string> {
    if files == [] then []
    else
      var last := files[|files| - 1];
      NamesOf(files[..|files| - 1], id) + if last.delegation == Some(id) then [last.filename] else []
  }
}
