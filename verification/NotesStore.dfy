/**
  The notes table and the statements that the repository runs against it.  Times are the
  whole seconds that the DATETIME columns keep.
 */
module NotesStore {
  import opened Wrappers

  datatype Note = Note(
    id: int, userId: int, title: string, body: string,
    createdAt: int, updatedAt: int, deletedAt: Option<int>)

  /** `nextId` is the AUTO_INCREMENT counter. */
  datatype Table = Table(rows: map<int, Note>, nextId: int)

  ghost predicate WellFormed(t: Table) {
    && 0 < t.nextId
    && (forall id | id in t.rows :: t.rows[id].id == id && 0 < id < t.nextId)
  }

  /** One SQL statement; `skipped` are the ids that AUTO_INCREMENT burned before this insert. */
  datatype Statement =
    | Insert(uid: int, title: string, body: string, skipped: nat, now: int)
    | Select(uid: int, id: int)
    | SetContent(uid: int, id: int, title: string, body: string, now: int)
    | MarkDeleted(uid: int, id: int, now: int)

  /** The row that `WHERE id=? AND user_id=? AND deleted_at IS NULL` finds. */
  function FindLive(t: Table, uid: int, id: int): Option<Note> {
    if id in t.rows && t.rows[id].userId == uid && t.rows[id].deletedAt.None?
    then Some(t.rows[id]) else None
  }

  /** ON UPDATE CURRENT_TIMESTAMP fires only when a column value changes. */
  function WithContent(n: Note, title: string, body: string, now: int): Note {
    if n.title == title && n.body == body then n else n.(title := title, body := body, updatedAt := now)
  }

  function Exec(t: Table, s: Statement): Table {
    match s
    case Insert(uid, title, body, skipped, now) =>
      var id := t.nextId + skipped;
      Table(t.rows[id := Note(id, uid, title, body, now, now, None)], id + 1)
    case Select(_, _) => t
    case SetContent(uid, id, title, body, now) =>
      if FindLive(t, uid, id).None? then t
      else t.(rows := t.rows[id := WithContent(t.rows[id], title, body, now)])
    case MarkDeleted(uid, id, now) =>
      if FindLive(t, uid, id).None? then t
      else t.(rows := t.rows[id := t.rows[id].(deletedAt := Some(now), updatedAt := now)])
  }

  function Run(t: Table, ss: seq<Statement>): Table
    decreases ss
  {
    if ss == [] then t else Run(Exec(t, ss[0]), ss[1..])
  }

  lemma {:induction false} RunKeepsWellFormed(t: Table, ss: seq<Statement>)
    requires WellFormed(t)
    ensures WellFormed(Run(t, ss))
    decreases ss
  {
    if ss != [] {
      RunKeepsWellFormed(Exec(t, ss[0]), ss[1..]);
    }
  }

  // ----- Tombstones -----

  /**
    A deleted row never changes again under any sequence of statements, so its deleted_at is
    set once, and no read of it succeeds.
   */
  lemma {:induction false} TombstoneIsFinal(t: Table, ss: seq<Statement>, id: int)
    requires WellFormed(t) && id in t.rows && t.rows[id].deletedAt.Some?
    ensures id in Run(t, ss).rows && Run(t, ss).rows[id] == t.rows[id]
    ensures forall uid :: FindLive(Run(t, ss), uid, id) == None
    decreases ss
  {
    if ss != [] {
      RunKeepsWellFormed(t, ss[..1]);
      TombstoneIsFinal(Exec(t, ss[0]), ss[1..], id);
    }
  }

  /** Ids are never reused, owners never change, and rows are never removed. */
  lemma {:induction false} RowsPersist(t: Table, ss: seq<Statement>, id: int)
    requires WellFormed(t) && id in t.rows
    ensures id in Run(t, ss).rows
    ensures Run(t, ss).rows[id].userId == t.rows[id].userId
    ensures Run(t, ss).rows[id].createdAt == t.rows[id].createdAt
    decreases ss
  {
    if ss != [] {
      RunKeepsWellFormed(t, ss[..1]);
      RowsPersist(Exec(t, ss[0]), ss[1..], id);
    }
  }

  // ----- What changes a row -----

  /** The owner's statements on note `id`. */
  predicate Deletes(s: Statement, uid: int, id: int) {
    s.MarkDeleted? && s.uid == uid && s.id == id
  }

  predicate Writes(s: Statement, uid: int, id: int) {
    s.SetContent? && s.uid == uid && s.id == id
  }

  /** A live row is deleted by the first delete statement that its owner runs on it, and by nothing else. */
  lemma {:induction false} DeletedByOwnerOnly(t: Table, ss: seq<Statement>, id: int)
    requires WellFormed(t) && id in t.rows && t.rows[id].deletedAt.None?
    ensures id in Run(t, ss).rows
    ensures Run(t, ss).rows[id].deletedAt.Some? <==>
              exists k :: 0 <= k < |ss| && Deletes(ss[k], t.rows[id].userId, id)
    ensures forall k | 0 <= k < |ss| && Deletes(ss[k], t.rows[id].userId, id)
                       && (forall j | 0 <= j < k :: !Deletes(ss[j], t.rows[id].userId, id)) ::
              Run(t, ss).rows[id].deletedAt == Some(ss[k].now)
    decreases ss
  {
    if ss != [] {
      var uid, u, rest := t.rows[id].userId, Exec(t, ss[0]), ss[1..];
      RunKeepsWellFormed(t, ss[..1]);
      if Deletes(ss[0], uid, id) {
        TombstoneIsFinal(u, rest, id);
      } else {
        DeletedByOwnerOnly(u, rest, id);
        LaterDelete(ss, uid, id);
      }
    }
  }

  lemma LaterDelete(ss: seq<Statement>, uid: int, id: int)
    requires ss != [] && !Deletes(ss[0], uid, id)
    ensures (exists k :: 0 <= k < |ss| && Deletes(ss[k], uid, id))
            <==> exists k :: 0 <= k < |ss[1..]| && Deletes(ss[1..][k], uid, id)
    ensures forall k | 0 < k < |ss| && forall j | 0 <= j < k :: !Deletes(ss[j], uid, id) ::
              ss[k] == ss[1..][k - 1] && forall j | 0 <= j < k - 1 :: !Deletes(ss[1..][j], uid, id)
  {
    if k :| 0 <= k < |ss| && Deletes(ss[k], uid, id) {
      assert ss[1..][k - 1] == ss[k];
    }
    if k :| 0 <= k < |ss[1..]| && Deletes(ss[1..][k], uid, id) {
      assert ss[k + 1] == ss[1..][k];
    }
  }

  /** A note keeps its content while its owner does not write it. */
  lemma {:induction false} UnwrittenKeepsContent(t: Table, ss: seq<Statement>, id: int)
    requires WellFormed(t) && id in t.rows
    requires forall s | s in ss :: !Writes(s, t.rows[id].userId, id)
    ensures id in Run(t, ss).rows
    ensures Run(t, ss).rows[id].title == t.rows[id].title && Run(t, ss).rows[id].body == t.rows[id].body
    decreases ss
  {
    if ss != [] {
      RunKeepsWellFormed(t, ss[..1]);
      assert ss[0] in ss;
      UnwrittenKeepsContent(Exec(t, ss[0]), ss[1..], id);
    }
  }

  /** The owner's last write before the note is deleted is what the note contains for good. */
  lemma {:induction false} LastWriteWins(t: Table, ss: seq<Statement>, k: nat, id: int)
    requires WellFormed(t) && id in t.rows && t.rows[id].deletedAt.None?
    requires k < |ss| && Writes(ss[k], t.rows[id].userId, id)
    requires forall j | 0 <= j < k :: !Deletes(ss[j], t.rows[id].userId, id)
    requires forall j | k < j < |ss| :: !Writes(ss[j], t.rows[id].userId, id)
    ensures id in Run(t, ss).rows
    ensures Run(t, ss).rows[id].title == ss[k].title && Run(t, ss).rows[id].body == ss[k].body
    decreases ss
  {
    RunKeepsWellFormed(t, ss[..1]);
    if k == 0 {
      UnwrittenKeepsContent(Exec(t, ss[0]), ss[1..], id);
    } else {
      LastWriteWins(Exec(t, ss[0]), ss[1..], k - 1, id);
    }
  }

  // ----- Isolation between users -----

  function OwnedBy(t: Table, uid: int): map<int, Note> {
    map id | id in t.rows && t.rows[id].userId == uid :: t.rows[id]
  }

  /** The statements of `uid`, and every insert (an insert also moves the shared id counter). */
  function Relevant(ss: seq<Statement>, uid: int): seq<Statement> {
    if ss == [] then []
    else (if ss[0].uid == uid || ss[0].Insert? then [ss[0]] else []) + Relevant(ss[1..], uid)
  }

  ghost predicate SameFor(t: Table, u: Table, uid: int) {
    && WellFormed(t) && WellFormed(u) && t.nextId == u.nextId
    && (forall id :: id in t.rows && t.rows[id].userId == uid <==> id in u.rows && u.rows[id].userId == uid)
    && (forall id | id in t.rows && t.rows[id].userId == uid :: t.rows[id] == u.rows[id])
  }

  lemma ExecAgreesFor(t: Table, u: Table, s: Statement, uid: int)
    requires SameFor(t, u, uid)
    ensures s.uid == uid || s.Insert? ==> SameFor(Exec(t, s), Exec(u, s), uid)
    ensures s.uid != uid && !s.Insert? ==> SameFor(Exec(t, s), u, uid)
  {
  }

  lemma {:induction false} RunsAgreeFor(t: Table, u: Table, ss: seq<Statement>, uid: int)
    requires SameFor(t, u, uid)
    ensures SameFor(Run(t, ss), Run(u, Relevant(ss, uid)), uid)
    decreases ss
  {
    if ss != [] {
      var s, rest := ss[0], Relevant(ss[1..], uid);
      ExecAgreesFor(t, u, s, uid);
      if s.uid == uid || s.Insert? {
        assert ([s] + rest)[0] == s && ([s] + rest)[1..] == rest;
        RunsAgreeFor(Exec(t, s), Exec(u, s), ss[1..], uid);
      } else {
        assert [] + rest == rest;
        RunsAgreeFor(Exec(t, s), u, ss[1..], uid);
      }
    }
  }

  /** Under every interleaving, a user's rows are what they would be had no other user updated or deleted. */
  lemma UsersAreIsolated(t: Table, ss: seq<Statement>, uid: int)
    requires WellFormed(t)
    ensures OwnedBy(Run(t, ss), uid) == OwnedBy(Run(t, Relevant(ss, uid)), uid)
  {
    RunsAgreeFor(t, t, ss, uid);
    var a, b := Run(t, ss), Run(t, Relevant(ss, uid));
    SameRows(a, b, uid);
  }

  lemma SameRows(a: Table, b: Table, uid: int)
    requires SameFor(a, b, uid)
    ensures OwnedBy(a, uid) == OwnedBy(b, uid)
  {
    var p, q := OwnedBy(a, uid), OwnedBy(b, uid);
    forall id ensures id in OwnedBy(a, uid) <==> id in OwnedBy(b, uid) {
      assert id in a.rows && a.rows[id].userId == uid <==> id in b.rows && b.rows[id].userId == uid;
    }
    assert p.Keys == q.Keys;
    assert forall id | id in p :: p[id] == q[id];
    assert p == q;
  }

  // ----- The repository object -----

  /** `repos.Notes`; a false `ok` input is a driver error on that statement. */
  class Notes {
    var table: Table

    constructor (table: Table)
      ensures this.table == table
    {
      this.table := table;
    }

    method Create(uid: int, title: string, body: string, skipped: nat, now: int, ok: bool)
      returns (id: Option<int>)
      modifies this
      ensures ok ==> table == Exec(old(table), Insert(uid, title, body, skipped, now))
                     && id == Some(old(table).nextId + skipped)
                     && FindLive(table, uid, id.value) == Some(Note(id.value, uid, title, body, now, now, None))
                     && table.rows == old(table).rows[id.value := Note(id.value, uid, title, body, now, now, None)]
                     && table.nextId == id.value + 1
      ensures !ok ==> table == old(table) && id == None
    {
      if !ok { return None; }
      var newId := table.nextId + skipped;
      table := Table(table.rows[newId := Note(newId, uid, title, body, now, now, None)], newId + 1);
      return Some(newId);
    }

    method Get(uid: int, id: int, ok: bool) returns (n: Option<Note>)
      ensures n == if ok then FindLive(table, uid, id) else None
      ensures n.Some? <==> ok && id in table.rows && table.rows[id].userId == uid && table.rows[id].deletedAt.None?
      ensures n.Some? ==> n.value == table.rows[id]
    {
      if ok && id in table.rows {
        var row := table.rows[id];
        if row.userId == uid && row.deletedAt.None? { return Some(row); }
      }
      return None;
    }

    method Update(uid: int, id: int, title: string, body: string, now: int, writeOk: bool, readOk: bool)
      returns (n: Option<Note>)
      modifies this
      ensures table == if writeOk then Exec(old(table), SetContent(uid, id, title, body, now)) else old(table)
      ensures n == if writeOk && readOk then FindLive(table, uid, id) else None
      ensures table.nextId == old(table).nextId
      ensures writeOk && id in old(table).rows
              && old(table).rows[id].userId == uid && old(table).rows[id].deletedAt.None? ==>
                var was := old(table).rows[id];
                var at := if was.title == title && was.body == body then was.updatedAt else now;
                && table.rows == old(table).rows[id := was.(title := title, body := body, updatedAt := at)]
                && n == if readOk then Some(was.(title := title, body := body, updatedAt := at)) else None
      ensures !(writeOk && id in old(table).rows
                && old(table).rows[id].userId == uid && old(table).rows[id].deletedAt.None?) ==>
                table == old(table) && n == None
    {
      if !writeOk { return None; }
      var found := Get(uid, id, true);
      if found.Some? {
        table := table.(rows := table.rows[id := WithContent(found.value, title, body, now)]);
      }
      n := Get(uid, id, readOk);
    }

    /** Returns the row as it was read before the delete statement. */
    method Delete(uid: int, id: int, now: int, readOk: bool, writeOk: bool) returns (n: Option<Note>)
      modifies this
      ensures var found := if readOk then FindLive(old(table), uid, id) else None;
              && n == (if writeOk then found else None)
              && table == if found.Some? && writeOk then Exec(old(table), MarkDeleted(uid, id, now)) else old(table)
      ensures n.Some? ==> FindLive(table, uid, id) == None && table.rows[id].deletedAt == Some(now)
      ensures n.Some? <==> readOk && writeOk && id in old(table).rows
                           && old(table).rows[id].userId == uid && old(table).rows[id].deletedAt.None?
      ensures n.Some? ==>
                var was := old(table).rows[id];
                n.value == was && table.nextId == old(table).nextId
                && table.rows == old(table).rows[id := was.(deletedAt := Some(now), updatedAt := now)]
      ensures n.None? ==> table == old(table)
    {
      var found := Get(uid, id, readOk);
      if found.None? || !writeOk { return None; }
      table := table.(rows := table.rows[id := table.rows[id].(deletedAt := Some(now), updatedAt := now)]);
      return found;
    }
  }
}
