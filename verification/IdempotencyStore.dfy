/**
  The idempotency_keys table and the two pairs of claim/complete operations on it: the
  text variant used by the note handlers and the note-id variant.
 */
module IdempotencyStore {
  import opened Wrappers

  datatype Slot = Slot(uid: int, key: string)

  datatype Row = Row(
    httpMethod: string, path: string, bodyHash: string, claimedAt: int,
    completedAt: Option<int>, resultText: Option<string>, noteId: Option<int>)

  type Table = map<Slot, Row>

  /** The unique index in force: (user_id, key), or key alone as the first migration declares. */
  datatype Uniqueness = PerUser | PerKey

  function NewRow(httpMethod: string, path: string, bodyHash: string, now: int): Row {
    Row(httpMethod, path, bodyHash, now, None, None, None)
  }

  predicate Clashes(scope: Uniqueness, t: Table, slot: Slot) {
    match scope
    case PerUser => slot in t
    case PerKey => exists s | s in t :: s.key == slot.key
  }

  /** The INSERT statement; None is the duplicate-key error. */
  function TryInsert(scope: Uniqueness, t: Table, slot: Slot, row: Row): Option<Table> {
    if Clashes(scope, t, slot) then None else Some(t[slot := row])
  }

  datatype Answer<+T> = Fresh | Replay(result: T) | Mismatch | InProgress | Failed

  /** What `Idem.Claim` answers after its INSERT failed and the row was read. */
  function Read(t: Table, slot: Slot, bodyHash: string): Answer<string> {
    if slot !in t then Failed
    else if t[slot].bodyHash != bodyHash then Mismatch
    else if t[slot].completedAt.None? then InProgress
    else if t[slot].resultText.Some? then Replay(t[slot].resultText.value)
    else InProgress
  }

  /** The same for `Idempotency.Claim`. */
  function ReadNote(t: Table, slot: Slot, bodyHash: string): Answer<int> {
    if slot !in t then Failed
    else if t[slot].bodyHash != bodyHash then Mismatch
    else if t[slot].completedAt.None? then InProgress
    else if t[slot].noteId.Some? then Replay(t[slot].noteId.value)
    else InProgress
  }

  predicate Open(t: Table, slot: Slot) {
    slot in t && t[slot].completedAt.None?
  }

  /** `UPDATE … WHERE … AND completed_at IS NULL` of `Idem.Complete`. */
  function StoreText(t: Table, slot: Slot, result: string, now: int): Table {
    if Open(t, slot) then t[slot := t[slot].(resultText := Some(result), completedAt := Some(now))] else t
  }

  function StoreNote(t: Table, slot: Slot, noteId: int, now: int): Table {
    if Open(t, slot) then t[slot := t[slot].(noteId := Some(noteId), completedAt := Some(now))] else t
  }

  // ----- Histories of the table -----

  datatype Change =
    | Inserted(slot: Slot, row: Row)
    | TextStored(slot: Slot, result: string, now: int)
    | NoteStored(slot: Slot, noteId: int, now: int)

  function Apply(scope: Uniqueness, t: Table, c: Change): Table {
    match c
    case Inserted(slot, row) =>
      var r := TryInsert(scope, t, slot, row);
      if r.Some? then r.value else t
    case TextStored(slot, result, now) => StoreText(t, slot, result, now)
    case NoteStored(slot, noteId, now) => StoreNote(t, slot, noteId, now)
  }

  function ApplyAll(scope: Uniqueness, t: Table, cs: seq<Change>): Table
    decreases cs
  {
    if cs == [] then t else ApplyAll(scope, Apply(scope, t, cs[0]), cs[1..])
  }

  /** A claim keeps its hash for ever, and a completed row never changes again. */
  lemma {:induction false} RowsSettle(scope: Uniqueness, t: Table, cs: seq<Change>, slot: Slot)
    requires slot in t
    ensures var u := ApplyAll(scope, t, cs);
            && slot in u && u[slot].bodyHash == t[slot].bodyHash
            && (t[slot].completedAt.Some? ==> u[slot] == t[slot])
    decreases cs
  {
    if cs != [] {
      RowsSettle(scope, Apply(scope, t, cs[0]), cs[1..], slot);
    }
  }

  /**
    Whichever variant completes a row first settles it for both: the other variant, asked
    with the same body, answers "in progress" in every continuation.
   */
  lemma FirstCompletionDecides(scope: Uniqueness, t: Table, cs: seq<Change>, slot: Slot, text: string, noteId: int,
                               now: int)
    requires Open(t, slot) && t[slot].resultText.None? && t[slot].noteId.None?
    ensures var u := ApplyAll(scope, StoreText(t, slot, text, now), cs);
            && Read(u, slot, t[slot].bodyHash) == Replay(text)
            && ReadNote(u, slot, t[slot].bodyHash) == InProgress
    ensures var u := ApplyAll(scope, StoreNote(t, slot, noteId, now), cs);
            && ReadNote(u, slot, t[slot].bodyHash) == Replay(noteId)
            && Read(u, slot, t[slot].bodyHash) == InProgress
  {
    RowsSettle(scope, StoreText(t, slot, text, now), cs, slot);
    RowsSettle(scope, StoreNote(t, slot, noteId, now), cs, slot);
  }

  // ----- The repository object -----

  /**
    Which statement of a claim the driver fails: beginning the transaction, the INSERT (for a
    reason other than a duplicate), the SELECT, or the final commit.
   */
  datatype Fault = Clean | AtBegin | AtInsert | AtQuery | AtCommit

  /**
    Table and answer of one uninterrupted `Idem.Claim`.  A commit error is ignored there: the
    row is lost, and the answer is still "fresh".
   */
  function ClaimSpec(scope: Uniqueness, t: Table, slot: Slot, row: Row, fault: Fault): (Table, Answer<string>) {
    if fault == AtBegin then (t, Failed)
    else if fault != AtInsert && !Clashes(scope, t, slot) then (if fault == AtCommit then t else t[slot := row], Fresh)
    else if fault == AtQuery then (t, Failed)
    else (t, Read(t, slot, row.bodyHash))
  }

  /**
    The same for `Idempotency.Claim`.  A commit error undoes the INSERT and is reported; after
    a read it is reported too, but a wrong hash and an open row are noticed first.
   */
  function ClaimNoteSpec(scope: Uniqueness, t: Table, slot: Slot, row: Row, fault: Fault): (Table, Answer<int>) {
    if fault == AtBegin then (t, Failed)
    else if fault != AtInsert && !Clashes(scope, t, slot) then
      if fault == AtCommit then (t, Failed) else (t[slot := row], Fresh)
    else if fault == AtQuery then (t, Failed)
    else if fault == AtCommit && slot in t && t[slot].bodyHash == row.bodyHash && !Open(t, slot) then (t, Failed)
    else (t, ReadNote(t, slot, row.bodyHash))
  }

  /** No row is in the way of the slot: none with its key, or none with its key of its user. */
  ghost predicate Free(scope: Uniqueness, t: Table, slot: Slot) {
    forall s | s in t && s.key == slot.key :: scope.PerUser? && s.uid != slot.uid
  }

  class IdempotencyKeys {
    const scope: Uniqueness
    var rows: Table

    constructor (scope: Uniqueness)
      ensures this.scope == scope && rows == map[]
    {
      this.scope := scope;
      rows := map[];
    }

    method Insert(slot: Slot, row: Row) returns (ok: bool)
      modifies this
      ensures ok == !Clashes(scope, old(rows), slot)
      ensures rows == if ok then old(rows)[slot := row] else old(rows)
    {
      ok := !Clashes(scope, rows, slot);
      if ok { rows := rows[slot := row]; }
    }

    /** `Idem.Claim`. */
    method Claim(key: string, uid: int, httpMethod: string, path: string, bodyHash: string, now: int, fault: Fault)
      returns (answer: Answer<string>)
      modifies this
      ensures (rows, answer)
              == ClaimSpec(scope, old(rows), Slot(uid, key), NewRow(httpMethod, path, bodyHash, now), fault)
      ensures answer.Fresh? ==> Slot(uid, key) !in old(rows) && (fault != AtCommit ==> Open(rows, Slot(uid, key)))
      ensures !answer.Fresh? ==> rows == old(rows)
      ensures fault == AtBegin || (fault == AtQuery && !Free(scope, old(rows), Slot(uid, key))) ==>
                answer == Failed && rows == old(rows)
      ensures fault == AtCommit && Free(scope, old(rows), Slot(uid, key)) ==> answer == Fresh && rows == old(rows)
      ensures fault == Clean && Free(scope, old(rows), Slot(uid, key)) ==>
                && answer == Fresh
                && rows == old(rows)[Slot(uid, key) := Row(httpMethod, path, bodyHash, now, None, None, None)]
      ensures fault == AtInsert || (fault == Clean && !Free(scope, old(rows), Slot(uid, key))) ==>
                answer == if Slot(uid, key) !in old(rows) then Failed
                          else var was := old(rows)[Slot(uid, key)];
                               if was.bodyHash != bodyHash then Mismatch
                               else if was.completedAt.Some? && was.resultText.Some? then Replay(was.resultText.value)
                               else InProgress
    {
      if fault == AtBegin { return Failed; }
      var slot, before := Slot(uid, key), rows;
      if fault != AtInsert {
        var ok := Insert(slot, NewRow(httpMethod, path, bodyHash, now));
        if ok {
          if fault == AtCommit { rows := before; }
          return Fresh;
        }
      }
      if fault == AtQuery || slot !in rows { return Failed; }
      var row := rows[slot];
      if row.bodyHash != bodyHash { return Mismatch; }
      if row.completedAt.None? { return InProgress; }
      if row.resultText.Some? { return Replay(row.resultText.value); }
      return InProgress;
    }

    /** `Idem.Complete`. */
    method Complete(key: string, uid: int, result: string, now: int, ok: bool)
      modifies this
      ensures rows == if ok then StoreText(old(rows), Slot(uid, key), result, now) else old(rows)
      ensures var slot := Slot(uid, key);
              rows == if ok && slot in old(rows) && old(rows)[slot].completedAt.None?
                      then old(rows)[slot := old(rows)[slot].(resultText := Some(result), completedAt := Some(now))]
                      else old(rows)
    {
      var slot := Slot(uid, key);
      if ok && slot in rows && rows[slot].completedAt.None? {
        rows := rows[slot := rows[slot].(resultText := Some(result), completedAt := Some(now))];
      }
    }

    /** `Idempotency.Claim`: a commit error undoes the insert and is reported. */
    method ClaimNote(key: string, uid: int, httpMethod: string, path: string, bodyHash: string, now: int, fault: Fault)
      returns (answer: Answer<int>)
      modifies this
      ensures (rows, answer)
              == ClaimNoteSpec(scope, old(rows), Slot(uid, key), NewRow(httpMethod, path, bodyHash, now), fault)
      ensures answer.Fresh? <==> fault !in {AtBegin, AtInsert, AtCommit} && !Clashes(scope, old(rows), Slot(uid, key))
      ensures !answer.Fresh? ==> rows == old(rows)
      ensures answer.Replay? ==> fault != AtCommit
      ensures fault == AtBegin || (fault == AtQuery && !Free(scope, old(rows), Slot(uid, key)))
              || (fault == AtCommit && Free(scope, old(rows), Slot(uid, key))) ==>
                answer == Failed && rows == old(rows)
      ensures fault == Clean && Free(scope, old(rows), Slot(uid, key)) ==>
                && answer == Fresh
                && rows == old(rows)[Slot(uid, key) := Row(httpMethod, path, bodyHash, now, None, None, None)]
      ensures fault == AtInsert || (fault == Clean && !Free(scope, old(rows), Slot(uid, key))) ==>
                answer == if Slot(uid, key) !in old(rows) then Failed
                          else var was := old(rows)[Slot(uid, key)];
                               if was.bodyHash != bodyHash then Mismatch
                               else if was.completedAt.Some? && was.noteId.Some? then Replay(was.noteId.value)
                               else InProgress
    {
      if fault == AtBegin { return Failed; }
      var slot, before := Slot(uid, key), rows;
      if fault != AtInsert {
        var ok := Insert(slot, NewRow(httpMethod, path, bodyHash, now));
        if ok {
          if fault == AtCommit { rows := before; return Failed; }
          return Fresh;
        }
      }
      if fault == AtQuery || slot !in rows { return Failed; }
      var row := rows[slot];
      if row.bodyHash != bodyHash { return Mismatch; }
      if row.completedAt.None? { return InProgress; }
      if fault == AtCommit { return Failed; }
      if row.noteId.Some? { return Replay(row.noteId.value); }
      return InProgress;
    }

    /** `Idempotency.Complete`. */
    method CompleteNote(key: string, uid: int, noteId: int, now: int, ok: bool)
      modifies this
      ensures rows == if ok then StoreNote(old(rows), Slot(uid, key), noteId, now) else old(rows)
      ensures var slot := Slot(uid, key);
              rows == if ok && slot in old(rows) && old(rows)[slot].completedAt.None?
                      then old(rows)[slot := old(rows)[slot].(noteId := Some(noteId), completedAt := Some(now))]
                      else old(rows)
    {
      var slot := Slot(uid, key);
      if ok && slot in rows && rows[slot].completedAt.None? {
        rows := rows[slot := rows[slot].(noteId := Some(noteId), completedAt := Some(now))];
      }
    }
  }
}
