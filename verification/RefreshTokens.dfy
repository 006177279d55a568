/** The refresh_tokens table and the transactions of `repos.RefreshTokens`. */
module RefreshTokens {
  import opened Wrappers

  type Token = string

  datatype Row = Row(uid: int, expiresAt: int, usedAt: Option<int>)

  type Table = map<Token, Row>

  /**
    What NOW() gives to the three statements of one transaction.  `delete` is None when the
    family DELETE fails: its error is ignored, and the transaction goes on to its commit.
   */
  datatype Times = Times(select: int, update: int, delete: Option<int>)

  datatype Outcome =
    | NoRows             // sql.ErrNoRows
    | Reused(uid: int)
    | Granted(uid: int)
    | Failed             // any other error

  // ----- Statements -----

  /** `SELECT … WHERE token=? AND expires_at>NOW()`. */
  function Find(t: Table, tok: Token, now: int): Option<Row> {
    if tok in t && t[tok].expiresAt > now then Some(t[tok]) else None
  }

  function MarkUsed(t: Table, tok: Token, now: int): Table {
    if tok in t then t[tok := t[tok].(usedAt := Some(now))] else t
  }

  predicate InWipe(row: Row, uid: int, at: Option<int>) {
    at.Some? && row.uid == uid && row.expiresAt > at.value
  }

  /** `DELETE … WHERE user_id=? AND expires_at>NOW()`, or its failure. */
  function WipeUser(t: Table, uid: int, at: Option<int>): Table {
    map tok | tok in t && !InWipe(t[tok], uid, at) :: t[tok]
  }

  function InsertRow(t: Table, tok: Token, uid: int, expiresAt: int): Option<Table> {
    if tok in t then None else Some(t[tok := Row(uid, expiresAt, None)])
  }

  // ----- Whole transactions -----

  datatype Call =
    | Issue(tok: Token, uid: int, expiresAt: int)
    | Use(tok: Token)
    | Rotate(tok: Token, newTok: Token, newExp: int)
    | Revoke(tok: Token)

  datatype Result = Result(table: Table, outcome: Outcome)

  function IssueTx(t: Table, tok: Token, uid: int, expiresAt: int): Result {
    match InsertRow(t, tok, uid, expiresAt)
    case Some(t') => Result(t', Granted(uid))
    case None => Result(t, Failed)
  }

  function UseTx(t: Table, tok: Token, times: Times): Result {
    match Find(t, tok, times.select)
    case None => Result(t, NoRows)
    case Some(row) =>
      var marked := MarkUsed(t, tok, times.update);
      if row.usedAt.Some? then Result(WipeUser(marked, row.uid, times.delete), Reused(row.uid))
      else Result(marked, Granted(row.uid))
  }

  function RotateTx(t: Table, tok: Token, newTok: Token, newExp: int, times: Times): Result {
    match Find(t, tok, times.select)
    case None => Result(t, NoRows)
    case Some(row) =>
      var marked := MarkUsed(t, tok, times.update);
      if row.usedAt.Some? then Result(WipeUser(marked, row.uid, times.delete), Reused(row.uid))
      else match InsertRow(marked, newTok, row.uid, newExp)
        case Some(t') => Result(t', Granted(row.uid))
        case None => Result(t, Failed)
  }

  function Exec(t: Table, c: Call, times: Times): Result {
    match c
    case Issue(tok, uid, expiresAt) => IssueTx(t, tok, uid, expiresAt)
    case Use(tok) => UseTx(t, tok, times)
    case Rotate(tok, newTok, newExp) => RotateTx(t, tok, newTok, newExp, times)
    case Revoke(tok) => Result(t - {tok}, Granted(0))
  }

  /** The token that a call puts into the table when it is granted. */
  function Minted(c: Call): Option<Token> {
    match c
    case Issue(tok, _, _) => Some(tok)
    case Rotate(_, newTok, _) => Some(newTok)
    case _ => None
  }

  // ----- Rotation is use followed by issue -----

  /**
    `UseAndRotate` answers and writes as `Use` followed, when the use is granted, by `Issue`
    for the same user, exactly unless the drawn token already exists on a granted use: then
    the rotation is undone as a whole.
   */
  lemma RotateRefinesUseThenIssue(t: Table, tok: Token, newTok: Token, newExp: int, times: Times)
    ensures var used, rotated := UseTx(t, tok, times), RotateTx(t, tok, newTok, newExp, times);
            var both := if used.outcome.Granted? then IssueTx(used.table, newTok, used.outcome.uid, newExp) else used;
            rotated == both <==> !(used.outcome.Granted? && newTok in t)
    ensures var used, rotated := UseTx(t, tok, times), RotateTx(t, tok, newTok, newExp, times);
            used.outcome.Granted? && newTok in t ==> rotated == Result(t, Failed)
  {
    var used := UseTx(t, tok, times);
    if used.outcome.Granted? && newTok in t {
      assert used.table[tok].usedAt == Some(times.update) && t[tok].usedAt == None;
    }
  }

  /**
    What a reuse detection leaves of a user: a token is found afterwards, by a statement that
    reads the clock as `now`, exactly if it has not expired for that statement and the wipe
    failed or came after its expiry.  The presented token, wherever it is still found, keeps
    being reported as reused.
   */
  lemma WipeSurvivors(t: Table, tok: Token, times: Times, other: Token, now: int)
    requires UseTx(t, tok, times).outcome.Reused?
    requires other in t && t[other].uid == t[tok].uid
    ensures var after, found := UseTx(t, tok, times).table, Find(UseTx(t, tok, times).table, other, now);
            && (found.Some? <==>
                  now < t[other].expiresAt && (times.delete.Some? ==> t[other].expiresAt <= times.delete.value))
            && (found.Some? ==> found.value == if other == tok then t[tok].(usedAt := Some(times.update)) else t[other])
            && (times.delete.Some? && times.delete.value <= now ==> found == None)
  {
    var after := WipeUser(MarkUsed(t, tok, times.update), t[tok].uid, times.delete);
    assert other in after <==> !InWipe(t[other], t[tok].uid, times.delete);
  }

  // ----- The repository object -----

  /** The statement on which the driver reports an error, if any. */
  datatype Fault = Clean | AtBegin | AtSelect | AtUpdate | AtInsert | AtCommit

  /** Whether a rotation reaches the statement that fails. */
  predicate Reaches(fault: Fault, found: Option<Row>) {
    match fault
    case Clean => false
    case AtBegin => true
    case AtSelect => true
    case AtUpdate => found.Some?
    case AtInsert => found.Some? && found.value.usedAt.None?
    case AtCommit => found.Some?
  }

  class RefreshTokens {
    var rows: Table

    constructor ()
      ensures rows == map[]
    {
      rows := map[];
    }

    /** The token is returned even when the INSERT failed. */
    method Issue(uid: int, exp: int, drawn: Token, ok: bool) returns (tok: Token, issued: bool)
      modifies this
      ensures tok == drawn
      ensures ok ==> Result(rows, if issued then Granted(uid) else Failed) == IssueTx(old(rows), drawn, uid, exp)
      ensures !ok ==> rows == old(rows) && !issued
    {
      tok, issued := drawn, ok && drawn !in rows;
      if issued {
        rows := rows[drawn := Row(uid, exp, None)];
      }
    }

    /** Runs on a copy of the table, as the transaction does, and keeps it only on commit. */
    method Use(token: Token, times: Times, fault: Fault) returns (outcome: Outcome)
      modifies this
      ensures var hit := Reaches(fault, Find(old(rows), token, times.select)) && fault != AtInsert;
              Result(rows, outcome) == if hit then Result(old(rows), Failed) else UseTx(old(rows), token, times)
      ensures fault == AtBegin || fault == AtSelect ==> outcome == Failed && rows == old(rows)
      ensures token in old(rows) && old(rows)[token].expiresAt > times.select ==>
                (fault == AtUpdate || fault == AtCommit ==> outcome == Failed && rows == old(rows))
    {
      if fault == AtBegin || fault == AtSelect { return Failed; }
      var tx := rows;
      if token !in tx || tx[token].expiresAt <= times.select { return NoRows; }
      var uid, usedAt := tx[token].uid, tx[token].usedAt;
      if fault == AtUpdate { return Failed; }
      tx := tx[token := tx[token].(usedAt := Some(times.update))];
      if usedAt.Some? {
        tx := map k | k in tx && !InWipe(tx[k], uid, times.delete) :: tx[k];
      }
      if fault == AtCommit { return Failed; }
      rows := tx;
      return if usedAt.Some? then Reused(uid) else Granted(uid);
    }

    /** `UseAndRotate`: on every error the table is as before. */
    method UseAndRotate(token: Token, newExp: int, drawn: Token, times: Times, fault: Fault)
      returns (outcome: Outcome, newTok: Token)
      modifies this
      ensures Result(rows, outcome)
              == if Reaches(fault, Find(old(rows), token, times.select)) then Result(old(rows), Failed)
                 else RotateTx(old(rows), token, drawn, newExp, times)
      ensures outcome.Failed? || outcome.NoRows? ==> rows == old(rows)
      ensures fault == AtBegin || fault == AtSelect ==> outcome == Failed
      ensures token in old(rows) && old(rows)[token].expiresAt > times.select ==>
                (fault == AtUpdate || fault == AtCommit || (fault == AtInsert && old(rows)[token].usedAt.None?) ==>
                   outcome == Failed)
      ensures outcome.Granted? ==> newTok == drawn
      ensures outcome.Reused? || outcome.NoRows? ==> newTok == ""
    {
      newTok := "";
      if fault == AtBegin || fault == AtSelect { return Failed, ""; }
      var tx := rows;
      if token !in tx || tx[token].expiresAt <= times.select { return NoRows, ""; }
      var uid, usedAt := tx[token].uid, tx[token].usedAt;
      if fault == AtUpdate { return Failed, ""; }
      tx := tx[token := tx[token].(usedAt := Some(times.update))];
      if usedAt.Some? {
        tx := map k | k in tx && !InWipe(tx[k], uid, times.delete) :: tx[k];
        if fault == AtCommit { return Failed, ""; }
        rows := tx;
        return Reused(uid), "";
      }
      if fault == AtInsert || drawn in tx { return Failed, ""; }
      tx := tx[drawn := Row(uid, newExp, None)];
      if fault == AtCommit { return Failed, drawn; }
      rows := tx;
      return Granted(uid), drawn;
    }

    method Revoke(token: Token, ok: bool)
      modifies this
      ensures rows == if ok then Exec(old(rows), Call.Revoke(token), Times(0, 0, None)).table else old(rows)
    {
      if ok {
        rows := map k | k in rows && k != token :: rows[k];
      }
    }
  }
}
