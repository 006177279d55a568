/**
  Serial runs of token transactions against a specification that keeps no rows at all, only
  the log of what was minted, used, wiped and revoked.
 */
module RotationHistory {
  import opened Wrappers
  import opened RefreshTokens

  datatype Event =
    | Mint(tok: Token, uid: int, expiresAt: int)
    | Spend(tok: Token)
    | Wipe(uid: int)
    | Kill(tok: Token)

  /** What the log says of a token. */
  datatype Status = Unknown | Alive(uid: int, expiresAt: int, spent: bool) | Dead

  function StatusOf(log: seq<Event>, tok: Token): Status {
    if log == [] then Unknown
    else
      var before, last := StatusOf(log[..|log| - 1], tok), log[|log| - 1];
      match last
      case Mint(t, uid, expiresAt) => if t == tok then Alive(uid, expiresAt, false) else before
      case Spend(t) => if t == tok && before.Alive? then before.(spent := true) else before
      case Wipe(uid) => if before.Alive? && before.uid == uid then Dead else before
      case Kill(t) => if t == tok && before.Alive? then Dead else before
  }

  /** The answer to presenting `tok`: dead, unknown or expired; already spent; or good. */
  function Verdict(log: seq<Event>, tok: Token, now: int): Outcome {
    match StatusOf(log, tok)
    case Alive(uid, expiresAt, spent) =>
      if expiresAt <= now then NoRows else if spent then Reused(uid) else Granted(uid)
    case _ => NoRows
  }

  datatype LogResult = LogResult(log: seq<Event>, outcome: Outcome)

  /**
    The specification machine.  A wipe kills every earlier token of the user, expired or not;
    a reuse detection whose DELETE failed leaves no event.
   */
  function SpecExec(log: seq<Event>, c: Call, times: Times): LogResult {
    match c
    case Issue(tok, uid, expiresAt) => LogResult(log + [Mint(tok, uid, expiresAt)], Granted(uid))
    case Revoke(tok) => LogResult(log + [Kill(tok)], Granted(0))
    case Use(tok) =>
      (match Verdict(log, tok, times.select)
       case Granted(uid) => LogResult(log + [Spend(tok)], Granted(uid))
       case Reused(uid) => LogResult(if times.delete.Some? then log + [Wipe(uid)] else log, Reused(uid))
       case other => LogResult(log, other))
    case Rotate(tok, newTok, newExp) =>
      (match Verdict(log, tok, times.select)
       case Granted(uid) => LogResult(log + [Spend(tok)] + [Mint(newTok, uid, newExp)], Granted(uid))
       case Reused(uid) => LogResult(if times.delete.Some? then log + [Wipe(uid)] else log, Reused(uid))
       case other => LogResult(log, other))
  }

  datatype Txn = Txn(call: Call, times: Times)

  function TableAfter(run: seq<Txn>): Table {
    if run == [] then map[]
    else
      var n := |run| - 1;
      Exec(TableAfter(run[..n]), run[n].call, run[n].times).table
  }

  function LogAfter(run: seq<Txn>): seq<Event> {
    if run == [] then []
    else
      var n := |run| - 1;
      SpecExec(LogAfter(run[..n]), run[n].call, run[n].times).log
  }

  /** The outcome of transaction `k` of a run, by the table and by the log. */
  function TableOutcome(run: seq<Txn>, k: nat): Outcome
    requires k < |run|
  {
    Exec(TableAfter(run[..k]), run[k].call, run[k].times).outcome
  }

  function SpecOutcome(run: seq<Txn>, k: nat): Outcome
    requires k < |run|
  {
    SpecExec(LogAfter(run[..k]), run[k].call, run[k].times).outcome
  }

  /** The last clock reading of a transaction. */
  function End(times: Times): int {
    if times.delete.Some? then times.delete.value else times.update
  }

  /** Statements happen at non-decreasing clock readings. */
  ghost predicate Monotone(run: seq<Txn>) {
    && (forall i | 0 <= i < |run| :: run[i].times.select <= run[i].times.update <= End(run[i].times))
    && (forall i, j | 0 <= i < j < |run| :: End(run[i].times) <= run[j].times.select)
  }

  /** No random token is drawn twice. */
  ghost predicate FreshTokens(run: seq<Txn>) {
    forall i, j | 0 <= i < j < |run| && Minted(run[j].call).Some? :: Minted(run[i].call) != Minted(run[j].call)
  }

  // ----- Refinement -----

  ghost predicate Agrees(t: Table, log: seq<Event>, tok: Token, now: int) {
    match StatusOf(log, tok)
    case Unknown => tok !in t
    case Dead => tok in t ==> t[tok].expiresAt <= now
    case Alive(uid, expiresAt, spent) =>
      if tok in t then t[tok].uid == uid && t[tok].expiresAt == expiresAt && (t[tok].usedAt.Some? <==> spent)
      else expiresAt <= now
  }

  /** From the clock reading `now` on, the table answers as the log does. */
  ghost predicate Refines(t: Table, log: seq<Event>, now: int) {
    forall tok: Token :: Agrees(t, log, tok, now)
  }

  lemma StatusGrows(log: seq<Event>, e: Event)
    ensures forall tok: Token ::
              StatusOf(log + [e], tok) ==
              (var before := StatusOf(log, tok);
               match e
               case Mint(t, uid, expiresAt) => if t == tok then Alive(uid, expiresAt, false) else before
               case Spend(t) => if t == tok && before.Alive? then before.(spent := true) else before
               case Wipe(uid) => if before.Alive? && before.uid == uid then Dead else before
               case Kill(t) => if t == tok && before.Alive? then Dead else before)
  {
    assert (log + [e])[..|log|] == log;
  }

  lemma FindIsVerdict(t: Table, log: seq<Event>, tok: Token, now: int)
    requires Refines(t, log, now)
    ensures match Find(t, tok, now)
            case None => Verdict(log, tok, now) == NoRows
            case Some(row) => Verdict(log, tok, now) == if row.usedAt.Some? then Reused(row.uid) else Granted(row.uid)
  {
    assert Agrees(t, log, tok, now);
  }

  lemma WaitingKeepsRefines(t: Table, log: seq<Event>, now: int, later: int)
    requires Refines(t, log, now) && now <= later
    ensures Refines(t, log, later)
  {
    forall tok: Token ensures Agrees(t, log, tok, later) { assert Agrees(t, log, tok, now); }
  }

  lemma SpendRefines(t: Table, log: seq<Event>, tok: Token, at: int, now: int)
    requires Refines(t, log, now) && tok in t && StatusOf(log, tok).Alive?
    ensures Refines(MarkUsed(t, tok, at), log + [Spend(tok)], now)
  {
    StatusGrows(log, Spend(tok));
    forall x: Token ensures Agrees(MarkUsed(t, tok, at), log + [Spend(tok)], x, now) { assert Agrees(t, log, x, now); }
  }

  lemma MintRefines(t: Table, log: seq<Event>, tok: Token, uid: int, exp: int, now: int)
    requires Refines(t, log, now) && tok !in t
    ensures Refines(t[tok := Row(uid, exp, None)], log + [Mint(tok, uid, exp)], now)
  {
    StatusGrows(log, Mint(tok, uid, exp));
    var t' := t[tok := Row(uid, exp, None)];
    forall x: Token ensures Agrees(t', log + [Mint(tok, uid, exp)], x, now) { assert Agrees(t, log, x, now); }
  }

  /** Rows that the wipe spares because they have expired stay expired. */
  lemma WipeRefines(t: Table, log: seq<Event>, tok: Token, uid: int, at: int, wipedAt: int)
    requires Refines(t, log, wipedAt) && tok in t && StatusOf(log, tok).Alive? && StatusOf(log, tok).uid == uid
    ensures Refines(WipeUser(MarkUsed(t, tok, at), uid, Some(wipedAt)), log + [Wipe(uid)], wipedAt)
  {
    StatusGrows(log, Wipe(uid));
    var t' := WipeUser(MarkUsed(t, tok, at), uid, Some(wipedAt));
    forall x: Token ensures Agrees(t', log + [Wipe(uid)], x, wipedAt) {
      assert Agrees(t, log, x, wipedAt) && Agrees(t, log, tok, wipedAt);
    }
  }

  /** A reuse detection whose wipe failed only stamps the spent token again. */
  lemma FailedWipeRefines(t: Table, log: seq<Event>, tok: Token, uid: int, at: int, now: int)
    requires Refines(t, log, now) && tok in t && t[tok].usedAt.Some?
    ensures Refines(WipeUser(MarkUsed(t, tok, at), uid, None), log, now)
  {
    var t' := WipeUser(MarkUsed(t, tok, at), uid, None);
    forall x: Token ensures Agrees(t', log, x, now) { assert Agrees(t, log, x, now); }
  }

  lemma KillRefines(t: Table, log: seq<Event>, tok: Token, now: int)
    requires Refines(t, log, now)
    ensures Refines(t - {tok}, log + [Kill(tok)], now)
  {
    StatusGrows(log, Kill(tok));
    forall x: Token ensures Agrees(t - {tok}, log + [Kill(tok)], x, now) { assert Agrees(t, log, x, now); }
  }

  lemma ExecRefines(t: Table, log: seq<Event>, c: Call, times: Times)
    requires Refines(t, log, times.select)
    requires times.select <= times.update <= End(times)
    requires Minted(c).Some? ==> Minted(c).value !in t
    ensures var r, s := Exec(t, c, times), SpecExec(log, c, times);
            r.outcome == s.outcome && Refines(r.table, s.log, End(times))
  {
    WaitingKeepsRefines(t, log, times.select, End(times));
    if c.Issue? {
      MintRefines(t, log, c.tok, c.uid, c.expiresAt, End(times));
    } else if c.Revoke? {
      KillRefines(t, log, c.tok, End(times));
    } else {
      FindIsVerdict(t, log, c.tok, times.select);
      var found := Find(t, c.tok, times.select);
      if found.Some? {
        assert Agrees(t, log, c.tok, times.select);
        if found.value.usedAt.Some? {
          if times.delete.Some? {
            WipeRefines(t, log, c.tok, found.value.uid, times.update, times.delete.value);
          } else {
            FailedWipeRefines(t, log, c.tok, found.value.uid, times.update, times.update);
          }
        } else {
          SpendRefines(t, log, c.tok, times.update, End(times));
          if c.Rotate? {
            MintRefines(MarkUsed(t, c.tok, times.update), log + [Spend(c.tok)], c.newTok, found.value.uid, c.newExp,
                        End(times));
          }
        }
      }
    }
  }

  /** Every row's token was minted by an earlier transaction. */
  lemma {:induction false} RowsWereMinted(run: seq<Txn>, tok: Token)
    requires tok in TableAfter(run)
    ensures exists i :: 0 <= i < |run| && Minted(run[i].call) == Some(tok)
  {
    var n := |run| - 1;
    if tok in TableAfter(run[..n]) {
      RowsWereMinted(run[..n], tok);
      var i :| 0 <= i < n && Minted(run[..n][i].call) == Some(tok);
      assert Minted(run[i].call) == Some(tok);
    } else {
      assert Minted(run[n].call) == Some(tok);
    }
  }

  lemma OutcomesOfPrefix(run: seq<Txn>, n: nat, k: nat)
    requires k < n <= |run|
    ensures TableOutcome(run[..n], k) == TableOutcome(run, k) && SpecOutcome(run[..n], k) == SpecOutcome(run, k)
  {
    assert run[..n][..k] == run[..k];
  }

  lemma {:induction false} RunRefines(run: seq<Txn>, now: int)
    requires Monotone(run) && FreshTokens(run)
    requires forall i | 0 <= i < |run| :: End(run[i].times) <= now
    ensures Refines(TableAfter(run), LogAfter(run), now)
    ensures forall k | 0 <= k < |run| :: TableOutcome(run, k) == SpecOutcome(run, k)
  {
    if run == [] {
      forall tok: Token ensures Agrees(map[], [], tok, now) {}
    } else {
      var n := |run| - 1;
      var c, times := run[n].call, run[n].times;
      RunRefines(run[..n], times.select);
      if Minted(c).Some? && Minted(c).value in TableAfter(run[..n]) {
        RowsWereMinted(run[..n], Minted(c).value);
      }
      ExecRefines(TableAfter(run[..n]), LogAfter(run[..n]), c, times);
      WaitingKeepsRefines(TableAfter(run), LogAfter(run), End(times), now);
      forall k | 0 <= k < n ensures TableOutcome(run, k) == SpecOutcome(run, k) {
        OutcomesOfPrefix(run, n, k);
      }
    }
  }

  /** Every transaction of every serial run answers exactly as the log of earlier events says. */
  lemma TableRefinesHistory(run: seq<Txn>, k: nat)
    requires Monotone(run) && FreshTokens(run) && k < |run|
    ensures TableOutcome(run, k) == SpecOutcome(run, k)
  {
    RunRefines(run, End(run[|run| - 1].times));
  }

  // ----- What the log says, event by event -----

  predicate EndsMint(e: Event, tok: Token, uid: int) {
    e == Wipe(uid) || e == Kill(tok) || (e.Mint? && e.tok == tok)
  }

  /** Event `i` minted `tok` and nothing since has ended it. */
  ghost predicate MintStands(log: seq<Event>, i: nat, tok: Token, uid: int, expiresAt: int) {
    && i < |log| && log[i] == Mint(tok, uid, expiresAt)
    && (forall j | i < j < |log| :: !EndsMint(log[j], tok, uid))
  }

  ghost predicate SpentSince(log: seq<Event>, i: nat, tok: Token) {
    exists j :: i < j < |log| && log[j] == Spend(tok)
  }

  lemma StandingGrows(log: seq<Event>, e: Event, i: nat, tok: Token, uid: int, expiresAt: int)
    requires i < |log|
    ensures MintStands(log + [e], i, tok, uid, expiresAt)
            <==> MintStands(log, i, tok, uid, expiresAt) && !EndsMint(e, tok, uid)
    ensures SpentSince(log + [e], i, tok) <==> SpentSince(log, i, tok) || e == Spend(tok)
  {
    var all := log + [e];
    assert all[|log|] == e;
    assert forall j | 0 <= j < |log| :: all[j] == log[j];
    if SpentSince(log, i, tok) {
      var j :| i < j < |log| && log[j] == Spend(tok);
      assert all[j] == Spend(tok);
    }
  }

  /** A standing mint of `tok`, with its spending, is the status of `tok`. */
  lemma {:induction false} StandingMintIsStatus(log: seq<Event>, i: nat, tok: Token, uid: int, expiresAt: int)
    requires MintStands(log, i, tok, uid, expiresAt)
    ensures StatusOf(log, tok) == Alive(uid, expiresAt, SpentSince(log, i, tok))
  {
    var n := |log| - 1;
    if i < n {
      assert log == log[..n] + [log[n]];
      StandingGrows(log[..n], log[n], i, tok, uid, expiresAt);
      StandingMintIsStatus(log[..n], i, tok, uid, expiresAt);
    }
  }

  /** An alive status comes from a standing mint, found by walking the log. */
  lemma {:induction false} StatusHasStandingMint(log: seq<Event>, tok: Token) returns (i: nat)
    requires StatusOf(log, tok).Alive?
    ensures var s := StatusOf(log, tok);
            MintStands(log, i, tok, s.uid, s.expiresAt) && (s.spent <==> SpentSince(log, i, tok))
  {
    var n := |log| - 1;
    var s := StatusOf(log, tok);
    if log[n] == Mint(tok, s.uid, s.expiresAt) {
      i := n;
    } else {
      i := StatusHasStandingMint(log[..n], tok);
      assert log == log[..n] + [log[n]];
      StandingGrows(log[..n], log[n], i, tok, s.uid, s.expiresAt);
    }
  }

  // ----- A wipe is for good -----

  ghost predicate SameFate(before: Status, after: Status) {
    && (before.Dead? ==> after.Dead?)
    && (before.Alive? ==> after.Dead? || (after.Alive? && after.uid == before.uid))
  }

  lemma SameFateAlways(s: Status)
    ensures SameFate(s, s)
  {
  }

  lemma SameFateChains(a: Status, b: Status, c: Status)
    requires SameFate(a, b) && SameFate(b, c)
    ensures SameFate(a, c)
  {
  }

  lemma EventKeepsFate(log: seq<Event>, e: Event, tok: Token)
    requires e.Mint? ==> e.tok != tok
    ensures SameFate(StatusOf(log, tok), StatusOf(log + [e], tok))
  {
    StatusGrows(log, e);
  }

  /** No transaction brings a token back or changes its owner, unless it mints that very token. */
  lemma SpecKeepsFate(log: seq<Event>, c: Call, times: Times, tok: Token)
    requires Minted(c) != Some(tok)
    ensures SameFate(StatusOf(log, tok), StatusOf(SpecExec(log, c, times).log, tok))
  {
    if c.Issue? {
      EventKeepsFate(log, Mint(c.tok, c.uid, c.expiresAt), tok);
    } else if c.Revoke? {
      EventKeepsFate(log, Kill(c.tok), tok);
    } else {
      var v := Verdict(log, c.tok, times.select);
      if v.Reused? {
        EventKeepsFate(log, Wipe(v.uid), tok);
      } else if v.Granted? {
        var spent := log + [Spend(c.tok)];
        EventKeepsFate(log, Spend(c.tok), tok);
        if c.Rotate? {
          var minted := spent + [Mint(c.newTok, v.uid, c.newExp)];
          EventKeepsFate(spent, Mint(c.newTok, v.uid, c.newExp), tok);
          SameFateChains(StatusOf(log, tok), StatusOf(spent, tok), StatusOf(minted, tok));
        }
      }
    }
  }

  function StatusBefore(run: seq<Txn>, k: nat, tok: Token): Status
    requires k <= |run|
  {
    StatusOf(LogAfter(run[..k]), tok)
  }

  lemma FateOneMore(run: seq<Txn>, k: nat, tok: Token)
    requires k < |run| && Minted(run[k].call) != Some(tok)
    ensures SameFate(StatusBefore(run, k, tok), StatusBefore(run, k + 1, tok))
  {
    assert run[..k + 1][..k] == run[..k];
    SpecKeepsFate(LogAfter(run[..k]), run[k].call, run[k].times, tok);
  }

  lemma NotMintedAgain(run: seq<Txn>, i: nat, j: nat, tok: Token)
    requires FreshTokens(run) && i < j < |run| && Minted(run[i].call) == Some(tok)
    ensures Minted(run[j].call) != Some(tok)
  {
  }

  /** The fate of a token is kept while no transaction mints it. */
  lemma {:induction false} UnmintedKeepsFate(run: seq<Txn>, k: nat, m: nat, tok: Token)
    requires k <= m <= |run|
    requires forall j | k <= j < m :: Minted(run[j].call) != Some(tok)
    ensures SameFate(StatusBefore(run, k, tok), StatusBefore(run, m, tok))
    decreases m - k
  {
    if k == m {
      SameFateAlways(StatusBefore(run, k, tok));
    } else {
      FateOneMore(run, k, tok);
      UnmintedKeepsFate(run, k + 1, m, tok);
      SameFateChains(StatusBefore(run, k, tok), StatusBefore(run, k + 1, tok), StatusBefore(run, m, tok));
    }
  }

  /** The fate of a token after its mint, transaction `i`, from prefix `k` of the run to prefix `m`. */
  lemma FateIsKept(run: seq<Txn>, i: nat, k: nat, m: nat, tok: Token)
    requires FreshTokens(run) && i < k <= m <= |run| && Minted(run[i].call) == Some(tok)
    ensures SameFate(StatusBefore(run, k, tok), StatusBefore(run, m, tok))
  {
    forall j | k <= j < m ensures Minted(run[j].call) != Some(tok) {
      NotMintedAgain(run, i, j, tok);
    }
    UnmintedKeepsFate(run, k, m, tok);
  }

  /** Transaction `i` put `tok` into the table for `uid`. */
  predicate GaveToken(run: seq<Txn>, i: nat, tok: Token, uid: int)
    requires i < |run|
  {
    Minted(run[i].call) == Some(tok) && TableOutcome(run, i) == Granted(uid)
  }

  /** Right after a granted mint the token is alive for its user. */
  lemma GivenTokenIsAlive(log: seq<Event>, c: Call, times: Times, tok: Token, uid: int)
    requires Minted(c) == Some(tok) && SpecExec(log, c, times).outcome == Granted(uid)
    ensures var s := StatusOf(SpecExec(log, c, times).log, tok); s.Alive? && s.uid == uid
  {
    if c.Issue? {
      StatusGrows(log, Mint(tok, uid, c.expiresAt));
    } else {
      StatusGrows(log + [Spend(c.tok)], Mint(tok, uid, c.newExp));
    }
  }

  predicate DeadOrOf(s: Status, uid: int) {
    s.Dead? || (s.Alive? && s.uid == uid)
  }

  lemma GivenTokenAfter(run: seq<Txn>, i: nat, tok: Token, uid: int)
    requires Monotone(run) && FreshTokens(run) && i < |run| && GaveToken(run, i, tok, uid)
    ensures DeadOrOf(StatusBefore(run, i + 1, tok), uid)
  {
    TableRefinesHistory(run, i);
    assert run[..i + 1][..i] == run[..i];
    GivenTokenIsAlive(LogAfter(run[..i]), run[i].call, run[i].times, tok, uid);
  }

  /** Before transaction `k`, a token given by transaction `i` is dead or alive for its user. */
  lemma GivenTokenStatus(run: seq<Txn>, i: nat, k: nat, tok: Token, uid: int)
    requires Monotone(run) && FreshTokens(run) && i < k < |run| && GaveToken(run, i, tok, uid)
    ensures DeadOrOf(StatusBefore(run, k, tok), uid)
  {
    GivenTokenAfter(run, i, tok, uid);
    FateIsKept(run, i, i + 1, k, tok);
  }

  lemma WipeKills(run: seq<Txn>, k: nat, tok: Token, uid: int)
    requires k < |run| && SpecOutcome(run, k) == Reused(uid) && run[k].times.delete.Some?
    requires DeadOrOf(StatusBefore(run, k, tok), uid)
    ensures StatusBefore(run, k + 1, tok) == Dead
  {
    assert run[..k + 1][..k] == run[..k];
    StatusGrows(LogAfter(run[..k]), Wipe(uid));
  }

  lemma DeadIsRefused(run: seq<Txn>, j: nat)
    requires j < |run| && (run[j].call.Use? || run[j].call.Rotate?)
    requires StatusBefore(run, j, run[j].call.tok) == Dead
    ensures SpecOutcome(run, j) == NoRows
  {
  }

  lemma DeadStaysDead(run: seq<Txn>, i: nat, k: nat, j: nat, tok: Token)
    requires FreshTokens(run) && i < k <= j <= |run| && Minted(run[i].call) == Some(tok)
    requires StatusBefore(run, k, tok) == Dead
    ensures StatusBefore(run, j, tok) == Dead
  {
    FateIsKept(run, i, k, j, tok);
  }

  /**
    Once a reuse detection for a user has wiped and committed, no token given to that user
    before it is ever accepted again, by a rotation or by a use, in any continuation.
   */
  lemma WipeIsPermanent(run: seq<Txn>, i: nat, k: nat, j: nat, uid: int)
    requires Monotone(run) && FreshTokens(run) && i < k < j < |run|
    requires TableOutcome(run, k) == Reused(uid) && run[k].times.delete.Some?
    requires run[j].call.Use? || run[j].call.Rotate?
    requires GaveToken(run, i, run[j].call.tok, uid)
    ensures TableOutcome(run, j) == NoRows
  {
    var tok := run[j].call.tok;
    TableRefinesHistory(run, k);
    GivenTokenStatus(run, i, k, tok, uid);
    WipeKills(run, k, tok, uid);
    DeadStaysDead(run, i, k + 1, j, tok);
    DeadIsRefused(run, j);
    TableRefinesHistory(run, j);
  }
}
