/**
  Token transactions running concurrently, one statement at a time, under row locks.

  A transaction keeps its writes to itself until it commits, and locks each row it has
  selected for update, written or inserted.  The wipe also keeps other transactions from
  inserting rows that it would have deleted.  A statement that has to wait leaves the state
  as it is.  These are the fewest waits the proof needs; a database that makes a statement
  wait more often has fewer runs.
 */
module RotationLocks {
  import opened Wrappers
  import opened RefreshTokens

  /** `Wiped(None)` is a wipe whose DELETE failed. */
  datatype Stage = Selected | Marked | Wiped(delete: Option<int>) | Inserted

  /** None is a deleted row. */
  type Writes = map<Token, Option<Row>>

  datatype Pc =
    | Ready
    | Active(stage: Stage, row: Row, select: int, update: int, writes: Writes)
    | Finished(outcome: Outcome)
    | RolledBack

  /** A transaction in the serial order, with the clock readings that its statements got. */
  datatype Entry = Entry(tx: nat, times: Times)

  datatype State = State(db: Table, pcs: seq<Pc>, order: seq<Entry>)

  /** The transaction's next statement, its failing DELETE, or its end without a commit. */
  datatype Step = Advance(tx: nat, now: int) | DeleteFails(tx: nat) | Rollback(tx: nat)

  function Overlay(db: Table, writes: Writes): Table {
    map k | k in db.Keys + writes.Keys && (k in writes ==> writes[k].Some?)
      :: if k in writes then writes[k].value else db[k]
  }

  // ----- Locks -----

  function Locks(c: Call, pc: Pc): set<Token> {
    if pc.Active? then {c.tok} + pc.writes.Keys else {}
  }

  predicate LockedByOther(calls: seq<Call>, s: State, i: nat, tok: Token)
    requires |s.pcs| == |calls|
  {
    exists j | 0 <= j < |calls| && j != i :: tok in Locks(calls[j], s.pcs[j])
  }

  /** Transaction state `pc` has wiped what a row of `uid` expiring at `exp` would belong to. */
  predicate WipeCovers(pc: Pc, uid: int, exp: int) {
    pc.Active? && pc.stage.Wiped? && InWipe(Row(uid, exp, None), pc.row.uid, pc.stage.delete)
  }

  predicate InsertWaits(calls: seq<Call>, s: State, i: nat, tok: Token, uid: int, exp: int)
    requires |s.pcs| == |calls|
  {
    || LockedByOther(calls, s, i, tok)
    || exists j | 0 <= j < |calls| && j != i :: WipeCovers(s.pcs[j], uid, exp)
  }

  /** A pending insert that a wipe of `uid` at `now` would have to delete. */
  predicate PendingInsert(c: Call, pc: Pc, uid: int, now: int) {
    pc.Active? && pc.stage.Inserted? && c.Rotate? && pc.row.uid == uid && c.newExp > now
  }

  predicate WipeWaits(calls: seq<Call>, s: State, i: nat, uid: int, now: int)
    requires |s.pcs| == |calls|
  {
    || (exists k | k in s.db :: InWipe(s.db[k], uid, Some(now)) && LockedByOther(calls, s, i, k))
    || exists j | 0 <= j < |calls| && j != i :: PendingInsert(calls[j], s.pcs[j], uid, now)
  }

  // ----- Steps -----

  function At(s: State, i: nat, pc: Pc): State
    requires i < |s.pcs|
  {
    s.(pcs := s.pcs[i := pc])
  }

  /** The transaction's answer is decided here: it takes its place in the serial order. */
  function Decide(s: State, i: nat, outcome: Outcome, times: Times): State
    requires i < |s.pcs|
  {
    At(s, i, Finished(outcome)).(order := s.order + [Entry(i, times)])
  }

  function Begin(calls: seq<Call>, s: State, i: nat, now: int): State
    requires |s.pcs| == |calls| && i < |calls|
  {
    var c, times := calls[i], Times(now, now, Some(now));
    match c
    case Issue(tok, uid, expiresAt) =>
      if InsertWaits(calls, s, i, tok, uid, expiresAt) then s
      else (match InsertRow(s.db, tok, uid, expiresAt)
            case None => Decide(s, i, Failed, times)
            case Some(t) => Decide(s.(db := t), i, Granted(uid), times))
    case Revoke(tok) =>
      if LockedByOther(calls, s, i, tok) then s else Decide(s.(db := s.db - {tok}), i, Granted(0), times)
    case _ =>
      if LockedByOther(calls, s, i, c.tok) then s
      else match Find(s.db, c.tok, now)
        case None => Decide(s, i, NoRows, times)
        case Some(row) => At(s, i, Active(Selected, row, now, now, map[]))
  }

  function Victims(view: Table, uid: int, now: int): Writes {
    map k | k in view && InWipe(view[k], uid, Some(now)) :: None
  }

  function Commit(s: State, i: nat, outcome: Outcome, delete: Option<int>): State
    requires i < |s.pcs| && s.pcs[i].Active?
  {
    var pc := s.pcs[i];
    Decide(s.(db := Overlay(s.db, pc.writes)), i, outcome, Times(pc.select, pc.update, delete))
  }

  /** The statement after the update: the wipe, the insert, or the commit of a first use. */
  function AfterMark(calls: seq<Call>, s: State, i: nat, now: int): State
    requires |s.pcs| == |calls| && i < |calls| && s.pcs[i].Active?
  {
    var c, pc := calls[i], s.pcs[i];
    var view := Overlay(s.db, pc.writes);
    if pc.row.usedAt.Some? then
      if WipeWaits(calls, s, i, pc.row.uid, now) then s
      else At(s, i, pc.(stage := Wiped(Some(now)), writes := pc.writes + Victims(view, pc.row.uid, now)))
    else if !c.Rotate? then Commit(s, i, Granted(pc.row.uid), Some(now))
    else if InsertWaits(calls, s, i, c.newTok, pc.row.uid, c.newExp) then s
    else if c.newTok in view then Decide(s, i, Failed, Times(pc.select, pc.update, Some(now)))
    else At(s, i, pc.(stage := Inserted, writes := pc.writes[c.newTok := Some(Row(pc.row.uid, c.newExp, None))]))
  }

  function Next(calls: seq<Call>, s: State, step: Step): (s': State)
    requires |s.pcs| == |calls|
    ensures |s'.pcs| == |calls|
  {
    if step.tx >= |calls| then s
    else
      var i := step.tx;
      match s.pcs[i]
      case Ready =>
        if step.Rollback? then At(s, i, RolledBack)
        else if step.DeleteFails? then s
        else Begin(calls, s, i, step.now)
      case Active(stage, row, select, update, writes) =>
        if step.Rollback? then At(s, i, RolledBack)
        else if step.DeleteFails? then
          if stage.Marked? && row.usedAt.Some? then At(s, i, s.pcs[i].(stage := Wiped(None))) else s
        else (match stage
          case Selected =>
            var marked := row.(usedAt := Some(step.now));
            At(s, i, Active(Marked, row, select, step.now, writes[calls[i].tok := Some(marked)]))
          case Marked => AfterMark(calls, s, i, step.now)
          case Wiped(delete) => Commit(s, i, Reused(row.uid), delete)
          case Inserted => Commit(s, i, Granted(row.uid), Some(step.now)))
      case _ => s
  }

  function Start(calls: seq<Call>, db: Table): State {
    State(db, seq(|calls|, _ => Ready), [])
  }

  function Resume(calls: seq<Call>, s: State, steps: seq<Step>): (s': State)
    requires |s.pcs| == |calls|
    ensures |s'.pcs| == |calls|
    decreases |steps|
  {
    if steps == [] then s else Resume(calls, Next(calls, s, steps[0]), steps[1..])
  }

  function Run(calls: seq<Call>, db: Table, steps: seq<Step>): (s: State)
    ensures |s.pcs| == |calls|
  {
    Resume(calls, Start(calls, db), steps)
  }

  // ----- What the locks keep -----

  predicate InWipeOf(db: Table, k: Token, uid: int, at: Option<int>) {
    k in db && InWipe(db[k], uid, at)
  }

  /** The private writes of an active transaction are what its statements would write on the table as it is now. */
  ghost predicate TxInv(db: Table, c: Call, pc: Pc) {
    pc.Active? ==>
      var marked := pc.row.(usedAt := Some(pc.update));
      && (c.Use? || c.Rotate?)
      && c.tok in db && db[c.tok] == pc.row && pc.row.expiresAt > pc.select
      && (match pc.stage
          case Selected => pc.writes == map[]
          case Marked => pc.writes == map[c.tok := Some(marked)]
          case Wiped(delete) =>
            && pc.row.usedAt.Some?
            && (forall k :: k in pc.writes <==> k == c.tok || InWipeOf(db, k, pc.row.uid, delete))
            && (forall k | k in pc.writes ::
                  pc.writes[k] == if InWipeOf(db, k, pc.row.uid, delete) then None else Some(marked))
          case Inserted =>
            && pc.row.usedAt.None? && c.Rotate? && c.newTok !in db
            && pc.writes == map[c.tok := Some(marked), c.newTok := Some(Row(pc.row.uid, c.newExp, None))])
  }

  ghost predicate PairInv(c: Call, pc: Pc, d: Call, pd: Pc) {
    && Locks(c, pc) !! Locks(d, pd)
    && !(d.Rotate? && pd.Active? && pd.stage.Inserted? && WipeCovers(pc, pd.row.uid, d.newExp))
  }

  ghost predicate LockInv(calls: seq<Call>, s: State) {
    && |s.pcs| == |calls|
    && (forall i | 0 <= i < |calls| :: TxInv(s.db, calls[i], s.pcs[i]))
    && (forall i, j | 0 <= i < |calls| && 0 <= j < |calls| && i != j :: PairInv(calls[i], s.pcs[i], calls[j], s.pcs[j]))
  }

  /** A change of the table that a transaction in state `pc` cannot notice. */
  ghost predicate Unseen(db: Table, db': Table, c: Call, pc: Pc) {
    && (forall k | k in Locks(c, pc) :: if k in db then k in db' && db'[k] == db[k] else k !in db')
    && (pc.Active? && pc.stage.Wiped? ==>
          forall k | InWipeOf(db', k, pc.row.uid, pc.stage.delete) :: InWipeOf(db, k, pc.row.uid, pc.stage.delete))
  }

  lemma UnseenKeepsTx(db: Table, db': Table, c: Call, pc: Pc)
    requires TxInv(db, c, pc) && Unseen(db, db', c, pc)
    ensures TxInv(db', c, pc)
  {
    if pc.Active? && pc.stage.Wiped? {
      forall k ensures InWipeOf(db', k, pc.row.uid, pc.stage.delete) <==> InWipeOf(db, k, pc.row.uid, pc.stage.delete) {
        if InWipeOf(db, k, pc.row.uid, pc.stage.delete) {
          assert k in pc.writes;
        }
      }
    }
  }

  /** Moving one transaction, over a table change unseen by the others, keeps the invariant. */
  lemma MoveKeepsLocks(calls: seq<Call>, s: State, s': State, i: nat)
    requires LockInv(calls, s) && i < |calls|
    requires |s'.pcs| == |calls| && s'.pcs == s.pcs[i := s'.pcs[i]]
    requires TxInv(s'.db, calls[i], s'.pcs[i])
    requires forall j | 0 <= j < |calls| && j != i :: Unseen(s.db, s'.db, calls[j], s.pcs[j])
    requires forall j | 0 <= j < |calls| && j != i ::
               PairInv(calls[i], s'.pcs[i], calls[j], s.pcs[j]) && PairInv(calls[j], s.pcs[j], calls[i], s'.pcs[i])
    ensures LockInv(calls, s')
  {
    forall j | 0 <= j < |calls| ensures TxInv(s'.db, calls[j], s'.pcs[j]) {
      if j != i {
        UnseenKeepsTx(s.db, s'.db, calls[j], s.pcs[j]);
      }
    }
    forall j, k | 0 <= j < |calls| && 0 <= k < |calls| && j != k
      ensures PairInv(calls[j], s'.pcs[j], calls[k], s'.pcs[k])
    {
      assert PairInv(calls[j], s.pcs[j], calls[k], s.pcs[k]);
    }
  }

  /** Committing writes to locked rows, or to rows no wipe covers, is unseen by the other transaction. */
  lemma CommitUnseen(db: Table, c: Call, pc: Pc, d: Call, pd: Pc)
    requires TxInv(db, c, pc) && pc.Active? && PairInv(c, pc, d, pd) && PairInv(d, pd, c, pc)
    ensures Unseen(db, Overlay(db, pc.writes), d, pd)
  {
    var db' := Overlay(db, pc.writes);
    if pd.Active? && pd.stage.Wiped? {
      forall k | InWipeOf(db', k, pd.row.uid, pd.stage.delete)
        ensures InWipeOf(db, k, pd.row.uid, pd.stage.delete)
      {
        assert k in pc.writes ==> pc.writes[k].Some?;
      }
    }
  }

  lemma CommitKeepsLocks(calls: seq<Call>, s: State, i: nat, outcome: Outcome, delete: Option<int>)
    requires LockInv(calls, s) && i < |calls| && s.pcs[i].Active?
    ensures LockInv(calls, Commit(s, i, outcome, delete))
  {
    forall j | 0 <= j < |calls| && j != i
      ensures Unseen(s.db, Overlay(s.db, s.pcs[i].writes), calls[j], s.pcs[j])
    {
      CommitUnseen(s.db, calls[i], s.pcs[i], calls[j], s.pcs[j]);
    }
    MoveKeepsLocks(calls, s, Commit(s, i, outcome, delete), i);
  }

  lemma BeginKeepsLocks(calls: seq<Call>, s: State, i: nat, now: int)
    requires LockInv(calls, s) && i < |calls| && s.pcs[i].Ready?
    ensures LockInv(calls, Begin(calls, s, i, now))
  {
    var s' := Begin(calls, s, i, now);
    if s' != s {
      forall j | 0 <= j < |calls| && j != i
        ensures Unseen(s.db, s'.db, calls[j], s.pcs[j])
        ensures PairInv(calls[i], s'.pcs[i], calls[j], s.pcs[j]) && PairInv(calls[j], s.pcs[j], calls[i], s'.pcs[i])
      {
        assert calls[i].tok !in Locks(calls[j], s.pcs[j]);
        assert calls[i].Issue? ==> !WipeCovers(s.pcs[j], calls[i].uid, calls[i].expiresAt);
      }
      MoveKeepsLocks(calls, s, s', i);
    }
  }

  lemma WipeKeepsLocks(calls: seq<Call>, s: State, i: nat, now: int)
    requires LockInv(calls, s) && i < |calls| && s.pcs[i].Active? && s.pcs[i].stage.Marked?
    requires s.pcs[i].row.usedAt.Some?
    ensures LockInv(calls, AfterMark(calls, s, i, now))
  {
    var s', c, pc := AfterMark(calls, s, i, now), calls[i], s.pcs[i];
    if s' != s {
      var view := Overlay(s.db, pc.writes);
      assert forall k :: InWipeOf(view, k, pc.row.uid, Some(now)) <==> InWipeOf(s.db, k, pc.row.uid, Some(now));
      assert TxInv(s.db, c, pc);
      forall j | 0 <= j < |calls| && j != i
        ensures PairInv(c, s'.pcs[i], calls[j], s.pcs[j]) && PairInv(calls[j], s.pcs[j], c, s'.pcs[i])
      {
        assert PairInv(c, pc, calls[j], s.pcs[j]) && !PendingInsert(calls[j], s.pcs[j], pc.row.uid, now);
        forall k | k in Locks(c, s'.pcs[i]) ensures k !in Locks(calls[j], s.pcs[j]) {
          assert k == c.tok || (InWipeOf(s.db, k, pc.row.uid, Some(now)) && !LockedByOther(calls, s, i, k));
        }
      }
      MoveKeepsLocks(calls, s, s', i);
    }
  }

  lemma InsertKeepsLocks(calls: seq<Call>, s: State, i: nat, now: int)
    requires LockInv(calls, s) && i < |calls| && s.pcs[i].Active? && s.pcs[i].stage.Marked?
    requires s.pcs[i].row.usedAt.None? && calls[i].Rotate?
    ensures LockInv(calls, AfterMark(calls, s, i, now))
  {
    var s', c, pc := AfterMark(calls, s, i, now), calls[i], s.pcs[i];
    if s' != s {
      assert TxInv(s.db, c, pc);
      forall j | 0 <= j < |calls| && j != i
        ensures PairInv(c, s'.pcs[i], calls[j], s.pcs[j]) && PairInv(calls[j], s.pcs[j], c, s'.pcs[i])
      {
        assert PairInv(c, pc, calls[j], s.pcs[j]);
        assert c.newTok !in Locks(calls[j], s.pcs[j]) && !WipeCovers(s.pcs[j], pc.row.uid, c.newExp);
      }
      MoveKeepsLocks(calls, s, s', i);
    }
  }

  lemma StartLocks(calls: seq<Call>, db: Table)
    ensures LockInv(calls, Start(calls, db))
  {
    var s := Start(calls, db);
    forall i | 0 <= i < |calls| ensures TxInv(db, calls[i], s.pcs[i]) {}
  }

  lemma NextKeepsLocks(calls: seq<Call>, s: State, step: Step)
    requires LockInv(calls, s)
    ensures LockInv(calls, Next(calls, s, step))
  {
    var s', i := Next(calls, s, step), step.tx;
    if s' != s {
      var pc := s.pcs[i];
      assert TxInv(s.db, calls[i], pc);
      if !step.Advance? {
        MoveKeepsLocks(calls, s, s', i);
      } else if pc.Ready? {
        BeginKeepsLocks(calls, s, i, step.now);
      } else if pc.stage.Selected? {
        MoveKeepsLocks(calls, s, s', i);
      } else if pc.stage.Marked? {
        if pc.row.usedAt.Some? {
          WipeKeepsLocks(calls, s, i, step.now);
        } else if calls[i].Rotate? {
          InsertKeepsLocks(calls, s, i, step.now);
        } else {
          CommitKeepsLocks(calls, s, i, Granted(pc.row.uid), Some(step.now));
        }
      } else if pc.stage.Wiped? {
        CommitKeepsLocks(calls, s, i, Reused(pc.row.uid), pc.stage.delete);
      } else {
        CommitKeepsLocks(calls, s, i, Granted(pc.row.uid), Some(step.now));
      }
    }
  }

  // ----- The serial order -----

  function Serial(calls: seq<Call>, db: Table, order: seq<Entry>): Table {
    if order == [] then db
    else
      var n := |order| - 1;
      var t := Serial(calls, db, order[..n]);
      if order[n].tx < |calls| then Exec(t, calls[order[n].tx], order[n].times).table else t
  }

  /** What transaction `order[k]` answers when the transactions run one after another in this order. */
  function SerialOutcome(calls: seq<Call>, db: Table, order: seq<Entry>, k: nat): Outcome
    requires k < |order| && order[k].tx < |calls|
  {
    Exec(Serial(calls, db, order[..k]), calls[order[k].tx], order[k].times).outcome
  }

  /** Each place in the order holds a finished transaction with its serial answer. */
  ghost predicate AnswersAsSerial(calls: seq<Call>, db: Table, s: State)
    requires |s.pcs| == |calls|
  {
    forall k | 0 <= k < |s.order| ::
      && s.order[k].tx < |calls|
      && s.pcs[s.order[k].tx] == Finished(SerialOutcome(calls, db, s.order, k))
  }

  predicate Distinct(order: seq<Entry>) {
    forall k, m | 0 <= k < m < |order| :: order[k].tx != order[m].tx
  }

  ghost predicate FinishedAreOrdered(s: State) {
    forall i | 0 <= i < |s.pcs| && s.pcs[i].Finished? :: exists k :: 0 <= k < |s.order| && s.order[k].tx == i
  }

  ghost predicate SerialInv(calls: seq<Call>, db: Table, s: State) {
    && |s.pcs| == |calls|
    && s.db == Serial(calls, db, s.order)
    && AnswersAsSerial(calls, db, s)
    && Distinct(s.order)
    && FinishedAreOrdered(s)
  }

  lemma SerialGrows(calls: seq<Call>, db: Table, order: seq<Entry>, e: Entry)
    requires e.tx < |calls| && forall k | 0 <= k < |order| :: order[k].tx < |calls|
    ensures var longer, r := order + [e], Exec(Serial(calls, db, order), calls[e.tx], e.times);
            && Serial(calls, db, longer) == r.table
            && SerialOutcome(calls, db, longer, |order|) == r.outcome
            && (forall k | 0 <= k < |order| ::
                  SerialOutcome(calls, db, longer, k) == SerialOutcome(calls, db, order, k))
  {
    var longer := order + [e];
    assert longer[..|order|] == order;
    forall k | 0 <= k < |order| ensures SerialOutcome(calls, db, longer, k) == SerialOutcome(calls, db, order, k) {
      assert longer[..k] == order[..k];
    }
  }

  lemma DecideKeepsSerial(calls: seq<Call>, db: Table, s: State, i: nat, t: Table, outcome: Outcome, times: Times)
    requires SerialInv(calls, db, s) && i < |calls| && !s.pcs[i].Finished?
    requires Exec(s.db, calls[i], times) == Result(t, outcome)
    ensures SerialInv(calls, db, Decide(s.(db := t), i, outcome, times))
  {
    forall k | 0 <= k < |s.order| ensures s.order[k].tx != i {
      assert s.pcs[s.order[k].tx].Finished?;
    }
    SerialGrows(calls, db, s.order, Entry(i, times));
    DecideAnswers(calls, db, s, i, t, outcome, times);
    DecideOrders(s, i, t, outcome, times);
  }

  lemma DecideAnswers(calls: seq<Call>, db: Table, s: State, i: nat, t: Table, outcome: Outcome, times: Times)
    requires |s.pcs| == |calls| && i < |calls| && AnswersAsSerial(calls, db, s)
    requires forall k | 0 <= k < |s.order| :: s.order[k].tx != i
    requires Exec(Serial(calls, db, s.order), calls[i], times) == Result(t, outcome)
    ensures AnswersAsSerial(calls, db, Decide(s.(db := t), i, outcome, times))
  {
    var s' := Decide(s.(db := t), i, outcome, times);
    forall k | 0 <= k < |s'.order|
      ensures s'.order[k].tx < |calls| && s'.pcs[s'.order[k].tx] == Finished(SerialOutcome(calls, db, s'.order, k))
    {
      if k < |s.order| {
        assert s'.order[..k] == s.order[..k];
        PlaceIsKept(calls, db, s, s', k, i);
      } else {
        LastPlace(calls, db, s.order, Entry(i, times), outcome);
      }
    }
  }

  lemma LastPlace(calls: seq<Call>, db: Table, order: seq<Entry>, e: Entry, outcome: Outcome)
    requires e.tx < |calls| && Exec(Serial(calls, db, order), calls[e.tx], e.times).outcome == outcome
    ensures SerialOutcome(calls, db, order + [e], |order|) == outcome
  {
    assert (order + [e])[..|order|] == order;
  }

  lemma PlaceIsKept(calls: seq<Call>, db: Table, s: State, s': State, k: nat, i: nat)
    requires |s.pcs| == |calls| && AnswersAsSerial(calls, db, s) && k < |s.order| && s.order[k].tx != i
    requires i < |calls| && |s'.pcs| == |calls| && s'.pcs == s.pcs[i := s'.pcs[i]]
    requires |s'.order| == |s.order| + 1 && s'.order[k] == s.order[k] && s'.order[..k] == s.order[..k]
    ensures s'.order[k].tx < |calls|
    ensures s'.pcs[s'.order[k].tx] == Finished(SerialOutcome(calls, db, s'.order, k))
  {
    assert s.pcs[s.order[k].tx] == Finished(SerialOutcome(calls, db, s.order, k));
  }

  lemma DecideOrders(s: State, i: nat, t: Table, outcome: Outcome, times: Times)
    requires i < |s.pcs| && Distinct(s.order) && FinishedAreOrdered(s)
    requires forall k | 0 <= k < |s.order| :: s.order[k].tx != i
    ensures Distinct(Decide(s.(db := t), i, outcome, times).order)
    ensures FinishedAreOrdered(Decide(s.(db := t), i, outcome, times))
  {
    var s' := Decide(s.(db := t), i, outcome, times);
    assert s'.order[|s.order|].tx == i;
    forall j | 0 <= j < |s'.pcs| && s'.pcs[j].Finished? ensures exists k :: 0 <= k < |s'.order| && s'.order[k].tx == j {
      if j != i {
        var k :| 0 <= k < |s.order| && s.order[k].tx == j;
        assert s'.order[k].tx == j;
      }
    }
  }

  lemma MoveKeepsSerial(calls: seq<Call>, db: Table, s: State, i: nat, pc: Pc)
    requires SerialInv(calls, db, s) && i < |calls| && !s.pcs[i].Finished? && !pc.Finished?
    ensures SerialInv(calls, db, At(s, i, pc))
  {
  }

  /** At its commit, a transaction has written what the whole transaction writes on the table of that moment. */
  lemma CommitIsAtomic(db: Table, c: Call, pc: Pc, delete: Option<int>, outcome: Outcome)
    requires pc.Active? && TxInv(db, c, pc)
    requires
      || (pc.stage.Wiped? && delete == pc.stage.delete && outcome == Reused(pc.row.uid))
      || (pc.stage.Inserted? && outcome == Granted(pc.row.uid))
      || (pc.stage.Marked? && c.Use? && pc.row.usedAt.None? && outcome == Granted(pc.row.uid))
    ensures Exec(db, c, Times(pc.select, pc.update, delete)) == Result(Overlay(db, pc.writes), outcome)
  {
    var t := Exec(db, c, Times(pc.select, pc.update, delete)).table;
    var u := Overlay(db, pc.writes);
    assert Find(db, c.tok, pc.select) == Some(pc.row);
    forall k ensures k in t <==> k in u {
      assert pc.stage.Wiped? ==> (k in pc.writes <==> k == c.tok || InWipeOf(db, k, pc.row.uid, pc.stage.delete));
    }
    forall k | k in t ensures t[k] == u[k] {
      assert pc.stage.Wiped? ==> (k in pc.writes <==> k == c.tok || InWipeOf(db, k, pc.row.uid, pc.stage.delete));
    }
    assert t == u;
  }

  lemma CommitKeepsSerial(calls: seq<Call>, db: Table, s: State, i: nat, outcome: Outcome, delete: Option<int>)
    requires LockInv(calls, s) && SerialInv(calls, db, s) && i < |calls| && s.pcs[i].Active?
    requires
      var pc := s.pcs[i];
      || (pc.stage.Wiped? && delete == pc.stage.delete && outcome == Reused(pc.row.uid))
      || (pc.stage.Inserted? && outcome == Granted(pc.row.uid))
      || (pc.stage.Marked? && calls[i].Use? && pc.row.usedAt.None? && outcome == Granted(pc.row.uid))
    ensures SerialInv(calls, db, Commit(s, i, outcome, delete))
  {
    var pc := s.pcs[i];
    CommitIsAtomic(s.db, calls[i], pc, delete, outcome);
    DecideKeepsSerial(calls, db, s, i, Overlay(s.db, pc.writes), outcome, Times(pc.select, pc.update, delete));
  }

  /** A statement that waits, goes on, or decides with what the whole transaction does. */
  ghost predicate DecidesAtomically(calls: seq<Call>, s: State, s': State, i: nat, times: Times)
    requires |s.pcs| == |s'.pcs| == |calls| && i < |calls|
  {
    var r := Exec(s.db, calls[i], times);
    || s' == s
    || (s'.pcs[i].Active? && s' == At(s, i, s'.pcs[i]))
    || s' == Decide(s.(db := r.table), i, r.outcome, times)
  }

  lemma BeginIsAtomic(calls: seq<Call>, s: State, i: nat, now: int)
    requires |s.pcs| == |calls| && i < |calls| && s.pcs[i].Ready?
    ensures DecidesAtomically(calls, s, Begin(calls, s, i, now), i, Times(now, now, Some(now)))
  {
  }

  lemma AtomicKeepsSerial(calls: seq<Call>, db: Table, s: State, s': State, i: nat, times: Times)
    requires SerialInv(calls, db, s) && |s'.pcs| == |calls| && i < |calls| && !s.pcs[i].Finished?
    requires DecidesAtomically(calls, s, s', i, times)
    ensures SerialInv(calls, db, s')
  {
    var r := Exec(s.db, calls[i], times);
    if s' == Decide(s.(db := r.table), i, r.outcome, times) {
      DecideKeepsSerial(calls, db, s, i, r.table, r.outcome, times);
    } else if s' != s {
      MoveKeepsSerial(calls, db, s, i, s'.pcs[i]);
    }
  }

  lemma BeginKeepsSerial(calls: seq<Call>, db: Table, s: State, i: nat, now: int)
    requires SerialInv(calls, db, s) && i < |calls| && s.pcs[i].Ready?
    ensures SerialInv(calls, db, Begin(calls, s, i, now))
  {
    BeginIsAtomic(calls, s, i, now);
    AtomicKeepsSerial(calls, db, s, Begin(calls, s, i, now), i, Times(now, now, Some(now)));
  }

  lemma AfterMarkKeepsSerial(calls: seq<Call>, db: Table, s: State, i: nat, now: int)
    requires LockInv(calls, s) && SerialInv(calls, db, s) && i < |calls| && s.pcs[i].Active? && s.pcs[i].stage.Marked?
    ensures SerialInv(calls, db, AfterMark(calls, s, i, now))
  {
    var s', c, pc := AfterMark(calls, s, i, now), calls[i], s.pcs[i];
    assert TxInv(s.db, c, pc);
    if s' != s {
      if pc.row.usedAt.None? && c.Use? {
        CommitKeepsSerial(calls, db, s, i, Granted(pc.row.uid), Some(now));
      } else if s'.pcs[i].Finished? {
        var view, times := Overlay(s.db, pc.writes), Times(pc.select, pc.update, Some(now));
        assert view == MarkUsed(s.db, c.tok, pc.update);
        assert Exec(s.db, c, times) == Result(s.db, Failed);
        DecideKeepsSerial(calls, db, s, i, s.db, Failed, times);
      } else {
        MoveKeepsSerial(calls, db, s, i, s'.pcs[i]);
      }
    }
  }

  lemma NextKeepsSerial(calls: seq<Call>, db: Table, s: State, step: Step)
    requires LockInv(calls, s) && SerialInv(calls, db, s)
    ensures SerialInv(calls, db, Next(calls, s, step))
  {
    var s', i := Next(calls, s, step), step.tx;
    if s' != s {
      var pc := s.pcs[i];
      if !step.Advance? {
        MoveKeepsSerial(calls, db, s, i, s'.pcs[i]);
      } else if pc.Ready? {
        BeginKeepsSerial(calls, db, s, i, step.now);
      } else if pc.stage.Selected? {
        MoveKeepsSerial(calls, db, s, i, s'.pcs[i]);
      } else if pc.stage.Marked? {
        AfterMarkKeepsSerial(calls, db, s, i, step.now);
      } else if pc.stage.Wiped? {
        CommitKeepsSerial(calls, db, s, i, Reused(pc.row.uid), pc.stage.delete);
      } else {
        CommitKeepsSerial(calls, db, s, i, Granted(pc.row.uid), Some(step.now));
      }
    }
  }

  lemma {:induction false} ResumeKeeps(calls: seq<Call>, db: Table, s: State, steps: seq<Step>)
    requires LockInv(calls, s) && SerialInv(calls, db, s)
    ensures LockInv(calls, Resume(calls, s, steps)) && SerialInv(calls, db, Resume(calls, s, steps))
    decreases |steps|
  {
    if steps != [] {
      NextKeepsLocks(calls, s, steps[0]);
      NextKeepsSerial(calls, db, s, steps[0]);
      ResumeKeeps(calls, db, Next(calls, s, steps[0]), steps[1..]);
    }
  }

  /**
    Every concurrent run is serialisable: running the decided transactions one after another,
    in the order recorded, gives the same table, and gives each of them the same answer;
    each finished transaction is in the order once, and no unfinished or rolled-back one is.
   */
  lemma RunsAreSerializable(calls: seq<Call>, db: Table, steps: seq<Step>)
    ensures LockInv(calls, Run(calls, db, steps))
    ensures SerialInv(calls, db, Run(calls, db, steps))
  {
    StartLocks(calls, db);
    ResumeKeeps(calls, db, Start(calls, db), steps);
  }

  /** The steps of transaction 0 when nothing interrupts it. */
  function Uninterrupted(times: Times): seq<Step> {
    var third := if times.delete.Some? then Advance(0, times.delete.value) else DeleteFails(0);
    [Advance(0, times.select), Advance(0, times.update), third, Advance(0, times.update), Advance(0, times.update)]
  }

  lemma FirstStep(calls: seq<Call>, s: State, steps: seq<Step>, rest: seq<Step>)
    requires |s.pcs| == |calls| && steps != [] && rest == steps[1..]
    ensures Resume(calls, s, steps) == Resume(calls, Next(calls, s, steps[0]), rest)
  {
  }

  lemma TwoSteps(calls: seq<Call>, s: State, steps: seq<Step>, rest: seq<Step>)
    requires |s.pcs| == |calls| && |steps| >= 2 && rest == steps[2..]
    ensures Resume(calls, s, steps) == Resume(calls, Next(calls, Next(calls, s, steps[0]), steps[1]), rest)
  {
    FirstStep(calls, s, steps, steps[1..]);
    FirstStep(calls, Next(calls, s, steps[0]), steps[1..], rest);
  }

  /** Up to its second-to-last statement, an uninterrupted transaction has left the table alone. */
  lemma AloneMarks(c: Call, db: Table, times: Times) returns (s: State)
    requires c.Use? || c.Rotate?
    ensures s == Next([c], Next([c], Start([c], db), Uninterrupted(times)[0]), Uninterrupted(times)[1])
    ensures LockInv([c], s) && s.db == db
    ensures match Find(db, c.tok, times.select)
            case None => s.pcs == [Finished(NoRows)]
            case Some(row) =>
              var mark: Writes := map[c.tok := Some(row.(usedAt := Some(times.update)))];
              s.pcs == [Active(Marked, row, times.select, times.update, mark)]
  {
    var steps := Uninterrupted(times);
    var s0 := Start([c], db);
    var s1 := Next([c], s0, steps[0]);
    s := Next([c], s1, steps[1]);
    StartLocks([c], db);
    NextKeepsLocks([c], s0, steps[0]);
    NextKeepsLocks([c], s1, steps[1]);
  }

  lemma NobodyElse(c: Call, s: State)
    requires |s.pcs| == 1
    ensures forall uid, now :: !WipeWaits([c], s, 0, uid, now)
    ensures forall tok, uid, exp :: !InsertWaits([c], s, 0, tok, uid, exp)
  {
  }

  lemma {:induction false} FinishedStays(calls: seq<Call>, s: State, steps: seq<Step>)
    requires |s.pcs| == |calls| && forall pc | pc in s.pcs :: pc.Finished?
    ensures Resume(calls, s, steps) == s
    decreases |steps|
  {
    if steps != [] {
      assert steps[0].tx < |calls| ==> s.pcs[steps[0].tx].Finished?;
      FinishedStays(calls, s, steps[1..]);
    }
  }

  /** After its mark, an uninterrupted transaction ends as the whole transaction. */
  lemma AloneEnds(c: Call, s: State, times: Times)
    requires LockInv([c], s) && s.pcs[0].Active? && s.pcs[0].stage.Marked?
    requires s.pcs[0].select == times.select && s.pcs[0].update == times.update
    ensures var steps, r := Uninterrupted(times), Exec(s.db, c, times);
            var e := Resume([c], s, steps[2..]);
            e.db == r.table && e.pcs == [Finished(r.outcome)]
  {
    var steps := Uninterrupted(times);
    var last := Advance(0, times.update);
    TwoSteps([c], s, steps[2..], [last]);
    FirstStep([c], Next([c], Next([c], s, steps[2]), last), [last], []);
    var s3 := Next([c], s, steps[2]);
    var pc := s.pcs[0];
    NobodyElse(c, s);
    NextKeepsLocks([c], s, steps[2]);
    assert TxInv(s.db, c, pc) && TxInv(s3.db, c, s3.pcs[0]);
    if pc.row.usedAt.Some? {
      CommitIsAtomic(s.db, c, s3.pcs[0], times.delete, Reused(pc.row.uid));
    } else {
      AloneGrants(c, s, times, steps[2]);
    }
  }

  /** The granted or failed end: the delete's clock reading does not matter. */
  lemma AloneGrants(c: Call, s: State, times: Times, third: Step)
    requires LockInv([c], s) && s.pcs[0].Active? && s.pcs[0].stage.Marked? && s.pcs[0].row.usedAt.None?
    requires s.pcs[0].select == times.select && s.pcs[0].update == times.update
    requires !third.Rollback? && third.tx == 0
    ensures var last, r := Advance(0, times.update), Exec(s.db, c, times);
            var e := Next([c], Next([c], Next([c], s, third), last), last);
            e.db == r.table && e.pcs == [Finished(r.outcome)]
  {
    var pc := s.pcs[0];
    NobodyElse(c, s);
    assert TxInv(s.db, c, pc);
    if c.Use? {
      CommitIsAtomic(s.db, c, pc, times.delete, Granted(pc.row.uid));
    } else if c.newTok in s.db {
      assert c.newTok in Overlay(s.db, pc.writes);
      assert Exec(s.db, c, times) == Result(s.db, Failed);
    } else {
      var inserted := pc.(stage := Inserted, writes := pc.writes[c.newTok := Some(Row(pc.row.uid, c.newExp, None))]);
      assert AfterMark([c], s, 0, times.update) == At(s, 0, inserted);
      assert TxInv(s.db, c, inserted);
      CommitIsAtomic(s.db, c, inserted, times.delete, Granted(pc.row.uid));
    }
  }

  /** A transaction that nothing interrupts runs to its end and is the whole transaction. */
  lemma AloneIsWhole(c: Call, db: Table, times: Times)
    requires c.Use? || c.Rotate?
    ensures var s, r := Run([c], db, Uninterrupted(times)), Exec(db, c, times);
            s.db == r.table && s.pcs == [Finished(r.outcome)]
  {
    var steps := Uninterrupted(times);
    var s2 := AloneMarks(c, db, times);
    TwoSteps([c], Start([c], db), steps, steps[2..]);
    if s2.pcs[0].Active? {
      AloneEnds(c, s2, times);
    } else {
      FinishedStays([c], s2, steps[2..]);
    }
  }

  // ----- One rotation per token -----

  /** Random tokens are drawn once and are not in the table to begin with. */
  ghost predicate FreshDraws(calls: seq<Call>, db: Table) {
    && (forall i, j | 0 <= i < j < |calls| && Minted(calls[j]).Some? :: Minted(calls[i]) != Minted(calls[j]))
    && (forall i | 0 <= i < |calls| && Minted(calls[i]).Some? :: Minted(calls[i]).value !in db)
  }

  ghost predicate ValidOrder(calls: seq<Call>, order: seq<Entry>) {
    && (forall k | 0 <= k < |order| :: order[k].tx < |calls|)
    && (forall k, m | 0 <= k < m < |order| :: order[k].tx != order[m].tx)
  }

  lemma {:induction false} SerialOrigin(calls: seq<Call>, db: Table, order: seq<Entry>, tok: Token)
    requires ValidOrder(calls, order) && tok in Serial(calls, db, order)
    ensures tok in db || exists k :: 0 <= k < |order| && Minted(calls[order[k].tx]) == Some(tok)
  {
    if order != [] {
      var n := |order| - 1;
      if tok in Serial(calls, db, order[..n]) {
        SerialOrigin(calls, db, order[..n], tok);
        if tok !in db {
          var k :| 0 <= k < n && Minted(calls[order[..n][k].tx]) == Some(tok);
          assert Minted(calls[order[k].tx]) == Some(tok);
        }
      } else {
        assert Minted(calls[order[n].tx]) == Some(tok);
      }
    }
  }

  predicate Spent(t: Table, tok: Token) {
    tok in t ==> t[tok].usedAt.Some?
  }

  lemma ExecKeepsSpent(t: Table, c: Call, times: Times, tok: Token)
    requires Spent(t, tok) && Minted(c) != Some(tok)
    ensures Spent(Exec(t, c, times).table, tok)
  {
  }

  lemma {:induction false} StaysSpent(calls: seq<Call>, db: Table, order: seq<Entry>, k: nat, tok: Token)
    requires ValidOrder(calls, order) && k <= |order| && Spent(Serial(calls, db, order[..k]), tok)
    requires forall m | k <= m < |order| :: Minted(calls[order[m].tx]) != Some(tok)
    ensures Spent(Serial(calls, db, order), tok)
    decreases |order|
  {
    if k == |order| {
      assert order[..k] == order;
    } else {
      var n := |order| - 1;
      assert order[..n][..k] == order[..k];
      StaysSpent(calls, db, order[..n], k, tok);
      ExecKeepsSpent(Serial(calls, db, order[..n]), calls[order[n].tx], order[n].times, tok);
    }
  }

  predicate Presents(c: Call, tok: Token) {
    (c.Use? || c.Rotate?) && c.tok == tok
  }

  lemma GrantedIsSpent(t: Table, c: Call, times: Times, tok: Token)
    requires Presents(c, tok) && Exec(t, c, times).outcome.Granted? && Minted(c) != Some(tok)
    ensures Spent(Exec(t, c, times).table, tok)
  {
  }

  lemma SpentIsNotGranted(t: Table, c: Call, times: Times, tok: Token)
    requires Presents(c, tok) && Spent(t, tok)
    ensures !Exec(t, c, times).outcome.Granted?
  {
  }

  /** A token presented and found by transaction `k` of the order is not minted from there on. */
  lemma TokenIsOld(calls: seq<Call>, db: Table, order: seq<Entry>, k: nat, tok: Token)
    requires ValidOrder(calls, order) && FreshDraws(calls, db) && k < |order|
    requires tok in Serial(calls, db, order[..k])
    ensures forall x | k <= x < |order| :: Minted(calls[order[x].tx]) != Some(tok)
  {
    SerialOrigin(calls, db, order[..k], tok);
  }

  /** In a serial order, two presentations of one token are not both granted. */
  lemma GrantedOnceInOrder(calls: seq<Call>, db: Table, order: seq<Entry>, k: nat, m: nat, tok: Token)
    requires ValidOrder(calls, order) && FreshDraws(calls, db) && k < m < |order|
    requires Presents(calls[order[k].tx], tok) && Presents(calls[order[m].tx], tok)
    requires SerialOutcome(calls, db, order, k).Granted?
    ensures !SerialOutcome(calls, db, order, m).Granted?
  {
    var front := order[..k];
    TokenIsOld(calls, db, order, k, tok);
    GrantedIsSpent(Serial(calls, db, front), calls[order[k].tx], order[k].times, tok);
    assert order[..m][..k + 1] == order[..k + 1] && order[..k + 1][..k] == front;
    StaysSpent(calls, db, order[..m], k + 1, tok);
    SpentIsNotGranted(Serial(calls, db, order[..m]), calls[order[m].tx], order[m].times, tok);
  }

  lemma GrantedOnceAt(calls: seq<Call>, db: Table, s: State, k: nat, m: nat, tok: Token)
    requires SerialInv(calls, db, s) && FreshDraws(calls, db) && k < |s.order| && m < |s.order|
    requires s.order[k].tx != s.order[m].tx
    requires Presents(calls[s.order[k].tx], tok) && Presents(calls[s.order[m].tx], tok)
    ensures !(s.pcs[s.order[k].tx].outcome.Granted? && s.pcs[s.order[m].tx].outcome.Granted?)
  {
    assert ValidOrder(calls, s.order);
    if SerialOutcome(calls, db, s.order, k).Granted? && SerialOutcome(calls, db, s.order, m).Granted? {
      if k < m {
        GrantedOnceInOrder(calls, db, s.order, k, m, tok);
      } else {
        GrantedOnceInOrder(calls, db, s.order, m, k, tok);
      }
    }
  }

  lemma PlaceInOrder(calls: seq<Call>, db: Table, s: State, i: nat) returns (k: nat)
    requires SerialInv(calls, db, s) && i < |calls| && s.pcs[i].Finished?
    ensures k < |s.order| && s.order[k].tx == i
  {
    k :| 0 <= k < |s.order| && s.order[k].tx == i;
  }

  /**
    Of all concurrent uses and rotations of one token, at most one is granted, whatever the
    interleaving, the waits, the rollbacks and the clock readings.
   */
  lemma RotatedAtMostOnce(calls: seq<Call>, db: Table, steps: seq<Step>, i: nat, j: nat, tok: Token)
    requires FreshDraws(calls, db) && i < |calls| && j < |calls| && i != j
    requires Presents(calls[i], tok) && Presents(calls[j], tok)
    ensures var s := Run(calls, db, steps);
            !(s.pcs[i].Finished? && s.pcs[i].outcome.Granted? && s.pcs[j].Finished? && s.pcs[j].outcome.Granted?)
  {
    RunsAreSerializable(calls, db, steps);
    var s := Run(calls, db, steps);
    if s.pcs[i].Finished? && s.pcs[j].Finished? {
      var k := PlaceInOrder(calls, db, s, i);
      var m := PlaceInOrder(calls, db, s, j);
      GrantedOnceAt(calls, db, s, k, m, tok);
    }
  }
}
