/** Concurrent rotations that a wipe does not reach, with a clock that never goes back. */
module RotationOvertaking {
  import opened Wrappers
  import opened RefreshTokens
  import opened RotationLocks

  /** The clock readings of `steps` start at `now` or later and never go back. */
  predicate InTime(steps: seq<Step>, now: int)
    decreases |steps|
  {
    steps == []
    || (if steps[0].Advance? then now <= steps[0].now && InTime(steps[1..], steps[0].now) else InTime(steps[1..], now))
  }

  lemma {:induction false} ResumeTwice(calls: seq<Call>, s: State, a: seq<Step>, b: seq<Step>)
    requires |s.pcs| == |calls|
    ensures Resume(calls, s, a + b) == Resume(calls, Resume(calls, s, a), b)
    decreases |a|
  {
    if a == [] {
      assert a + b == b;
    } else {
      assert (a + b)[1..] == a[1..] + b;
      ResumeTwice(calls, Next(calls, s, a[0]), a[1..], b);
    }
  }

  // ----- A run in which a family survives its wipe -----

  /** Rotating "A" overtakes the wipe that reusing "B" sets off. */
  const Overtaking: seq<Call> := [Use("B"), Rotate("A", "N", 50)]
  const Overtaken: Table := map["A" := Row(1, 5, None), "B" := Row(1, 100, Some(0))]
  const FirstHalf: seq<Step> := [Advance(1, 1), Advance(0, 2), Advance(0, 3), Advance(0, 6)]
  const SecondHalf: seq<Step> := [Advance(0, 6), Advance(1, 7), Advance(1, 8), Advance(1, 9)]

  const Rotating := Active(Selected, Row(1, 5, None), 1, 1, map[])
  const BothSelected := [Active(Selected, Row(1, 100, Some(0)), 2, 2, map[]), Rotating]
  const Wiping := [Active(Wiped(Some(6)), Row(1, 100, Some(0)), 2, 3, map["B" := None]), Rotating]

  lemma BothSelect()
    ensures var s := Start(Overtaking, Overtaken);
            Next(Overtaking, Next(Overtaking, s, FirstHalf[0]), FirstHalf[1]) == State(Overtaken, BothSelected, [])
  {
    var s0 := Start(Overtaking, Overtaken);
    var s1 := Next(Overtaking, s0, FirstHalf[0]);
    assert s1 == At(s0, 1, Rotating);
    assert Next(Overtaking, s1, FirstHalf[1]) == At(s1, 0, BothSelected[0]);
  }

  lemma ReuseWipes()
    ensures Next(Overtaking, Next(Overtaking, State(Overtaken, BothSelected, []), FirstHalf[2]), FirstHalf[3])
         == State(Overtaken, Wiping, [])
  {
    var s2 := State(Overtaken, BothSelected, []);
    var s3 := Next(Overtaking, s2, FirstHalf[2]);
    var marked := Row(1, 100, Some(3));
    assert s3 == At(s2, 0, Active(Marked, Row(1, 100, Some(0)), 2, 3, map["B" := Some(marked)]));
    assert !WipeWaits(Overtaking, s3, 0, 1, 6);
    var mine: Writes, victims: Writes := map["B" := Some(marked)], map["B" := None];
    assert Victims(Overlay(Overtaken, mine), 1, 6) == victims && mine + victims == victims;
    assert Next(Overtaking, s3, FirstHalf[3]) == At(s3, 0, Wiping[0]);
  }

  lemma WipeIsPending()
    ensures Resume(Overtaking, Start(Overtaking, Overtaken), FirstHalf) == State(Overtaken, Wiping, [])
  {
    BothSelect();
    ReuseWipes();
    TwoSteps(Overtaking, Start(Overtaking, Overtaken), FirstHalf, FirstHalf[2..]);
    TwoSteps(Overtaking, State(Overtaken, BothSelected, []), FirstHalf[2..], []);
  }

  lemma ReuseCommits()
    ensures Next(Overtaking, State(Overtaken, Wiping, []), SecondHalf[0])
         == State(map["A" := Row(1, 5, None)], [Finished(Reused(1)), Rotating], [Entry(0, Times(2, 3, Some(6)))])
  {
    var s4 := State(Overtaken, Wiping, []);
    assert Overlay(Overtaken, map["B" := None]) == map["A" := Row(1, 5, None)];
    assert Next(Overtaking, s4, SecondHalf[0]).pcs == [Finished(Reused(1)), Rotating];
  }

  const Lone := State(map["A" := Row(1, 5, None)], [Finished(Reused(1)), Rotating], [Entry(0, Times(2, 3, Some(6)))])

  lemma RotationFinishes()
    ensures var e := Resume(Overtaking, Lone, SecondHalf[1..]);
            && e.pcs == [Finished(Reused(1)), Finished(Granted(1))]
            && e.db.Keys == {"A", "N"} && e.db["N"] == Row(1, 50, None)
  {
    var c := Overtaking[1];
    var marked, minted := Row(1, 5, Some(7)), Row(1, 50, None);
    var s6 := Next(Overtaking, Lone, SecondHalf[1]);
    assert s6 == At(Lone, 1, Active(Marked, Row(1, 5, None), 1, 7, map["A" := Some(marked)]));
    var s7 := Next(Overtaking, s6, SecondHalf[2]);
    assert !InsertWaits(Overtaking, s6, 1, "N", 1, 50);
    assert s7 == At(s6, 1, Active(Inserted, Row(1, 5, None), 1, 7, map["A" := Some(marked), "N" := Some(minted)]));
    TwoSteps(Overtaking, Lone, SecondHalf[1..], SecondHalf[3..]);
    FirstStep(Overtaking, s7, SecondHalf[3..], []);
  }

  /**
    With a clock that never goes back, a reuse detection for user 1 commits its wipe, and the
    rotation of a token that user 1 had before is granted after it and leaves a new token.
   */
  lemma RotationOvertakesWipe()
    ensures InTime(FirstHalf + SecondHalf, 0) && FreshDraws(Overtaking, Overtaken)
    ensures Run(Overtaking, Overtaken, FirstHalf + SecondHalf[..1]).pcs[0] == Finished(Reused(1))
    ensures Run(Overtaking, Overtaken, FirstHalf + SecondHalf[..1]).pcs[1].Active?
    ensures var e := Run(Overtaking, Overtaken, FirstHalf + SecondHalf);
            e.pcs[1] == Finished(Granted(1)) && "N" in e.db && e.db["N"] == Row(1, 50, None)
  {
    var s0, s4 := Start(Overtaking, Overtaken), State(Overtaken, Wiping, []);
    WipeIsPending();
    ReuseCommits();
    RotationFinishes();
    ResumeTwice(Overtaking, s0, FirstHalf, SecondHalf[..1]);
    ResumeTwice(Overtaking, s0, FirstHalf, SecondHalf);
    FirstStep(Overtaking, s4, SecondHalf[..1], []);
    FirstStep(Overtaking, s4, SecondHalf, SecondHalf[1..]);
    RisingReadings();
    DrawsAreFresh();
  }

  lemma DrawsAreFresh()
    ensures FreshDraws(Overtaking, Overtaken)
  {
    assert Minted(Overtaking[0]) == None && Minted(Overtaking[1]) == Some("N");
  }

  lemma RisingReadings()
    ensures InTime(FirstHalf + SecondHalf, 0)
  {
    var steps := FirstHalf + SecondHalf;
    assert InTime(steps[8..], 9);
    assert InTime(steps[6..], 7) by { assert steps[6..][1..] == steps[7..] && steps[7..][1..] == steps[8..]; }
    assert InTime(steps[4..], 6) by { assert steps[4..][1..] == steps[5..] && steps[5..][1..] == steps[6..]; }
    assert InTime(steps[2..], 2) by { assert steps[2..][1..] == steps[3..] && steps[3..][1..] == steps[4..]; }
    assert InTime(steps, 0) by { assert steps[1..][1..] == steps[2..]; }
  }

  // ----- Which transactions overtake a wipe -----

  /** Transaction `w` has wiped the family of `uid` at clock reading `del` and has not ended yet. */
  predicate HasWiped(s: State, w: nat, uid: int, del: int) {
    && w < |s.pcs| && s.pcs[w].Active?
    && s.pcs[w].stage == Wiped(Some(del)) && s.pcs[w].row.uid == uid
  }

  /** `tok` was given to `uid` by state `s`: it is in the first table, or a finished transaction minted it. */
  ghost predicate GivenTo(calls: seq<Call>, db: Table, s: State, tok: Token, uid: int)
    requires |s.pcs| == |calls|
  {
    || (tok in db && db[tok].uid == uid)
    || exists j :: 0 <= j < |calls| && Minted(calls[j]) == Some(tok) && s.pcs[j] == Finished(Granted(uid))
  }

  /** No transaction that may still write mints `tok`. */
  ghost predicate NeverMintedAgain(calls: seq<Call>, s: State, tok: Token)
    requires |s.pcs| == |calls|
  {
    forall j | 0 <= j < |calls| && Minted(calls[j]) == Some(tok) :: s.pcs[j].Finished?
  }

  lemma MintedOnce(calls: seq<Call>, db: Table, j: nat, k: nat)
    requires FreshDraws(calls, db) && j < |calls| && k < |calls|
    requires Minted(calls[j]).Some? && Minted(calls[j]) == Minted(calls[k])
    ensures j == k
  {
  }

  lemma GivenIsOld(calls: seq<Call>, db: Table, s: State, tok: Token, uid: int)
    requires |s.pcs| == |calls| && FreshDraws(calls, db) && GivenTo(calls, db, s, tok, uid)
    ensures NeverMintedAgain(calls, s, tok)
  {
    if tok !in db {
      var j :| 0 <= j < |calls| && Minted(calls[j]) == Some(tok) && s.pcs[j] == Finished(Granted(uid));
      forall k | 0 <= k < |calls| && Minted(calls[k]) == Some(tok) ensures k == j {
        MintedOnce(calls, db, j, k);
      }
    }
  }

  /** Every row belongs to the user that its token was given to. */
  lemma {:induction false} SerialOwner(calls: seq<Call>, db: Table, order: seq<Entry>, tok: Token)
    requires ValidOrder(calls, order) && tok in Serial(calls, db, order)
    ensures var uid := Serial(calls, db, order)[tok].uid;
            || (tok in db && db[tok].uid == uid)
            || exists k :: 0 <= k < |order| && Minted(calls[order[k].tx]) == Some(tok)
                           && SerialOutcome(calls, db, order, k) == Granted(uid)
  {
    if order != [] {
      var n := |order| - 1;
      var front := order[..n];
      var t, c, times := Serial(calls, db, front), calls[order[n].tx], order[n].times;
      ExecKeepsOwner(t, c, times, tok);
      if Minted(c) == Some(tok) && Exec(t, c, times).outcome == Granted(Exec(t, c, times).table[tok].uid) {
        assert SerialOutcome(calls, db, order, n).Granted?;
      } else {
        SerialOwner(calls, db, front, tok);
        if !(tok in db && db[tok].uid == t[tok].uid) {
          var k :| 0 <= k < n && Minted(calls[front[k].tx]) == Some(tok)
                   && SerialOutcome(calls, db, front, k) == Granted(t[tok].uid);
          assert front[..k] == order[..k] && order[k] == front[k];
        }
      }
    }
  }

  lemma ExecKeepsOwner(t: Table, c: Call, times: Times, tok: Token)
    requires tok in Exec(t, c, times).table
    ensures var r := Exec(t, c, times);
            || (Minted(c) == Some(tok) && r.outcome == Granted(r.table[tok].uid))
            || (tok in t && t[tok].uid == r.table[tok].uid)
  {
  }

  /** The rows of a given token belong to its user. */
  lemma GivenOwner(calls: seq<Call>, db: Table, s: State, tok: Token, uid: int)
    requires SerialInv(calls, db, s) && FreshDraws(calls, db) && GivenTo(calls, db, s, tok, uid) && tok in s.db
    ensures s.db[tok].uid == uid
  {
    SerialOwner(calls, db, s.order, tok);
    var owner := s.db[tok].uid;
    if tok in db {
      forall j | 0 <= j < |calls| ensures Minted(calls[j]) != Some(tok) {
      }
    } else {
      var j :| 0 <= j < |calls| && Minted(calls[j]) == Some(tok) && s.pcs[j] == Finished(Granted(uid));
      var k :| 0 <= k < |s.order| && Minted(calls[s.order[k].tx]) == Some(tok)
               && SerialOutcome(calls, db, s.order, k) == Granted(owner);
      assert s.pcs[s.order[k].tx] == Finished(Granted(owner));
      MintedOnce(calls, db, j, s.order[k].tx);
    }
  }

  // ----- What cannot overtake -----

  lemma NextKeepsRow(calls: seq<Call>, s: State, step: Step, tok: Token)
    requires LockInv(calls, s) && NeverMintedAgain(calls, s, tok)
    ensures var s' := Next(calls, s, step);
            && NeverMintedAgain(calls, s', tok)
            && (tok in s'.db ==>
                  tok in s.db && s'.db[tok].uid == s.db[tok].uid && s'.db[tok].expiresAt == s.db[tok].expiresAt)
  {
    if step.tx < |calls| {
      assert TxInv(s.db, calls[step.tx], s.pcs[step.tx]);
    }
  }

  /** Given that the wipe at `del` is kept, transaction `i` cannot be granted any more. */
  predicate Grounded(s: State, i: nat)
    requires i < |s.pcs|
  {
    match s.pcs[i]
    case Active(_, row, _, _, _) => row.usedAt.Some?
    case Finished(outcome) => !outcome.Granted?
    case _ => true
  }

  /** The wipe is pending and locks the row of `tok`, or committed and has left only an expired one. */
  predicate WipeHolds(s: State, w: nat, tok: Token, uid: int, del: int)
    requires w < |s.pcs|
  {
    || (HasWiped(s, w, uid, del) && (tok in s.db ==> s.db[tok].uid == uid))
    || (s.pcs[w].Finished? && (tok in s.db ==> s.db[tok].expiresAt <= del))
  }

  lemma CommitKeepsWipe(calls: seq<Call>, s: State, w: nat, tok: Token, uid: int, del: int)
    requires LockInv(calls, s) && HasWiped(s, w, uid, del) && (tok in s.db ==> s.db[tok].uid == uid)
    ensures var db := Overlay(s.db, s.pcs[w].writes); tok in db ==> db[tok].expiresAt <= del
  {
    assert TxInv(s.db, calls[w], s.pcs[w]);
    assert InWipeOf(s.db, tok, uid, Some(del)) ==> tok in s.pcs[w].writes && s.pcs[w].writes[tok].None?;
  }

  lemma NextKeepsWipe(calls: seq<Call>, s: State, step: Step, w: nat, tok: Token, uid: int, del: int)
    requires LockInv(calls, s) && w < |calls| && NeverMintedAgain(calls, s, tok)
    requires WipeHolds(s, w, tok, uid, del)
    ensures var s' := Next(calls, s, step); s'.pcs[w].RolledBack? || WipeHolds(s', w, tok, uid, del)
  {
    if step.Advance? && step.tx == w && HasWiped(s, w, uid, del) {
      CommitKeepsWipe(calls, s, w, tok, uid, del);
    } else {
      NextKeepsRow(calls, s, step, tok);
    }
  }

  /** A row that the pending wipe covers is locked against transaction `i`. */
  lemma WipeLocks(calls: seq<Call>, s: State, w: nat, i: nat, tok: Token, uid: int, del: int)
    requires LockInv(calls, s) && w < |calls| && i < |calls| && i != w
    requires HasWiped(s, w, uid, del) && tok in s.db && s.db[tok].uid == uid && s.db[tok].expiresAt > del
    ensures tok in Locks(calls[w], s.pcs[w]) && LockedByOther(calls, s, i, tok)
  {
    assert TxInv(s.db, calls[w], s.pcs[w]) && InWipeOf(s.db, tok, uid, Some(del));
  }

  lemma BeginStaysGrounded(calls: seq<Call>, s: State, w: nat, i: nat, tok: Token, uid: int, del: int, now: int)
    requires LockInv(calls, s) && w < |calls| && i < |calls| && i != w && Presents(calls[i], tok)
    requires WipeHolds(s, w, tok, uid, del) && s.pcs[i].Ready? && del <= now
    ensures Grounded(Begin(calls, s, i, now), i)
  {
    if tok in s.db && s.db[tok].expiresAt > del {
      WipeLocks(calls, s, w, i, tok, uid, del);
    }
  }

  lemma NextKeepsGrounded(calls: seq<Call>, s: State, step: Step, w: nat, i: nat, tok: Token, uid: int, del: int)
    requires LockInv(calls, s) && w < |calls| && i < |calls| && i != w && Presents(calls[i], tok)
    requires WipeHolds(s, w, tok, uid, del) && Grounded(s, i)
    requires step.Advance? ==> del <= step.now
    ensures Grounded(Next(calls, s, step), i)
  {
    if step.tx == i && step.Advance? {
      if s.pcs[i].Ready? {
        BeginStaysGrounded(calls, s, w, i, tok, uid, del, step.now);
      } else {
        assert TxInv(s.db, calls[i], s.pcs[i]);
      }
    }
  }

  /** Nothing after the wipe grants transaction `i`, unless the wipe is rolled back. */
  ghost predicate CannotOvertake(calls: seq<Call>, s: State, w: nat, i: nat, tok: Token, uid: int, del: int) {
    && LockInv(calls, s) && w < |calls| && i < |calls| && i != w
    && Presents(calls[i], tok) && NeverMintedAgain(calls, s, tok)
    && (s.pcs[w].RolledBack? || (WipeHolds(s, w, tok, uid, del) && Grounded(s, i)))
  }

  lemma NextCannotOvertake(calls: seq<Call>, s: State, step: Step, w: nat, i: nat, tok: Token, uid: int, del: int)
    requires CannotOvertake(calls, s, w, i, tok, uid, del)
    requires step.Advance? ==> del <= step.now
    ensures CannotOvertake(calls, Next(calls, s, step), w, i, tok, uid, del)
  {
    NextKeepsLocks(calls, s, step);
    NextKeepsRow(calls, s, step, tok);
    if !s.pcs[w].RolledBack? {
      NextKeepsWipe(calls, s, step, w, tok, uid, del);
      NextKeepsGrounded(calls, s, step, w, i, tok, uid, del);
    }
  }

  lemma {:induction false} NeverOvertakes(calls: seq<Call>, s: State, steps: seq<Step>, w: nat, i: nat, tok: Token,
                                          uid: int, del: int, now: int)
    requires CannotOvertake(calls, s, w, i, tok, uid, del)
    requires InTime(steps, now) && del <= now
    ensures CannotOvertake(calls, Resume(calls, s, steps), w, i, tok, uid, del)
    decreases |steps|
  {
    if steps != [] {
      var later := if steps[0].Advance? then steps[0].now else now;
      NextCannotOvertake(calls, s, steps[0], w, i, tok, uid, del);
      NeverOvertakes(calls, Next(calls, s, steps[0]), steps[1..], w, i, tok, uid, del, later);
    }
  }

  // ----- What can -----

  /** Everybody but transaction `i`, among the first `n`, gives up. */
  function OthersLeave(n: nat, i: nat): (steps: seq<Step>)
    ensures forall step | step in steps :: step.Rollback?
  {
    if n == 0 then [] else OthersLeave(n - 1, i) + if n - 1 == i then [] else [Rollback(n - 1)]
  }

  /** From `s` to `e`, unfinished transactions other than `i` may have given up, and the first `n` have. */
  ghost predicate OthersGone(s: State, e: State, n: nat, i: nat)
    requires |s.pcs| == |e.pcs| && n <= |s.pcs| && i < |s.pcs|
  {
    && e.db == s.db && e.pcs[i] == s.pcs[i]
    && (forall j | 0 <= j < n && j != i :: !e.pcs[j].Active?)
    && (forall j | 0 <= j < |s.pcs| && s.pcs[j].Finished? :: e.pcs[j] == s.pcs[j])
  }

  lemma OneLeaves(calls: seq<Call>, s: State, e: State, j: nat, i: nat)
    requires |s.pcs| == |e.pcs| == |calls| && j < |calls| && i < |calls| && i != j && OthersGone(s, e, j, i)
    ensures OthersGone(s, Next(calls, e, Rollback(j)), j + 1, i)
  {
  }

  lemma {:induction false} OthersHaveLeft(calls: seq<Call>, s: State, n: nat, i: nat)
    requires LockInv(calls, s) && n <= |calls| && i < |calls|
    ensures var e := Resume(calls, s, OthersLeave(n, i)); LockInv(calls, e) && OthersGone(s, e, n, i)
  {
    if n > 0 {
      OthersHaveLeft(calls, s, n - 1, i);
      if n - 1 != i {
        var e, leave := Resume(calls, s, OthersLeave(n - 1, i)), Rollback(n - 1);
        OneLeaves(calls, s, e, n - 1, i);
        NextKeepsLocks(calls, e, leave);
        ResumeTwice(calls, s, OthersLeave(n - 1, i), [leave]);
        FirstStep(calls, e, [leave], []);
      } else {
        assert OthersLeave(n, i) == OthersLeave(n - 1, i);
      }
    }
  }

  /** Nobody is in the way of transaction `i`, which is granted or has an unused row. */
  ghost predicate CanFinish(calls: seq<Call>, s: State, i: nat, uid: int) {
    && LockInv(calls, s) && i < |calls|
    && (forall j | 0 <= j < |calls| && j != i :: !s.pcs[j].Active?)
    && (s.pcs[i] == Finished(Granted(uid))
        || (s.pcs[i].Active? && s.pcs[i].row.usedAt.None? && s.pcs[i].row.uid == uid
            && (calls[i].Rotate? ==> calls[i].newTok !in s.db)))
  }

  function StatementsLeft(pc: Pc): nat {
    if !pc.Active? then 0 else if pc.stage.Selected? then 3 else if pc.stage.Marked? then 2 else 1
  }

  lemma NextCanFinish(calls: seq<Call>, s: State, i: nat, uid: int, now: int)
    requires CanFinish(calls, s, i, uid)
    ensures var s' := Next(calls, s, Advance(i, now));
            && CanFinish(calls, s', i, uid)
            && (StatementsLeft(s.pcs[i]) > 0 ==> StatementsLeft(s'.pcs[i]) < StatementsLeft(s.pcs[i]))
            && s'.pcs == s.pcs[i := s'.pcs[i]]
  {
    NextKeepsLocks(calls, s, Advance(i, now));
    assert TxInv(s.db, calls[i], s.pcs[i]);
  }

  lemma Finishes(calls: seq<Call>, s: State, i: nat, uid: int, now: int)
    requires CanFinish(calls, s, i, uid)
    ensures var a := Advance(i, now);
            Resume(calls, s, [a, a, a]).pcs == s.pcs[i := Finished(Granted(uid))]
  {
    var a := Advance(i, now);
    var s1 := Next(calls, s, a);
    var s2 := Next(calls, s1, a);
    NextCanFinish(calls, s, i, uid, now);
    NextCanFinish(calls, s1, i, uid, now);
    NextCanFinish(calls, s2, i, uid, now);
    TwoSteps(calls, s, [a, a, a], [a]);
    FirstStep(calls, s2, [a], []);
  }

  lemma {:induction false} SteadyIsInTime(steps: seq<Step>, now: int)
    requires forall step | step in steps && step.Advance? :: step.now == now
    ensures InTime(steps, now)
    decreases |steps|
  {
    if steps != [] {
      SteadyIsInTime(steps[1..], now);
    }
  }

  /** From state `s`, within the clock, the wipe is committed and transaction `i` is granted. */
  ghost predicate Overtakes(calls: seq<Call>, s: State, w: nat, i: nat, uid: int, steps: seq<Step>, now: int)
    requires |s.pcs| == |calls| && w < |calls| && i < |calls|
  {
    var e := Resume(calls, s, steps);
    InTime(steps, now) && e.pcs[w] == Finished(Reused(uid)) && e.pcs[i] == Finished(Granted(uid))
  }

  lemma WipeCommits(calls: seq<Call>, s: State, w: nat, uid: int, del: int, now: int)
    requires LockInv(calls, s) && HasWiped(s, w, uid, del)
    ensures var s' := Next(calls, s, Advance(w, now));
            LockInv(calls, s') && s'.pcs == s.pcs[w := Finished(Reused(uid))] && s'.db.Keys <= s.db.Keys
  {
    assert TxInv(s.db, calls[w], s.pcs[w]);
    NextKeepsLocks(calls, s, Advance(w, now));
  }

  /** The wipe commits, the others give up, and transaction `i` goes on to its end. */
  function Overtake(n: nat, w: nat, i: nat, now: int): (steps: seq<Step>)
    ensures forall step | step in steps && step.Advance? :: step.now == now
  {
    [Advance(w, now)] + (OthersLeave(n, i) + [Advance(i, now), Advance(i, now), Advance(i, now)])
  }

  lemma OvertakeInParts(calls: seq<Call>, s: State, n: nat, w: nat, i: nat, now: int)
    requires |s.pcs| == |calls|
    ensures var s1, a := Next(calls, s, Advance(w, now)), Advance(i, now);
            Resume(calls, s, Overtake(n, w, i, now)) == Resume(calls, Resume(calls, s1, OthersLeave(n, i)), [a, a, a])
  {
    var a := Advance(i, now);
    FirstStep(calls, s, Overtake(n, w, i, now), OthersLeave(n, i) + [a, a, a]);
    ResumeTwice(calls, Next(calls, s, Advance(w, now)), OthersLeave(n, i), [a, a, a]);
  }

  lemma UnusedOvertakes(calls: seq<Call>, s: State, w: nat, i: nat, uid: int, del: int, now: int)
    requires LockInv(calls, s) && HasWiped(s, w, uid, del) && i < |calls| && i != w
    requires s.pcs[i].Active? && s.pcs[i].row.usedAt.None? && s.pcs[i].row.uid == uid
    requires calls[i].Rotate? ==> calls[i].newTok !in s.db
    ensures Overtakes(calls, s, w, i, uid, Overtake(|calls|, w, i, now), now)
  {
    var s1 := Next(calls, s, Advance(w, now));
    WipeCommits(calls, s, w, uid, del, now);
    OthersHaveLeft(calls, s1, |calls|, i);
    Finishes(calls, Resume(calls, s1, OthersLeave(|calls|, i)), i, uid, now);
    OvertakeInParts(calls, s, |calls|, w, i, now);
    SteadyIsInTime(Overtake(|calls|, w, i, now), now);
  }

  /** The row of a transaction that is past its SELECT had expired when the pending wipe read the clock. */
  lemma ActiveRowHadExpired(calls: seq<Call>, db: Table, s: State, w: nat, i: nat, uid: int, del: int)
    requires LockInv(calls, s) && SerialInv(calls, db, s) && FreshDraws(calls, db)
    requires HasWiped(s, w, uid, del) && i < |calls| && i != w
    requires s.pcs[i].Active? && GivenTo(calls, db, s, calls[i].tok, uid)
    ensures s.pcs[i].row.uid == uid && s.pcs[i].select < s.pcs[i].row.expiresAt <= del
  {
    var tok := calls[i].tok;
    assert TxInv(s.db, calls[i], s.pcs[i]) && PairInv(calls[i], s.pcs[i], calls[w], s.pcs[w]);
    GivenOwner(calls, db, s, tok, uid);
    if s.pcs[i].row.expiresAt > del {
      WipeLocks(calls, s, w, i, tok, uid, del);
    }
  }

  lemma UnfinishedIsNotOrdered(calls: seq<Call>, db: Table, s: State, i: nat)
    requires SerialInv(calls, db, s) && i < |calls| && !s.pcs[i].Finished?
    ensures ValidOrder(calls, s.order) && forall k | 0 <= k < |s.order| :: s.order[k].tx != i
  {
    forall k | 0 <= k < |s.order| ensures s.order[k].tx != i {
      assert s.pcs[s.order[k].tx].Finished?;
    }
  }

  lemma MintIsNotInTable(calls: seq<Call>, db: Table, order: seq<Entry>, i: nat, tok: Token)
    requires FreshDraws(calls, db) && ValidOrder(calls, order) && i < |calls| && Minted(calls[i]) == Some(tok)
    requires forall k | 0 <= k < |order| :: order[k].tx != i
    ensures tok !in Serial(calls, db, order)
  {
    forall k | 0 <= k < |order| ensures Minted(calls[order[k].tx]) != Some(tok) {
      if Minted(calls[order[k].tx]) == Some(tok) {
        MintedOnce(calls, db, i, order[k].tx);
      }
    }
    if tok in Serial(calls, db, order) {
      SerialOrigin(calls, db, order, tok);
    }
  }

  /**
    A reuse detection for `uid` has run its wipe at clock reading `del`, in any concurrent run,
    and the clock does not go back behind it.  Once the wipe commits, a transaction presenting
    a token that was given to `uid` before can be granted exactly if it had already selected
    the row, unused; that row had then expired when the wipe read the clock.
   */
  lemma OvertakesIff(calls: seq<Call>, db: Table, before: seq<Step>, w: nat, i: nat, uid: int, del: int, now: int)
    requires FreshDraws(calls, db) && w < |calls| && i < |calls| && i != w && del <= now
    requires var s := Run(calls, db, before);
             && HasWiped(s, w, uid, del) && !s.pcs[i].Finished?
             && (calls[i].Use? || calls[i].Rotate?) && GivenTo(calls, db, s, calls[i].tok, uid)
    ensures var s := Run(calls, db, before);
            && ((exists steps :: Overtakes(calls, s, w, i, uid, steps, now))
                <==> s.pcs[i].Active? && s.pcs[i].row.usedAt.None?)
            && (s.pcs[i].Active? ==> s.pcs[i].select < s.pcs[i].row.expiresAt <= del)
  {
    var s, tok := Run(calls, db, before), calls[i].tok;
    RunsAreSerializable(calls, db, before);
    GivenIsOld(calls, db, s, tok, uid);
    if s.pcs[i].Active? {
      ActiveRowHadExpired(calls, db, s, w, i, uid, del);
    }
    if s.pcs[i].Active? && s.pcs[i].row.usedAt.None? {
      if calls[i].Rotate? {
        UnfinishedIsNotOrdered(calls, db, s, i);
        MintIsNotInTable(calls, db, s.order, i, calls[i].newTok);
      }
      UnusedOvertakes(calls, s, w, i, uid, del, now);
    } else {
      if tok in s.db {
        GivenOwner(calls, db, s, tok, uid);
      }
      forall steps ensures !Overtakes(calls, s, w, i, uid, steps, now) {
        if InTime(steps, now) {
          NeverOvertakes(calls, s, steps, w, i, tok, uid, del, now);
        }
      }
    }
  }
}
