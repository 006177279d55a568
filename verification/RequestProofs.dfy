/**
  What every interleaved run of the note requests guarantees: one execution per
  idempotency key, replies that agree, claims that answer from the history, and retries
  that leave no trace.
 */
module RequestProofs {
  import opened Wrappers
  import opened NoteRequests
  import Store = NotesStore
  import Idem = IdempotencyStore

  // ----- The history of a key -----

  predicate Claims(reqs: seq<Request>, e: Event, slot: Idem.Slot) {
    e.Claimed? && e.rid < |reqs| && SlotOf(reqs[e.rid]) == slot
  }

  /** The request that first won the claim on `slot`. */
  function Winner(reqs: seq<Request>, log: seq<Event>, slot: Idem.Slot): Option<nat> {
    if log == [] then None
    else
      var before := Winner(reqs, log[..|log| - 1], slot);
      if before.Some? then before
      else if Claims(reqs, log[|log| - 1], slot) then Some(log[|log| - 1].rid)
      else None
  }

  predicate StoresFor(reqs: seq<Request>, e: Event, slot: Idem.Slot) {
    e.Stored? && e.rid < |reqs| && SlotOf(reqs[e.rid]) == slot
  }

  /** The body that the first completion of `slot` stored. */
  function StoredBody(reqs: seq<Request>, log: seq<Event>, slot: Idem.Slot): Option<string> {
    if log == [] then None
    else
      var before := StoredBody(reqs, log[..|log| - 1], slot);
      if before.Some? then before
      else if StoresFor(reqs, log[|log| - 1], slot) then Some(log[|log| - 1].body)
      else None
  }

  lemma HistoryGrows(reqs: seq<Request>, log: seq<Event>, e: Event, slot: Idem.Slot)
    ensures Winner(reqs, log + [e], slot)
            == (if Winner(reqs, log, slot).Some? then Winner(reqs, log, slot)
                else if Claims(reqs, e, slot) then Some(e.rid) else None)
    ensures StoredBody(reqs, log + [e], slot)
            == (if StoredBody(reqs, log, slot).Some? then StoredBody(reqs, log, slot)
                else if StoresFor(reqs, e, slot) then Some(e.body) else None)
  {
    assert (log + [e])[..|log|] == log;
  }

  /** The winner is a request of the slot whose claim is logged; without a winner there is no such claim. */
  lemma {:induction false} WinnerIsLogged(reqs: seq<Request>, log: seq<Event>, slot: Idem.Slot)
    ensures var o := Winner(reqs, log, slot);
            o.Some? ==> o.value < |reqs| && SlotOf(reqs[o.value]) == slot && Claimed(o.value) in log
    ensures Winner(reqs, log, slot).None? ==> forall e | e in log :: !Claims(reqs, e, slot)
    ensures var b := StoredBody(reqs, log, slot);
            b.Some? ==> exists e :: e in log && StoresFor(reqs, e, slot) && e.body == b.value
  {
    if log != [] {
      WinnerIsLogged(reqs, log[..|log| - 1], slot);
      assert log == log[..|log| - 1] + [log[|log| - 1]];
    }
  }

  // ----- The invariant -----

  predicate InFlight(pc: Pc) {
    pc.Mutating? || pc.Reading? || pc.Erasing? || pc.Completing?
  }

  /** The row of a slot is what its history says. */
  ghost predicate SlotInv(cfg: Config, w: World, slot: Idem.Slot)
    requires |w.pcs| == |cfg.reqs|
  {
    var owner := Winner(cfg.reqs, w.log, slot);
    && (slot in w.idem <==> owner.Some?)
    && (slot in w.idem ==>
          var row, o := w.idem[slot], owner.value;
          && o < |cfg.reqs| && Keyed(cfg.reqs[o]) && SlotOf(cfg.reqs[o]) == slot
          && row.bodyHash == HashOf(cfg.codec, cfg.reqs[o])
          && StoredBody(cfg.reqs, w.log, slot) == row.resultText
          && (row.resultText.Some? <==> row.completedAt.Some?)
          && (InFlight(w.pcs[o]) || w.pcs[o].Done?)
          && (row.resultText.Some? ==> w.pcs[o] == Done(Ok(row.resultText.value))))
    && (slot !in w.idem ==> StoredBody(cfg.reqs, w.log, slot) == None)
  }

  /** A keyed request past its claim is the winner; a keyed request that answered 200 agrees with the row. */
  ghost predicate RequestInv(cfg: Config, w: World, rid: nat)
    requires |w.pcs| == |cfg.reqs| && rid < |cfg.reqs|
  {
    var r, pc := cfg.reqs[rid], w.pcs[rid];
    Keyed(r) ==>
      && (InFlight(pc) ==> Winner(cfg.reqs, w.log, SlotOf(r)) == Some(rid))
      && (pc.Done? && pc.reply.Ok? && Winner(cfg.reqs, w.log, SlotOf(r)) != Some(rid) ==>
            && SlotOf(r) in w.idem
            && w.idem[SlotOf(r)].resultText == Some(pc.reply.body)
            && w.idem[SlotOf(r)].bodyHash == HashOf(cfg.codec, r))
  }

  /** Claims are won by distinct slots; executions belong to winners and happen once. */
  ghost predicate EventInv(cfg: Config, w: World, e: Event)
    requires |w.pcs| == |cfg.reqs|
  {
    && e.rid < |cfg.reqs|
    && (e.Claimed? ==> Keyed(cfg.reqs[e.rid]) && Winner(cfg.reqs, w.log, SlotOf(cfg.reqs[e.rid])) == Some(e.rid))
    && (e.Began? ==>
          && !w.pcs[e.rid].Arrived? && !w.pcs[e.rid].Probing? && !w.pcs[e.rid].Mutating?
          && (Keyed(cfg.reqs[e.rid]) ==> Winner(cfg.reqs, w.log, SlotOf(cfg.reqs[e.rid])) == Some(e.rid)))
  }

  ghost predicate Inv(cfg: Config, w: World) {
    && |w.pcs| == |cfg.reqs|
    && (forall slot :: SlotInv(cfg, w, slot))
    && (forall rid: nat | rid < |cfg.reqs| :: RequestInv(cfg, w, rid))
    && (forall e | e in w.log :: EventInv(cfg, w, e))
    && (forall i, j | 0 <= i < j < |w.log| && w.log[i].Began? && w.log[j].Began? :: w.log[i].rid != w.log[j].rid)
  }

  lemma StartInv(cfg: Config, notes: Store.Table)
    ensures Inv(cfg, Start(cfg, notes))
  {
    var w := Start(cfg, notes);
    forall slot ensures SlotInv(cfg, w, slot) {}
    forall rid: nat | rid < |cfg.reqs| ensures RequestInv(cfg, w, rid) {
      assert w.pcs[rid] == Arrived;
    }
  }

  lemma HistoryUnmoved(reqs: seq<Request>, log: seq<Event>, e: Event)
    requires !e.Claimed?
    ensures forall slot :: Winner(reqs, log + [e], slot) == Winner(reqs, log, slot)
    ensures !e.Stored? ==> forall slot :: StoredBody(reqs, log + [e], slot) == StoredBody(reqs, log, slot)
  {
    forall slot
      ensures Winner(reqs, log + [e], slot) == Winner(reqs, log, slot)
      ensures !e.Stored? ==> StoredBody(reqs, log + [e], slot) == StoredBody(reqs, log, slot)
    {
      HistoryGrows(reqs, log, e, slot);
    }
  }

  /** A step that only moves one request's counter, to a place that its history allows. */
  lemma MoveKeepsInv(cfg: Config, w: World, v: World, rid: nat)
    requires Inv(cfg, w) && rid < |cfg.reqs|
    requires |v.pcs| == |w.pcs| && v.pcs == w.pcs[rid := v.pcs[rid]] && v.idem == w.idem && v.log == w.log
    requires !w.pcs[rid].Arrived? ==> !v.pcs[rid].Arrived? && !v.pcs[rid].Mutating?
    requires w.pcs[rid].Done? ==> v.pcs[rid] == w.pcs[rid]
    requires InFlight(w.pcs[rid]) ==> InFlight(v.pcs[rid]) || v.pcs[rid].Done?
    requires !w.pcs[rid].Arrived? && !w.pcs[rid].Probing? ==> !v.pcs[rid].Probing?
    requires RequestInv(cfg, v, rid)
    ensures Inv(cfg, v)
  {
    forall slot ensures SlotInv(cfg, v, slot) {
      assert SlotInv(cfg, w, slot);
    }
    forall i: nat | i < |cfg.reqs| ensures RequestInv(cfg, v, i) {
      assert RequestInv(cfg, w, i);
    }
    forall e | e in v.log ensures EventInv(cfg, v, e) {
      assert EventInv(cfg, w, e);
    }
  }

  lemma HistoryWon(cfg: Config, log: seq<Event>, rid: nat)
    requires rid < |cfg.reqs| && Winner(cfg.reqs, log, SlotOf(cfg.reqs[rid])) == None
    ensures forall slot :: Winner(cfg.reqs, log + [Claimed(rid)], slot)
                           == if slot == SlotOf(cfg.reqs[rid]) then Some(rid) else Winner(cfg.reqs, log, slot)
    ensures forall slot :: StoredBody(cfg.reqs, log + [Claimed(rid)], slot) == StoredBody(cfg.reqs, log, slot)
  {
    var e := Claimed(rid);
    forall slot
      ensures Winner(cfg.reqs, log + [e], slot)
              == if slot == SlotOf(cfg.reqs[rid]) then Some(rid) else Winner(cfg.reqs, log, slot)
      ensures StoredBody(cfg.reqs, log + [e], slot) == StoredBody(cfg.reqs, log, slot)
    {
      HistoryGrows(cfg.reqs, log, e, slot);
    }
  }

  lemma WinKeepsInv(cfg: Config, w: World, rid: nat, row: Idem.Row, v: World)
    requires Inv(cfg, w) && rid < |cfg.reqs| && w.pcs[rid].Arrived? && Keyed(cfg.reqs[rid])
    requires SlotOf(cfg.reqs[rid]) !in w.idem
    requires row.bodyHash == HashOf(cfg.codec, cfg.reqs[rid]) && row.resultText.None? && row.completedAt.None?
    requires v == World(w.notes, w.idem[SlotOf(cfg.reqs[rid]) := row], w.pcs[rid := Mutating], w.log + [Claimed(rid)])
    ensures Inv(cfg, v)
  {
    assert SlotInv(cfg, w, SlotOf(cfg.reqs[rid]));
    HistoryWon(cfg, w.log, rid);
    forall slot ensures SlotInv(cfg, v, slot) {
      assert SlotInv(cfg, w, slot);
    }
    forall i: nat | i < |cfg.reqs| ensures RequestInv(cfg, v, i) {
      assert RequestInv(cfg, w, i);
    }
    forall f | f in v.log ensures EventInv(cfg, v, f) {
      assert f in w.log ==> EventInv(cfg, w, f);
    }
  }

  lemma ClaimKeepsInv(cfg: Config, w: World, a: Action)
    requires Inv(cfg, w) && a.Advance? && a.rid < |cfg.reqs| && w.pcs[a.rid].Arrived? && a.fault != Idem.AtCommit
    ensures Inv(cfg, StepArrived(cfg, w, a))
  {
    var r, v := cfg.reqs[a.rid], StepArrived(cfg, w, a);
    if v.log == w.log {
      MoveKeepsInv(cfg, w, v, a.rid);
    } else {
      assert SlotOf(r) !in w.idem;
      WinKeepsInv(cfg, w, a.rid, RowFor(cfg.codec, r, a.path, a.now), v);
    }
  }

  lemma ProbeKeepsInv(cfg: Config, w: World, a: Action)
    requires Inv(cfg, w) && a.Advance? && a.rid < |cfg.reqs| && w.pcs[a.rid].Probing?
    ensures Inv(cfg, StepProbing(cfg, w, a))
  {
    assert SlotInv(cfg, w, SlotOf(cfg.reqs[a.rid]));
    MoveKeepsInv(cfg, w, StepProbing(cfg, w, a), a.rid);
  }

  /** What entering the repository does to the bookkeeping. */
  ghost predicate Begins(cfg: Config, w: World, v: World, rid: nat) {
    && |w.pcs| == |v.pcs| == |cfg.reqs| && rid < |cfg.reqs| && w.pcs[rid].Mutating?
    && v.idem == w.idem && v.log == w.log + [Began(rid)] && v.pcs == w.pcs[rid := v.pcs[rid]]
    && (v.pcs[rid].Reading? || v.pcs[rid].Erasing? || (v.pcs[rid].Done? && !v.pcs[rid].reply.Ok?))
  }

  lemma MutatingBegins(cfg: Config, w: World, a: Action)
    requires |w.pcs| == |cfg.reqs| && a.Advance? && a.rid < |cfg.reqs| && w.pcs[a.rid].Mutating?
    ensures Begins(cfg, w, StepMutating(cfg, w, a), a.rid)
  {
  }

  lemma BeginKeepsEvents(cfg: Config, w: World, v: World, rid: nat)
    requires Inv(cfg, w) && Begins(cfg, w, v, rid)
    requires forall slot :: Winner(cfg.reqs, v.log, slot) == Winner(cfg.reqs, w.log, slot)
    ensures forall e | e in v.log :: EventInv(cfg, v, e)
    ensures forall i, j | 0 <= i < j < |v.log| && v.log[i].Began? && v.log[j].Began? :: v.log[i].rid != v.log[j].rid
  {
    assert RequestInv(cfg, w, rid);
    forall e | e in v.log ensures EventInv(cfg, v, e) {
      assert e in w.log ==> EventInv(cfg, w, e);
    }
    forall i | 0 <= i < |w.log| && w.log[i].Began? ensures w.log[i].rid != rid {
      assert EventInv(cfg, w, w.log[i]);
    }
  }

  lemma BeginKeepsRows(cfg: Config, w: World, v: World, rid: nat)
    requires Inv(cfg, w) && Begins(cfg, w, v, rid)
    requires forall slot :: Winner(cfg.reqs, v.log, slot) == Winner(cfg.reqs, w.log, slot)
    requires forall slot :: StoredBody(cfg.reqs, v.log, slot) == StoredBody(cfg.reqs, w.log, slot)
    ensures forall slot :: SlotInv(cfg, v, slot)
    ensures forall i: nat | i < |cfg.reqs| :: RequestInv(cfg, v, i)
  {
    forall slot ensures SlotInv(cfg, v, slot) {
      assert SlotInv(cfg, w, slot);
    }
    forall i: nat | i < |cfg.reqs| ensures RequestInv(cfg, v, i) {
      assert RequestInv(cfg, w, i);
    }
  }

  lemma MutateKeepsInv(cfg: Config, w: World, a: Action)
    requires Inv(cfg, w) && a.Advance? && a.rid < |cfg.reqs| && w.pcs[a.rid].Mutating?
    ensures Inv(cfg, StepMutating(cfg, w, a))
  {
    var v := StepMutating(cfg, w, a);
    MutatingBegins(cfg, w, a);
    HistoryUnmoved(cfg.reqs, w.log, Began(a.rid));
    BeginKeepsEvents(cfg, w, v, a.rid);
    BeginKeepsRows(cfg, w, v, a.rid);
  }

  lemma CompleteKeepsInv(cfg: Config, w: World, a: Action, body: string)
    requires Inv(cfg, w) && a.Advance? && a.rid < |cfg.reqs| && w.pcs[a.rid] == Completing(body)
    requires Keyed(cfg.reqs[a.rid])
    ensures Inv(cfg, StepCompleting(cfg, w, a, body))
  {
    var v, slot0 := StepCompleting(cfg, w, a, body), SlotOf(cfg.reqs[a.rid]);
    assert RequestInv(cfg, w, a.rid);
    if v.log == w.log {
      MoveKeepsInv(cfg, w, v, a.rid);
    } else {
      var e := Stored(a.rid, body);
      HistoryUnmoved(cfg.reqs, w.log, e);
      assert SlotInv(cfg, w, slot0);
      forall slot ensures SlotInv(cfg, v, slot) {
        assert SlotInv(cfg, w, slot);
        HistoryGrows(cfg.reqs, w.log, e, slot);
      }
      forall i: nat | i < |cfg.reqs| ensures RequestInv(cfg, v, i) {
        assert RequestInv(cfg, w, i);
      }
      forall f | f in v.log ensures EventInv(cfg, v, f) {
        assert f in w.log ==> EventInv(cfg, w, f);
      }
    }
  }

  /** Only keyed requests have a completion to run. */
  ghost predicate CompletingAreKeyed(cfg: Config, w: World)
    requires |w.pcs| == |cfg.reqs|
  {
    forall rid | 0 <= rid < |cfg.reqs| && w.pcs[rid].Completing? :: Keyed(cfg.reqs[rid])
  }

  lemma StepKeepsInv(cfg: Config, w: World, a: Action)
    requires Inv(cfg, w) && CompletingAreKeyed(cfg, w)
    requires a.Advance? ==> a.fault != Idem.AtCommit
    ensures Inv(cfg, Step(cfg, w, a)) && CompletingAreKeyed(cfg, Step(cfg, w, a))
  {
    var v := Step(cfg, w, a);
    if a.Other? || a.rid >= |cfg.reqs| {
      forall slot ensures SlotInv(cfg, v, slot) { assert SlotInv(cfg, w, slot); }
      forall i: nat | i < |cfg.reqs| ensures RequestInv(cfg, v, i) { assert RequestInv(cfg, w, i); }
      forall e | e in v.log ensures EventInv(cfg, v, e) { assert EventInv(cfg, w, e); }
    } else {
      assert RequestInv(cfg, w, a.rid);
      match w.pcs[a.rid] {
        case Arrived => ClaimKeepsInv(cfg, w, a);
        case Probing => ProbeKeepsInv(cfg, w, a);
        case Mutating => MutateKeepsInv(cfg, w, a);
        case Completing(body) => CompleteKeepsInv(cfg, w, a, body);
        case _ => MoveKeepsInv(cfg, w, v, a.rid);
      }
    }
  }

  lemma {:induction false} RunKeepsInv(cfg: Config, notes: Store.Table, actions: seq<Action>)
    requires CommitsSucceed(actions)
    ensures Inv(cfg, Run(cfg, Start(cfg, notes), actions))
    ensures CompletingAreKeyed(cfg, Run(cfg, Start(cfg, notes), actions))
  {
    if actions == [] {
      StartInv(cfg, notes);
    } else {
      var n := |actions| - 1;
      RunKeepsInv(cfg, notes, actions[..n]);
      assert actions[n] in actions;
      StepKeepsInv(cfg, Run(cfg, Start(cfg, notes), actions[..n]), actions[n]);
    }
  }

  // ----- Replies come from executions -----

  /** The request is past its entry into the repository, or answered 200 as nobody's retry. */
  ghost predicate MustHaveBegun(cfg: Config, w: World, rid: nat)
    requires |w.pcs| == |cfg.reqs| && rid < |cfg.reqs|
  {
    var r, pc := cfg.reqs[rid], w.pcs[rid];
    || pc.Reading? || pc.Erasing? || pc.Completing?
    || (pc.Done? && pc.reply.Ok? && (!Keyed(r) || Winner(cfg.reqs, w.log, SlotOf(r)) == Some(rid)))
  }

  ghost predicate ExecInv(cfg: Config, w: World, rid: nat)
    requires |w.pcs| == |cfg.reqs| && rid < |cfg.reqs|
  {
    && (w.pcs[rid].Probing? ==> Keyed(cfg.reqs[rid]))
    && (MustHaveBegun(cfg, w, rid) ==> Began(rid) in w.log)
  }

  /** A step logs at most one event, of the request that made it. */
  predicate LogsAtMostOne(log: seq<Event>, log': seq<Event>, rid: nat) {
    log' == log || (|log'| == |log| + 1 && log' == log + [log'[|log|]] && log'[|log|].rid == rid)
  }

  lemma StepLogs(cfg: Config, w: World, a: Action)
    requires |w.pcs| == |cfg.reqs|
    ensures var v := Step(cfg, w, a);
            && (if a.Other? then v.log == w.log else LogsAtMostOne(w.log, v.log, a.rid))
            && (a.Advance? && a.rid < |cfg.reqs| ==> v.pcs == w.pcs[a.rid := v.pcs[a.rid]])
            && (a.Other? || a.rid >= |cfg.reqs| ==> v.pcs == w.pcs)
  {
  }

  lemma OtherRequestsExec(cfg: Config, w: World, v: World, a: Action, rid: nat)
    requires |w.pcs| == |v.pcs| == |cfg.reqs| && rid < |cfg.reqs| && ExecInv(cfg, w, rid)
    requires v.pcs[rid] == w.pcs[rid]
    requires v.log == w.log || (a.Advance? && a.rid != rid && LogsAtMostOne(w.log, v.log, a.rid))
    ensures ExecInv(cfg, v, rid)
  {
    if v.log != w.log {
      HistoryGrows(cfg.reqs, w.log, v.log[|w.log|], SlotOf(cfg.reqs[rid]));
    }
  }

  /** A retry that reads its answer from the table is not the winner. */
  lemma ProberHasNotWon(cfg: Config, w: World, rid: nat)
    requires Inv(cfg, w) && rid < |cfg.reqs| && w.pcs[rid].Probing?
    ensures Winner(cfg.reqs, w.log, SlotOf(cfg.reqs[rid])) != Some(rid)
  {
    assert SlotInv(cfg, w, SlotOf(cfg.reqs[rid]));
  }

  lemma OwnStepExec(cfg: Config, w: World, a: Action)
    requires Inv(cfg, w) && a.Advance? && a.rid < |cfg.reqs| && ExecInv(cfg, w, a.rid)
    ensures ExecInv(cfg, Step(cfg, w, a), a.rid)
  {
    var v := Step(cfg, w, a);
    StepLogs(cfg, w, a);
    if w.pcs[a.rid].Probing? {
      ProberHasNotWon(cfg, w, a.rid);
      assert v == StepProbing(cfg, w, a) && v.log == w.log;
    } else if w.pcs[a.rid].Mutating? {
      MutatingBegins(cfg, w, a);
      assert v == StepMutating(cfg, w, a) && v.log[|w.log|] == Began(a.rid);
    } else if w.pcs[a.rid].Arrived? {
      assert v == StepArrived(cfg, w, a);
    }
  }

  lemma {:induction false} RunExecutes(cfg: Config, notes: Store.Table, actions: seq<Action>)
    requires CommitsSucceed(actions)
    ensures forall rid: nat | rid < |cfg.reqs| :: ExecInv(cfg, Run(cfg, Start(cfg, notes), actions), rid)
  {
    if actions == [] {
      assert forall rid: nat | rid < |cfg.reqs| :: Start(cfg, notes).pcs[rid] == Arrived;
    } else {
      var n := |actions| - 1;
      var w, a := Run(cfg, Start(cfg, notes), actions[..n]), actions[n];
      RunExecutes(cfg, notes, actions[..n]);
      RunKeepsInv(cfg, notes, actions[..n]);
      StepLogs(cfg, w, a);
      forall rid: nat | rid < |cfg.reqs| ensures ExecInv(cfg, Step(cfg, w, a), rid) {
        if a.Advance? && a.rid == rid {
          OwnStepExec(cfg, w, a);
        } else {
          OtherRequestsExec(cfg, w, Step(cfg, w, a), a, rid);
        }
      }
    }
  }

  // ----- Executions, whatever becomes of the commits -----

  predicate BeforeEntry(pc: Pc) {
    pc.Arrived? || pc.Probing? || pc.Mutating?
  }

  /** Each request executes at most once, and only with a well-formed body. */
  ghost predicate BeginInv(cfg: Config, w: World) {
    && |w.pcs| == |cfg.reqs|
    && (forall rid | 0 <= rid < |cfg.reqs| && w.pcs[rid].Mutating? :: WellFormedBody(cfg.codec, cfg.reqs[rid]))
    && (forall e | e in w.log && e.Began? ::
          e.rid < |cfg.reqs| && WellFormedBody(cfg.codec, cfg.reqs[e.rid]) && !BeforeEntry(w.pcs[e.rid]))
    && (forall i, j | 0 <= i < j < |w.log| && w.log[i].Began? && w.log[j].Began? :: w.log[i].rid != w.log[j].rid)
  }

  /** How a step moves its own request, as far as entering the repository goes. */
  lemma StepEnters(cfg: Config, w: World, a: Action)
    requires |w.pcs| == |cfg.reqs| && a.Advance? && a.rid < |cfg.reqs|
    ensures var v := Step(cfg, w, a);
            && (v.pcs[a.rid].Mutating? ==> w.pcs[a.rid].Arrived? && WellFormedBody(cfg.codec, cfg.reqs[a.rid]))
            && (!BeforeEntry(w.pcs[a.rid]) ==> !BeforeEntry(v.pcs[a.rid]))
            && (v.log != w.log && v.log[|w.log|].Began? ==> w.pcs[a.rid].Mutating? && !BeforeEntry(v.pcs[a.rid]))
  {
    StepLogs(cfg, w, a);
  }

  lemma StepKeepsBegins(cfg: Config, w: World, a: Action)
    requires BeginInv(cfg, w)
    ensures BeginInv(cfg, Step(cfg, w, a))
  {
    StepLogs(cfg, w, a);
    if a.Advance? && a.rid < |cfg.reqs| {
      var v := Step(cfg, w, a);
      StepEnters(cfg, w, a);
      forall i | 0 <= i < |w.log| && w.log[i].Began? && w.pcs[a.rid].Mutating? ensures w.log[i].rid != a.rid {
        assert w.log[i] in w.log;
      }
    }
  }

  lemma {:induction false} RunKeepsBegins(cfg: Config, notes: Store.Table, actions: seq<Action>)
    ensures BeginInv(cfg, Run(cfg, Start(cfg, notes), actions))
  {
    if actions != [] {
      var n := |actions| - 1;
      RunKeepsBegins(cfg, notes, actions[..n]);
      StepKeepsBegins(cfg, Run(cfg, Start(cfg, notes), actions[..n]), actions[n]);
    }
  }

  // ----- Main results -----

  /**
    Under every interleaving, with any requests stopping anywhere and any other statement
    failing, each request enters the repository at most once, and of all requests with one
    (user, key) at most one does.
   */
  lemma AtMostOneExecution(cfg: Config, notes: Store.Table, actions: seq<Action>, i: nat, j: nat)
    requires CommitsSucceed(actions)
    requires var log := Run(cfg, Start(cfg, notes), actions).log;
             i < j < |log| && log[i].Began? && log[j].Began?
    ensures var log := Run(cfg, Start(cfg, notes), actions).log;
            && log[i].rid < |cfg.reqs| && log[j].rid < |cfg.reqs| && log[i].rid != log[j].rid
            && !(var p, q := cfg.reqs[log[i].rid], cfg.reqs[log[j].rid];
                 Keyed(p) && Keyed(q) && SlotOf(p) == SlotOf(q))
  {
    RunKeepsInv(cfg, notes, actions);
    var w := Run(cfg, Start(cfg, notes), actions);
    assert EventInv(cfg, w, w.log[i]) && EventInv(cfg, w, w.log[j]);
  }

  lemma RunOneMore(cfg: Config, w: World, actions: seq<Action>, a: Action)
    requires |w.pcs| == |cfg.reqs|
    ensures Run(cfg, w, actions + [a]) == Step(cfg, Run(cfg, w, actions), a)
  {
    assert (actions + [a])[..|actions|] == actions;
  }

  /** A lost winner: its claim's commit fails unseen, and it enters the repository. */
  function LostWinner(p: nat, path: string, now: int): seq<Action> {
    [Advance(p, path, now, Idem.AtCommit)] + [Advance(p, path, now, Idem.Clean)]
  }

  lemma LosesItsRow(cfg: Config, notes: Store.Table, p: nat, path: string, now: int)
    requires p < |cfg.reqs| && Keyed(cfg.reqs[p]) && WellFormedBody(cfg.codec, cfg.reqs[p])
    ensures var w := Step(cfg, Start(cfg, notes), Advance(p, path, now, Idem.AtCommit));
            && w.log == [Claimed(p)] && w.idem == map[] && w.pcs[p] == Mutating
            && forall q | 0 <= q < |cfg.reqs| && q != p :: w.pcs[q] == Arrived
  {
    assert Start(cfg, notes).pcs[p] == Arrived;
  }

  lemma LostWinnerLeavesNoRow(cfg: Config, notes: Store.Table, p: nat, path: string, now: int)
    requires p < |cfg.reqs| && Keyed(cfg.reqs[p]) && WellFormedBody(cfg.codec, cfg.reqs[p])
    ensures var w := Run(cfg, Start(cfg, notes), LostWinner(p, path, now));
            && w.log == [Claimed(p), Began(p)] && w.idem == map[]
            && forall q | 0 <= q < |cfg.reqs| && q != p :: w.pcs[q] == Arrived
  {
    var w0, a, b := Start(cfg, notes), Advance(p, path, now, Idem.AtCommit), Advance(p, path, now, Idem.Clean);
    RunOneMore(cfg, w0, [], a);
    assert [] + [a] == [a];
    RunOneMore(cfg, w0, [a], b);
    LosesItsRow(cfg, notes, p, path, now);
    MutatingBegins(cfg, Step(cfg, w0, a), b);
  }

  /**
    Without that assumption it fails for every key: lose the first winner's commit, which
    `Idem.Claim` ignores, and the next request with the same key executes as well.
   */
  lemma LostCommitRunsTwice(cfg: Config, notes: Store.Table, p: nat, q: nat, path: string, now: int)
    requires p < |cfg.reqs| && q < |cfg.reqs| && p != q
    requires Keyed(cfg.reqs[p]) && SlotOf(cfg.reqs[q]) == SlotOf(cfg.reqs[p])
    requires WellFormedBody(cfg.codec, cfg.reqs[p]) && WellFormedBody(cfg.codec, cfg.reqs[q])
    ensures var a := Advance(q, path, now, Idem.Clean);
            Run(cfg, Start(cfg, notes), LostWinner(p, path, now) + [a] + [a]).log
            == [Claimed(p), Began(p), Claimed(q), Began(q)]
  {
    var lost, a := LostWinner(p, path, now), Advance(q, path, now, Idem.Clean);
    LostWinnerLeavesNoRow(cfg, notes, p, path, now);
    RunOneMore(cfg, Start(cfg, notes), lost, a);
    RunOneMore(cfg, Start(cfg, notes), lost + [a], a);
    var w3 := Run(cfg, Start(cfg, notes), lost + [a]);
    assert w3.log == [Claimed(p), Began(p), Claimed(q)] && w3.pcs[q] == Mutating;
  }

  /** No two executions are of one request, or of two requests with one (user, key). */
  ghost predicate OncePerKey(cfg: Config, log: seq<Event>) {
    forall i, j | 0 <= i < j < |log| && log[i].Began? && log[j].Began? ::
      && log[i].rid < |cfg.reqs| && log[j].rid < |cfg.reqs| && log[i].rid != log[j].rid
      && !(Keyed(cfg.reqs[log[i].rid]) && Keyed(cfg.reqs[log[j].rid])
           && SlotOf(cfg.reqs[log[i].rid]) == SlotOf(cfg.reqs[log[j].rid]))
  }

  /** Two requests use one (user, key), and neither is refused for its body. */
  ghost predicate Twins(cfg: Config, p: nat, q: nat) {
    && p < |cfg.reqs| && q < |cfg.reqs| && p != q
    && Keyed(cfg.reqs[p]) && SlotOf(cfg.reqs[q]) == SlotOf(cfg.reqs[p])
    && WellFormedBody(cfg.codec, cfg.reqs[p]) && WellFormedBody(cfg.codec, cfg.reqs[q])
  }

  /** Every run is in order, where a `lossless` environment never loses a commit that `Idem.Claim` ignores. */
  ghost predicate AlwaysOncePerKey(cfg: Config, notes: Store.Table, lossless: bool) {
    forall actions: seq<Action> | lossless ==> CommitsSucceed(actions) ::
      OncePerKey(cfg, Run(cfg, Start(cfg, notes), actions).log)
  }

  lemma WithoutTwins(cfg: Config, notes: Store.Table, actions: seq<Action>)
    requires forall p: nat, q: nat :: !Twins(cfg, p, q)
    ensures OncePerKey(cfg, Run(cfg, Start(cfg, notes), actions).log)
  {
    RunKeepsBegins(cfg, notes, actions);
    var log := Run(cfg, Start(cfg, notes), actions).log;
    forall i, j | 0 <= i < j < |log| && log[i].Began? && log[j].Began?
      ensures log[i].rid < |cfg.reqs| && log[j].rid < |cfg.reqs| && log[i].rid != log[j].rid
      ensures !(Keyed(cfg.reqs[log[i].rid]) && Keyed(cfg.reqs[log[j].rid])
                && SlotOf(cfg.reqs[log[i].rid]) == SlotOf(cfg.reqs[log[j].rid]))
    {
      assert log[i] in log && log[j] in log;
      assert !Twins(cfg, log[i].rid, log[j].rid);
    }
  }

  lemma TwinsRunTwice(cfg: Config, notes: Store.Table, p: nat, q: nat)
    requires Twins(cfg, p, q)
    ensures !AlwaysOncePerKey(cfg, notes, false)
  {
    var a := Advance(q, "", 0, Idem.Clean);
    var actions := LostWinner(p, "", 0) + [a] + [a];
    LostCommitRunsTwice(cfg, notes, p, q, "", 0);
    var log := Run(cfg, Start(cfg, notes), actions).log;
    assert log[1] == Began(p) && log[3] == Began(q);
    assert !OncePerKey(cfg, log);
  }

  /**
    For any set of requests: every run executes each (user, key) at most once exactly if no
    ignored commit is ever lost, or no two of the requests compete for one key.
   */
  lemma OncePerKeyIff(cfg: Config, notes: Store.Table, lossless: bool)
    ensures AlwaysOncePerKey(cfg, notes, lossless) <==> lossless || forall p: nat, q: nat :: !Twins(cfg, p, q)
  {
    if lossless {
      forall actions: seq<Action> | CommitsSucceed(actions)
        ensures OncePerKey(cfg, Run(cfg, Start(cfg, notes), actions).log)
      {
        var log := Run(cfg, Start(cfg, notes), actions).log;
        forall i, j | 0 <= i < j < |log| && log[i].Began? && log[j].Began?
          ensures log[i].rid < |cfg.reqs| && log[j].rid < |cfg.reqs| && log[i].rid != log[j].rid
          ensures !(Keyed(cfg.reqs[log[i].rid]) && Keyed(cfg.reqs[log[j].rid])
                    && SlotOf(cfg.reqs[log[i].rid]) == SlotOf(cfg.reqs[log[j].rid]))
        {
          AtMostOneExecution(cfg, notes, actions, i, j);
        }
      }
    } else if p: nat, q: nat :| Twins(cfg, p, q) {
      TwinsRunTwice(cfg, notes, p, q);
    } else {
      forall actions: seq<Action> ensures OncePerKey(cfg, Run(cfg, Start(cfg, notes), actions).log) {
        WithoutTwins(cfg, notes, actions);
      }
    }
  }

  /**
    Every 200 body sent for one (user, key) is the same body, was asked for with one hash, and
    is the reply of the one request of that key that did enter the repository.
   */
  lemma RepliesAgree(cfg: Config, notes: Store.Table, actions: seq<Action>, p: nat, q: nat)
    requires CommitsSucceed(actions) && p < |cfg.reqs| && q < |cfg.reqs|
    requires Keyed(cfg.reqs[p]) && Keyed(cfg.reqs[q]) && SlotOf(cfg.reqs[p]) == SlotOf(cfg.reqs[q])
    requires var w := Run(cfg, Start(cfg, notes), actions);
             w.pcs[p].Done? && w.pcs[p].reply.Ok? && w.pcs[q].Done? && w.pcs[q].reply.Ok?
    ensures var w := Run(cfg, Start(cfg, notes), actions);
            w.pcs[p].reply.body == w.pcs[q].reply.body
    ensures HashOf(cfg.codec, cfg.reqs[p]) == HashOf(cfg.codec, cfg.reqs[q])
    ensures var w := Run(cfg, Start(cfg, notes), actions);
            var o := Winner(cfg.reqs, w.log, SlotOf(cfg.reqs[p]));
            && o.Some? && o.value < |cfg.reqs| && Began(o.value) in w.log
            && w.pcs[o.value] == w.pcs[p]
  {
    RunKeepsInv(cfg, notes, actions);
    RunExecutes(cfg, notes, actions);
    var w := Run(cfg, Start(cfg, notes), actions);
    WinnerRepliedSo(cfg, w, p);
    WinnerRepliedSo(cfg, w, q);
  }

  lemma WinnerRepliedSo(cfg: Config, w: World, p: nat)
    requires Inv(cfg, w) && p < |cfg.reqs| && Keyed(cfg.reqs[p]) && w.pcs[p].Done? && w.pcs[p].reply.Ok?
    requires forall rid: nat | rid < |cfg.reqs| :: ExecInv(cfg, w, rid)
    ensures var o := Winner(cfg.reqs, w.log, SlotOf(cfg.reqs[p]));
            && o.Some? && o.value < |cfg.reqs| && Began(o.value) in w.log
            && w.pcs[o.value] == w.pcs[p]
            && HashOf(cfg.codec, cfg.reqs[o.value]) == HashOf(cfg.codec, cfg.reqs[p])
  {
    var slot := SlotOf(cfg.reqs[p]);
    assert RequestInv(cfg, w, p) && SlotInv(cfg, w, slot);
    var o := Winner(cfg.reqs, w.log, slot).value;
    assert SlotOf(cfg.reqs[o]) == slot && Keyed(cfg.reqs[o]);
    assert ExecInv(cfg, w, o) && MustHaveBegun(cfg, w, o);
  }

  /**
    Two requests ask for the same: both are deletes, or both are PUTs whose bodies, cut at one
    mebibyte as those of keyed requests are, have the same checksum.
   */
  predicate SameAsked(codec: Codec, a: Request, b: Request) {
    if a.op.Put? && b.op.Put? then
      codec.sha(if |a.op.raw| > 0x10_0000 then a.op.raw[..0x10_0000] else a.op.raw)
      == codec.sha(if |b.op.raw| > 0x10_0000 then b.op.raw[..0x10_0000] else b.op.raw)
    else a.op.Delete? && b.op.Delete?
  }

  lemma SameHashIffSameAsked(codec: Codec, a: Request, b: Request)
    requires Keyed(a) && Keyed(b)
    ensures HashOf(codec, a) == HashOf(codec, b) <==> SameAsked(codec, a, b)
  {
    assert |HashOf(codec, a)| == if a.op.Put? then 64 else 6;
    assert |HashOf(codec, b)| == if b.op.Put? then 64 else 6;
  }

  /** Two PUTs of one (user, key) that are both answered 200 sent bodies with one checksum, as far as they are read. */
  lemma AnsweredPutsSentOneBody(cfg: Config, notes: Store.Table, actions: seq<Action>, p: nat, q: nat)
    requires CommitsSucceed(actions) && p < |cfg.reqs| && q < |cfg.reqs|
    requires cfg.reqs[p].key != "" && cfg.reqs[p].key == cfg.reqs[q].key && cfg.reqs[p].uid == cfg.reqs[q].uid
    requires cfg.reqs[p].op.Put? && cfg.reqs[q].op.Put?
    requires var w := Run(cfg, Start(cfg, notes), actions);
             w.pcs[p].Done? && w.pcs[p].reply.Ok? && w.pcs[q].Done? && w.pcs[q].reply.Ok?
    ensures var a, b := cfg.reqs[p].op.raw, cfg.reqs[q].op.raw;
            cfg.codec.sha(if |a| > 0x10_0000 then a[..0x10_0000] else a)
            == cfg.codec.sha(if |b| > 0x10_0000 then b[..0x10_0000] else b)
  {
    RepliesAgree(cfg, notes, actions, p, q);
    SameHashIffSameAsked(cfg.codec, cfg.reqs[p], cfg.reqs[q]);
  }

  /** A retry that asks for something else than the winner did is refused as a conflict. */
  lemma OtherRequestConflicts(cfg: Config, notes: Store.Table, actions: seq<Action>, a: Action, o: nat)
    requires CommitsSucceed(actions) && a.Advance? && a.rid < |cfg.reqs| && a.fault == Idem.Clean
    requires cfg.reqs[a.rid].key != "" && WellFormedBody(cfg.codec, cfg.reqs[a.rid])
    requires var w := Run(cfg, Start(cfg, notes), actions);
             w.pcs[a.rid].Probing? && Winner(cfg.reqs, w.log, SlotOf(cfg.reqs[a.rid])) == Some(o)
    ensures o < |cfg.reqs| && cfg.reqs[o].key == cfg.reqs[a.rid].key && cfg.reqs[o].uid == cfg.reqs[a.rid].uid
    ensures Step(cfg, Run(cfg, Start(cfg, notes), actions), a).pcs[a.rid] == Done(Conflict(false))
            <==> !SameAsked(cfg.codec, cfg.reqs[o], cfg.reqs[a.rid])
  {
    var w := Run(cfg, Start(cfg, notes), actions);
    WinnerIsLogged(cfg.reqs, w.log, SlotOf(cfg.reqs[a.rid]));
    ClaimIsHistoryOracle(cfg, notes, actions, a);
  }

  /** A PUT and a DELETE sharing a (user, key) are never both answered with 200. */
  lemma PutNeverReplaysDelete(cfg: Config, notes: Store.Table, actions: seq<Action>, p: nat, q: nat)
    requires CommitsSucceed(actions) && p < |cfg.reqs| && q < |cfg.reqs|
    requires Keyed(cfg.reqs[p]) && Keyed(cfg.reqs[q]) && SlotOf(cfg.reqs[p]) == SlotOf(cfg.reqs[q])
    requires cfg.reqs[p].op.Put? && cfg.reqs[q].op.Delete?
    ensures var w := Run(cfg, Start(cfg, notes), actions);
            !(w.pcs[p].Done? && w.pcs[p].reply.Ok? && w.pcs[q].Done? && w.pcs[q].reply.Ok?)
  {
    var w := Run(cfg, Start(cfg, notes), actions);
    assert |HashOf(cfg.codec, cfg.reqs[p])| == 64 && |HashOf(cfg.codec, cfg.reqs[q])| == 6;
    if w.pcs[p].Done? && w.pcs[p].reply.Ok? && w.pcs[q].Done? && w.pcs[q].reply.Ok? {
      RepliesAgree(cfg, notes, actions, p, q);
    }
  }

  /** Some request has already won this key, in the scope of the unique index. */
  ghost predicate KeyTaken(cfg: Config, log: seq<Event>, slot: Idem.Slot) {
    match cfg.scope
    case PerUser => Winner(cfg.reqs, log, slot).Some?
    case PerKey => exists s: Idem.Slot :: s.key == slot.key && Winner(cfg.reqs, log, s).Some?
  }

  /** The answer of a claim that finds its key taken, read off the history alone. */
  function ExpectedReply(cfg: Config, log: seq<Event>, r: Request): Reply {
    match Winner(cfg.reqs, log, SlotOf(r))
    case None => IdemError
    case Some(o) =>
      if o >= |cfg.reqs| || !SameAsked(cfg.codec, cfg.reqs[o], r) then Conflict(false)
      else match StoredBody(cfg.reqs, log, SlotOf(r))
        case None => Conflict(true)
        case Some(body) => Ok(body)
  }

  /**
    A claim is an oracle of the history: its INSERT wins exactly when nobody has won the key,
    and otherwise its SELECT answers by what the winner asked for and the stored result.
   */
  lemma ClaimIsHistoryOracle(cfg: Config, notes: Store.Table, actions: seq<Action>, a: Action)
    requires CommitsSucceed(actions) && a.Advance? && a.rid < |cfg.reqs| && a.fault == Idem.Clean
    requires Keyed(cfg.reqs[a.rid]) && WellFormedBody(cfg.codec, cfg.reqs[a.rid])
    ensures var w := Run(cfg, Start(cfg, notes), actions);
            && (w.pcs[a.rid].Arrived? ==>
                  Step(cfg, w, a).pcs[a.rid]
                  == if KeyTaken(cfg, w.log, SlotOf(cfg.reqs[a.rid])) then Probing else Mutating)
            && (w.pcs[a.rid].Probing? ==>
                  Step(cfg, w, a).pcs[a.rid] == Done(ExpectedReply(cfg, w.log, cfg.reqs[a.rid])))
  {
    RunKeepsInv(cfg, notes, actions);
    var w, slot := Run(cfg, Start(cfg, notes), actions), SlotOf(cfg.reqs[a.rid]);
    KeyTakenIffClash(cfg, w, slot);
    if w.pcs[a.rid].Probing? {
      ProbeIsOracle(cfg, w, a);
    }
  }

  lemma KeyTakenIffClash(cfg: Config, w: World, slot: Idem.Slot)
    requires Inv(cfg, w)
    ensures KeyTaken(cfg, w.log, slot) <==> Idem.Clashes(cfg.scope, w.idem, slot)
  {
    assert SlotInv(cfg, w, slot);
    if cfg.scope.PerKey? {
      if KeyTaken(cfg, w.log, slot) {
        var s: Idem.Slot :| s.key == slot.key && Winner(cfg.reqs, w.log, s).Some?;
        assert SlotInv(cfg, w, s);
      }
      forall s | s in w.idem ensures Winner(cfg.reqs, w.log, s).Some? {
        assert SlotInv(cfg, w, s);
      }
    }
  }

  lemma ProbeIsOracle(cfg: Config, w: World, a: Action)
    requires Inv(cfg, w) && a.Advance? && a.rid < |cfg.reqs| && a.fault == Idem.Clean && w.pcs[a.rid].Probing?
    requires Keyed(cfg.reqs[a.rid])
    ensures StepProbing(cfg, w, a).pcs[a.rid] == Done(ExpectedReply(cfg, w.log, cfg.reqs[a.rid]))
  {
    var r := cfg.reqs[a.rid];
    assert SlotInv(cfg, w, SlotOf(r));
    if SlotOf(r) in w.idem {
      SameHashIffSameAsked(cfg.codec, cfg.reqs[Winner(cfg.reqs, w.log, SlotOf(r)).value], r);
    }
  }

  // ----- Retries leave no trace -----

  /** The requests whose steps matter: those without a key, and those that won a claim. */
  ghost predicate Matters(cfg: Config, log: seq<Event>, rid: nat) {
    rid < |cfg.reqs| && (Keyed(cfg.reqs[rid]) ==> Claimed(rid) in log)
  }

  ghost function Erase(cfg: Config, final: seq<Event>, actions: seq<Action>): seq<Action> {
    if actions == [] then []
    else
      var n := |actions| - 1;
      var last := actions[n];
      Erase(cfg, final, actions[..n]) + (if last.Other? || Matters(cfg, final, last.rid) then [last] else [])
  }

  /** A keyed request that has not won and will not win never changes what others see. */
  ghost predicate Inert(cfg: Config, w: World, rid: nat)
    requires |w.pcs| == |cfg.reqs| && rid < |cfg.reqs|
  {
    w.pcs[rid].Arrived? || w.pcs[rid].Probing? || w.pcs[rid].Done?
  }

  lemma LoserStep(cfg: Config, w: World, a: Action)
    requires |w.pcs| == |cfg.reqs| && a.Advance? && a.rid < |cfg.reqs| && Keyed(cfg.reqs[a.rid])
    requires Inert(cfg, w, a.rid) && Claimed(a.rid) !in Step(cfg, w, a).log
    ensures var v := Step(cfg, w, a);
            && v.notes == w.notes && v.idem == w.idem && v.log == w.log
            && v.pcs == w.pcs[a.rid := v.pcs[a.rid]] && Inert(cfg, v, a.rid)
  {
  }

  /** Both runs look alike to every request that matters. */
  ghost predicate Alike(cfg: Config, final: seq<Event>, w: World, v: World) {
    && |w.pcs| == |v.pcs| == |cfg.reqs|
    && w.notes == v.notes && w.idem == v.idem && w.log == v.log
    && (forall rid: nat | rid < |cfg.reqs| ::
          if Matters(cfg, final, rid) then v.pcs[rid] == w.pcs[rid]
          else v.pcs[rid].Arrived? && Inert(cfg, w, rid))
  }

  lemma SameStep(cfg: Config, w: World, v: World, a: Action)
    requires |w.pcs| == |v.pcs| == |cfg.reqs| && a.Advance? && a.rid < |cfg.reqs|
    requires w.notes == v.notes && w.idem == v.idem && w.log == v.log && w.pcs[a.rid] == v.pcs[a.rid]
    ensures var w', v' := Step(cfg, w, a), Step(cfg, v, a);
            && w'.notes == v'.notes && w'.idem == v'.idem && w'.log == v'.log
            && w'.pcs == w.pcs[a.rid := w'.pcs[a.rid]] && v'.pcs == v.pcs[a.rid := w'.pcs[a.rid]]
  {
    match w.pcs[a.rid] {
      case Arrived => assert Step(cfg, w, a) == StepArrived(cfg, w, a);
      case Mutating => assert Step(cfg, w, a) == StepMutating(cfg, w, a);
      case Completing(body) => assert Step(cfg, w, a) == StepCompleting(cfg, w, a, body);
      case _ =>
    }
  }

  lemma StepsAlike(cfg: Config, final: seq<Event>, w: World, v: World, a: Action)
    requires Alike(cfg, final, w, v)
    requires forall e | e in Step(cfg, w, a).log :: e in final
    ensures a.Other? || Matters(cfg, final, a.rid) ==> Alike(cfg, final, Step(cfg, w, a), Step(cfg, v, a))
    ensures a.Advance? && !Matters(cfg, final, a.rid) ==> Alike(cfg, final, Step(cfg, w, a), v)
  {
    if a.Advance? && a.rid < |cfg.reqs| && !Matters(cfg, final, a.rid) {
      LoserStep(cfg, w, a);
    } else if a.Advance? && a.rid < |cfg.reqs| {
      SameStep(cfg, w, v, a);
    }
  }

  lemma {:induction false} RunsAlike(cfg: Config, notes: Store.Table, final: seq<Event>, actions: seq<Action>)
    requires forall e | e in Run(cfg, Start(cfg, notes), actions).log :: e in final
    ensures Alike(cfg, final, Run(cfg, Start(cfg, notes), actions),
                  Run(cfg, Start(cfg, notes), Erase(cfg, final, actions)))
  {
    if actions != [] {
      var n := |actions| - 1;
      var w := Run(cfg, Start(cfg, notes), actions[..n]);
      StepLogs(cfg, w, actions[n]);
      RunsAlike(cfg, notes, final, actions[..n]);
      var kept := Erase(cfg, final, actions[..n]);
      StepsAlike(cfg, final, w, Run(cfg, Start(cfg, notes), kept), actions[n]);
      assert (kept + [actions[n]])[..|kept|] == kept;
      assert kept + [] == kept;
    }
  }

  /**
    Take any interleaved run and drop every step of the keyed requests that did not win.  The
    notes, the idempotency table, the winners in their order and every remaining request's
    progress and reply are the same.  (No assumption on commits is needed.)
   */
  lemma RetriesLeaveNoTrace(cfg: Config, notes: Store.Table, actions: seq<Action>)
    ensures var w := Run(cfg, Start(cfg, notes), actions);
            var v := Run(cfg, Start(cfg, notes), Erase(cfg, w.log, actions));
            && v.notes == w.notes && v.idem == w.idem && v.log == w.log
            && (forall rid: nat | Matters(cfg, w.log, rid) :: v.pcs[rid] == w.pcs[rid])
            && (forall rid: nat | rid < |cfg.reqs| && !Matters(cfg, w.log, rid) :: v.pcs[rid] == Arrived)
  {
    RunsAlike(cfg, notes, Run(cfg, Start(cfg, notes), actions).log, actions);
  }
}
