/** The PUT and DELETE handlers as the code writes them: one call after another on the two tables. */
module NoteHandlers {
  import opened Wrappers
  import opened GoStrings
  import opened NoteRequests
  import Store = NotesStore
  import Idem = IdempotencyStore

  /** Clock and driver outcome of a statement. */
  datatype Tick = Tick(now: int, fault: Idem.Fault)

  /** For the claim, the two note statements, and the completion. */
  datatype Ticks = Ticks(claim: Tick, first: Tick, second: Tick, complete: Tick)

  function TickAt(ticks: Ticks, pc: Pc): Tick {
    match pc
    case Arrived => ticks.claim
    case Probing => ticks.claim
    case Mutating => ticks.first
    case Reading => ticks.second
    case Erasing(_) => ticks.second
    case _ => ticks.complete
  }

  function StepAlone(cfg: Config, w: World, path: string, ticks: Ticks): (v: World)
    requires |cfg.reqs| == |w.pcs| == 1
    ensures |v.pcs| == 1
  {
    var t := TickAt(ticks, w.pcs[0]);
    Step(cfg, w, Advance(0, path, t.now, t.fault))
  }

  function ThreeSteps(cfg: Config, w: World, path: string, ticks: Ticks): (v: World)
    requires |cfg.reqs| == |w.pcs| == 1
    ensures |v.pcs| == 1
  {
    StepAlone(cfg, StepAlone(cfg, StepAlone(cfg, w, path, ticks), path, ticks), path, ticks)
  }

  /** The process of one request, run to its reply with nothing in between. */
  function Alone(codec: Codec, scope: Idem.Uniqueness, r: Request, path: string, ticks: Ticks,
                 notes: Store.Table, idem: Idem.Table): (v: World)
    ensures |v.pcs| == 1
  {
    var cfg := Config(codec, scope, [r]);
    ThreeSteps(cfg, StepAlone(cfg, World(notes, idem, [Arrived], []), path, ticks), path, ticks)
  }

  lemma ClaimPhase(cfg: Config, r: Request, path: string, ticks: Ticks, notes: Store.Table, idem: Idem.Table)
    requires cfg.reqs == [r] && WellFormedBody(cfg.codec, r)
    ensures !Keyed(r) ==>
              StepAlone(cfg, World(notes, idem, [Arrived], []), path, ticks) == World(notes, idem, [Mutating], [])
    ensures Keyed(r) ==>
              var row := RowFor(cfg.codec, r, path, ticks.claim.now);
              var (rows, answer) := Idem.ClaimSpec(cfg.scope, idem, SlotOf(r), row, ticks.claim.fault);
              if answer.Fresh? then
                var v := StepAlone(cfg, World(notes, idem, [Arrived], []), path, ticks);
                v == World(notes, rows, [Mutating], [Claimed(0)])
              else
                var w := Alone(cfg.codec, cfg.scope, r, path, ticks, notes, idem);
                w.notes == notes && w.idem == rows && w.pcs == [Done(ReplyTo(answer))]
  {
  }

  /** The update and the read back, then the completion. */
  lemma PutPhase(cfg: Config, w: World, path: string, ticks: Ticks, c: Content)
    requires |cfg.reqs| == 1 && cfg.reqs[0].op.Put? && w.pcs == [Mutating]
    requires cfg.codec.decode(BodyRead(cfg.reqs[0])) == Some(c)
    ensures var r, v := cfg.reqs[0], ThreeSteps(cfg, w, path, ticks);
            var written := ticks.first.fault == Idem.Clean;
            var update := Store.SetContent(r.uid, r.op.id, TrimSpace(c.title), c.body, ticks.first.now);
            var t := if written then Store.Exec(w.notes, update) else w.notes;
            var n := if written && ticks.second.fault == Idem.Clean then Store.FindLive(t, r.uid, r.op.id) else None;
            && v.notes == t
            && v.pcs == [Done(if n.None? then NotFound else Ok(cfg.codec.marshal(n.value)))]
            && v.idem == if n.Some? && Keyed(r) && ticks.complete.fault == Idem.Clean
                         then Idem.StoreText(w.idem, SlotOf(r), cfg.codec.marshal(n.value), ticks.complete.now)
                         else w.idem
  {
    var w1 := StepAlone(cfg, w, path, ticks);
    if ticks.first.fault == Idem.Clean {
      assert w1.pcs == [Reading];
      var w2 := StepAlone(cfg, w1, path, ticks);
      assert w2.pcs[0].Done? || w2.pcs[0].Completing?;
    }
  }

  /** The read and the delete statement, then the completion. */
  lemma DeletePhase(cfg: Config, w: World, path: string, ticks: Ticks)
    requires |cfg.reqs| == 1 && cfg.reqs[0].op.Delete? && w.pcs == [Mutating]
    ensures var r, v := cfg.reqs[0], ThreeSteps(cfg, w, path, ticks);
            var found := if ticks.first.fault == Idem.Clean then Store.FindLive(w.notes, r.uid, r.op.id) else None;
            var n := if ticks.second.fault == Idem.Clean then found else None;
            var delete := Store.MarkDeleted(r.uid, r.op.id, ticks.second.now);
            && v.notes == (if n.Some? then Store.Exec(w.notes, delete) else w.notes)
            && v.pcs == [Done(if n.None? then NotFound else Ok(cfg.codec.marshal(n.value)))]
            && v.idem == if n.Some? && Keyed(r) && ticks.complete.fault == Idem.Clean
                         then Idem.StoreText(w.idem, SlotOf(r), cfg.codec.marshal(n.value), ticks.complete.now)
                         else w.idem
  {
    var w1 := StepAlone(cfg, w, path, ticks);
    if w1.pcs[0].Erasing? {
      var w2 := StepAlone(cfg, w1, path, ticks);
      assert w2.pcs[0].Done? || w2.pcs[0].Completing?;
    }
  }

  /** What a PUT sends to be read and summed: all of it, or with a key the first mebibyte. */
  function ReadPart(r: Request): string
    requires r.op.Put?
  {
    if r.key != "" && |r.op.raw| > 0x10_0000 then r.op.raw[..0x10_0000] else r.op.raw
  }

  /** The caller owns the note, and it is not deleted. */
  predicate Mine(t: Store.Table, r: Request) {
    r.op.id in t.rows && t.rows[r.op.id].userId == r.uid && t.rows[r.op.id].deletedAt.None?
  }

  ghost predicate NothingFails(ticks: Ticks) {
    && ticks.claim.fault == Idem.Clean && ticks.first.fault == Idem.Clean
    && ticks.second.fault == Idem.Clean && ticks.complete.fault == Idem.Clean
  }

  /** The keys after a request that executed: its own key is taken and, if there is a result, completed. */
  function KeysAfter(t: Idem.Table, r: Request, httpMethod: string, path: string, hash: string, ticks: Ticks,
                     result: Option<string>): Idem.Table
  {
    if r.key == "" then t
    else t[Idem.Slot(r.uid, r.key) :=
             Idem.Row(httpMethod, path, hash, ticks.claim.now,
                      if result.Some? then Some(ticks.complete.now) else None, result, None)]
  }

  datatype Outcome = Outcome(reply: Reply, notes: Store.Table, idem: Idem.Table)

  /** What a request with a known key gets: nothing changes, and the row is replayed or refuses it. */
  predicate Replays(idem: Idem.Table, notes: Store.Table, r: Request, hash: string, o: Outcome)
    requires Idem.Slot(r.uid, r.key) in idem
  {
    var was := idem[Idem.Slot(r.uid, r.key)];
    && o.notes == notes && o.idem == idem
    && o.reply == if was.bodyHash != hash then Conflict(false)
                  else if was.completedAt.Some? && was.resultText.Some? then Ok(was.resultText.value)
                  else Conflict(true)
  }

  /**
    What `update` promises.  A bad body changes nothing.  When nothing fails and the key is new
    or absent, the caller's live note gets the content, with a trimmed title, and is the reply;
    it is stamped only if something changed.
   */
  ghost predicate PutAsPromised(codec: Codec, scope: Idem.Uniqueness, r: Request, path: string, ticks: Ticks,
                                notes: Store.Table, idem: Idem.Table, o: Outcome)
    requires r.op.Put?
  {
    var content, hash, slot := codec.decode(ReadPart(r)), codec.sha(ReadPart(r)), Idem.Slot(r.uid, r.key);
    if content.None? then o == Outcome(BadRequest, notes, idem)
    else
      && (NothingFails(ticks) && (r.key == "" || Idem.Free(scope, idem, slot)) ==>
            if !Mine(notes, r) then o == Outcome(NotFound, notes, KeysAfter(idem, r, "PUT", path, hash, ticks, None))
            else
              var c, was := content.value, notes.rows[r.op.id];
              var same := was.title == TrimSpace(c.title) && was.body == c.body;
              var n := was.(title := TrimSpace(c.title), body := c.body,
                            updatedAt := if same then was.updatedAt else ticks.first.now);
              o == Outcome(Ok(codec.marshal(n)), Store.Table(notes.rows[r.op.id := n], notes.nextId),
                           KeysAfter(idem, r, "PUT", path, hash, ticks, Some(codec.marshal(n)))))
      && (ticks.claim.fault == Idem.Clean && r.key != "" && slot in idem ==> Replays(idem, notes, r, hash, o))
  }

  /** What `delete` promises; the reply is the note as it was. */
  ghost predicate DeleteAsPromised(codec: Codec, scope: Idem.Uniqueness, r: Request, path: string, ticks: Ticks,
                                   notes: Store.Table, idem: Idem.Table, o: Outcome)
  {
    var slot := Idem.Slot(r.uid, r.key);
    && (NothingFails(ticks) && (r.key == "" || Idem.Free(scope, idem, slot)) ==>
          if !Mine(notes, r) then
            o == Outcome(NotFound, notes, KeysAfter(idem, r, "DELETE", path, "delete", ticks, None))
          else
            var was := notes.rows[r.op.id];
            var n := was.(deletedAt := Some(ticks.second.now), updatedAt := ticks.second.now);
            o == Outcome(Ok(codec.marshal(was)), Store.Table(notes.rows[r.op.id := n], notes.nextId),
                         KeysAfter(idem, r, "DELETE", path, "delete", ticks, Some(codec.marshal(was)))))
    && (ticks.claim.fault == Idem.Clean && r.key != "" && slot in idem ==> Replays(idem, notes, r, "delete", o))
  }

  /** The outcome of a request that ran to its reply. */
  function OutcomeOf(w: World): Outcome
    requires |w.pcs| == 1 && w.pcs[0].Done?
  {
    Outcome(w.pcs[0].reply, w.notes, w.idem)
  }

  function HttpMethod(r: Request): string { if r.op.Put? then "PUT" else "DELETE" }

  predicate PassesClaim(scope: Idem.Uniqueness, r: Request, ticks: Ticks, idem: Idem.Table) {
    r.key == "" || (ticks.claim.fault == Idem.Clean && !Idem.Clashes(scope, idem, Idem.Slot(r.uid, r.key)))
  }

  lemma FreeIffNoClash(scope: Idem.Uniqueness, idem: Idem.Table, slot: Idem.Slot)
    ensures Idem.Free(scope, idem, slot) <==> !Idem.Clashes(scope, idem, slot)
  {
  }

  /** A request that passes its claim goes on with the open row in the table. */
  lemma AlonePasses(cfg: Config, r: Request, path: string, ticks: Ticks, notes: Store.Table, idem: Idem.Table)
    requires cfg.reqs == [r] && WellFormedBody(cfg.codec, r) && PassesClaim(cfg.scope, r, ticks, idem)
    ensures StepAlone(cfg, World(notes, idem, [Arrived], []), path, ticks)
            == World(notes, KeysAfter(idem, r, HttpMethod(r), path, HashOf(cfg.codec, r), ticks, None), [Mutating],
                     if r.key == "" then [] else [Claimed(0)])
  {
    ClaimPhase(cfg, r, path, ticks, notes, idem);
  }

  /** A request with a known key is answered from its row. */
  lemma AloneReplays(cfg: Config, r: Request, path: string, ticks: Ticks, notes: Store.Table, idem: Idem.Table)
    requires cfg.reqs == [r] && WellFormedBody(cfg.codec, r)
    requires ticks.claim.fault == Idem.Clean && r.key != "" && Idem.Slot(r.uid, r.key) in idem
    ensures var w := Alone(cfg.codec, cfg.scope, r, path, ticks, notes, idem);
            w.pcs[0].Done? && Replays(idem, notes, r, HashOf(cfg.codec, r), OutcomeOf(w))
  {
    ClaimPhase(cfg, r, path, ticks, notes, idem);
  }

  lemma Completed(idem: Idem.Table, r: Request, path: string, hash: string, ticks: Ticks, body: string)
    requires r.key != ""
    ensures Idem.StoreText(KeysAfter(idem, r, HttpMethod(r), path, hash, ticks, None), Idem.Slot(r.uid, r.key), body,
                           ticks.complete.now)
            == KeysAfter(idem, r, HttpMethod(r), path, hash, ticks, Some(body))
  {
  }

  /** The outcome of a PUT past its claim, by the fields. */
  lemma PutsContent(cfg: Config, w: World, path: string, hash: string, ticks: Ticks, c: Content, idem: Idem.Table)
    requires |cfg.reqs| == 1 && cfg.reqs[0].op.Put? && w.pcs == [Mutating] && NothingFails(ticks)
    requires cfg.codec.decode(BodyRead(cfg.reqs[0])) == Some(c)
    requires w.idem == KeysAfter(idem, cfg.reqs[0], "PUT", path, hash, ticks, None)
    ensures var r, v := cfg.reqs[0], ThreeSteps(cfg, w, path, ticks);
            v.pcs[0].Done? &&
            if !Mine(w.notes, r) then OutcomeOf(v) == Outcome(NotFound, w.notes, w.idem)
            else
              var was := w.notes.rows[r.op.id];
              var same := was.title == TrimSpace(c.title) && was.body == c.body;
              var n := was.(title := TrimSpace(c.title), body := c.body,
                            updatedAt := if same then was.updatedAt else ticks.first.now);
              OutcomeOf(v) == Outcome(Ok(cfg.codec.marshal(n)), Store.Table(w.notes.rows[r.op.id := n], w.notes.nextId),
                                      KeysAfter(idem, r, "PUT", path, hash, ticks, Some(cfg.codec.marshal(n))))
  {
    var r := cfg.reqs[0];
    PutPhase(cfg, w, path, ticks, c);
    if Mine(w.notes, r) {
      var was := w.notes.rows[r.op.id];
      var n := Store.WithContent(was, TrimSpace(c.title), c.body, ticks.first.now);
      if r.key != "" {
        Completed(idem, r, path, hash, ticks, cfg.codec.marshal(n));
      }
    }
  }

  lemma DeletesNote(cfg: Config, w: World, path: string, hash: string, ticks: Ticks, idem: Idem.Table)
    requires |cfg.reqs| == 1 && cfg.reqs[0].op.Delete? && w.pcs == [Mutating] && NothingFails(ticks)
    requires w.idem == KeysAfter(idem, cfg.reqs[0], "DELETE", path, hash, ticks, None)
    ensures var r, v := cfg.reqs[0], ThreeSteps(cfg, w, path, ticks);
            v.pcs[0].Done? &&
            if !Mine(w.notes, r) then OutcomeOf(v) == Outcome(NotFound, w.notes, w.idem)
            else
              var was := w.notes.rows[r.op.id];
              var n := was.(deletedAt := Some(ticks.second.now), updatedAt := ticks.second.now);
              OutcomeOf(v) == Outcome(Ok(cfg.codec.marshal(was)),
                                      Store.Table(w.notes.rows[r.op.id := n], w.notes.nextId),
                                      KeysAfter(idem, r, "DELETE", path, hash, ticks, Some(cfg.codec.marshal(was))))
  {
    var r := cfg.reqs[0];
    DeletePhase(cfg, w, path, ticks);
    if Mine(w.notes, r) && r.key != "" {
      Completed(idem, r, path, hash, ticks, cfg.codec.marshal(w.notes.rows[r.op.id]));
    }
  }

  lemma AlonePutsNew(codec: Codec, scope: Idem.Uniqueness, r: Request, path: string, ticks: Ticks,
                     notes: Store.Table, idem: Idem.Table)
    requires r.op.Put? && codec.decode(ReadPart(r)).Some? && NothingFails(ticks) && PassesClaim(scope, r, ticks, idem)
    ensures var w := Alone(codec, scope, r, path, ticks, notes, idem);
            w.pcs[0].Done? && PutAsPromised(codec, scope, r, path, ticks, notes, idem, OutcomeOf(w))
  {
    var cfg := Config(codec, scope, [r]);
    AlonePasses(cfg, r, path, ticks, notes, idem);
    PutsContent(cfg, StepAlone(cfg, World(notes, idem, [Arrived], []), path, ticks), path, codec.sha(ReadPart(r)),
                ticks, codec.decode(ReadPart(r)).value, idem);
  }

  lemma AloneDeletesNew(codec: Codec, scope: Idem.Uniqueness, r: Request, path: string, ticks: Ticks,
                        notes: Store.Table, idem: Idem.Table)
    requires r.op.Delete? && NothingFails(ticks) && PassesClaim(scope, r, ticks, idem)
    ensures var w := Alone(codec, scope, r, path, ticks, notes, idem);
            w.pcs[0].Done? && DeleteAsPromised(codec, scope, r, path, ticks, notes, idem, OutcomeOf(w))
  {
    var cfg := Config(codec, scope, [r]);
    AlonePasses(cfg, r, path, ticks, notes, idem);
    DeletesNote(cfg, StepAlone(cfg, World(notes, idem, [Arrived], []), path, ticks), path, "delete", ticks, idem);
  }

  /** Alone, every request runs to its reply. */
  lemma AloneEnds(codec: Codec, scope: Idem.Uniqueness, r: Request, path: string, ticks: Ticks,
                  notes: Store.Table, idem: Idem.Table)
    ensures Alone(codec, scope, r, path, ticks, notes, idem).pcs[0].Done?
  {
    var cfg := Config(codec, scope, [r]);
    var w := StepAlone(cfg, World(notes, idem, [Arrived], []), path, ticks);
    if WellFormedBody(codec, r) {
      ClaimPhase(cfg, r, path, ticks, notes, idem);
      if w.pcs == [Mutating] && r.op.Put? {
        PutPhase(cfg, w, path, ticks, codec.decode(BodyRead(r)).value);
      } else if w.pcs == [Mutating] {
        DeletePhase(cfg, w, path, ticks);
      }
    }
  }

  lemma AlonePuts(codec: Codec, scope: Idem.Uniqueness, r: Request, path: string, ticks: Ticks,
                  notes: Store.Table, idem: Idem.Table)
    requires r.op.Put?
    ensures var w := Alone(codec, scope, r, path, ticks, notes, idem);
            w.pcs[0].Done? && PutAsPromised(codec, scope, r, path, ticks, notes, idem, OutcomeOf(w))
  {
    var slot := Idem.Slot(r.uid, r.key);
    FreeIffNoClash(scope, idem, slot);
    AloneEnds(codec, scope, r, path, ticks, notes, idem);
    if codec.decode(ReadPart(r)).Some? {
      if NothingFails(ticks) && PassesClaim(scope, r, ticks, idem) {
        AlonePutsNew(codec, scope, r, path, ticks, notes, idem);
      } else if ticks.claim.fault == Idem.Clean && r.key != "" && slot in idem {
        AloneReplays(Config(codec, scope, [r]), r, path, ticks, notes, idem);
      }
    }
  }

  lemma AloneDeletes(codec: Codec, scope: Idem.Uniqueness, r: Request, path: string, ticks: Ticks,
                     notes: Store.Table, idem: Idem.Table)
    requires r.op.Delete?
    ensures var w := Alone(codec, scope, r, path, ticks, notes, idem);
            w.pcs[0].Done? && DeleteAsPromised(codec, scope, r, path, ticks, notes, idem, OutcomeOf(w))
  {
    var slot := Idem.Slot(r.uid, r.key);
    FreeIffNoClash(scope, idem, slot);
    AloneEnds(codec, scope, r, path, ticks, notes, idem);
    if NothingFails(ticks) && PassesClaim(scope, r, ticks, idem) {
      AloneDeletesNew(codec, scope, r, path, ticks, notes, idem);
    } else if ticks.claim.fault == Idem.Clean && r.key != "" && slot in idem {
      AloneReplays(Config(codec, scope, [r]), r, path, ticks, notes, idem);
    }
  }

  class Notes {
    const codec: Codec
    const repo: Store.Notes
    const keys: Idem.IdempotencyKeys

    constructor (codec: Codec, repo: Store.Notes, keys: Idem.IdempotencyKeys)
      ensures this.codec == codec && this.repo == repo && this.keys == keys
    {
      this.codec, this.repo, this.keys := codec, repo, keys;
    }

    /** The claim of a keyed request; None means that it may go on. */
    method Claim(r: Request, path: string, t: Tick) returns (early: Option<Reply>)
      requires Keyed(r)
      modifies keys
      ensures var row := RowFor(codec, r, path, t.now);
              var (rows, answer) := Idem.ClaimSpec(keys.scope, old(keys.rows), SlotOf(r), row, t.fault);
              && keys.rows == rows
              && early == if answer.Fresh? then None else Some(ReplyTo(answer))
      ensures var slot := Idem.Slot(r.uid, r.key);
              var hash := if r.op.Put? then codec.sha(ReadPart(r)) else "delete";
              t.fault == Idem.Clean && slot in old(keys.rows) ==>
                var was := old(keys.rows)[slot];
                && keys.rows == old(keys.rows)
                && early == Some(if was.bodyHash != hash then Conflict(false)
                                 else if was.completedAt.Some? && was.resultText.Some? then Ok(was.resultText.value)
                                 else Conflict(true))
    {
      var httpMethod := if r.op.Put? then "PUT" else "DELETE";
      var answer := keys.Claim(r.key, r.uid, httpMethod, path, HashOf(codec, r), t.now, t.fault);
      match answer {
        case Fresh => return None;
        case Mismatch => return Some(Conflict(false));
        case InProgress => return Some(Conflict(true));
        case Replay(result) => return Some(Ok(result));
        case Failed => return Some(IdemError);
      }
    }

    /** `update`: its process run alone, and what the handler promises. */
    method Update(r: Request, path: string, ticks: Ticks) returns (reply: Reply)
      requires r.op.Put?
      modifies repo, keys
      ensures var w := Alone(codec, keys.scope, r, path, ticks, old(repo.table), old(keys.rows));
              repo.table == w.notes && keys.rows == w.idem && w.pcs == [Done(reply)]
      ensures PutAsPromised(codec, keys.scope, r, path, ticks, old(repo.table), old(keys.rows),
                            Outcome(reply, repo.table, keys.rows))
    {
      AlonePuts(codec, keys.scope, r, path, ticks, repo.table, keys.rows);
      ghost var cfg := Config(codec, keys.scope, [r]);
      var content := codec.decode(BodyRead(r));
      if content.None? { return BadRequest; }
      ClaimPhase(cfg, r, path, ticks, repo.table, keys.rows);
      if Keyed(r) {
        var early := Claim(r, path, ticks.claim);
        if early.Some? { return early.value; }
      }
      ghost var log := if Keyed(r) then [Claimed(0)] else [];
      PutPhase(cfg, World(repo.table, keys.rows, [Mutating], log), path, ticks, content.value);
      var n := repo.Update(r.uid, r.op.id, TrimSpace(content.value.title), content.value.body, ticks.first.now,
                           ticks.first.fault == Idem.Clean, ticks.second.fault == Idem.Clean);
      if n.None? { return NotFound; }
      var body := codec.marshal(n.value);
      if Keyed(r) {
        keys.Complete(r.key, r.uid, body, ticks.complete.now, ticks.complete.fault == Idem.Clean);
      }
      return Ok(body);
    }

    /** `delete`: its process run alone, and what the handler promises. */
    method Delete(r: Request, path: string, ticks: Ticks) returns (reply: Reply)
      requires r.op.Delete?
      modifies repo, keys
      ensures var w := Alone(codec, keys.scope, r, path, ticks, old(repo.table), old(keys.rows));
              repo.table == w.notes && keys.rows == w.idem && w.pcs == [Done(reply)]
      ensures DeleteAsPromised(codec, keys.scope, r, path, ticks, old(repo.table), old(keys.rows),
                               Outcome(reply, repo.table, keys.rows))
    {
      AloneDeletes(codec, keys.scope, r, path, ticks, repo.table, keys.rows);
      ghost var cfg := Config(codec, keys.scope, [r]);
      ClaimPhase(cfg, r, path, ticks, repo.table, keys.rows);
      if Keyed(r) {
        var early := Claim(r, path, ticks.claim);
        if early.Some? { return early.value; }
      }
      DeletePhase(cfg, World(repo.table, keys.rows, [Mutating], if Keyed(r) then [Claimed(0)] else []), path, ticks);
      var n := repo.Delete(r.uid, r.op.id, ticks.second.now,
                           ticks.first.fault == Idem.Clean, ticks.second.fault == Idem.Clean);
      if n.None? { return NotFound; }
      var body := codec.marshal(n.value);
      if Keyed(r) {
        keys.Complete(r.key, r.uid, body, ticks.complete.now, ticks.complete.fault == Idem.Clean);
      }
      return Ok(body);
    }
  }
}
