/**
  PUT and DELETE requests on notes as interleaved processes: each request runs its claim
  statements, its note statements, its completion and its reply one at a time, over shared
  tables.  A request that stops midway is one that is not advanced again.
 */
module NoteRequests {
  import opened Wrappers
  import opened GoStrings
  import Store = NotesStore
  import Idem = IdempotencyStore

  /** The hex form of a SHA-256 sum. */
  type Digest = s: string | |s| == 64 && forall i | 0 <= i < 64 :: s[i] in "0123456789abcdef"
    witness seq(64, _ => '0')

  datatype Content = Content(title: string, body: string)

  /** SHA-256, the JSON decoder and the JSON encoder. */
  datatype Codec = Codec(sha: string -> Digest, decode: string -> Option<Content>, marshal: Store.Note -> string)

  datatype Op = Put(id: int, raw: string) | Delete(id: int)

  /** An empty `key` is an absent Idempotency-Key header. */
  datatype Request = Request(uid: int, key: string, op: Op)

  datatype Config = Config(codec: Codec, scope: Idem.Uniqueness, reqs: seq<Request>)

  const BODY_LIMIT := 0x10_0000

  predicate Keyed(r: Request) { r.key != "" }

  function SlotOf(r: Request): Idem.Slot { Idem.Slot(r.uid, r.key) }

  /** A keyed request reads at most BODY_LIMIT of its body. */
  function BodyRead(r: Request): string
    requires r.op.Put?
  {
    if Keyed(r) && |r.op.raw| > BODY_LIMIT then r.op.raw[..BODY_LIMIT] else r.op.raw
  }

  function HashOf(codec: Codec, r: Request): string {
    match r.op
    case Put(_, _) => codec.sha(BodyRead(r))
    case Delete(_) => "delete"
  }

  predicate WellFormedBody(codec: Codec, r: Request) {
    r.op.Put? ==> codec.decode(BodyRead(r)).Some?
  }

  function RowFor(codec: Codec, r: Request, path: string, now: int): Idem.Row {
    Idem.NewRow(if r.op.Put? then "PUT" else "DELETE", path, HashOf(codec, r), now)
  }

  datatype Reply = BadRequest | Conflict(retryAfter: bool) | IdemError | NotFound | Ok(body: string)

  datatype Pc =
    | Arrived
    | Probing                  // the claim's INSERT failed; its SELECT is next
    | Mutating                 // about to enter Repo.Update or Repo.Delete
    | Reading                  // PUT: the UPDATE ran; the read back is next
    | Erasing(found: Store.Note)  // DELETE: the row was read; the delete statement is next
    | Completing(body: string)
    | Done(reply: Reply)

  /** What the proofs remember of a run: claims won, entries into the repository, results stored. */
  datatype Event = Claimed(rid: nat) | Began(rid: nat) | Stored(rid: nat, body: string)

  datatype World = World(notes: Store.Table, idem: Idem.Table, pcs: seq<Pc>, log: seq<Event>)

  /** One statement of one request, or any statement that some other code runs on the notes table. */
  datatype Action =
    | Advance(rid: nat, path: string, now: int, fault: Idem.Fault)
    | Other(statement: Store.Statement)

  function Start(cfg: Config, notes: Store.Table): World {
    World(notes, map[], seq(|cfg.reqs|, _ => Arrived), [])
  }

  function At(w: World, rid: nat, pc: Pc): World
    requires rid < |w.pcs|
  {
    w.(pcs := w.pcs[rid := pc])
  }

  function Logged(w: World, e: Event): World {
    w.(log := w.log + [e])
  }

  /** The claim's INSERT, and its commit when the INSERT succeeded. */
  function StepArrived(cfg: Config, w: World, a: Action): World
    requires a.Advance? && a.rid < |cfg.reqs| == |w.pcs|
  {
    var r := cfg.reqs[a.rid];
    if !WellFormedBody(cfg.codec, r) then At(w, a.rid, Done(BadRequest))
    else if !Keyed(r) then At(w, a.rid, Mutating)
    else if a.fault == Idem.AtBegin then At(w, a.rid, Done(IdemError))
    else if a.fault == Idem.AtInsert || Idem.Clashes(cfg.scope, w.idem, SlotOf(r)) then At(w, a.rid, Probing)
    else
      var won := Logged(At(w, a.rid, Mutating), Claimed(a.rid));
      if a.fault == Idem.AtCommit then won
      else won.(idem := w.idem[SlotOf(r) := RowFor(cfg.codec, r, a.path, a.now)])
  }

  function ReplyTo(answer: Idem.Answer<string>): Reply {
    match answer
    case Replay(result) => Ok(result)
    case Mismatch => Conflict(false)
    case InProgress => Conflict(true)
    case _ => IdemError
  }

  function StepProbing(cfg: Config, w: World, a: Action): World
    requires a.Advance? && a.rid < |cfg.reqs| == |w.pcs|
  {
    var r := cfg.reqs[a.rid];
    var answer := if a.fault == Idem.AtQuery then Idem.Failed
                  else Idem.Read(w.idem, SlotOf(r), HashOf(cfg.codec, r));
    At(w, a.rid, Done(ReplyTo(answer)))
  }

  /** After the note statements: a keyed request completes its key first. */
  function AfterNote(cfg: Config, w: World, rid: nat, n: Store.Note): World
    requires rid < |cfg.reqs| == |w.pcs|
  {
    var body := cfg.codec.marshal(n);
    At(w, rid, if Keyed(cfg.reqs[rid]) then Completing(body) else Done(Ok(body)))
  }

  function StepMutating(cfg: Config, w: World, a: Action): World
    requires a.Advance? && a.rid < |cfg.reqs| == |w.pcs|
  {
    var r, b := cfg.reqs[a.rid], Logged(w, Began(a.rid));
    if a.fault != Idem.Clean then At(b, a.rid, Done(NotFound))
    else match r.op
      case Put(id, _) =>
        var c := cfg.codec.decode(BodyRead(r));
        if c.None? then At(b, a.rid, Done(BadRequest))
        else
          var s := Store.SetContent(r.uid, id, TrimSpace(c.value.title), c.value.body, a.now);
          At(b.(notes := Store.Exec(w.notes, s)), a.rid, Reading)
      case Delete(id) =>
        var found := Store.FindLive(w.notes, r.uid, id);
        At(b, a.rid, if found.None? then Done(NotFound) else Erasing(found.value))
  }

  function StepReading(cfg: Config, w: World, a: Action): World
    requires a.Advance? && a.rid < |cfg.reqs| == |w.pcs|
  {
    var r := cfg.reqs[a.rid];
    var found := Store.FindLive(w.notes, r.uid, r.op.id);
    if a.fault != Idem.Clean || found.None? then At(w, a.rid, Done(NotFound))
    else AfterNote(cfg, w, a.rid, found.value)
  }

  function StepErasing(cfg: Config, w: World, a: Action, found: Store.Note): World
    requires a.Advance? && a.rid < |cfg.reqs| == |w.pcs|
  {
    var r := cfg.reqs[a.rid];
    if a.fault != Idem.Clean then At(w, a.rid, Done(NotFound))
    else AfterNote(cfg, w.(notes := Store.Exec(w.notes, Store.MarkDeleted(r.uid, r.op.id, a.now))), a.rid, found)
  }

  /** The reply is sent whether or not the completion statement succeeded. */
  function StepCompleting(cfg: Config, w: World, a: Action, body: string): World
    requires a.Advance? && a.rid < |cfg.reqs| == |w.pcs|
  {
    var slot, d := SlotOf(cfg.reqs[a.rid]), At(w, a.rid, Done(Ok(body)));
    if a.fault == Idem.Clean && Idem.Open(w.idem, slot)
    then Logged(d, Stored(a.rid, body)).(idem := Idem.StoreText(w.idem, slot, body, a.now))
    else d
  }

  function Step(cfg: Config, w: World, a: Action): (v: World)
    requires |w.pcs| == |cfg.reqs|
    ensures |v.pcs| == |cfg.reqs|
  {
    match a
    case Other(s) => w.(notes := Store.Exec(w.notes, s))
    case Advance(rid, _, _, _) =>
      if rid >= |cfg.reqs| then w
      else match w.pcs[rid]
        case Arrived => StepArrived(cfg, w, a)
        case Probing => StepProbing(cfg, w, a)
        case Mutating => StepMutating(cfg, w, a)
        case Reading => StepReading(cfg, w, a)
        case Erasing(found) => StepErasing(cfg, w, a, found)
        case Completing(body) => StepCompleting(cfg, w, a, body)
        case Done(_) => w
  }

  function Run(cfg: Config, w: World, actions: seq<Action>): (v: World)
    requires |w.pcs| == |cfg.reqs|
    ensures |v.pcs| == |cfg.reqs|
  {
    if actions == [] then w
    else Step(cfg, Run(cfg, w, actions[..|actions| - 1]), actions[|actions| - 1])
  }

  /** No commit that `Idem.Claim` ignores is lost. */
  predicate CommitsSucceed(actions: seq<Action>) {
    forall a | a in actions :: a.Advance? ==> a.fault != Idem.AtCommit
  }
}
