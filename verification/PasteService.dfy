/**
 The paste handlers, and the whole service around them: any number of clients fetching, deletion workers,
 and other users of the store, interleaved one transaction or one handler phase at a time.
 */
module PasteService {
  import opened Common
  import opened SqlTables
  import opened SqlRefinement
  import opened ExpiryWindow
  import DQ = DeletionQueue
  import SqlBackend

  const MAX_CIPHERTEXT_SIZE_ENCRYPTED: nat := 393216
  const MAX_CIPHERTEXT_SIZE_UNENCRYPTED: nat := 524288

  // ------------------------------------------------------------------ creating a paste

  datatype CreateRequest = CreateRequest(ciphertext: string, plaintext: string, expirySeconds: int, burnAfterRead: bool)

  /**
   What the encoding libraries say of a request: whether any base64 decoder accepts the ciphertext, the decoded size
   under the standard alphabet, the stored form of a plaintext, and whether the saved metadata validates.
   */
  datatype Codec = Codec(anyBase64: bool, stdDecoded: Option<nat>, envelope: Option<string>, metaOk: bool)

  datatype CreateResponse = BadRequest | Forbidden | ServerError | Created(id: Id)

  predicate ValidRequest(r: CreateRequest, codec: Codec) {
    && (r.ciphertext == "") != (r.plaintext == "")
    && (r.ciphertext != "" ==> codec.anyBase64)
    && |r.plaintext| <= MAX_CIPHERTEXT_SIZE_UNENCRYPTED
    && AcceptedExpiry(r.expirySeconds)
  }

  /**
   What is stored for a valid request; None when the ciphertext is not standard base64 or is too large, or when nothing
   can be encoded.
   */
  function Stored(r: CreateRequest, codec: Codec): Option<Ciphertext> {
    if r.ciphertext == "" then codec.envelope
    else if codec.stdDecoded.Some? && codec.stdDecoded.value <= MAX_CIPHERTEXT_SIZE_ENCRYPTED then Some(r.ciphertext)
    else None
  }

  // ------------------------------------------------------------------ answering a fetch

  datatype Response =
    | InvalidId
    | PasteMissing
    | Corrupted
    | InvalidMetadata
    | Expired
    | Gone
    | Served(content: Ciphertext, paste: Paste)

  /** What the handler does besides answering. */
  datatype Effect = Nothing | DeleteNow | Queue

  /** The metadata of an already burned paste is left at zero values. */
  function Unpack(id: Id, got: GetResult): (Ciphertext, Paste)
    requires !got.NotFound?
  {
    if got.Found? then (got.content, got.paste) else ("", Paste(id, Meta(0, false, 0, 0), true))
  }

  /**
   The decision chain after GetPaste. `base64Ok` and `metaOk` are the validators' verdicts; empty content never
   validates.
   */
  function Decide(id: Id, got: GetResult, now: int, tick: int, base64Ok: bool, metaOk: bool): (Response, Effect) {
    if got.NotFound? then (PasteMissing, Nothing)
    else
      var (content, paste) := Unpack(id, got);
      if content == "" || !base64Ok then (Corrupted, Nothing)
      else if !metaOk then (InvalidMetadata, Nothing)
      else if now > paste.meta.expiresAt * tick then (Expired, DeleteNow)
      else if paste.isBurned && !paste.meta.burnAfterRead then (Gone, Nothing)
      else (Served(content, paste), if paste.isBurned then Queue else Nothing)
  }

  /**
   The branch that answers "Paste has been burned" cannot be reached: a paste found by the store is marked burned
   only if it burns after reading, and one burned before comes without content and is reported as corrupted.
   */
  lemma BurnedIsReportedCorrupted(db: Db, id: Id, at: int, now: int, tick: int, base64Ok: bool, metaOk: bool)
    ensures var resp := Decide(id, GetTx(db, id, at).1, now, tick, base64Ok, metaOk).0;
            resp != Gone && (id in db.burned ==> resp == Corrupted)
  {
  }

  // ------------------------------------------------------------------ the handlers as methods

  class Server {
    const storage: SqlBackend.Backend
    const queue: DQ.TaskQueue

    ghost predicate Valid() reads this, storage, queue { storage.Valid() && queue.Valid() }

    constructor (storage: SqlBackend.Backend, queue: DQ.TaskQueue)
      requires storage.Valid() && queue.Valid()
      ensures Valid() && this.storage == storage && this.queue == queue
    {
      this.storage, this.queue := storage, queue;
    }

    /** `upload` is what the backend's own decoding of a stored plaintext finds. */
    method CreatePaste(request: CreateRequest, codec: Codec, upload: Upload, id: Id, now: int)
      returns (resp: CreateResponse)
      requires Valid() && id != ""
      modifies storage
      ensures Valid()
      ensures !ValidRequest(request, codec) ==> resp == BadRequest && storage.Tables() == old(storage.Tables())
      ensures ValidRequest(request, codec) && Stored(request, codec).None? ==>
                && resp == (if request.ciphertext != "" then BadRequest else ServerError)
                && storage.Tables() == old(storage.Tables())
      ensures ValidRequest(request, codec) && Stored(request, codec).Some? ==>
                var c := Stored(request, codec).value;
                var before := old(storage.Tables());
                var meta := Meta(StoredExpiry(now, Lifetime(request.expirySeconds), storage.tick),
                                 request.burnAfterRead, |c|, now / storage.tick);
                var refusal := Refusal(before, c, if request.ciphertext != "" then Encrypted else upload);
                if refusal.Some? then
                  && storage.Tables() == before
                  && resp == (if refusal == Some(BannedContent) then Forbidden else ServerError)
                else
                  var (after, saved) := SaveTx(before, id, c, meta);
                  && storage.Tables() == after
                  && resp == (if saved.Saved? && codec.metaOk then Created(id) else ServerError)
    {
      var req := request;
      if (req.ciphertext == "") == (req.plaintext == "") { return BadRequest; }
      if req.ciphertext != "" && !codec.anyBase64 { return BadRequest; }
      if |req.plaintext| > MAX_CIPHERTEXT_SIZE_UNENCRYPTED { return BadRequest; }
      if req.expirySeconds < MIN_EXPIRY_SECONDS || req.expirySeconds > MAX_EXPIRY_SECONDS { return BadRequest; }

      if req.expirySeconds > MAX_FREE_TIER_EXPIRY_SECONDS {
        req := req.(expirySeconds := MAX_FREE_TIER_EXPIRY_SECONDS);
      }

      var contentToStore;
      var kind := upload;
      if req.ciphertext != "" {
        kind := Encrypted;
        contentToStore := req.ciphertext;
        if codec.stdDecoded.None? { return BadRequest; }
        if codec.stdDecoded.value > MAX_CIPHERTEXT_SIZE_ENCRYPTED { return BadRequest; }
      } else {
        if codec.envelope.None? { return ServerError; }
        contentToStore := codec.envelope.value;
      }

      var saved := storage.SavePaste(id, contentToStore, req.expirySeconds, req.burnAfterRead, kind, now);
      if saved == BannedContent { return Forbidden; }
      if !saved.Saved? { return ServerError; }
      if !codec.metaOk { return ServerError; }
      resp := Created(id);
    }

    /** `fetched` is when the query runs and `now` when the expiry is checked again. */
    method GetPasteAPI(id: Id, idOk: bool, fetched: int, now: int, base64Ok: bool, metaOk: bool)
      returns (resp: Response)
      requires Valid()
      modifies storage, queue
      ensures Valid()
      ensures !idOk ==>
                resp == InvalidId && storage.Tables() == old(storage.Tables()) && queue.State() == old(queue.State())
      ensures idOk ==>
                var (tables, got) := GetTx(old(storage.Tables()), id, fetched / storage.tick);
                var (answer, effect) := Decide(id, got, now, storage.tick, base64Ok, metaOk);
                && resp == answer && resp != Gone
                && storage.Tables() == (if effect.DeleteNow? then DeleteRowTx(tables, id) else tables)
                && queue.State() == (if effect.Queue? then DQ.Enqueue(old(queue.State()), id).0 else old(queue.State()))
      // what is served is served in time
      ensures resp.Served? ==>
                var expiry := resp.paste.meta.expiresAt * storage.tick;
                fetched < expiry && now <= expiry
    {
      if !idOk { return InvalidId; }
      var got := storage.GetPaste(id, fetched);
      if got.NotFound? { return PasteMissing; }

      var (ciphertext, paste) := Unpack(id, got);
      if ciphertext == "" || !base64Ok { return Corrupted; }
      if !metaOk { return InvalidMetadata; }
      if now > paste.meta.expiresAt * storage.tick {
        storage.DeletePasteSqlite(id);
        return Expired;
      }
      if paste.isBurned {
        if paste.meta.burnAfterRead {
          var _ := queue.QueueDeletion(id);
        } else {
          return Gone;
        }
      }
      TicksBelow(paste.meta.expiresAt, fetched, storage.tick);
      resp := Served(ciphertext, paste);
    }
  }

  // ------------------------------------------------------------------ the service as a transition system

  type ClientId = nat

  /** A client between the store's answer and the response, or after it, with the instant of the expiry check. */
  datatype Client = Holding(id: Id, got: GetResult) | Answered(id: Id, resp: Response, at: int)

  /**
   `ops` is the history of committed transactions; `undeleted` collects the ids whose deletion attempt failed. The queue
   moves by whole calls, closings and worker steps, which is what DeletionQueue.RunIsAtomic proves of its goroutines.
   */
  datatype Service = Service(ops: seq<Op>, queue: DQ.Queue, clients: map<ClientId, Client>, undeleted: set<Id>)

  /**
   Other users of the store (creators, delete commands, PostgreSQL's marker statement) appear as `Transact`.
   A fetch may be `lost`: committed, while the client sees a failure. A worker's attempt may fail.
   */
  datatype Action =
    | Transact(op: Op)
    | Fetch(client: ClientId, id: Id, now: int, lost: bool)
    | Respond(client: ClientId, at: int, base64Ok: bool, metaOk: bool)
    | Work(step: DQ.Action, succeeds: bool)
    | Shutdown

  ghost function Commit(s: Service, op: Op): Service {
    if LegalOp(SpecRun(s.ops), op) then s.(ops := s.ops + [op]) else s
  }

  function FetchAnswer(s: Service, id: Id, now: int): GetResult {
    GetTx(DbRun(s.ops), id, now).1
  }

  ghost function RespondStep(s: Service, client: ClientId, at: int, base64Ok: bool, metaOk: bool, tick: int): Service
    requires client in s.clients && s.clients[client].Holding?
  {
    var c := s.clients[client];
    var (resp, effect) := Decide(c.id, c.got, at, tick, base64Ok, metaOk);
    var answered := s.(clients := s.clients[client := Answered(c.id, resp, at)]);
    match effect
    case Nothing => answered
    case DeleteNow => Commit(answered, DeleteRow(c.id))
    case Queue => answered.(queue := DQ.Enqueue(s.queue, c.id).0)
  }

  ghost function WorkStep(s: Service, step: DQ.Action, succeeds: bool): Service
    requires DQ.WorkerEnabled(s.queue, step)
  {
    var worked := s.(queue := DQ.WorkerStep(s.queue, step));
    if step.Finish? then
      var id := s.queue.workers[step.w].id;
      if succeeds then Commit(worked, DeleteRow(id)) else worked.(undeleted := s.undeleted + {id})
    else worked
  }

  ghost function Step(s: Service, a: Action, tick: int): Service {
    match a
    case Transact(op) => Commit(s, op)
    case Fetch(client, id, now, lost) =>
      if client in s.clients then s
      else
        var fetched := Commit(s, Get(id, now));
        if lost then fetched else fetched.(clients := s.clients[client := Holding(id, FetchAnswer(s, id, now))])
    case Respond(client, at, base64Ok, metaOk) =>
      if client in s.clients && s.clients[client].Holding? then RespondStep(s, client, at, base64Ok, metaOk, tick)
      else s
    case Work(step, succeeds) =>
      if DQ.WorkerEnabled(s.queue, step) then WorkStep(s, step, succeeds) else s
    case Shutdown => s.(queue := DQ.CloseQueue(s.queue))
  }

  function Boot(workers: int): Service {
    Service([], DQ.Start(workers).q, map[], {})
  }

  ghost function Run(s: Service, actions: seq<Action>, tick: int): Service
    decreases |actions|
  {
    if actions == [] then s else Run(Step(s, actions[0], tick), actions[1..], tick)
  }

  // ------------------------------------------------------------------ the service invariant

  /** The client was given the content of its paste, by the store or by the response. */
  ghost predicate Got(c: Client, content: Ciphertext, paste: Paste) {
    c == Holding(c.id, Found(content, paste)) || (c.Answered? && c.resp == Served(content, paste))
  }

  ghost predicate Succeeded(c: Client) {
    (c.Holding? && c.got.Found?) || (c.Answered? && c.resp.Served?)
  }

  ghost predicate ClientOk(s: Service, client: ClientId)
    requires client in s.clients
  {
    var c := s.clients[client];
    var spec := SpecRun(s.ops);
    forall content, paste :: Got(c, content, paste) ==>
      && c.id in spec.entries
      && content == spec.entries[c.id].ciphertext && paste.meta == spec.entries[c.id].meta
      && paste.isBurned == paste.meta.burnAfterRead
      && (paste.meta.burnAfterRead ==> c.id in spec.burned)
  }

  ghost predicate OneWinner(s: Service) {
    forall i, j ::
      && i in s.clients && j in s.clients && i != j && s.clients[i].id == s.clients[j].id
      && Succeeded(s.clients[i]) && Succeeded(s.clients[j])
      ==> s.clients[i].id in SpecRun(s.ops).entries && !SpecRun(s.ops).entries[s.clients[i].id].meta.burnAfterRead
  }

  ghost predicate QueueKnown(s: Service) {
    && DQ.QueueOk(s.queue)
    && (forall id :: id in s.queue.accepted ==> id in SpecRun(s.ops).entries)
    && (forall id :: id in s.queue.attempted ==>
          id in s.queue.accepted && (id in SpecRun(s.ops).deleted || id in s.undeleted))
  }

  ghost predicate Inv(s: Service) {
    && Legal(s.ops)
    && (forall client :: client in s.clients ==> ClientOk(s, client))
    && OneWinner(s)
    && QueueKnown(s)
  }

  /** What later transactions never take back. */
  ghost predicate Extends(s: Store, t: Store) {
    && s.entries.Keys <= t.entries.Keys && s.burned <= t.burned && s.deleted <= t.deleted
    && forall id :: id in s.entries ==> t.entries[id] == s.entries[id]
  }

  lemma CommitExtends(s: Service, op: Op)
    requires Legal(s.ops)
    ensures Legal(Commit(s, op).ops)
    ensures Extends(SpecRun(s.ops), SpecRun(Commit(s, op).ops))
    ensures LegalOp(SpecRun(s.ops), op) ==> SpecRun(Commit(s, op).ops) == SpecStep(SpecRun(s.ops), op)
  {
    if LegalOp(SpecRun(s.ops), op) {
      assert (s.ops + [op])[..|s.ops|] == s.ops;
    }
  }

  lemma ExtendKeepsInv(s: Service, t: Service)
    requires Inv(s) && Legal(t.ops) && Extends(SpecRun(s.ops), SpecRun(t.ops))
    requires t.queue == s.queue && t.clients == s.clients && s.undeleted <= t.undeleted
    ensures Inv(t)
  {
    forall client | client in t.clients ensures ClientOk(t, client) { assert ClientOk(s, client); }
  }

  lemma FetchKeepsInv(s: Service, client: ClientId, id: Id, now: int, lost: bool, tick: int)
    requires Inv(s)
    ensures Inv(Step(s, Fetch(client, id, now, lost), tick))
  {
    var t := Commit(s, Get(id, now));
    CommitExtends(s, Get(id, now));
    ExtendKeepsInv(s, t);
    var s' := Step(s, Fetch(client, id, now, lost), tick);
    if s' != s && !lost {
      EveryReadIsAbstract(s.ops, id, now);
      forall i | i in s'.clients ensures ClientOk(s', i) {
        if i in s.clients { assert ClientOk(t, i); }
      }
      if Succeeded(s'.clients[client]) {
        forall i | i in s.clients && Succeeded(s.clients[i]) && s.clients[i].id == id
          ensures !SpecRun(s.ops).entries[id].meta.burnAfterRead
        {
          SuccessIsGot(s.clients[i]);
          assert ClientOk(s, i);
        }
      }
    }
  }

  lemma SuccessIsGot(c: Client)
    requires Succeeded(c)
    ensures exists content, paste :: Got(c, content, paste)
  {
    if c.Holding? { assert Got(c, c.got.content, c.got.paste); } else { assert Got(c, c.resp.content, c.resp.paste); }
  }

  /** Answering keeps a success only if the store had given the same content. */
  lemma AnswerKeepsInv(s: Service, client: ClientId, resp: Response, at: int)
    requires Inv(s) && client in s.clients && s.clients[client].Holding?
    requires resp.Served? ==> s.clients[client].got == Found(resp.content, resp.paste)
    ensures Inv(s.(clients := s.clients[client := Answered(s.clients[client].id, resp, at)]))
  {
    var s' := s.(clients := s.clients[client := Answered(s.clients[client].id, resp, at)]);
    forall i | i in s'.clients ensures ClientOk(s', i) {
      assert ClientOk(s, i);
      if i == client && resp.Served? { assert Got(s.clients[i], resp.content, resp.paste); }
    }
  }

  lemma EnqueueKeepsInv(s: Service, id: Id)
    requires Inv(s) && id in SpecRun(s.ops).entries
    ensures Inv(s.(queue := DQ.Enqueue(s.queue, id).0))
  {
    var s' := s.(queue := DQ.Enqueue(s.queue, id).0);
    assert s.queue.accepted + [id] == s.queue.received + (s.queue.tasks + [id]);
    forall client | client in s'.clients ensures ClientOk(s', client) { assert ClientOk(s, client); }
  }

  lemma RespondKeepsInv(s: Service, client: ClientId, at: int, base64Ok: bool, metaOk: bool, tick: int)
    requires Inv(s) && client in s.clients && s.clients[client].Holding?
    ensures Inv(RespondStep(s, client, at, base64Ok, metaOk, tick))
  {
    var c := s.clients[client];
    var (resp, effect) := Decide(c.id, c.got, at, tick, base64Ok, metaOk);
    var answered := s.(clients := s.clients[client := Answered(c.id, resp, at)]);
    AnswerKeepsInv(s, client, resp, at);
    match effect
    case Nothing =>
    case DeleteNow =>
      CommitExtends(answered, DeleteRow(c.id));
      ExtendKeepsInv(answered, Commit(answered, DeleteRow(c.id)));
    case Queue =>
      assert ClientOk(s, client) && Got(c, c.got.content, c.got.paste);
      EnqueueKeepsInv(answered, c.id);
  }

  lemma WorkerStepKeepsInv(s: Service, step: DQ.Action)
    requires Inv(s) && DQ.WorkerEnabled(s.queue, step)
    requires step.Finish? ==> var id := s.queue.workers[step.w].id; id in SpecRun(s.ops).deleted || id in s.undeleted
    ensures Inv(s.(queue := DQ.WorkerStep(s.queue, step)))
  {
    var s' := s.(queue := DQ.WorkerStep(s.queue, step));
    DQ.WorkerStepKeepsQueue(s.queue, step);
    if step.Finish? { InFlightIsAccepted(s.queue, step.w); }
    forall client | client in s'.clients ensures ClientOk(s', client) { assert ClientOk(s, client); }
  }

  lemma WorkKeepsInv(s: Service, step: DQ.Action, succeeds: bool)
    requires Inv(s) && DQ.WorkerEnabled(s.queue, step)
    ensures Inv(WorkStep(s, step, succeeds))
  {
    var t := s;
    if step.Finish? {
      var id := s.queue.workers[step.w].id;
      InFlightIsAccepted(s.queue, step.w);
      t := if succeeds then Commit(s, DeleteRow(id)) else s.(undeleted := s.undeleted + {id});
      CommitExtends(s, DeleteRow(id));
      ExtendKeepsInv(s, t);
    }
    WorkerStepKeepsInv(t, step);
    assert WorkStep(s, step, succeeds) == t.(queue := DQ.WorkerStep(s.queue, step));
  }

  lemma InFlightIsAccepted(q: DQ.Queue, w: nat)
    requires DQ.QueueOk(q) && DQ.CanFinish(q, w)
    ensures q.workers[w].id in q.accepted
  {
    DQ.InFlightUpdate(q.workers, w, DQ.Receiving);
    var id := q.workers[w].id;
    assert id in DQ.InFlight(q.workers[w := DQ.Receiving]) + DQ.One(q.workers[w]);
    assert id in multiset(q.received);
  }

  lemma StepKeepsInv(s: Service, a: Action, tick: int)
    requires Inv(s)
    ensures Inv(Step(s, a, tick))
  {
    match a
    case Transact(op) =>
      CommitExtends(s, op);
      ExtendKeepsInv(s, Commit(s, op));
    case Fetch(client, id, now, lost) => FetchKeepsInv(s, client, id, now, lost, tick);
    case Respond(client, at, base64Ok, metaOk) =>
      if client in s.clients && s.clients[client].Holding? { RespondKeepsInv(s, client, at, base64Ok, metaOk, tick); }
    case Work(step, succeeds) =>
      if DQ.WorkerEnabled(s.queue, step) { WorkKeepsInv(s, step, succeeds); }
    case Shutdown =>
      var s' := Step(s, a, tick);
      forall client | client in s'.clients ensures ClientOk(s', client) { assert ClientOk(s, client); }
  }

  lemma {:induction false} RunKeepsInv(s: Service, actions: seq<Action>, tick: int)
    requires Inv(s)
    ensures Inv(Run(s, actions, tick))
    decreases |actions|
  {
    if actions != [] {
      StepKeepsInv(s, actions[0], tick);
      RunKeepsInv(Step(s, actions[0], tick), actions[1..], tick);
    }
  }

  lemma BootIsOk(workers: int)
    ensures Inv(Boot(workers))
  {
    DQ.StartIsOk(workers);
  }

  // ------------------------------------------------------------------ end to end

  /** Every response with content carries what the one save of that id stored. */
  lemma ServedIsWhatWasSaved(workers: int, actions: seq<Action>, tick: int, client: ClientId)
    requires var s := Run(Boot(workers), actions, tick);
             client in s.clients && s.clients[client].Answered? && s.clients[client].resp.Served?
    ensures var s := Run(Boot(workers), actions, tick);
            var c := s.clients[client];
            exists i :: 0 <= i < |s.ops| && s.ops[i] == Save(c.id, c.resp.content, c.resp.paste.meta)
  {
    BootIsOk(workers);
    RunKeepsInv(Boot(workers), actions, tick);
    var s := Run(Boot(workers), actions, tick);
    var c := s.clients[client];
    assert ClientOk(s, client) && Got(c, c.resp.content, c.resp.paste);
    EntryIsWhatWasSaved(s.ops, c.id);
    var i :| 0 <= i < |s.ops| && s.ops[i].Save? && s.ops[i].id == c.id;
    assert s.ops[i] == Save(c.id, c.resp.content, c.resp.paste.meta);
  }

  /** A burn-after-read paste is served to one client at most, in every run. */
  lemma BurnServedAtMostOnce(workers: int, actions: seq<Action>, tick: int, i: ClientId, j: ClientId)
    requires var s := Run(Boot(workers), actions, tick);
             && i in s.clients && s.clients[i].Answered? && s.clients[i].resp.Served?
             && j in s.clients && s.clients[j].Answered? && s.clients[j].resp.Served?
             && s.clients[i].id == s.clients[j].id
             && s.clients[i].resp.paste.meta.burnAfterRead
    ensures i == j
  {
    BootIsOk(workers);
    RunKeepsInv(Boot(workers), actions, tick);
    var s := Run(Boot(workers), actions, tick);
    assert ClientOk(s, i) && Got(s.clients[i], s.clients[i].resp.content, s.clients[i].resp.paste);
  }

  // ------------------------------------------------------------------ served within the promise, in every run

  /** What was served was served up to its stored expiry; what was refused as expired was refused after it. */
  ghost predicate Timely(s: Service, client: ClientId, tick: int)
    requires client in s.clients
  {
    var c := s.clients[client];
    && (c.Answered? && c.resp.Served? ==> c.at <= c.resp.paste.meta.expiresAt * tick)
    && (c.Answered? && c.resp.Expired? ==>
          c.id in SpecRun(s.ops).entries && SpecRun(s.ops).entries[c.id].meta.expiresAt * tick < c.at)
  }

  ghost predicate AllTimely(s: Service, tick: int) {
    forall client :: client in s.clients ==> Timely(s, client, tick)
  }

  lemma StepExtends(s: Service, a: Action, tick: int)
    requires Legal(s.ops)
    ensures Extends(SpecRun(s.ops), SpecRun(Step(s, a, tick).ops))
  {
    match a
    case Transact(op) => CommitExtends(s, op);
    case Fetch(_, id, now, _) => CommitExtends(s, Get(id, now));
    case Respond(client, _, _, _) => if client in s.clients { CommitExtends(s, DeleteRow(s.clients[client].id)); }
    case Work(step, _) =>
      if DQ.WorkerEnabled(s.queue, step) && step.Finish? { CommitExtends(s, DeleteRow(s.queue.workers[step.w].id)); }
    case Shutdown =>
  }

  lemma AnswerIsTimely(s: Service, client: ClientId, at: int, base64Ok: bool, metaOk: bool, tick: int)
    requires Inv(s) && client in s.clients && s.clients[client].Holding?
    ensures var (resp, _) := Decide(s.clients[client].id, s.clients[client].got, at, tick, base64Ok, metaOk);
            && (resp.Served? ==> at <= resp.paste.meta.expiresAt * tick)
            && (resp.Expired? ==> s.clients[client].id in SpecRun(s.ops).entries
                                  && SpecRun(s.ops).entries[s.clients[client].id].meta.expiresAt * tick < at)
  {
    var c := s.clients[client];
    assert ClientOk(s, client);
    if c.got.Found? { assert Got(c, c.got.content, c.got.paste); }
  }

  /** A step leaves a client alone, or it is a new one, or the step is its answer. */
  lemma StepOfClient(s: Service, a: Action, tick: int, i: ClientId)
    requires i in Step(s, a, tick).clients
    ensures var c := Step(s, a, tick).clients[i];
            || (i in s.clients && c == s.clients[i])
            || c.Holding?
            || (a.Respond? && a.client == i && i in s.clients && s.clients[i].Holding?
                && var (resp, _) := Decide(s.clients[i].id, s.clients[i].got, a.at, tick, a.base64Ok, a.metaOk);
                   c == Answered(s.clients[i].id, resp, a.at))
  {
  }

  lemma KeepsTimely(s: Service, s': Service, i: ClientId, tick: int)
    requires i in s.clients && i in s'.clients && s'.clients[i] == s.clients[i] && Timely(s, i, tick)
    requires Extends(SpecRun(s.ops), SpecRun(s'.ops))
    ensures Timely(s', i, tick)
  {
  }

  lemma StepKeepsTimely(s: Service, a: Action, tick: int)
    requires Inv(s) && AllTimely(s, tick)
    ensures AllTimely(Step(s, a, tick), tick)
  {
    var s' := Step(s, a, tick);
    StepExtends(s, a, tick);
    forall i | i in s'.clients ensures Timely(s', i, tick) {
      StepOfClient(s, a, tick, i);
      if i in s.clients && s'.clients[i] == s.clients[i] {
        KeepsTimely(s, s', i, tick);
      } else if s'.clients[i].Answered? {
        AnswerIsTimely(s, i, a.at, a.base64Ok, a.metaOk, tick);
      }
    }
  }

  lemma {:induction false} RunKeepsTimely(s: Service, actions: seq<Action>, tick: int)
    requires Inv(s) && AllTimely(s, tick)
    ensures AllTimely(Run(s, actions, tick), tick)
    decreases |actions|
  {
    if actions != [] {
      StepKeepsInv(s, actions[0], tick);
      StepKeepsTimely(s, actions[0], tick);
      RunKeepsTimely(Step(s, actions[0], tick), actions[1..], tick);
    }
  }

  /**
   In every run, a paste saved for an accepted request with its clamped lifetime is never served after the promised
   expiry, whatever the validators say; and it is refused as expired, once fetched, only within the last tick before it.
   */
  lemma ServedWithinThePromise(workers: int, actions: seq<Action>, tick: int, client: ClientId, i: nat,
                               created: int, requested: int)
    requires tick > 0 && AcceptedExpiry(requested)
    requires var s := Run(Boot(workers), actions, tick);
             && client in s.clients && s.clients[client].Answered?
             && i < |s.ops| && s.ops[i].Save? && s.ops[i].id == s.clients[client].id
             && s.ops[i].meta.expiresAt == StoredExpiry(created, Lifetime(requested), tick)
    ensures var c := Run(Boot(workers), actions, tick).clients[client];
            var promised := created + Lifetime(requested) * SECOND;
            && (c.resp.Served? ==> c.at <= promised)
            && (c.resp.Expired? ==> promised - tick < c.at)
  {
    BootIsOk(workers);
    RunKeepsInv(Boot(workers), actions, tick);
    RunKeepsTimely(Boot(workers), actions, tick);
    var s := Run(Boot(workers), actions, tick);
    var c := s.clients[client];
    assert Timely(s, client, tick) && ClientOk(s, client);
    EntryIsWhatWasSaved(s.ops, c.id);
    if c.resp.Served? { assert Got(c, c.resp.content, c.resp.paste); }
    ServedUpToOneCutOff(created, requested, tick, c.at, c.at);
  }

  // ------------------------------------------------------------------ the drained queue

  /** When all workers have drained the closed queue, every accepted id whose deletion did not fail has lost its row. */
  lemma DrainedQueueLeavesNoRow(workers: int, actions: seq<Action>, tick: int, id: Id)
    requires var s := Run(Boot(workers), actions, tick);
             DQ.AllExited(s.queue) && id in s.queue.accepted && id !in s.undeleted
    ensures id !in DbRun(Run(Boot(workers), actions, tick).ops).pastes
  {
    BootIsOk(workers);
    RunKeepsInv(Boot(workers), actions, tick);
    var s := Run(Boot(workers), actions, tick);
    DQ.DrainedMeansAttempted(s.queue);
    assert id in multiset(s.queue.accepted);
    assert id in s.queue.attempted;
    RunRefines(s.ops);
  }
}
