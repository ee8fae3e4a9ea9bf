/**
 What the service answers, told by the abstract store: every answer of a fetch with its exact condition, what it does
 besides, and that a created paste is served.
 */
module PasteAnswers {
  import opened Common
  import opened SqlTables
  import opened SqlRefinement
  import opened PasteService
  import DQ = DeletionQueue

  // ------------------------------------------------------------------ every answer, exactly when

  /** What the instants and the validators say at the time of the answer. */
  datatype Check = Check(now: int, tick: int, base64Ok: bool, metaOk: bool)

  /** The paste can be read, has content, and passes the validators. */
  ghost predicate Sound(s: Store, id: Id, at: int, c: Check) {
    Readable(s, id, at) && s.entries[id].ciphertext != "" && c.base64Ok && c.metaOk
  }

  ghost predicate BurnedAndThere(s: Store, id: Id) { id in s.burned && id !in s.deleted }

  /** The answer to a fetch whose query runs at `at` (in ticks), over a store. */
  ghost predicate RightAnswer(s: Store, id: Id, at: int, c: Check, resp: Response) {
    var there := Readable(s, id, at);
    && (resp == PasteMissing <==> !there && !BurnedAndThere(s, id))
    && (resp == Corrupted <==> BurnedAndThere(s, id) || (there && (s.entries[id].ciphertext == "" || !c.base64Ok)))
    && (resp == InvalidMetadata <==> there && s.entries[id].ciphertext != "" && c.base64Ok && !c.metaOk)
    && (resp == Expired <==> Sound(s, id, at, c) && c.now > s.entries[id].meta.expiresAt * c.tick)
    && (resp.Served? <==> Sound(s, id, at, c) && c.now <= s.entries[id].meta.expiresAt * c.tick)
    && (resp.Served? ==>
          var e := s.entries[id]; resp == Served(e.ciphertext, Paste(id, e.meta, e.meta.burnAfterRead)))
  }

  /** An expired paste is deleted, a served one queued for deletion if it burns, and nothing else is done. */
  ghost predicate RightEffect(resp: Response, effect: Effect) {
    && (effect == DeleteNow <==> resp == Expired)
    && (effect == Queue <==> resp.Served? && resp.paste.meta.burnAfterRead)
  }

  lemma BurnedIsNotReadable(s: Store, id: Id, at: int)
    requires BurnedAndThere(s, id)
    ensures !Readable(s, id, at)
  {
  }

  /** After any legal run, the decision chain over what the tables give is the right answer for the abstract store. */
  lemma AnswersAreRight(ops: seq<Op>, id: Id, at: int, c: Check)
    requires Legal(ops)
    ensures var (resp, effect) := Decide(id, FetchedFrom(ops, id, at), c.now, c.tick, c.base64Ok, c.metaOk);
            RightAnswer(SpecRun(ops), id, at, c, resp) && RightEffect(resp, effect)
  {
    EveryReadIsAbstract(ops, id, at);
    if BurnedAndThere(SpecRun(ops), id) { BurnedIsNotReadable(SpecRun(ops), id, at); }
  }

  function FetchedFrom(ops: seq<Op>, id: Id, at: int): GetResult {
    GetTx(DbRun(ops), id, at).1
  }

  // ------------------------------------------------------------------ a created paste is served

  /** Neither the paste nor the holder of its content is deleted, and nothing burns it. */
  predicate LeavesAlone(op: Op, id: Id, holder: Id, burns: bool) {
    && op != DeleteRow(id) && op != DeleteRow(holder) && op != MarkBurned(id)
    && (op.Get? && burns ==> op.id != id)
  }

  /** The paste is stored as it was saved, and can be read. */
  ghost predicate Kept(s: Store, id: Id, c: Ciphertext, meta: Meta, holder: Id) {
    && id in s.entries && s.entries[id] == Entry(c, meta, holder)
    && id !in s.deleted && id !in s.burned && holder !in s.deleted
  }

  lemma StepKeepsKept(s: Store, op: Op, id: Id, c: Ciphertext, meta: Meta, holder: Id)
    requires Kept(s, id, c, meta, holder) && LegalOp(s, op) && LeavesAlone(op, id, holder, meta.burnAfterRead)
    ensures Kept(SpecStep(s, op), id, c, meta, holder)
  {
  }

  lemma {:induction false} RunKeepsKept(ops: seq<Op>, more: seq<Op>, id: Id, c: Ciphertext, meta: Meta, holder: Id)
    requires Legal(ops + more) && Kept(SpecRun(ops), id, c, meta, holder)
    requires forall op :: op in more ==> LeavesAlone(op, id, holder, meta.burnAfterRead)
    ensures Kept(SpecRun(ops + more), id, c, meta, holder)
    decreases |more|
  {
    if more == [] {
      assert ops + more == ops;
    } else {
      var before, op := more[..|more| - 1], more[|more| - 1];
      assert (ops + more)[..|ops + more| - 1] == ops + before;
      assert op in more && forall o :: o in before ==> o in more;
      RunKeepsKept(ops, before, id, c, meta, holder);
      StepKeepsKept(SpecRun(ops + before), op, id, c, meta, holder);
    }
  }

  lemma {:induction false} LegalPrefix(ops: seq<Op>, more: seq<Op>)
    requires Legal(ops + more)
    ensures Legal(ops)
    decreases |more|
  {
    if more == [] {
      assert ops + more == ops;
    } else {
      assert (ops + more)[..|ops + more| - 1] == ops + more[..|more| - 1];
      LegalPrefix(ops, more[..|more| - 1]);
    }
  }

  lemma SaveIsKept(ops: seq<Op>, id: Id, c: Ciphertext, meta: Meta)
    requires Legal(ops + [Save(id, c, meta)])
    ensures Kept(SpecRun(ops + [Save(id, c, meta)]), id, c, meta, HolderFor(SpecRun(ops), id, c))
  {
    var s := SpecRun(ops);
    assert (ops + [Save(id, c, meta)])[..|ops|] == ops;
    RunRefines(ops);
    if exists p :: IsHolder(s, p, c) { assert IsHolder(s, HolderFor(s, id, c), c); }
  }

  /**
   From the save on, whatever else is committed: as long as neither the paste nor the paste it was deduplicated against
   is deleted, and nobody has burned it, a fetch before the expiry is answered with what was saved.
   */
  lemma CreatedIsServed(ops: seq<Op>, id: Id, content: Ciphertext, meta: Meta, more: seq<Op>, at: int, c: Check)
    requires Legal(ops + [Save(id, content, meta)] + more) && content != ""
    requires forall op :: op in more ==>
               LeavesAlone(op, id, HolderFor(SpecRun(ops), id, content), meta.burnAfterRead)
    requires at < meta.expiresAt && c.now <= meta.expiresAt * c.tick && c.base64Ok && c.metaOk
    ensures var all := ops + [Save(id, content, meta)] + more;
            Decide(id, FetchedFrom(all, id, at), c.now, c.tick, c.base64Ok, c.metaOk)
            == (Served(content, Paste(id, meta, meta.burnAfterRead)), if meta.burnAfterRead then Queue else Nothing)
  {
    var saved := ops + [Save(id, content, meta)];
    LegalPrefix(saved, more);
    SaveIsKept(ops, id, content, meta);
    RunKeepsKept(saved, more, id, content, meta, HolderFor(SpecRun(ops), id, content));
    AnswersAreRight(saved + more, id, at, c);
  }

  // ------------------------------------------------------------------ which transactions take place

  /** Every transaction takes place, but a save under an id that is taken or empty, and a marker statement too early. */
  lemma TransactionsTakePlace(s: Service, op: Op, tick: int)
    ensures Step(s, Transact(op), tick).ops == s.ops + [op] <==>
              && (op.Save? ==> op.id != "" && op.id !in SpecRun(s.ops).entries)
              && (op.DeleteMarker? ==> op.id !in SpecRun(s.ops).entries || op.id in SpecRun(s.ops).deleted)
  {
    assert s.ops + [op] != s.ops;
  }

  // ------------------------------------------------------------------ one client in the running service

  /** A fetch and its response by a new client, with nothing in between. */
  ghost function FetchAndRespond(s: Service, client: ClientId, id: Id, at: int, c: Check): Service {
    var fetched := Step(s, PasteService.Fetch(client, id, at, false), c.tick);
    Step(fetched, Respond(client, c.now, c.base64Ok, c.metaOk), c.tick)
  }

  /** What a client is told, and what has happened to the store and the queue when it is told. */
  lemma ClientIsAnswered(s: Service, client: ClientId, id: Id, at: int, c: Check)
    requires PasteService.Inv(s) && client !in s.clients
    ensures var s' := FetchAndRespond(s, client, id, at, c);
            && client in s'.clients && s'.clients[client].Answered?
            && s'.clients[client].id == id && s'.clients[client].at == c.now
            && RightAnswer(SpecRun(s.ops), id, at, c, s'.clients[client].resp)
            && (s'.clients[client].resp == Expired ==> id in SpecRun(s'.ops).deleted)
            && (s'.clients[client].resp.Served? && s'.clients[client].resp.paste.meta.burnAfterRead ==>
                  id in SpecRun(s'.ops).burned)
            && (s'.queue.tasks == if s'.clients[client].resp.Served? && s'.clients[client].resp.paste.meta.burnAfterRead
                                     && !s.queue.closed && |s.queue.tasks| < 1000
                                  then s.queue.tasks + [id] else s.queue.tasks)
  {
    var got := FetchAnswer(s, id, at);
    AnswersAreRight(s.ops, id, at, c);
    CommitExtends(s, Get(id, at));
    var fetched := Step(s, PasteService.Fetch(client, id, at, false), c.tick);
    assert fetched.clients[client] == Holding(id, got);
    DQ.EnqueueIsExact(s.queue, id);
    var (resp, effect) := Decide(id, got, c.now, c.tick, c.base64Ok, c.metaOk);
    if effect == DeleteNow {
      var answered := fetched.(clients := fetched.clients[client := Answered(id, resp, c.now)]);
      CommitExtends(answered, DeleteRow(id));
    }
  }

  /** Created and fetched in the running service: whoever asks before the expiry is served what was saved. */
  lemma CreatedThenFetched(s: Service, client: ClientId, id: Id, content: Ciphertext, meta: Meta, at: int, c: Check)
    requires PasteService.Inv(s) && client !in s.clients
    requires id != "" && id !in SpecRun(s.ops).entries && content != ""
    requires at < meta.expiresAt && c.now <= meta.expiresAt * c.tick && c.base64Ok && c.metaOk
    ensures var created := Step(s, Transact(Save(id, content, meta)), c.tick);
            var s' := FetchAndRespond(created, client, id, at, c);
            client in s'.clients
            && s'.clients[client] == Answered(id, Served(content, Paste(id, meta, meta.burnAfterRead)), c.now)
  {
    var save := Save(id, content, meta);
    var created := Step(s, Transact(save), c.tick);
    TransactionsTakePlace(s, save, c.tick);
    StepKeepsInv(s, Transact(save), c.tick);
    SaveIsKept(s.ops, id, content, meta);
    ClientIsAnswered(created, client, id, at, c);
  }

  /** Once the service is shut down its queue is closed, and in no run does it take another id. */
  lemma {:induction false} ShutdownStopsQueueing(s: Service, actions: seq<Action>, tick: int)
    requires PasteService.Inv(s)
    ensures var s' := Run(Step(s, PasteService.Shutdown, tick), actions, tick);
            s'.queue.closed && s'.queue.accepted == s.queue.accepted
    decreases |actions|
  {
    ClosedStays(Step(s, PasteService.Shutdown, tick), actions, tick);
  }

  lemma ClosedStep(s: Service, a: Action, tick: int)
    requires s.queue.closed
    ensures Step(s, a, tick).queue.closed && Step(s, a, tick).queue.accepted == s.queue.accepted
  {
  }

  lemma {:induction false} ClosedStays(s: Service, actions: seq<Action>, tick: int)
    requires s.queue.closed
    ensures Run(s, actions, tick).queue.closed && Run(s, actions, tick).queue.accepted == s.queue.accepted
    decreases |actions|
  {
    if actions != [] {
      ClosedStep(s, actions[0], tick);
      ClosedStays(Step(s, actions[0], tick), actions[1..], tick);
    }
  }

  /** A worker's successful attempt deletes the paste it was handed. */
  lemma WorkerDeletes(s: Service, w: nat, tick: int)
    requires PasteService.Inv(s) && DQ.CanFinish(s.queue, w)
    ensures var id := s.queue.workers[w].id; id in SpecRun(Step(s, Work(DQ.Finish(w), true), tick).ops).deleted
  {
    var id := s.queue.workers[w].id;
    InFlightIsAccepted(s.queue, w);
    CommitExtends(s, DeleteRow(id));
  }

  // ------------------------------------------------------------------ which requests are accepted

  /**
   The requests that are stored, and as what: an encrypted one of at most 384 KiB decoded, or a plaintext of at most
   512 KiB, never both or neither, with a lifetime between a minute and thirty days.
   */
  lemma AcceptedExactly(r: CreateRequest, codec: Codec, c: Ciphertext)
    ensures ValidRequest(r, codec) && Stored(r, codec) == Some(c) <==>
              && 60 <= r.expirySeconds <= 2_592_000
              && (|| (r.plaintext == "" && c == r.ciphertext != "" && codec.anyBase64
                      && exists size: nat :: codec.stdDecoded == Some(size) && size <= 384 * 1024)
                  || (r.ciphertext == "" && 0 < |r.plaintext| <= 512 * 1024 && codec.envelope == Some(c)))
  {
  }
}
