/** Bans over whole runs: how long they last, and that nothing banned is ever stored again. */
module SqlUploads {
  import opened Common
  import opened SqlTables
  import opened SqlRefinement

  // ------------------------------------------------------------------ what a ban records

  predicate Bans(op: Op, h: Hash) { op.BanHash? && op.hash == h }

  /** The ban on a hash has the type of the first transaction that banned it and the reason of the last. */
  ghost predicate Recorded(ops: seq<Op>, h: Hash, ban: Ban, first: nat, last: nat) {
    && first < |ops| && last < |ops| && Bans(ops[first], h) && Bans(ops[last], h)
    && ban == Ban(ops[first].hashType, ops[last].reason)
    && (forall i :: 0 <= i < first ==> !Bans(ops[i], h))
    && (forall i :: last < i < |ops| ==> !Bans(ops[i], h))
  }

  lemma StepBans(db: Db, op: Op)
    ensures !op.BanHash? ==> DbStep(db, op).banned == db.banned
    ensures op.BanHash? ==>
              var ban := Ban(if op.hash in db.banned then db.banned[op.hash].hashType else op.hashType, op.reason);
              DbStep(db, op).banned == db.banned[op.hash := ban]
  {
  }

  /** In every run: a hash is banned exactly if some transaction banned it, and nothing ever lifts or alters a ban. */
  lemma {:induction false} BansLast(ops: seq<Op>, h: Hash)
    ensures h in DbRun(ops).banned <==> exists i :: 0 <= i < |ops| && Bans(ops[i], h)
    ensures h in DbRun(ops).banned ==> exists first, last :: Recorded(ops, h, DbRun(ops).banned[h], first, last)
  {
    if ops != [] {
      var before, op := ops[..|ops| - 1], ops[|ops| - 1];
      BansLast(before, h);
      StepBans(DbRun(before), op);
      assert forall i :: 0 <= i < |before| ==> before[i] == ops[i];
      if h in DbRun(before).banned {
        var first: nat, last: nat :| Recorded(before, h, DbRun(before).banned[h], first, last);
        assert Bans(ops[first], h);
        assert Recorded(ops, h, DbRun(ops).banned[h], first, if Bans(op, h) then |before| else last);
      } else if Bans(op, h) {
        assert Recorded(ops, h, DbRun(ops).banned[h], |before|, |before|);
      }
    }
  }

  // ------------------------------------------------------------------ uploads under a ban

  /** A whole SavePaste with its checks, or any other transaction. */
  datatype Request = Upload(id: Id, ciphertext: Ciphertext, meta: Meta, upload: Upload) | Other(op: Op)

  function RequestStep(db: Db, r: Request): Db {
    match r
    case Upload(id, c, meta, upload) => if Refusal(db, c, upload).Some? then db else SaveTx(db, id, c, meta).0
    case Other(op) => if op.Save? then db else DbStep(db, op)
  }

  function RequestRun(db: Db, rs: seq<Request>): Db {
    if rs == [] then db else RequestStep(RequestRun(db, rs[..|rs| - 1]), rs[|rs| - 1])
  }

  predicate BannedAs(db: Db, h: Hash, t: HashType) {
    h in db.banned && db.banned[h].hashType == t
  }

  /** Every row of this hash was there before. */
  ghost predicate NoNewRow(db: Db, db': Db, h: Hash) {
    forall p :: p in db'.pastes && db'.pastes[p].contentHash == h ==> p in db.pastes && db.pastes[p].contentHash == h
  }

  lemma RequestUnderBan(db: Db, r: Request, c: Ciphertext)
    requires BannedAs(db, Sha256(c), CiphertextHash)
    ensures BannedAs(RequestStep(db, r), Sha256(c), CiphertextHash)
    ensures NoNewRow(db, RequestStep(db, r), Sha256(c))
  {
    if r.Upload? {
      RefusedExactly(db, r.ciphertext, r.upload);
    } else {
      StepBans(db, r.op);
    }
  }

  /** Content banned as a ciphertext gets no new row, encrypted or not, whatever is uploaded and committed later. */
  lemma {:induction false} BannedGetsNoRow(db: Db, rs: seq<Request>, c: Ciphertext)
    requires BannedAs(db, Sha256(c), CiphertextHash)
    ensures BannedAs(RequestRun(db, rs), Sha256(c), CiphertextHash)
    ensures NoNewRow(db, RequestRun(db, rs), Sha256(c))
  {
    if rs != [] {
      var before := rs[..|rs| - 1];
      BannedGetsNoRow(db, before, c);
      RequestUnderBan(RequestRun(db, before), rs[|rs| - 1], c);
    }
  }

  /** So it is from the moment of the ban, unless the same hash was banned as a plaintext before. */
  lemma BanTakesEffect(db: Db, c: Ciphertext, reason: string, rs: seq<Request>)
    requires Sha256(c) in db.banned ==> db.banned[Sha256(c)].hashType == CiphertextHash
    ensures NoNewRow(db, RequestRun(BanTx(db, Sha256(c), CiphertextHash, reason), rs), Sha256(c))
  {
    BannedGetsNoRow(BanTx(db, Sha256(c), CiphertextHash, reason), rs, c);
  }

  /** A text banned as a plaintext is refused in every later upload that decodes to it, whatever its stored form. */
  lemma {:induction false} BannedTextIsRefused(db: Db, rs: seq<Request>, text: string, c: Ciphertext)
    requires BannedAs(db, Sha256(text), PlaintextHash)
    ensures BannedAs(RequestRun(db, rs), Sha256(text), PlaintextHash)
    ensures Refusal(RequestRun(db, rs), c, Plaintext(Some(text))) == Some(BannedContent)
  {
    if rs != [] {
      BannedTextIsRefused(db, rs[..|rs| - 1], text, c);
      if rs[|rs| - 1].Other? { StepBans(RequestRun(db, rs[..|rs| - 1]), rs[|rs| - 1].op); }
    }
    var now := RequestRun(db, rs);
    assert now.banned[Sha256(text)] == Ban(PlaintextHash, now.banned[Sha256(text)].reason);
    RefusedExactly(now, c, Plaintext(Some(text)));
  }

  /** What nobody banned is saved: the upload under a fresh id gets its row. */
  lemma UnbannedIsSaved(db: Db, id: Id, c: Ciphertext, meta: Meta, upload: Upload)
    requires Inv(db) && id != "" && id !in db.pastes && !upload.Undecodable?
    requires !BannedAs(db, Sha256(c), CiphertextHash)
    requires upload.Plaintext? && upload.content.Some? ==> !BannedAs(db, Sha256(upload.content.value), PlaintextHash)
    ensures var db' := RequestStep(db, Upload(id, c, meta, upload));
            id in db'.pastes && db'.pastes[id].contentHash == Sha256(c) && db'.pastes[id].meta == meta
  {
    RefusedExactly(db, c, upload);
    SavedIsRead(db, id, c, meta, meta.expiresAt - 1);
  }
}
