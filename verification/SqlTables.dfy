/**
 The four tables shared by the SQLite and the PostgreSQL backend, and the transactions that run on them.
 Every transaction is serializable, so each one is a function from the tables before to the tables after.
 Stored instants are counted in ticks of the backend's clock resolution.
 */
module SqlTables {
  import opened Common

  datatype Meta = Meta(expiresAt: int, burnAfterRead: bool, sizeBytes: nat, createdAt: int)

  /** A row of `pastes`. Either `content` is set, or the row was created as a reference to another row. */
  datatype Row = Row(content: Option<Ciphertext>, references: Option<Id>, contentHash: Hash, meta: Meta)

  datatype HashType = CiphertextHash | PlaintextHash

  datatype Ban = Ban(hashType: HashType, reason: string)

  datatype Db = Db(pastes: map<Id, Row>, hashIndex: map<Hash, Id>, burned: set<Id>, banned: map<Hash, Ban>)

  const EMPTY: Db := Db(map[], map[], {}, map[])

  datatype Paste = Paste(id: Id, meta: Meta, isBurned: bool)

  datatype GetResult = Found(content: Ciphertext, paste: Paste) | AlreadyBurned | NotFound

  datatype SaveResult = Saved(references: Option<Id>) | BannedContent | SaveFailed

  // ------------------------------------------------------------------ transactions

  function IndexLookup(db: Db, h: Hash): Id {
    if h in db.hashIndex then db.hashIndex[h] else ""
  }

  /** The insert transaction of SavePaste. A violated key constraint rolls everything back. */
  function SaveTx(db: Db, id: Id, c: Ciphertext, meta: Meta): (Db, SaveResult) {
    var h := Sha256(c);
    var existing := IndexLookup(db, h);
    if id in db.pastes || (existing != "" && existing !in db.pastes) then
      (db, SaveFailed)
    else if existing != "" then
      (db.(pastes := db.pastes[id := Row(None, Some(existing), h, meta)]), Saved(Some(existing)))
    else
      (db.(pastes := db.pastes[id := Row(Some(c), None, h, meta)],
           hashIndex := if h in db.hashIndex then db.hashIndex else db.hashIndex[h := id]),
       Saved(None))
  }

  predicate IsBanned(db: Db, h: Hash, t: HashType) {
    h in db.banned && db.banned[h].hashType == t
  }

  /** The checks that come before the insert transaction. */
  function Refusal(db: Db, c: Ciphertext, upload: Upload): Option<SaveResult> {
    if upload.Undecodable? then Some(SaveFailed)
    else if upload.Plaintext? && upload.content.Some? && IsBanned(db, Sha256(upload.content.value), PlaintextHash) then
      Some(BannedContent)
    else if IsBanned(db, Sha256(c), CiphertextHash) then Some(BannedContent)
    else None
  }

  /** The row GetPaste reads content from. */
  function ContentId(row: Row, id: Id): Id {
    if row.references.Some? && row.references.value != "" then row.references.value else id
  }

  /** GetPaste: the burn claim is inserted first and rolled back when no content can be read. */
  function GetTx(db: Db, id: Id, now: int): (Db, GetResult) {
    if id in db.burned then (db, AlreadyBurned)
    else if id !in db.pastes || db.pastes[id].meta.expiresAt <= now then (db, NotFound)
    else
      var row := db.pastes[id];
      var claimed := if row.meta.burnAfterRead then db.(burned := db.burned + {id}) else db;
      var contentId := ContentId(row, id);
      if contentId !in db.pastes || db.pastes[contentId].content.None? then (db, NotFound)
      else (claimed, Found(db.pastes[contentId].content.value, Paste(id, row.meta, row.meta.burnAfterRead)))
  }

  /** The marker's foreign key refuses an id without a row. */
  function MarkTx(db: Db, id: Id): (Db, bool) {
    if id in db.pastes then (db.(burned := db.burned + {id}), true) else (db, false)
  }

  function Unreference(row: Row, id: Id): Row {
    if row.references == Some(id) then row.(references := None) else row
  }

  /** DELETE FROM pastes: references are set to null, index entry and marker go with the row. */
  function DeleteRowTx(db: Db, id: Id): Db {
    Db(map p | p in db.pastes && p != id :: Unreference(db.pastes[p], id),
       map h | h in db.hashIndex && db.hashIndex[h] != id :: db.hashIndex[h],
       db.burned - {id},
       db.banned)
  }

  /** The second statement of the PostgreSQL DeletePaste. */
  function DeleteMarkerTx(db: Db, id: Id): Db {
    db.(burned := db.burned - {id})
  }

  /** An already banned hash keeps the type it was first banned under. */
  function BanTx(db: Db, h: Hash, t: HashType, reason: string): Db {
    db.(banned := db.banned[h := Ban(if h in db.banned then db.banned[h].hashType else t, reason)])
  }

  // ------------------------------------------------------------------ the table invariant

  ghost predicate Holds(db: Db, p: Id, h: Hash) {
    p in db.pastes && db.pastes[p].content.Some? && db.pastes[p].contentHash == h
  }

  /** hash_index lists h with p exactly when p is a content-bearing row of hash h. */
  ghost predicate IndexExact(db: Db) {
    forall h, p :: (h in db.hashIndex && db.hashIndex[h] == p) <==> Holds(db, p, h)
  }

  ghost predicate RowOk(db: Db, p: Id)
    requires p in db.pastes
  {
    var row := db.pastes[p];
    && (row.content.Some? ==> row.references.None? && row.contentHash == Sha256(row.content.value))
    && (row.references.Some? ==> row.references.value != p && Holds(db, row.references.value, row.contentHash))
  }

  ghost predicate Inv(db: Db) {
    && "" !in db.pastes
    && IndexExact(db)
    && (forall p :: p in db.pastes ==> RowOk(db, p))
    && db.burned <= db.pastes.Keys
  }

  lemma SaveKeepsInv(db: Db, id: Id, c: Ciphertext, meta: Meta)
    requires Inv(db) && id != ""
    ensures Inv(SaveTx(db, id, c, meta).0)
  {
    var db' := SaveTx(db, id, c, meta).0;
    if db' != db {
      forall h, p ensures (h in db'.hashIndex && db'.hashIndex[h] == p) <==> Holds(db', p, h) {
        assert (h in db.hashIndex && db.hashIndex[h] == p) <==> Holds(db, p, h);
        if Sha256(c) in db.hashIndex { assert Holds(db, db.hashIndex[Sha256(c)], Sha256(c)); }
      }
      forall p | p in db'.pastes ensures RowOk(db', p) {
        if p != id { assert RowOk(db, p); }
      }
    }
  }

  lemma GetKeepsInv(db: Db, id: Id, now: int)
    requires Inv(db)
    ensures Inv(GetTx(db, id, now).0)
  {
    var db' := GetTx(db, id, now).0;
    assert forall p, h :: Holds(db, p, h) <==> Holds(db', p, h);
    forall p | p in db'.pastes ensures RowOk(db', p) { assert RowOk(db, p); }
  }

  lemma MarkKeepsInv(db: Db, id: Id)
    requires Inv(db)
    ensures Inv(MarkTx(db, id).0)
  {
    var db' := MarkTx(db, id).0;
    assert forall p, h :: Holds(db, p, h) <==> Holds(db', p, h);
    forall p | p in db'.pastes ensures RowOk(db', p) { assert RowOk(db, p); }
  }

  lemma DeleteRowKeepsInv(db: Db, id: Id)
    requires Inv(db)
    ensures Inv(DeleteRowTx(db, id))
  {
    var db' := DeleteRowTx(db, id);
    assert forall p, h :: Holds(db', p, h) <==> Holds(db, p, h) && p != id;
    forall h, p ensures (h in db'.hashIndex && db'.hashIndex[h] == p) <==> Holds(db', p, h) {
      assert (h in db.hashIndex && db.hashIndex[h] == p) <==> Holds(db, p, h);
    }
    forall p | p in db'.pastes ensures RowOk(db', p) { assert RowOk(db, p); }
  }

  lemma DeleteMarkerKeepsInv(db: Db, id: Id)
    requires Inv(db)
    ensures Inv(DeleteMarkerTx(db, id))
  {
    var db' := DeleteMarkerTx(db, id);
    assert forall p, h :: Holds(db, p, h) <==> Holds(db', p, h);
    forall p | p in db'.pastes ensures RowOk(db', p) { assert RowOk(db, p); }
  }

  lemma BanKeepsInv(db: Db, h: Hash, t: HashType, reason: string)
    requires Inv(db)
    ensures Inv(BanTx(db, h, t, reason))
  {
    var db' := BanTx(db, h, t, reason);
    assert forall p, k :: Holds(db, p, k) <==> Holds(db', p, k);
    forall p | p in db'.pastes ensures RowOk(db', p) { assert RowOk(db, p); }
  }

  /** Two rows never store the same content. */
  lemma ContentStoredOnce(db: Db, p: Id, q: Id)
    requires Inv(db) && p in db.pastes && q in db.pastes
    requires db.pastes[p].content.Some? && db.pastes[p].content == db.pastes[q].content
    ensures p == q
  {
    assert RowOk(db, p) && RowOk(db, q);
    var h := db.pastes[p].contentHash;
    assert Holds(db, p, h) && Holds(db, q, h);
    assert h in db.hashIndex && db.hashIndex[h] == p && db.hashIndex[h] == q;
  }

  /**
   Which uploads are refused, and how: what cannot be decoded, a plaintext whose text is banned as such, and any upload,
   encrypted or not, whose stored form is banned as a ciphertext.
   */
  lemma RefusedExactly(db: Db, c: Ciphertext, upload: Upload)
    ensures Refusal(db, c, upload) == Some(SaveFailed) <==> upload.Undecodable?
    ensures Refusal(db, c, upload) == Some(BannedContent) <==>
              && !upload.Undecodable?
              && ((Sha256(c) in db.banned && db.banned[Sha256(c)].hashType == CiphertextHash)
                  || exists text, reason ::
                       upload == Plaintext(Some(text)) && Sha256(text) in db.banned
                       && db.banned[Sha256(text)] == Ban(PlaintextHash, reason))
    ensures Refusal(db, c, upload).Some? ==> Refusal(db, c, upload).value in {SaveFailed, BannedContent}
  {
    if upload.Plaintext? && upload.content.Some? && Sha256(upload.content.value) in db.banned {
      var ban := db.banned[Sha256(upload.content.value)];
      assert ban == Ban(ban.hashType, ban.reason);
    }
  }

  /** What has just been saved under a fresh id is read back, deduplicated or not, exactly while it has not expired. */
  lemma SavedIsRead(db: Db, id: Id, c: Ciphertext, meta: Meta, now: int)
    requires Inv(db) && id != "" && id !in db.pastes
    ensures GetTx(SaveTx(db, id, c, meta).0, id, now).1
         == if now < meta.expiresAt then Found(c, Paste(id, meta, meta.burnAfterRead)) else NotFound
  {
    var h := Sha256(c);
    if h in db.hashIndex {
      assert Holds(db, db.hashIndex[h], h);
      assert RowOk(db, db.hashIndex[h]);
    }
  }

  /**
   Banning a plaintext stops its uploads just when its hash was not banned as a ciphertext before: an existing entry
   keeps its type. (An upload whose stored form is banned is stopped in any case.)
   */
  lemma PlaintextBanTakesEffect(db: Db, text: string, reason: string, c: Ciphertext)
    ensures Refusal(BanTx(db, Sha256(text), PlaintextHash, reason), c, Plaintext(Some(text))).Some? <==>
              (Sha256(text) in db.banned ==> db.banned[Sha256(text)].hashType == PlaintextHash)
              || IsBanned(db, Sha256(c), CiphertextHash)
  {
  }
}
