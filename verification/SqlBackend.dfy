/**
 The SQL backends as objects that update their tables in place. SQLite and PostgreSQL issue the same statements;
 they differ in the resolution of stored instants (`tick`) and in how many statements a delete takes.
 */
module SqlBackend {
  import opened Common
  import opened SqlTables
  import SqlRefinement
  import opened ExpiryWindow

  class Backend {
    const tick: int // nanoseconds: one second for SQLite, one microsecond for PostgreSQL
    var pastes: map<Id, Row>
    var hashIndex: map<Hash, Id>
    var burned: set<Id>
    var banned: map<Hash, Ban>

    ghost predicate Valid() reads this { tick > 0 && Inv(Tables()) }

    function Tables(): Db reads this { Db(pastes, hashIndex, burned, banned) }

    constructor (tick: int)
      requires tick > 0
      ensures Valid() && Tables() == EMPTY && this.tick == tick
    {
      this.tick := tick;
      pastes, hashIndex, burned, banned := map[], map[], {}, map[];
    }

    method SavePaste(id: Id, c: Ciphertext, expirySeconds: int, burnAfterRead: bool, upload: Upload, now: int)
      returns (res: SaveResult)
      requires Valid() && id != ""
      modifies this
      ensures Valid()
      ensures Refusal(old(Tables()), c, upload).Some? ==>
                res == Refusal(old(Tables()), c, upload).value && Tables() == old(Tables())
      ensures Refusal(old(Tables()), c, upload).None? ==>
                (Tables(), res) == SaveTx(old(Tables()), id, c,
                                          Meta(StoredExpiry(now, expirySeconds, tick), burnAfterRead, |c|, now / tick))
    {
      if upload.Undecodable? { return SaveFailed; }
      if upload.Plaintext? && upload.content.Some? {
        var plaintextHash := Sha256(upload.content.value);
        if IsBanned(Tables(), plaintextHash, PlaintextHash) { return BannedContent; }
      }
      var contentHash := Sha256(c);
      if IsBanned(Tables(), contentHash, CiphertextHash) { return BannedContent; }

      var expiresAt := now + expirySeconds * SECOND;
      var meta := Meta(expiresAt / tick, burnAfterRead, |c|, now / tick);
      SaveKeepsInv(Tables(), id, c, meta);
      var existingId := if contentHash in hashIndex then hashIndex[contentHash] else "";
      if id in pastes || (existingId != "" && existingId !in pastes) {
        return SaveFailed;
      }
      if existingId != "" {
        pastes := pastes[id := Row(None, Some(existingId), contentHash, meta)];
        return Saved(Some(existingId));
      }
      pastes := pastes[id := Row(Some(c), None, contentHash, meta)];
      if contentHash !in hashIndex {
        hashIndex := hashIndex[contentHash := id];
      }
      res := Saved(None);
    }

    /** The claim is inserted before the content is looked up; without content the transaction rolls back. */
    method GetPaste(id: Id, now: int) returns (res: GetResult)
      requires Valid()
      modifies this`burned
      ensures Valid()
      ensures (Tables(), res) == GetTx(old(Tables()), id, now / tick)
      ensures !res.Found? ==> Tables() == old(Tables())
    {
      GetKeepsInv(Tables(), id, now / tick);
      var atBegin := burned;
      if id in burned { return AlreadyBurned; }
      if id !in pastes || pastes[id].meta.expiresAt <= now / tick { return NotFound; }

      var row := pastes[id];
      var paste := Paste(id, row.meta, false);
      if row.meta.burnAfterRead {
        burned := burned + {id};
        paste := paste.(isBurned := true);
      }

      var contentId := id;
      if row.references.Some? && row.references.value != "" {
        contentId := row.references.value;
      }
      if contentId !in pastes || pastes[contentId].content.None? {
        burned := atBegin; // rollback
        return NotFound;
      }
      res := Found(pastes[contentId].content.value, paste);
    }

    method MarkBurned(id: Id) returns (ok: bool)
      requires Valid()
      modifies this`burned
      ensures Valid()
      ensures (Tables(), ok) == MarkTx(old(Tables()), id)
    {
      MarkKeepsInv(Tables(), id);
      ok := id in pastes;
      if ok { burned := burned + {id}; }
    }

    /** One statement; the schema's foreign keys do the rest. */
    method DeletePasteSqlite(id: Id)
      requires Valid()
      modifies this
      ensures Valid()
      ensures Tables() == DeleteRowTx(old(Tables()), id)
    {
      DeleteRowKeepsInv(Tables(), id);
      pastes := map p | p in pastes && p != id :: Unreference(pastes[p], id);
      hashIndex := map h | h in hashIndex && hashIndex[h] != id :: hashIndex[h];
      burned := burned - {id};
    }

    /** Anything other transactions do that save no paste under this id; here they do nothing. */
    method OthersCommit(ghost id: Id)
      requires Valid()
      modifies this
      ensures Valid()
      ensures exists ops :: SqlRefinement.NoneSaves(ops, id) && Tables() == SqlRefinement.DbRunFrom(old(Tables()), ops)
    {
      assert SqlRefinement.DbRunFrom(Tables(), []) == Tables();
      assert SqlRefinement.NoneSaves([], id);
    }

    /**
     Two statements, and between them other transactions run: the whole is one cascading delete followed by those
     transactions, and the second statement changes nothing.
     */
    method DeletePastePostgres(id: Id)
      requires Valid()
      modifies this
      ensures Valid() && id !in pastes && id !in burned
      ensures exists ops :: SqlRefinement.NoneSaves(ops, id)
                            && Tables() == SqlRefinement.DbRunFrom(DeleteRowTx(old(Tables()), id), ops)
    {
      DeletePasteSqlite(id);
      OthersCommit(id);
      ghost var deleted := DeleteRowTx(old(Tables()), id);
      ghost var ops :| SqlRefinement.NoneSaves(ops, id) && Tables() == SqlRefinement.DbRunFrom(deleted, ops);
      SqlRefinement.StaysDeleted(deleted, ops, id);
      assert burned - {id} == burned;
      burned := burned - {id};
    }

    method BanHash(h: Hash, t: HashType, reason: string)
      requires Valid()
      modifies this`banned
      ensures Valid()
      ensures Tables() == BanTx(old(Tables()), h, t, reason)
    {
      BanKeepsInv(Tables(), h, t, reason);
      if h in banned {
        banned := banned[h := banned[h].(reason := reason)];
      } else {
        banned := banned[h := Ban(t, reason)];
      }
    }
  }
}
