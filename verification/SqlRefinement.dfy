/**
 What the tables mean: a map from ids to ciphertexts. The abstract store knows nothing of rows, indexes,
 references or cascades; every run of transactions answers as the abstract store does.
 */
module SqlRefinement {
  import opened Common
  import opened SqlTables

  /** A saved paste. Its content lives with `holder`: itself, or the paste it was deduplicated against. */
  datatype Entry = Entry(ciphertext: Ciphertext, meta: Meta, holder: Id)

  /** Everything ever saved, and which of it was deleted or burned since. Nothing is ever forgotten. */
  datatype Store = Store(entries: map<Id, Entry>, deleted: set<Id>, burned: set<Id>)

  const NOTHING: Store := Store(map[], {}, {})

  // ------------------------------------------------------------------ the abstract store

  ghost predicate IsHolder(s: Store, p: Id, c: Ciphertext) {
    p in s.entries && p !in s.deleted && s.entries[p].holder == p && s.entries[p].ciphertext == c
  }

  ghost function HolderFor(s: Store, id: Id, c: Ciphertext): Id {
    if exists p :: IsHolder(s, p, c) then var p :| IsHolder(s, p, c); p else id
  }

  ghost function SpecSave(s: Store, id: Id, c: Ciphertext, meta: Meta): Store {
    s.(entries := s.entries[id := Entry(c, meta, HolderFor(s, id, c))])
  }

  /** Saved, not deleted, not burned, not expired, and its holder was never deleted. */
  ghost predicate Readable(s: Store, id: Id, now: int) {
    && id in s.entries
    && id !in s.deleted && id !in s.burned
    && now < s.entries[id].meta.expiresAt
    && s.entries[id].holder !in s.deleted
  }

  ghost function SpecGet(s: Store, id: Id, now: int): (Store, GetResult) {
    if Readable(s, id, now) then
      var e := s.entries[id];
      (if e.meta.burnAfterRead then s.(burned := s.burned + {id}) else s,
       Found(e.ciphertext, Paste(id, e.meta, e.meta.burnAfterRead)))
    else
      (s, if id in s.burned && id !in s.deleted then AlreadyBurned else NotFound)
  }

  ghost function SpecMark(s: Store, id: Id): Store {
    if id in s.entries && id !in s.deleted then s.(burned := s.burned + {id}) else s
  }

  ghost function SpecDelete(s: Store, id: Id): Store {
    if id in s.entries then s.(deleted := s.deleted + {id}) else s
  }

  // ------------------------------------------------------------------ the refinement relation

  /** The row that represents a saved and not deleted paste. */
  function RowOf(s: Store, id: Id): Row
    requires id in s.entries
  {
    var e := s.entries[id];
    Row(if e.holder == id then Some(e.ciphertext) else None,
        if e.holder == id || e.holder in s.deleted then None else Some(e.holder),
        Sha256(e.ciphertext), e.meta)
  }

  ghost predicate StoreOk(s: Store) {
    && s.deleted <= s.entries.Keys && s.burned <= s.entries.Keys
    && "" !in s.entries
    && forall p :: p in s.entries ==> HolderOk(s, p)
  }

  ghost predicate HolderOk(s: Store, p: Id)
    requires p in s.entries
  {
    var q := s.entries[p].holder;
    q in s.entries && s.entries[q].holder == q && s.entries[q].ciphertext == s.entries[p].ciphertext
  }

  ghost predicate Refines(db: Db, s: Store) {
    && StoreOk(s)
    && Inv(db)
    && db.pastes.Keys == s.entries.Keys - s.deleted
    && (forall p :: p in db.pastes ==> db.pastes[p] == RowOf(s, p))
    && db.burned == s.burned - s.deleted
  }

  /** The index finds exactly the abstract holder. */
  lemma IndexFindsHolder(db: Db, s: Store, id: Id, c: Ciphertext)
    requires Refines(db, s)
    ensures var found := IndexLookup(db, Sha256(c));
            HolderFor(s, id, c) == (if found != "" then found else id) && (found != "" ==> IsHolder(s, found, c))
  {
    var h := Sha256(c);
    assert forall p :: IsHolder(s, p, c) <==> Holds(db, p, h);
    forall p | IsHolder(s, p, c) ensures h in db.hashIndex && db.hashIndex[h] == p && p != "" {
      assert Holds(db, p, h);
    }
    if h in db.hashIndex { assert Holds(db, db.hashIndex[h], h); }
  }

  /** Saving under a fresh id always commits, and does what the abstract save does. */
  lemma SaveRefines(db: Db, s: Store, id: Id, c: Ciphertext, meta: Meta)
    requires Refines(db, s) && id != "" && id !in s.entries
    ensures var holder := HolderFor(s, id, c);
            SaveTx(db, id, c, meta).1 == Saved(if holder == id then None else Some(holder))
    ensures Refines(SaveTx(db, id, c, meta).0, SpecSave(s, id, c, meta))
  {
    IndexFindsHolder(db, s, id, c);
    SaveKeepsInv(db, id, c, meta);
    var db', s' := SaveTx(db, id, c, meta).0, SpecSave(s, id, c, meta);
    forall p | p in s'.entries ensures HolderOk(s', p) {
      if p != id { assert HolderOk(s, p); }
    }
  }

  /** GetPaste answers as the abstract store does; only a successful read changes a table. */
  lemma GetRefines(db: Db, s: Store, id: Id, now: int)
    requires Refines(db, s)
    ensures GetTx(db, id, now).1 == SpecGet(s, id, now).1
    ensures GetTx(db, id, now).1.Found? <==> Readable(s, id, now)
    ensures !GetTx(db, id, now).1.Found? ==> GetTx(db, id, now).0 == db
    ensures Refines(GetTx(db, id, now).0, SpecGet(s, id, now).0)
  {
    if id in db.pastes {
      assert HolderOk(s, id) && db.pastes[id] == RowOf(s, id);
    }
    GetKeepsInv(db, id, now);
    var s' := SpecGet(s, id, now).0;
    forall p | p in s'.entries ensures HolderOk(s', p) { assert HolderOk(s, p); }
    assert forall p :: p in s.entries ==> RowOf(s', p) == RowOf(s, p);
  }

  lemma MarkRefines(db: Db, s: Store, id: Id)
    requires Refines(db, s)
    ensures MarkTx(db, id).1 <==> id in s.entries && id !in s.deleted
    ensures Refines(MarkTx(db, id).0, SpecMark(s, id))
  {
    MarkKeepsInv(db, id);
    var s' := SpecMark(s, id);
    forall p | p in s'.entries ensures HolderOk(s', p) { assert HolderOk(s, p); }
    assert forall p :: p in s.entries ==> RowOf(s', p) == RowOf(s, p);
  }

  lemma DeleteRowRefines(db: Db, s: Store, id: Id)
    requires Refines(db, s)
    ensures Refines(DeleteRowTx(db, id), SpecDelete(s, id))
  {
    DeleteRowKeepsInv(db, id);
    var db', s' := DeleteRowTx(db, id), SpecDelete(s, id);
    forall p | p in s'.entries ensures HolderOk(s', p) { assert HolderOk(s, p); }
    forall p | p in db'.pastes ensures db'.pastes[p] == RowOf(s', p) {
      assert db.pastes[p] == RowOf(s, p) && HolderOk(s, p);
    }
  }

  /**
   After the row of a saved paste is gone, or if there never was one, the second statement of the PostgreSQL delete
   finds nothing.
   */
  lemma DeleteMarkerIsNoOp(db: Db, s: Store, id: Id)
    requires Refines(db, s) && (id in s.entries ==> id in s.deleted)
    ensures DeleteMarkerTx(db, id) == db
  {
    assert db.burned - {id} == db.burned;
  }

  // ------------------------------------------------------------------ whole runs

  /** One committed transaction. DeleteMarker occurs in PostgreSQL runs only. */
  datatype Op =
    | Save(id: Id, ciphertext: Ciphertext, meta: Meta)
    | Get(id: Id, now: int)
    | MarkBurned(id: Id)
    | DeleteRow(id: Id)
    | DeleteMarker(id: Id)
    | BanHash(hash: Hash, hashType: HashType, reason: string)

  function DbStep(db: Db, op: Op): Db {
    match op
    case Save(id, c, meta) => SaveTx(db, id, c, meta).0
    case Get(id, now) => GetTx(db, id, now).0
    case MarkBurned(id) => MarkTx(db, id).0
    case DeleteRow(id) => DeleteRowTx(db, id)
    case DeleteMarker(id) => DeleteMarkerTx(db, id)
    case BanHash(h, t, reason) => BanTx(db, h, t, reason)
  }

  ghost function SpecStep(s: Store, op: Op): Store {
    match op
    case Save(id, c, meta) => SpecSave(s, id, c, meta)
    case Get(id, now) => SpecGet(s, id, now).0
    case MarkBurned(id) => SpecMark(s, id)
    case DeleteRow(id) => SpecDelete(s, id)
    case DeleteMarker(_) => s
    case BanHash(_, _, _) => s
  }

  function DbRunFrom(db: Db, ops: seq<Op>): Db {
    if ops == [] then db else DbStep(DbRunFrom(db, ops[..|ops| - 1]), ops[|ops| - 1])
  }

  function DbRun(ops: seq<Op>): Db {
    DbRunFrom(EMPTY, ops)
  }

  ghost function SpecRun(ops: seq<Op>): Store {
    if ops == [] then NOTHING else SpecStep(SpecRun(ops[..|ops| - 1]), ops[|ops| - 1])
  }

  /** Ids are fresh when saved, and a marker statement follows the row statement of its paste. */
  ghost predicate LegalOp(s: Store, op: Op) {
    && (op.Save? ==> op.id != "" && op.id !in s.entries)
    && (op.DeleteMarker? && op.id in s.entries ==> op.id in s.deleted)
  }

  ghost predicate Legal(ops: seq<Op>) {
    ops != [] ==> Legal(ops[..|ops| - 1]) && LegalOp(SpecRun(ops[..|ops| - 1]), ops[|ops| - 1])
  }

  lemma StepRefines(db: Db, s: Store, op: Op)
    requires Refines(db, s) && LegalOp(s, op)
    ensures Refines(DbStep(db, op), SpecStep(s, op))
  {
    match op
    case Save(id, c, meta) => SaveRefines(db, s, id, c, meta);
    case Get(id, now) => GetRefines(db, s, id, now);
    case MarkBurned(id) => MarkRefines(db, s, id);
    case DeleteRow(id) => DeleteRowRefines(db, s, id);
    case DeleteMarker(id) => DeleteMarkerIsNoOp(db, s, id);
    case BanHash(h, t, reason) => BanKeepsInv(db, h, t, reason);
  }

  lemma {:induction false} RunRefines(ops: seq<Op>)
    requires Legal(ops)
    ensures Refines(DbRun(ops), SpecRun(ops))
  {
    if ops != [] {
      RunRefines(ops[..|ops| - 1]);
      StepRefines(DbRun(ops[..|ops| - 1]), SpecRun(ops[..|ops| - 1]), ops[|ops| - 1]);
    }
  }

  /** After any legal run a read answers exactly as the abstract store, and changes nothing unless it succeeds. */
  lemma EveryReadIsAbstract(ops: seq<Op>, id: Id, now: int)
    requires Legal(ops)
    ensures GetTx(DbRun(ops), id, now).1 == SpecGet(SpecRun(ops), id, now).1
    ensures GetTx(DbRun(ops), id, now).1.Found? <==> Readable(SpecRun(ops), id, now)
    ensures !GetTx(DbRun(ops), id, now).1.Found? ==> GetTx(DbRun(ops), id, now).0 == DbRun(ops)
  {
    RunRefines(ops);
    GetRefines(DbRun(ops), SpecRun(ops), id, now);
  }

  /** The index and the references stay exact through every run, even one that reuses deleted ids. */
  lemma {:induction false} TablesStayExact(ops: seq<Op>)
    requires forall op :: op in ops && op.Save? ==> op.id != ""
    ensures Inv(DbRun(ops))
  {
    if ops != [] {
      assert ops[|ops| - 1] in ops;
      TablesStayExact(ops[..|ops| - 1]);
      StepKeepsTables(DbRun(ops[..|ops| - 1]), ops[|ops| - 1]);
    }
  }

  /** Nothing saves under this id, or under none. */
  predicate NoneSaves(ops: seq<Op>, id: Id) {
    forall op :: op in ops && op.Save? ==> op.id != "" && op.id != id
  }

  /** Once its row is gone, a paste that nobody saves again has neither row nor marker, whatever is committed. */
  lemma {:induction false} StaysDeleted(db: Db, ops: seq<Op>, id: Id)
    requires Inv(db) && id !in db.pastes && NoneSaves(ops, id)
    ensures Inv(DbRunFrom(db, ops)) && id !in DbRunFrom(db, ops).pastes && id !in DbRunFrom(db, ops).burned
  {
    if ops != [] {
      var before, op := ops[..|ops| - 1], ops[|ops| - 1];
      assert op in ops && forall o :: o in before ==> o in ops;
      StaysDeleted(db, before, id);
      StepKeepsTables(DbRunFrom(db, before), op);
    }
  }

  lemma StepKeepsTables(db: Db, op: Op)
    requires Inv(db) && (op.Save? ==> op.id != "")
    ensures Inv(DbStep(db, op))
  {
    match op
    case Save(id, c, meta) => SaveKeepsInv(db, id, c, meta);
    case Get(id, now) => GetKeepsInv(db, id, now);
    case MarkBurned(id) => MarkKeepsInv(db, id);
    case DeleteRow(id) => DeleteRowKeepsInv(db, id);
    case DeleteMarker(id) => DeleteMarkerKeepsInv(db, id);
    case BanHash(h, t, reason) => BanKeepsInv(db, h, t, reason);
  }

  // ------------------------------------------------------------------ the abstract store, in terms of the run

  /** The store has what this save wrote. */
  ghost predicate SavedBy(s: Store, op: Op)
    requires op.Save?
  {
    op.id in s.entries && s.entries[op.id].ciphertext == op.ciphertext && s.entries[op.id].meta == op.meta
  }

  /** The entry of an id is what its one save wrote. */
  lemma {:induction false} EntryIsWhatWasSaved(ops: seq<Op>, id: Id)
    requires Legal(ops)
    ensures id in SpecRun(ops).entries <==> exists i :: 0 <= i < |ops| && ops[i].Save? && ops[i].id == id
    ensures forall i :: 0 <= i < |ops| && ops[i].Save? && ops[i].id == id ==> SavedBy(SpecRun(ops), ops[i])
  {
    if ops != [] {
      var before, op := ops[..|ops| - 1], ops[|ops| - 1];
      EntryIsWhatWasSaved(before, id);
      if id in SpecRun(ops).entries && !(op.Save? && op.id == id) {
        var i :| 0 <= i < |before| && before[i].Save? && before[i].id == id;
        assert ops[i] == before[i];
      }
      forall i | 0 <= i < |ops| && ops[i].Save? && ops[i].id == id
        ensures SavedBy(SpecRun(ops), ops[i])
      {
        if i < |before| { assert before[i] == ops[i]; }
      }
    }
  }

  /** An id is deleted exactly when a delete of it was committed after its save. */
  lemma {:induction false} DeletedIsADeleteAfterTheSave(ops: seq<Op>, id: Id)
    requires Legal(ops)
    ensures id in SpecRun(ops).deleted <==>
            exists i, j :: 0 <= i < j < |ops| && ops[i].Save? && ops[i].id == id && ops[j] == DeleteRow(id)
  {
    if ops != [] {
      var before, op := ops[..|ops| - 1], ops[|ops| - 1];
      DeletedIsADeleteAfterTheSave(before, id);
      EntryIsWhatWasSaved(before, id);
      if id in SpecRun(before).deleted {
        var i, j :| 0 <= i < j < |before| && before[i].Save? && before[i].id == id && before[j] == DeleteRow(id);
        assert ops[i] == before[i] && ops[j] == before[j];
      } else if op == DeleteRow(id) && id in SpecRun(before).entries {
        var i :| 0 <= i < |before| && before[i].Save? && before[i].id == id;
        assert ops[i] == before[i] && ops[|ops| - 1] == op;
      }
      if i, j :| 0 <= i < j < |ops| && ops[i].Save? && ops[i].id == id && ops[j] == DeleteRow(id) {
        assert before[i] == ops[i];
        if j < |before| { assert before[j] == ops[j]; }
      }
    }
  }

  /** What a run says of burning: an id is burned exactly when a read of it succeeded or it was marked while present. */
  ghost predicate Burns(ops: seq<Op>, j: nat, id: Id)
    requires j < |ops|
  {
    var s, op := SpecRun(ops[..j]), ops[j];
    || (op.Get? && op.id == id && Readable(s, id, op.now) && s.entries[id].meta.burnAfterRead)
    || (op == MarkBurned(id) && id in s.entries && id !in s.deleted)
  }

  lemma {:induction false} BurnedIsAReadOrAMark(ops: seq<Op>, id: Id)
    ensures id in SpecRun(ops).burned <==> exists j :: 0 <= j < |ops| && Burns(ops, j, id)
  {
    if ops != [] {
      var before := ops[..|ops| - 1];
      BurnedIsAReadOrAMark(before, id);
      assert forall j :: 0 <= j < |before| ==> before[..j] == ops[..j];
      assert forall j :: 0 <= j < |before| ==> (Burns(before, j, id) <==> Burns(ops, j, id));
      if id in SpecRun(before).burned {
        var j :| 0 <= j < |before| && Burns(before, j, id);
        assert Burns(ops, j, id);
      } else if id in SpecRun(ops).burned {
        assert Burns(ops, |before|, id);
      }
    }
  }
}
