/**
 The object-store backend as a protocol. Each step is one object operation of one process; readers, deleters,
 markers and savers run in any number and any interleaving, and any operation may report a failure.
 */
module GcsProtocol {
  import opened Common

  type Pid = nat

  /** Object metadata. The expiry is in seconds; a reference object names the paste that holds its content. */
  datatype Meta = Meta(expiresAt: int, burnAfterRead: bool, references: Option<Id>)

  datatype Object = Object(generation: nat, content: Ciphertext, meta: Meta)

  /** The name of a `banned-hashes/` object. */
  datatype Ban = CiphertextBan(hash: Hash) | PlaintextBan(hash: Hash)

  /** Objects `pastes/<id>`, `burns/<id>`, `hashes/<hash>` and `banned-hashes/<type>/<hash>`. */
  datatype Bucket = Bucket(
    pastes: map<Id, Object>, burns: set<Id>, hashes: map<Hash, Id>, banned: set<Ban>, nextGeneration: nat)

  datatype Outcome = Delivered(content: Ciphertext) | Burned | NotFound | Failed

  datatype ReadPc =
    | ReadAttrs
    | CheckMarker(attrs: Object)
    | FollowReference(attrs: Object)
    | CheckExpiry(attrs: Object, target: Id, generation: nat)
    | DropContent(target: Id)
    | DropMarker
    | Claim(target: Id, generation: nat)
    | ReadContent(target: Id, generation: nat)
    | ReadReturned(outcome: Outcome)

  datatype DeletePc = DeleteContent | DeleteMarker | DeleteReturned(ok: bool)

  datatype MarkPc = MarkCheck | MarkWrite | MarkReturned(ok: bool)

  datatype SaveOutcome = Saved | BannedContent | SaveFailed

  datatype SavePc =
    | SaveCheckPlaintext(text: string)
    | SaveCheckContent
    | SaveLookup
    | SaveWrite(existing: Id)
    | SaveIndex
    | SaveReturned(outcome: SaveOutcome)

  /** What SavePaste is asked to store. */
  datatype Draft = Draft(content: Ciphertext, upload: Upload, expiresAt: int, burnAfterRead: bool)

  /** A call in progress or finished. `claimed` records that this reader's conditional write created the marker. */
  datatype Process =
    | Reader(id: Id, rpc: ReadPc, claimed: bool)
    | Deleter(id: Id, dpc: DeletePc)
    | Marker(id: Id, mpc: MarkPc)
    | Saver(id: Id, draft: Draft, spc: SavePc)

  /**
   The bucket and the processes, with history: the draft each id was saved with, every object ever written,
   how often each marker was deleted, and the pastes whose own content an expiry cleanup failed to delete.
   */
  datatype System = System(
    bucket: Bucket, procs: map<Pid, Process>,
    drafts: map<Id, Draft>, written: map<Id, Object>, unburned: multiset<Id>, leftBehind: set<Id>)

  const START: System := System(Bucket(map[], {}, map[], {}, 0), map[], map[], map[], multiset{}, {})

  /** `Refused`: the operation failed without effect. `Lost`: it took effect, but the caller was told it failed. */
  datatype Fault = NoFault | Refused | Lost

  datatype Action =
    | Read(pid: Pid, id: Id)
    | Delete(pid: Pid, id: Id)
    | Mark(pid: Pid, id: Id)
    | Save(pid: Pid, id: Id, draft: Draft)
    | BanHash(pid: Pid, ban: Ban)
    | Advance(pid: Pid, now: int, fault: Fault)

  /** What one operation does to the bucket (and to the history kept of it). */
  datatype Effect =
    | Nothing
    | RemovePaste(id: Id)
    | LeaveBehind(id: Id)
    | RemoveMarker(id: Id)
    | AddMarker(id: Id)
    | WritePaste(id: Id, content: Ciphertext, meta: Meta)
    | IndexPaste(hash: Hash, id: Id)

  // ------------------------------------------------------------------ steps

  function Apply(s: System, e: Effect): System {
    var b := s.bucket;
    match e
    case Nothing => s
    case RemovePaste(id) => s.(bucket := b.(pastes := b.pastes - {id}))
    case LeaveBehind(id) => s.(leftBehind := s.leftBehind + {id})
    case RemoveMarker(id) =>
      if id in b.burns then s.(bucket := b.(burns := b.burns - {id}), unburned := s.unburned + multiset{id}) else s
    case AddMarker(id) => s.(bucket := b.(burns := b.burns + {id}))
    case WritePaste(id, content, meta) =>
      var obj := Object(b.nextGeneration, content, meta);
      s.(bucket := b.(pastes := b.pastes[id := obj], nextGeneration := b.nextGeneration + 1),
         written := s.written[id := obj])
    case IndexPaste(h, id) => s.(bucket := b.(hashes := b.hashes[h := id]))
  }

  predicate References(meta: Meta) {
    meta.references.Some? && meta.references.value != ""
  }

  /** GetPaste, one operation at a time. A failed look at the marker is taken for an absent marker. */
  function ReadStep(b: Bucket, p: Process, now: int, fault: Fault): (Process, Effect)
    requires p.Reader?
  {
    match p.rpc
    case ReadAttrs =>
      (p.(rpc := if fault != NoFault then ReadReturned(Failed)
                 else if p.id !in b.pastes then ReadReturned(NotFound)
                 else CheckMarker(b.pastes[p.id])), Nothing)
    case CheckMarker(attrs) =>
      (p.(rpc := if fault == NoFault && p.id in b.burns then ReadReturned(Burned) else FollowReference(attrs)), Nothing)
    case FollowReference(attrs) =>
      if !References(attrs.meta) then
        (p.(rpc := CheckExpiry(attrs, p.id, attrs.generation)), Nothing)
      else
        var r := attrs.meta.references.value;
        (p.(rpc := if fault != NoFault || r !in b.pastes then ReadReturned(Failed)
                   else CheckExpiry(attrs, r, b.pastes[r].generation)), Nothing)
    case CheckExpiry(attrs, target, generation) =>
      (p.(rpc := if now > attrs.meta.expiresAt * SECOND then DropContent(target)
                 else if attrs.meta.burnAfterRead then Claim(target, generation)
                 else ReadContent(target, generation)), Nothing)
    case DropContent(target) =>
      (p.(rpc := DropMarker),
       if fault != Refused then RemovePaste(target)
       else if target == p.id && target in b.pastes then LeaveBehind(target)
       else Nothing)
    case DropMarker =>
      (p.(rpc := ReadReturned(NotFound)), if fault == Refused then Nothing else RemoveMarker(p.id))
    case Claim(target, generation) =>
      if fault != NoFault then (p.(rpc := ReadReturned(Failed)), if fault == Lost then AddMarker(p.id) else Nothing)
      else if p.id in b.burns then (p.(rpc := ReadReturned(Burned)), Nothing)
      else (p.(rpc := ReadContent(target, generation), claimed := true), AddMarker(p.id))
    case ReadContent(target, generation) =>
      (p.(rpc := ReadReturned(if fault != NoFault then Failed
                              else if target !in b.pastes then NotFound
                              else if b.pastes[target].generation != generation then Failed
                              else Delivered(b.pastes[target].content))), Nothing)
    case ReadReturned(_) => (p, Nothing)
  }

  /** DeletePaste: the paste object first, then the marker. */
  function DeleteStep(p: Process, fault: Fault): (Process, Effect)
    requires p.Deleter?
  {
    match p.dpc
    case DeleteContent =>
      (p.(dpc := if fault == NoFault then DeleteMarker else DeleteReturned(false)),
       if fault == Refused then Nothing else RemovePaste(p.id))
    case DeleteMarker =>
      (p.(dpc := DeleteReturned(true)), if fault == Refused then Nothing else RemoveMarker(p.id))
    case DeleteReturned(_) => (p, Nothing)
  }

  /** MarkBurned: an unconditional write unless the marker was seen. */
  function MarkStep(b: Bucket, p: Process, fault: Fault): (Process, Effect)
    requires p.Marker?
  {
    match p.mpc
    case MarkCheck =>
      (p.(mpc := if fault == NoFault && p.id in b.burns then MarkReturned(true) else MarkWrite), Nothing)
    case MarkWrite =>
      (p.(mpc := MarkReturned(fault == NoFault)), if fault == Refused then Nothing else AddMarker(p.id))
    case MarkReturned(_) => (p, Nothing)
  }

  /** Where a save begins; a plaintext that does not decode fails before any operation. */
  function FirstSavePc(d: Draft): SavePc {
    if d.upload.Undecodable? then SaveReturned(SaveFailed)
    else if d.upload.Plaintext? && d.upload.content.Some? then SaveCheckPlaintext(d.upload.content.value)
    else SaveCheckContent
  }

  function AfterBanCheck(b: Bucket, ban: Ban, fault: Fault, next: SavePc): SavePc {
    if fault != NoFault then SaveReturned(SaveFailed) else if ban in b.banned then SaveReturned(BannedContent) else next
  }

  /** SavePaste: check the bans, look the hash up, write a reference or the content, and index new content. */
  function SaveStep(b: Bucket, p: Process, fault: Fault): (Process, Effect)
    requires p.Saver?
  {
    var d := p.draft;
    var h := Sha256(d.content);
    match p.spc
    case SaveCheckPlaintext(text) =>
      (p.(spc := AfterBanCheck(b, PlaintextBan(Sha256(text)), fault, SaveCheckContent)), Nothing)
    case SaveCheckContent => (p.(spc := AfterBanCheck(b, CiphertextBan(h), fault, SaveLookup)), Nothing)
    case SaveLookup =>
      (p.(spc := if fault != NoFault then SaveReturned(SaveFailed)
                 else SaveWrite(if h in b.hashes then b.hashes[h] else "")), Nothing)
    case SaveWrite(existing) =>
      (p.(spc := if fault != NoFault then SaveReturned(SaveFailed)
                 else if existing != "" then SaveReturned(Saved)
                 else SaveIndex),
       if fault == Refused then Nothing
       else if existing != "" then WritePaste(p.id, "", Meta(d.expiresAt, d.burnAfterRead, Some(existing)))
       else WritePaste(p.id, d.content, Meta(d.expiresAt, d.burnAfterRead, None)))
    case SaveIndex =>
      (p.(spc := SaveReturned(Saved)), if fault == Refused then Nothing else IndexPaste(h, p.id))
    case SaveReturned(_) => (p, Nothing)
  }

  function ProcessStep(b: Bucket, p: Process, now: int, fault: Fault): (Process, Effect) {
    match p
    case Reader(_, _, _) => ReadStep(b, p, now, fault)
    case Deleter(_, _) => DeleteStep(p, fault)
    case Marker(_, _) => MarkStep(b, p, fault)
    case Saver(_, _, _) => SaveStep(b, p, fault)
  }

  function Put(s: System, pid: Pid, p: Process): System {
    s.(procs := s.procs[pid := p])
  }

  function Advanced(s: System, pid: Pid, now: int, fault: Fault): System
    requires pid in s.procs
  {
    var (p, e) := ProcessStep(s.bucket, s.procs[pid], now, fault);
    Put(Apply(s, e), pid, p)
  }

  /** Ids are fresh when saved, and only a paste that was written is ever handed to DeletePaste. */
  function Step(s: System, a: Action): System {
    match a
    case Advance(pid, now, fault) => if pid in s.procs then Advanced(s, pid, now, fault) else s
    case Read(pid, id) => if pid in s.procs then s else Put(s, pid, Reader(id, ReadAttrs, false))
    case Delete(pid, id) => if pid in s.procs || id !in s.written then s else Put(s, pid, Deleter(id, DeleteContent))
    case Mark(pid, id) => if pid in s.procs then s else Put(s, pid, Marker(id, MarkCheck))
    case Save(pid, id, draft) =>
      if pid in s.procs || id in s.drafts then s
      else Put(s, pid, Saver(id, draft, FirstSavePc(draft))).(drafts := s.drafts[id := draft])
    case BanHash(_, ban) => s.(bucket := s.bucket.(banned := s.bucket.banned + {ban}))
  }

  function Run(s: System, actions: seq<Action>): System
    decreases |actions|
  {
    if actions == [] then s else Run(Step(s, actions[0]), actions[1..])
  }

  // ------------------------------------------------------------------ what is counted

  predicate HasClaimed(p: Process, id: Id) { p.Reader? && p.id == id && p.claimed }

  predicate HasDelivered(p: Process, id: Id) {
    p.Reader? && p.id == id && p.rpc.ReadReturned? && p.rpc.outcome.Delivered?
  }

  function Claims(s: System, id: Id): set<Pid> {
    set pid | pid in s.procs && HasClaimed(s.procs[pid], id)
  }

  function Deliveries(s: System, id: Id): set<Pid> {
    set pid | pid in s.procs && HasDelivered(s.procs[pid], id)
  }

  /** The paste was saved to be burned after reading. */
  predicate IsBurnAfterRead(s: System, id: Id) {
    id in s.written && s.written[id].meta.burnAfterRead
  }

  /** The paste stores its own content, as against a reference to another paste. */
  predicate BearsContent(s: System, id: Id) {
    id in s.written && !References(s.written[id].meta)
  }

  // ------------------------------------------------------------------ the invariant

  /** Each id is written once, as its draft says; references are one hop deep and reach the same content. */
  ghost predicate WrittenOk(s: System, id: Id)
    requires id in s.written
  {
    var obj := s.written[id];
    && id in s.drafts
    && obj.meta.burnAfterRead == s.drafts[id].burnAfterRead
    && (!References(obj.meta) ==> obj.content == s.drafts[id].content)
    && (References(obj.meta) ==> HoldsSame(s, obj.meta.references.value, s.drafts[id].content))
  }

  ghost predicate HoldsSame(s: System, r: Id, content: Ciphertext) {
    BearsContent(s, r) && r in s.drafts && s.drafts[r].content == content
  }

  ghost predicate TargetOk(s: System, id: Id, target: Id) {
    id in s.written && target == (if References(s.written[id].meta) then s.written[id].meta.references.value else id)
  }

  /** The target as it was written: objects are written once, so its generation is the only one it ever had. */
  ghost predicate GenerationOk(s: System, target: Id, generation: nat) {
    target in s.written && s.written[target].generation == generation
  }

  ghost predicate ReaderOk(s: System, id: Id, rpc: ReadPc, claimed: bool) {
    && (claimed ==> IsBurnAfterRead(s, id))
    && match rpc
       case ReadAttrs => !claimed
       case CheckMarker(attrs) => !claimed && id in s.written && attrs == s.written[id]
       case FollowReference(attrs) => !claimed && id in s.written && attrs == s.written[id]
       case CheckExpiry(attrs, target, g) =>
         !claimed && TargetOk(s, id, target) && GenerationOk(s, target, g) && attrs == s.written[id]
       case DropContent(target) => !claimed && TargetOk(s, id, target)
       case DropMarker =>
         !claimed && id in s.written && (BearsContent(s, id) ==> id !in s.bucket.pastes || id in s.leftBehind)
       case Claim(target, g) =>
         !claimed && TargetOk(s, id, target) && GenerationOk(s, target, g) && IsBurnAfterRead(s, id)
       case ReadContent(target, g) =>
         TargetOk(s, id, target) && GenerationOk(s, target, g) && (IsBurnAfterRead(s, id) ==> claimed)
       case ReadReturned(outcome) =>
         outcome.Delivered? ==>
           && id in s.written && id in s.drafts && outcome.content == s.drafts[id].content
           && (IsBurnAfterRead(s, id) ==> claimed)
  }

  /** The content is banned, or the text of a plaintext upload is. */
  predicate IsRefused(b: Bucket, d: Draft) {
    || CiphertextBan(Sha256(d.content)) in b.banned
    || (d.upload.Plaintext? && d.upload.content.Some? && PlaintextBan(Sha256(d.upload.content.value)) in b.banned)
  }

  ghost predicate SaverOk(s: System, id: Id, draft: Draft, spc: SavePc) {
    && id in s.drafts && s.drafts[id] == draft
    && match spc
       case SaveCheckPlaintext(text) => id !in s.written && draft.upload == Plaintext(Some(text))
       case SaveCheckContent => id !in s.written
       case SaveLookup => id !in s.written
       case SaveWrite(existing) => id !in s.written && (existing != "" ==> HoldsSame(s, existing, draft.content))
       case SaveIndex => BearsContent(s, id)
       case SaveReturned(outcome) =>
         && (outcome.Saved? ==> id in s.written)
         && (outcome.BannedContent? ==> IsRefused(s.bucket, draft))
  }

  ghost predicate ProcessOk(s: System, p: Process) {
    match p
    case Reader(id, rpc, claimed) => ReaderOk(s, id, rpc, claimed)
    case Deleter(id, dpc) => id in s.written && (dpc.DeleteMarker? ==> id !in s.bucket.pastes)
    case Marker(_, _) => true
    case Saver(id, draft, spc) => SaverOk(s, id, draft, spc)
  }

  ghost predicate IdOk(s: System, id: Id) {
    && |Claims(s, id)| <= s.unburned[id] + (if id in s.bucket.burns then 1 else 0)
    && (s.unburned[id] > 0 ==> id in s.written)
    && (BearsContent(s, id) && id in s.bucket.pastes && s.unburned[id] > 0 ==> id in s.leftBehind)
    && (IsBurnAfterRead(s, id) && BearsContent(s, id) && id !in s.leftBehind ==> |Deliveries(s, id)| <= 1)
  }

  ghost predicate BucketOk(s: System) {
    && (forall id :: id in s.bucket.pastes ==> id in s.written && s.bucket.pastes[id] == s.written[id])
    && (forall id :: id in s.written ==> WrittenOk(s, id))
    && (forall h :: h in s.bucket.hashes ==> HoldsSame(s, s.bucket.hashes[h], h.preimage))
  }

  ghost predicate OneSaver(s: System) {
    forall i, j ::
      i in s.procs && j in s.procs && i != j && s.procs[i].Saver? && s.procs[j].Saver?
      ==> s.procs[i].id != s.procs[j].id
  }

  ghost predicate Inv(s: System) {
    && BucketOk(s)
    && OneSaver(s)
    && (forall pid :: pid in s.procs ==> ProcessOk(s, s.procs[pid]))
    && (forall id :: IdOk(s, id))
  }

  // ------------------------------------------------------------------ what an effect may do

  /** The effects a process in good standing can have. */
  ghost predicate Permitted(s: System, e: Effect) {
    match e
    case RemoveMarker(id) => id in s.written && (BearsContent(s, id) ==> id !in s.bucket.pastes || id in s.leftBehind)
    case WritePaste(id, content, meta) =>
      && id !in s.written && id in s.drafts
      && meta.burnAfterRead == s.drafts[id].burnAfterRead
      && (References(meta) ==> HoldsSame(s, meta.references.value, s.drafts[id].content))
      && (!References(meta) ==> content == s.drafts[id].content)
    case IndexPaste(h, id) => HoldsSame(s, id, h.preimage)
    case _ => true
  }

  /** Objects are written once; a paste removed from the bucket never comes back. */
  ghost predicate Grows(s: System, t: System) {
    && (forall id :: id in s.written ==> id in t.written && t.written[id] == s.written[id])
    && (forall id :: id in s.drafts ==> id in t.drafts && t.drafts[id] == s.drafts[id])
    && (forall id :: id in s.written && id !in s.bucket.pastes ==> id !in t.bucket.pastes)
    && s.leftBehind <= t.leftBehind
    && s.bucket.banned <= t.bucket.banned
  }

  lemma ApplyGrows(s: System, e: Effect)
    requires Permitted(s, e)
    ensures Grows(s, Apply(s, e))
  {
  }

  lemma KeepsProcess(s: System, t: System, p: Process)
    requires Grows(s, t) && ProcessOk(s, p)
    requires p.Saver? && p.id !in s.written ==> p.id !in t.written
    ensures ProcessOk(t, p)
  {
  }

  lemma ApplyKeepsBucket(s: System, e: Effect)
    requires BucketOk(s) && Permitted(s, e)
    ensures BucketOk(Apply(s, e))
  {
    var t := Apply(s, e);
    forall id | id in t.written ensures WrittenOk(t, id) {
      if id in s.written { assert WrittenOk(s, id); }
    }
    forall h | h in t.bucket.hashes ensures HoldsSame(t, t.bucket.hashes[h], h.preimage) {
      if h in s.bucket.hashes { assert HoldsSame(s, s.bucket.hashes[h], h.preimage); }
    }
  }

  // ------------------------------------------------------------------ each process keeps its own promise

  /** What the rest of the argument uses of one step of a process. */
  ghost predicate Sound(s: System, p: Process, p': Process, e: Effect) {
    && Permitted(s, e)
    && ProcessOk(Apply(s, e), p')
    && p'.id == p.id && p'.Reader? == p.Reader? && p'.Saver? == p.Saver?
    && (e.WritePaste? ==> p.Saver? && e.id == p.id)
    && (p.Reader? && p.claimed ==> p'.claimed)
    && (p'.Reader? && p'.claimed && !p.claimed ==> e == AddMarker(p.id) && p.id !in s.bucket.burns)
    && (HasDelivered(p, p.id) ==> HasDelivered(p', p.id))
    && (HasDelivered(p', p.id) && !HasDelivered(p, p.id) ==>
          e == Nothing && ReadTarget(p).Some? && ReadTarget(p).value in s.bucket.pastes)
  }

  /** The object a reader is about to read. */
  function ReadTarget(p: Process): Option<Id> {
    if p.Reader? && p.rpc.ReadContent? then Some(p.rpc.target) else None
  }

  lemma ReadContentOk(s: System, p: Process, now: int, fault: Fault)
    requires BucketOk(s) && ProcessOk(s, p) && p.Reader? && p.rpc.ReadContent?
    ensures var (p', e) := ReadStep(s.bucket, p, now, fault); Sound(s, p, p', e)
  {
    assert WrittenOk(s, p.id);
    if p.rpc.target in s.bucket.pastes { assert WrittenOk(s, p.rpc.target); }
  }

  lemma LookStepOk(s: System, p: Process, now: int, fault: Fault)
    requires BucketOk(s) && ProcessOk(s, p) && p.Reader?
    requires p.rpc.ReadAttrs? || p.rpc.CheckMarker? || p.rpc.FollowReference? || p.rpc.CheckExpiry?
    ensures var (p', e) := ReadStep(s.bucket, p, now, fault); Sound(s, p, p', e)
  {
  }

  lemma WriteStepOk(s: System, p: Process, now: int, fault: Fault)
    requires BucketOk(s) && ProcessOk(s, p) && p.Reader?
    requires p.rpc.DropContent? || p.rpc.DropMarker? || p.rpc.Claim? || p.rpc.ReadReturned?
    ensures var (p', e) := ReadStep(s.bucket, p, now, fault); Sound(s, p, p', e)
  {
  }

  lemma ReadStepOk(s: System, p: Process, now: int, fault: Fault)
    requires BucketOk(s) && ProcessOk(s, p) && p.Reader?
    ensures var (p', e) := ReadStep(s.bucket, p, now, fault); Sound(s, p, p', e)
  {
    match p.rpc
    case ReadContent(_, _) => ReadContentOk(s, p, now, fault);
    case DropContent(_) => WriteStepOk(s, p, now, fault);
    case DropMarker => WriteStepOk(s, p, now, fault);
    case Claim(_, _) => WriteStepOk(s, p, now, fault);
    case ReadReturned(_) => WriteStepOk(s, p, now, fault);
    case _ => LookStepOk(s, p, now, fault);
  }

  lemma SaveStepOk(s: System, p: Process, fault: Fault)
    requires BucketOk(s) && ProcessOk(s, p) && p.Saver?
    ensures var (p', e) := SaveStep(s.bucket, p, fault); Sound(s, p, p', e)
  {
    var h := Sha256(p.draft.content);
    if h in s.bucket.hashes { assert HoldsSame(s, s.bucket.hashes[h], h.preimage); }
    if p.spc.SaveIndex? { assert WrittenOk(s, p.id); }
  }

  lemma ProcessStepOk(s: System, p: Process, now: int, fault: Fault)
    requires BucketOk(s) && ProcessOk(s, p)
    ensures var (p', e) := ProcessStep(s.bucket, p, now, fault); Sound(s, p, p', e)
  {
    match p
    case Reader(_, _, _) => ReadStepOk(s, p, now, fault);
    case Saver(_, _, _) => SaveStepOk(s, p, fault);
    case _ =>
  }

  // ------------------------------------------------------------------ counting

  lemma {:induction false} SubsetIsSmaller(a: set<Pid>, b: set<Pid>)
    requires a <= b
    ensures |a| <= |b|
  {
    if a != {} {
      var x :| x in a;
      SubsetIsSmaller(a - {x}, b - {x});
    }
  }

  lemma DeliveriesAreClaims(s: System, id: Id)
    requires IsBurnAfterRead(s, id) && forall pid :: pid in s.procs ==> ProcessOk(s, s.procs[pid])
    ensures Deliveries(s, id) <= Claims(s, id)
    ensures |Deliveries(s, id)| <= |Claims(s, id)|
  {
    forall pid | pid in Deliveries(s, id) ensures pid in Claims(s, id) { assert ProcessOk(s, s.procs[pid]); }
    SubsetIsSmaller(Deliveries(s, id), Claims(s, id));
  }

  lemma ClaimsAfter(s: System, t: System, pid: Pid, p': Process, id: Id)
    requires pid in s.procs && t.procs == s.procs[pid := p'] && (HasClaimed(s.procs[pid], id) ==> HasClaimed(p', id))
    ensures Claims(t, id) == if HasClaimed(p', id) then Claims(s, id) + {pid} else Claims(s, id)
    ensures HasClaimed(s.procs[pid], id) ==> Claims(t, id) == Claims(s, id)
  {
  }

  /** A claim is counted only together with a new marker where there was none. */
  lemma CountClaims(s: System, pid: Pid, p': Process, e: Effect, id: Id)
    requires pid in s.procs && Sound(s, s.procs[pid], p', e) && IdOk(s, id)
    ensures var t := Put(Apply(s, e), pid, p');
            |Claims(t, id)| <= t.unburned[id] + (if id in t.bucket.burns then 1 else 0)
  {
    ClaimsAfter(s, Put(Apply(s, e), pid, p'), pid, p', id);
  }

  /** Markers of own-content pastes are only deleted once the content object is gone, and it never comes back. */
  lemma KeepMarkers(s: System, pid: Pid, p': Process, e: Effect, id: Id)
    requires pid in s.procs && Sound(s, s.procs[pid], p', e) && IdOk(s, id)
    ensures var t := Put(Apply(s, e), pid, p');
            && (t.unburned[id] > 0 ==> id in t.written)
            && (BearsContent(t, id) && id in t.bucket.pastes && t.unburned[id] > 0 ==> id in t.leftBehind)
  {
    ApplyGrows(s, e);
  }

  /** Nothing was delivered of a paste before it was written. */
  lemma NothingDeliveredUnwritten(s: System, id: Id)
    requires id !in s.written && forall pid :: pid in s.procs ==> ProcessOk(s, s.procs[pid])
    ensures Deliveries(s, id) == {}
  {
    forall pid | pid in s.procs ensures !HasDelivered(s.procs[pid], id) { assert ProcessOk(s, s.procs[pid]); }
  }

  lemma DeliveriesAfter(s: System, t: System, pid: Pid, p': Process, id: Id)
    requires pid in s.procs && t.procs == s.procs[pid := p']
    requires HasDelivered(s.procs[pid], id) ==> HasDelivered(p', id)
    ensures Deliveries(t, id) == if HasDelivered(p', id) then Deliveries(s, id) + {pid} else Deliveries(s, id)
  {
  }

  /** A delivery of an own-content paste finds its object, hence no marker of it was deleted: there is one claim. */
  lemma DeliverOnce(s: System, pid: Pid, id: Id)
    requires pid in s.procs && HasClaimed(s.procs[pid], id) && IdOk(s, id)
    requires forall q :: q in s.procs ==> ProcessOk(s, s.procs[q])
    requires IsBurnAfterRead(s, id) && BearsContent(s, id) && id !in s.leftBehind && id in s.bucket.pastes
    ensures |Deliveries(s, id) + {pid}| <= 1
  {
    DeliveriesAreClaims(s, id);
    SubsetIsSmaller(Deliveries(s, id) + {pid}, Claims(s, id));
  }

  lemma CountDeliveries(s: System, pid: Pid, p': Process, e: Effect, id: Id)
    requires pid in s.procs && Sound(s, s.procs[pid], p', e) && IdOk(s, id)
    requires forall q :: q in s.procs ==> ProcessOk(s, s.procs[q])
    requires var t := Put(Apply(s, e), pid, p'); IsBurnAfterRead(t, id) && BearsContent(t, id) && id !in t.leftBehind
    ensures |Deliveries(Put(Apply(s, e), pid, p'), id)| <= 1
  {
    var p, t := s.procs[pid], Put(Apply(s, e), pid, p');
    DeliveriesAfter(s, t, pid, p', id);
    if HasDelivered(p', id) && !HasDelivered(p, id) {
      assert ProcessOk(s, p);
      DeliverOnce(s, pid, id);
    } else {
      assert Deliveries(t, id) == Deliveries(s, id);
      if id in s.written { ApplyGrows(s, e); } else { NothingDeliveredUnwritten(s, id); }
    }
  }

  // ------------------------------------------------------------------ every step keeps the invariant

  lemma PutKeepsBucket(s: System, pid: Pid, p: Process)
    requires BucketOk(s)
    ensures BucketOk(Put(s, pid, p))
  {
    var t := Put(s, pid, p);
    forall id | id in t.written ensures WrittenOk(t, id) { assert WrittenOk(s, id); }
    forall h | h in t.bucket.hashes ensures HoldsSame(t, t.bucket.hashes[h], h.preimage) {
      assert HoldsSame(s, s.bucket.hashes[h], h.preimage);
    }
  }

  lemma KeepProcesses(s: System, pid: Pid, p': Process, e: Effect, q: Pid)
    requires pid in s.procs && q in s.procs && Sound(s, s.procs[pid], p', e) && OneSaver(s)
    requires ProcessOk(s, s.procs[q])
    ensures var t := Put(Apply(s, e), pid, p'); ProcessOk(t, t.procs[q])
  {
    ApplyGrows(s, e);
    if q != pid {
      KeepsProcess(s, Apply(s, e), s.procs[q]);
    }
    KeepsProcess(Apply(s, e), Put(Apply(s, e), pid, p'), if q == pid then p' else s.procs[q]);
  }

  lemma KeepId(s: System, pid: Pid, p': Process, e: Effect, id: Id)
    requires pid in s.procs && Sound(s, s.procs[pid], p', e) && IdOk(s, id)
    requires forall q :: q in s.procs ==> ProcessOk(s, s.procs[q])
    ensures IdOk(Put(Apply(s, e), pid, p'), id)
  {
    var t := Put(Apply(s, e), pid, p');
    CountClaims(s, pid, p', e, id);
    KeepMarkers(s, pid, p', e, id);
    if IsBurnAfterRead(t, id) && BearsContent(t, id) && id !in t.leftBehind { CountDeliveries(s, pid, p', e, id); }
  }

  lemma SoundStepKeepsInv(s: System, pid: Pid, p': Process, e: Effect)
    requires Inv(s) && pid in s.procs && Sound(s, s.procs[pid], p', e)
    ensures Inv(Put(Apply(s, e), pid, p'))
  {
    var t := Put(Apply(s, e), pid, p');
    forall q | q in t.procs ensures ProcessOk(t, t.procs[q]) { KeepProcesses(s, pid, p', e, q); }
    forall id ensures IdOk(t, id) { KeepId(s, pid, p', e, id); }
    ApplyKeepsBucket(s, e);
    PutKeepsBucket(Apply(s, e), pid, p');
    assert OneSaver(t);
  }

  lemma AdvanceKeepsInv(s: System, pid: Pid, now: int, fault: Fault)
    requires Inv(s) && pid in s.procs
    ensures Inv(Advanced(s, pid, now, fault))
  {
    var (p', e) := ProcessStep(s.bucket, s.procs[pid], now, fault);
    ProcessStepOk(s, s.procs[pid], now, fault);
    SoundStepKeepsInv(s, pid, p', e);
  }

  /** A process that has just been called. */
  ghost predicate Fresh(s: System, p: Process) {
    ProcessOk(s, p) && (p.Reader? ==> p == Reader(p.id, ReadAttrs, false))
  }

  lemma PutKeepsId(s: System, pid: Pid, p: Process, id: Id)
    requires IdOk(s, id) && pid !in s.procs && Fresh(s, p)
    ensures IdOk(Put(s, pid, p), id)
  {
    var t := Put(s, pid, p);
    assert Claims(t, id) == Claims(s, id) && Deliveries(t, id) == Deliveries(s, id);
  }

  lemma PutKeepsInv(s: System, pid: Pid, p: Process)
    requires Inv(s) && pid !in s.procs && Fresh(s, p)
    requires p.Saver? ==> forall q :: q in s.procs && s.procs[q].Saver? ==> s.procs[q].id != p.id
    ensures Inv(Put(s, pid, p))
  {
    var t := Put(s, pid, p);
    PutKeepsBucket(s, pid, p);
    forall q | q in t.procs ensures ProcessOk(t, t.procs[q]) { KeepsProcess(s, t, t.procs[q]); }
    forall id ensures IdOk(t, id) { PutKeepsId(s, pid, p, id); }
  }

  lemma DraftKeepsInv(s: System, id: Id, draft: Draft)
    requires Inv(s) && id !in s.drafts
    ensures Inv(s.(drafts := s.drafts[id := draft]))
  {
    var t := s.(drafts := s.drafts[id := draft]);
    forall i | i in t.written ensures WrittenOk(t, i) { assert WrittenOk(s, i); }
    forall h | h in t.bucket.hashes ensures HoldsSame(t, t.bucket.hashes[h], h.preimage) {
      assert HoldsSame(s, s.bucket.hashes[h], h.preimage);
    }
    forall q | q in t.procs ensures ProcessOk(t, t.procs[q]) { KeepsProcess(s, t, s.procs[q]); }
    forall i ensures IdOk(t, i) {
      assert IdOk(s, i);
      assert Claims(t, i) == Claims(s, i) && Deliveries(t, i) == Deliveries(s, i);
    }
  }

  lemma SaveCallKeepsInv(s: System, pid: Pid, id: Id, draft: Draft)
    requires Inv(s) && pid !in s.procs && id !in s.drafts
    ensures Inv(Step(s, Save(pid, id, draft)))
  {
    var t := s.(drafts := s.drafts[id := draft]);
    DraftKeepsInv(s, id, draft);
    assert id in s.written ==> WrittenOk(s, id);
    forall q | q in s.procs && s.procs[q].Saver? ensures s.procs[q].id != id { assert ProcessOk(s, s.procs[q]); }
    PutKeepsInv(t, pid, Saver(id, draft, FirstSavePc(draft)));
    assert Step(s, Save(pid, id, draft)) == Put(t, pid, Saver(id, draft, FirstSavePc(draft)));
  }

  lemma BanKeepsInv(s: System, ban: Ban)
    requires Inv(s)
    ensures Inv(s.(bucket := s.bucket.(banned := s.bucket.banned + {ban})))
  {
    var t := s.(bucket := s.bucket.(banned := s.bucket.banned + {ban}));
    forall i | i in t.written ensures WrittenOk(t, i) { assert WrittenOk(s, i); }
    forall h | h in t.bucket.hashes ensures HoldsSame(t, t.bucket.hashes[h], h.preimage) {
      assert HoldsSame(s, s.bucket.hashes[h], h.preimage);
    }
    forall q | q in t.procs ensures ProcessOk(t, t.procs[q]) { KeepsProcess(s, t, s.procs[q]); }
    forall i ensures IdOk(t, i) {
      assert IdOk(s, i);
      assert Claims(t, i) == Claims(s, i) && Deliveries(t, i) == Deliveries(s, i);
    }
  }

  lemma StepKeepsInv(s: System, a: Action)
    requires Inv(s)
    ensures Inv(Step(s, a))
  {
    match a
    case Advance(pid, now, fault) => if pid in s.procs { AdvanceKeepsInv(s, pid, now, fault); }
    case Read(pid, id) => if pid !in s.procs { PutKeepsInv(s, pid, Reader(id, ReadAttrs, false)); }
    case Delete(pid, id) => if pid !in s.procs && id in s.written { PutKeepsInv(s, pid, Deleter(id, DeleteContent)); }
    case Mark(pid, id) => if pid !in s.procs { PutKeepsInv(s, pid, Marker(id, MarkCheck)); }
    case Save(pid, id, draft) => if pid !in s.procs && id !in s.drafts { SaveCallKeepsInv(s, pid, id, draft); }
    case BanHash(_, ban) => BanKeepsInv(s, ban);
  }

  lemma {:induction false} RunKeepsInv(s: System, actions: seq<Action>)
    requires Inv(s)
    ensures Inv(Run(s, actions))
    decreases |actions|
  {
    if actions != [] {
      StepKeepsInv(s, actions[0]);
      RunKeepsInv(Step(s, actions[0]), actions[1..]);
    }
  }

  // ------------------------------------------------------------------ what every run keeps

  lemma StartIsOk()
    ensures Inv(START)
  {
    forall id ensures IdOk(START, id) {
      assert Claims(START, id) == {} && Deliveries(START, id) == {};
    }
  }

  /** A step in which the cleanup of an expired paste fails to delete the object that stores the paste's content. */
  predicate FailsCleanup(s: System, a: Action, id: Id) {
    && a.Advance? && a.fault == Refused && a.pid in s.procs && id in s.bucket.pastes
    && s.procs[a.pid].Reader? && s.procs[a.pid].id == id && s.procs[a.pid].rpc == DropContent(id)
  }

  function FailedCleanups(s: System, actions: seq<Action>, id: Id): nat
    decreases |actions|
  {
    if actions == [] then 0
    else (if FailsCleanup(s, actions[0], id) then 1 else 0) + FailedCleanups(Step(s, actions[0]), actions[1..], id)
  }

  lemma StepLeavesBehind(s: System, a: Action, id: Id)
    ensures id in Step(s, a).leftBehind <==> id in s.leftBehind || FailsCleanup(s, a, id)
  {
  }

  /** Content is left behind exactly by the failed cleanups of a run. */
  lemma {:induction false} LeftBehindByFailure(s: System, actions: seq<Action>, id: Id)
    ensures id in Run(s, actions).leftBehind <==> id in s.leftBehind || FailedCleanups(s, actions, id) > 0
    decreases |actions|
  {
    if actions != [] {
      StepLeavesBehind(s, actions[0], id);
      LeftBehindByFailure(Step(s, actions[0]), actions[1..], id);
    }
  }

  /** No operation fails without effect; operations may still take effect and report a failure. */
  predicate NothingRefused(actions: seq<Action>) {
    forall a :: a in actions && a.Advance? ==> a.fault != Refused
  }

  lemma {:induction false} NothingRefusedNothingFails(s: System, actions: seq<Action>, id: Id)
    requires NothingRefused(actions)
    ensures FailedCleanups(s, actions, id) == 0
    decreases |actions|
  {
    if actions != [] {
      assert actions[0] in actions && forall a :: a in actions[1..] ==> a in actions;
      NothingRefusedNothingFails(Step(s, actions[0]), actions[1..], id);
    }
  }

  /**
   A burn-after-read paste that stores its own content reaches one reader at most, in every interleaving without a
   failed cleanup of it, whatever other operations fail.
   */
  lemma OwnContentDeliveredOnce(actions: seq<Action>, id: Id)
    requires IsBurnAfterRead(Run(START, actions), id) && BearsContent(Run(START, actions), id)
    requires FailedCleanups(START, actions, id) == 0
    ensures |Deliveries(Run(START, actions), id)| <= 1
  {
    StartIsOk();
    RunKeepsInv(START, actions);
    LeftBehindByFailure(START, actions, id);
    assert IdOk(Run(START, actions), id);
  }

  /** In particular in every run in which no operation is refused. */
  lemma OwnContentDeliveredOnceUnrefused(actions: seq<Action>, id: Id)
    requires IsBurnAfterRead(Run(START, actions), id) && BearsContent(Run(START, actions), id)
    requires NothingRefused(actions)
    ensures |Deliveries(Run(START, actions), id)| <= 1
  {
    NothingRefusedNothingFails(START, actions, id);
    OwnContentDeliveredOnce(actions, id);
  }

  /** Every burn-after-read paste, references included: one delivery more than its marker was deleted, at most. */
  lemma DeliveriesNeedUnburning(actions: seq<Action>, id: Id)
    requires IsBurnAfterRead(Run(START, actions), id)
    ensures |Deliveries(Run(START, actions), id)| <= 1 + Run(START, actions).unburned[id]
  {
    StartIsOk();
    RunKeepsInv(START, actions);
    assert IdOk(Run(START, actions), id);
    DeliveriesAreClaims(Run(START, actions), id);
  }

  /** Whoever is given content is given what the id was saved with, through any deduplication. */
  lemma DeliveredIsWhatWasSaved(actions: seq<Action>, pid: Pid, id: Id)
    requires pid in Deliveries(Run(START, actions), id)
    ensures var s := Run(START, actions); id in s.drafts && s.procs[pid].rpc.outcome.content == s.drafts[id].content
  {
    StartIsOk();
    RunKeepsInv(START, actions);
    var s := Run(START, actions);
    assert ProcessOk(s, s.procs[pid]);
  }

  // ------------------------------------------------------------------ reachable systems

  ghost predicate Reachable(s: System) {
    exists actions :: Run(START, actions) == s
  }

  lemma {:induction false} RunOneMore(s: System, actions: seq<Action>, a: Action)
    ensures Run(s, actions + [a]) == Step(Run(s, actions), a)
    decreases |actions|
  {
    if actions == [] {
      assert [a][1..] == [];
      assert Run(Step(s, a), []) == Step(s, a);
      assert actions + [a] == [a];
    } else {
      assert (actions + [a])[1..] == actions[1..] + [a];
      RunOneMore(Step(s, actions[0]), actions[1..], a);
    }
  }

  lemma ReachesStep(s: System, a: Action)
    requires Reachable(s)
    ensures Reachable(Step(s, a))
  {
    var actions :| Run(START, actions) == s;
    RunOneMore(START, actions, a);
  }

  lemma ReachableIsOk(s: System)
    requires Reachable(s)
    ensures Inv(s)
  {
    var actions :| Run(START, actions) == s;
    StartIsOk();
    RunKeepsInv(START, actions);
  }

  lemma StepGrows(s: System, a: Action)
    requires Inv(s)
    ensures Grows(s, Step(s, a))
  {
    if a.Advance? && a.pid in s.procs {
      ProcessStepOk(s, s.procs[a.pid], a.now, a.fault);
      ApplyGrows(s, ProcessStep(s.bucket, s.procs[a.pid], a.now, a.fault).1);
    }
  }

  /** In every run a paste object is written once, never changes, and once removed never comes back. */
  lemma {:induction false} RunGrows(s: System, actions: seq<Action>)
    requires Inv(s)
    ensures Inv(Run(s, actions)) && Grows(s, Run(s, actions))
    decreases |actions|
  {
    if actions != [] {
      StepKeepsInv(s, actions[0]);
      StepGrows(s, actions[0]);
      RunGrows(Step(s, actions[0]), actions[1..]);
    }
  }

  /** A reader is only ever given the very version of the object that it looked at. */
  lemma DeliversWhatItLookedAt(b: Bucket, p: Process, now: int, fault: Fault)
    requires p.Reader? && p.rpc.ReadContent? && HasDelivered(ReadStep(b, p, now, fault).0, p.id)
    ensures p.rpc.target in b.pastes && b.pastes[p.rpc.target].generation == p.rpc.generation
  {
  }

  /** What a reader that has come as far as the content is given: the content if its object is still there. */
  lemma PendingReadIsAnswered(s: System, pid: Pid, now: int, fault: Fault)
    requires Reachable(s) && pid in s.procs && s.procs[pid].Reader? && s.procs[pid].rpc.ReadContent?
    ensures var p, p' := s.procs[pid], Step(s, Advance(pid, now, fault)).procs[pid];
            && p' == p.(rpc := p'.rpc) && p'.rpc.ReadReturned?
            && (p'.rpc.outcome == Failed <==> fault != NoFault)
            && (p'.rpc.outcome == NotFound <==> fault == NoFault && p.rpc.target !in s.bucket.pastes)
            && (p'.rpc.outcome.Delivered? <==> fault == NoFault && p.rpc.target in s.bucket.pastes)
  {
    ReachableIsOk(s);
    assert ProcessOk(s, s.procs[pid]);
  }

  // ------------------------------------------------------------------ bans

  /** A save that was called under a ban has not got past the ban checks. */
  ghost predicate HeldByBan(b: Bucket, p: Process, id: Id) {
    p.Saver? && p.id == id ==>
      || p.spc.SaveReturned?
      || (p.spc.SaveCheckContent? && CiphertextBan(Sha256(p.draft.content)) in b.banned)
      || (p.spc.SaveCheckPlaintext? && p.draft.upload == Plaintext(Some(p.spc.text)) && IsRefused(b, p.draft))
  }

  ghost predicate Held(s: System, id: Id) {
    && id !in s.written && id in s.drafts
    && forall pid :: pid in s.procs ==> HeldByBan(s.bucket, s.procs[pid], id)
  }

  lemma SaverStaysHeld(b: Bucket, p: Process, fault: Fault, id: Id)
    requires p.Saver? && HeldByBan(b, p, id)
    ensures var (p', e) := SaveStep(b, p, fault); HeldByBan(b, p', id) && (e.WritePaste? ==> e.id != id)
  {
  }

  lemma OthersWriteNothing(b: Bucket, p: Process, now: int, fault: Fault)
    requires !p.Saver?
    ensures var (p', e) := ProcessStep(b, p, now, fault); !p'.Saver? && !e.WritePaste?
  {
  }

  lemma ApplyKeepsUnwritten(s: System, e: Effect, id: Id)
    requires id !in s.written && (e.WritePaste? ==> e.id != id)
    ensures id !in Apply(s, e).written && Apply(s, e).drafts == s.drafts
    ensures Apply(s, e).procs == s.procs && Apply(s, e).bucket.banned == s.bucket.banned
  {
  }

  lemma AdvanceKeepsHeld(s: System, pid: Pid, now: int, fault: Fault, id: Id)
    requires Held(s, id) && pid in s.procs
    ensures Held(Advanced(s, pid, now, fault), id)
  {
    var p := s.procs[pid];
    var (p', e) := ProcessStep(s.bucket, p, now, fault);
    assert HeldByBan(s.bucket, p', id) && (e.WritePaste? ==> e.id != id) by {
      if p.Saver? { SaverStaysHeld(s.bucket, p, fault, id); } else { OthersWriteNothing(s.bucket, p, now, fault); }
    }
    ApplyKeepsUnwritten(s, e, id);
  }

  lemma StepKeepsHeld(s: System, a: Action, id: Id)
    requires Held(s, id)
    ensures Held(Step(s, a), id)
  {
    if a.Advance? && a.pid in s.procs { AdvanceKeepsHeld(s, a.pid, a.now, a.fault, id); }
  }

  lemma {:induction false} RunKeepsHeld(s: System, actions: seq<Action>, id: Id)
    requires Held(s, id)
    ensures Held(Run(s, actions), id)
    decreases |actions|
  {
    if actions != [] {
      StepKeepsHeld(s, actions[0], id);
      RunKeepsHeld(Step(s, actions[0]), actions[1..], id);
    }
  }

  /** Content banned before SavePaste is called is never written, however the calls of others interleave. */
  lemma BannedIsNeverWritten(s: System, pid: Pid, id: Id, draft: Draft, more: seq<Action>)
    requires Reachable(s) && pid !in s.procs && id !in s.drafts && IsRefused(s.bucket, draft)
    ensures id !in Run(Step(s, Save(pid, id, draft)), more).written
  {
    ReachableIsOk(s);
    assert id in s.written ==> WrittenOk(s, id);
    forall q | q in s.procs && s.procs[q].Saver? ensures s.procs[q].id != id { assert ProcessOk(s, s.procs[q]); }
    RunKeepsHeld(Step(s, Save(pid, id, draft)), more, id);
  }
}
