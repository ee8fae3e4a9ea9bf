/**
 What each call of the object-store backend does when nothing runs in between: every outcome with its exact condition
 on the bucket and on which of its operations fail, and the bucket it leaves.
 */
module GcsAlone {
  import opened Common
  import opened GcsProtocol
  import opened GcsRaces

  // ------------------------------------------------------------------ a process running alone

  /** One operation of a process, beside the system of all others. */
  function One(s: System, p: Process, now: int, fault: Fault): (System, Process) {
    var (p', e) := ProcessStep(s.bucket, p, now, fault);
    (Apply(s, e), p')
  }

  function Alone(s: System, p: Process, now: int, faults: seq<Fault>): (System, Process)
    decreases |faults|
  {
    if faults == [] then (s, p) else var (s', p') := One(s, p, now, faults[0]); Alone(s', p', now, faults[1..])
  }

  function Steps(pid: Pid, now: int, faults: seq<Fault>): seq<Action> {
    seq(|faults|, i requires 0 <= i < |faults| => Advance(pid, now, faults[i]))
  }

  /** The run of a process alone is a run of the protocol. */
  lemma {:induction false} AloneRuns(s: System, pid: Pid, p: Process, now: int, faults: seq<Fault>)
    ensures var (s', p') := Alone(s, p, now, faults); Run(Put(s, pid, p), Steps(pid, now, faults)) == Put(s', pid, p')
    decreases |faults|
  {
    if faults != [] {
      var (p', e) := ProcessStep(s.bucket, p, now, faults[0]);
      PutTwice(s, pid, p, p', e);
      assert Steps(pid, now, faults)[1..] == Steps(pid, now, faults[1..]);
      AloneRuns(Apply(s, e), pid, p', now, faults[1..]);
    }
  }

  lemma CallRuns(s: System, pid: Pid, call: Action, s0: System, p: Process, now: int, faults: seq<Fault>)
    requires Step(s, call) == Put(s0, pid, p)
    ensures var (s', p') := Alone(s0, p, now, faults); Run(s, [call] + Steps(pid, now, faults)) == Put(s', pid, p')
  {
    assert ([call] + Steps(pid, now, faults))[1..] == Steps(pid, now, faults);
    AloneRuns(s0, pid, p, now, faults);
  }

  predicate Returned(p: Process) {
    match p
    case Reader(_, rpc, _) => rpc.ReadReturned?
    case Deleter(_, dpc) => dpc.DeleteReturned?
    case Marker(_, mpc) => mpc.MarkReturned?
    case Saver(_, _, spc) => spc.SaveReturned?
  }

  lemma {:induction false} ReturnedRests(s: System, p: Process, now: int, faults: seq<Fault>)
    requires Returned(p)
    ensures Alone(s, p, now, faults) == (s, p)
    decreases |faults|
  {
    if faults != [] { ReturnedRests(s, p, now, faults[1..]); }
  }

  lemma Goes(s: System, p: Process, now: int, faults: seq<Fault>)
    requires faults != []
    ensures var (s', p') := One(s, p, now, faults[0]); Alone(s, p, now, faults) == Alone(s', p', now, faults[1..])
  {
  }

  // ------------------------------------------------------------------ GetPaste

  /**
   The faults of the six operations of a GetPaste: the attributes, the marker, the reference, the clock (none), then
   the claim and the content, or the content alone, or the two deletes of an expired paste.
   */
  type SixFaults = f: seq<Fault> | |f| == 6 witness seq(6, _ => NoFault)

  /** The attributes are read, and the marker is not seen. */
  predicate Unmarked(s: System, id: Id, f: SixFaults) {
    f[0] == NoFault && id in s.bucket.pastes && !(f[1] == NoFault && id in s.bucket.burns)
  }

  /** So is the object that holds the content. */
  predicate Located(s: System, id: Id, f: SixFaults) {
    && Unmarked(s, id, f)
    && (References(s.bucket.pastes[id].meta) ==> f[2] == NoFault && TargetOf(s, id) in s.bucket.pastes)
  }

  predicate Live(s: System, id: Id, now: int, f: SixFaults) {
    Located(s, id, f) && now <= ExpiryOf(s, id)
  }

  predicate Dead(s: System, id: Id, now: int, f: SixFaults) {
    Located(s, id, f) && now > ExpiryOf(s, id)
  }

  predicate Burns(s: System, id: Id) {
    id in s.bucket.pastes && s.bucket.pastes[id].meta.burnAfterRead
  }

  function Looked(s: System, id: Id, f: SixFaults): ReadPc {
    if f[0] != NoFault then ReadReturned(Failed)
    else if id !in s.bucket.pastes then ReadReturned(NotFound)
    else if !Unmarked(s, id, f) then ReadReturned(Burned)
    else if !Located(s, id, f) then ReadReturned(Failed)
    else CheckExpiry(s.bucket.pastes[id], TargetOf(s, id), s.bucket.pastes[TargetOf(s, id)].generation)
  }

  lemma LooksAlone(s: System, id: Id, now: int, f: SixFaults)
    ensures Alone(s, Reader(id, ReadAttrs, false), now, f)
         == Alone(s, Reader(id, Looked(s, id, f), false), now, if Located(s, id, f) then f[3..] else [])
  {
    var p0 := Reader(id, ReadAttrs, false);
    Goes(s, p0, now, f);
    var p1 := One(s, p0, now, f[0]).1;
    if Returned(p1) {
      ReturnedRests(s, p1, now, f[1..]);
    } else {
      Goes(s, p1, now, f[1..]);
      var p2 := One(s, p1, now, f[1]).1;
      assert f[1..][1..] == f[2..];
      if Returned(p2) {
        ReturnedRests(s, p2, now, f[2..]);
      } else {
        Goes(s, p2, now, f[2..]);
        var p3 := One(s, p2, now, f[2]).1;
        assert f[2..][1..] == f[3..];
        if Returned(p3) { ReturnedRests(s, p3, now, f[3..]); }
      }
    }
  }

  lemma LastThree(s: System, p: Process, now: int, f: SixFaults)
    ensures var (s1, p1) := One(s, p, now, f[3]);
            var (s2, p2) := One(s1, p1, now, f[4]);
            Alone(s, p, now, f[3..]) == One(s2, p2, now, f[5])
  {
    var (s1, p1) := One(s, p, now, f[3]);
    var (s2, p2) := One(s1, p1, now, f[4]);
    Goes(s, p, now, f[3..]);
    assert f[3..][1..] == f[4..] && f[4..][1..] == f[5..] && f[5..][1..] == [];
    Goes(s1, p1, now, f[4..]);
    Goes(s2, p2, now, f[5..]);
  }

  /** What a GetPaste returns. */
  ghost predicate ReadReturns(s: System, id: Id, now: int, f: SixFaults, o: Outcome) {
    && (o.Delivered? <==>
          Live(s, id, now, f) && f[4] == NoFault && (Burns(s, id) ==> f[5] == NoFault && id !in s.bucket.burns))
    && (o.Delivered? ==> o.content == s.bucket.pastes[TargetOf(s, id)].content)
    && (o == Burned <==>
          || (f[0] == NoFault && id in s.bucket.pastes && f[1] == NoFault && id in s.bucket.burns)
          || (Live(s, id, now, f) && Burns(s, id) && f[4] == NoFault && id in s.bucket.burns))
    && (o == NotFound <==> (f[0] == NoFault && id !in s.bucket.pastes) || Dead(s, id, now, f))
  }

  /** What it leaves. */
  ghost predicate ReadLeaves(s: System, id: Id, now: int, f: SixFaults, b: Bucket) {
    && b == s.bucket.(pastes := b.pastes, burns := b.burns)
    && b.pastes == s.bucket.pastes - (if Dead(s, id, now, f) && f[4] != Refused then {TargetOf(s, id)} else {})
    && b.burns == if Dead(s, id, now, f) && f[5] != Refused then s.bucket.burns - {id}
                  else if Live(s, id, now, f) && Burns(s, id) && f[4] != Refused then s.bucket.burns + {id}
                  else s.bucket.burns
  }

  ghost predicate ReadOutcome(s: System, id: Id, now: int, f: SixFaults, o: Outcome, b: Bucket) {
    ReadReturns(s, id, now, f, o) && ReadLeaves(s, id, now, f, b)
  }

  lemma DropsAlone(s: System, id: Id, now: int, f: SixFaults)
    requires Dead(s, id, now, f)
    ensures var (s', p') := Alone(s, Reader(id, Looked(s, id, f), false), now, f[3..]);
            p' == Reader(id, ReadReturned(NotFound), false) && ReadLeaves(s, id, now, f, s'.bucket)
  {
    var p := Reader(id, Looked(s, id, f), false);
    var target := TargetOf(s, id);
    LastThree(s, p, now, f);
    assert One(s, p, now, f[3]) == (s, Reader(id, DropContent(target), false));
    var (s2, p2) := One(s, Reader(id, DropContent(target), false), now, f[4]);
    assert p2 == Reader(id, DropMarker, false);
    assert s2.bucket == s.bucket.(pastes := s.bucket.pastes - (if f[4] != Refused then {target} else {}));
  }

  lemma ClaimsAlone(s: System, id: Id, now: int, f: SixFaults)
    requires Live(s, id, now, f) && Burns(s, id)
    ensures var (s', p') := Alone(s, Reader(id, Looked(s, id, f), false), now, f[3..]);
            && p'.Reader? && p'.id == id && p'.rpc.ReadReturned?
            && ReadReturns(s, id, now, f, p'.rpc.outcome) && ReadLeaves(s, id, now, f, s'.bucket)
  {
    var p := Reader(id, Looked(s, id, f), false);
    var target := TargetOf(s, id);
    var g := s.bucket.pastes[target].generation;
    LastThree(s, p, now, f);
    assert One(s, p, now, f[3]) == (s, Reader(id, Claim(target, g), false));
    var (s2, p2) := One(s, Reader(id, Claim(target, g), false), now, f[4]);
    assert s2.bucket == s.bucket.(burns := s.bucket.burns + (if f[4] != Refused then {id} else {}));
  }

  lemma FetchesAlone(s: System, id: Id, now: int, f: SixFaults)
    requires Live(s, id, now, f) && !Burns(s, id)
    ensures var (s', p') := Alone(s, Reader(id, Looked(s, id, f), false), now, f[3..]);
            && p'.Reader? && p'.id == id && p'.rpc.ReadReturned?
            && ReadReturns(s, id, now, f, p'.rpc.outcome) && ReadLeaves(s, id, now, f, s'.bucket)
  {
    var p := Reader(id, Looked(s, id, f), false);
    var target := TargetOf(s, id);
    var g := s.bucket.pastes[target].generation;
    LastThree(s, p, now, f);
    assert One(s, p, now, f[3]) == (s, Reader(id, ReadContent(target, g), false));
  }

  lemma ConcludesAlone(s: System, id: Id, now: int, f: SixFaults)
    requires Located(s, id, f)
    ensures var (s', p') := Alone(s, Reader(id, Looked(s, id, f), false), now, f[3..]);
            p'.Reader? && p'.id == id && p'.rpc.ReadReturned? && ReadOutcome(s, id, now, f, p'.rpc.outcome, s'.bucket)
  {
    if Dead(s, id, now, f) {
      DropsAlone(s, id, now, f);
    } else if Burns(s, id) {
      ClaimsAlone(s, id, now, f);
    } else {
      FetchesAlone(s, id, now, f);
    }
  }

  /** GetPaste alone: delivered, burned, not found or failed, each exactly when, and the bucket afterwards. */
  lemma ReadsAlone(s: System, pid: Pid, id: Id, now: int, f: SixFaults) returns (o: Outcome)
    requires pid !in s.procs
    ensures var t := Run(s, [Read(pid, id)] + Steps(pid, now, f));
            && pid in t.procs && t.procs[pid].Reader? && t.procs[pid].id == id && t.procs[pid].rpc == ReadReturned(o)
            && ReadOutcome(s, id, now, f, o, t.bucket)
  {
    var p := Reader(id, ReadAttrs, false);
    CallRuns(s, pid, Read(pid, id), s, p, now, f);
    LooksAlone(s, id, now, f);
    if Located(s, id, f) { ConcludesAlone(s, id, now, f); }
    o := Alone(s, p, now, f).1.rpc.outcome;
  }

  /** Without faults: a paste is delivered exactly if it is there with its content, unmarked and not expired. */
  lemma PresentIsDelivered(s: System, pid: Pid, id: Id, now: int) returns (actions: seq<Action>)
    requires pid !in s.procs
    ensures Calm(actions, now)
    ensures pid in Deliveries(Run(s, actions), id) <==>
              && id in s.bucket.pastes && id !in s.bucket.burns
              && TargetOf(s, id) in s.bucket.pastes && now <= ExpiryOf(s, id)
  {
    var f := seq(6, _ => NoFault);
    var _ := ReadsAlone(s, pid, id, now, f);
    actions := [Read(pid, id)] + Steps(pid, now, f);
  }

  // ------------------------------------------------------------------ DeletePaste and MarkBurned

  lemma TwoSteps(s: System, p: Process, now: int, f: seq<Fault>)
    requires |f| == 2
    ensures var (s1, p1) := One(s, p, now, f[0]); Alone(s, p, now, f) == One(s1, p1, now, f[1])
  {
    var (s1, p1) := One(s, p, now, f[0]);
    Goes(s, p, now, f);
    assert f[1..][1..] == [];
    Goes(s1, p1, now, f[1..]);
  }

  /** DeletePaste alone: an error with the paste object ends the call, an error with the marker is ignored. */
  lemma DeletesAlone(s: System, pid: Pid, id: Id, now: int, f: seq<Fault>)
    requires pid !in s.procs && id in s.written && |f| == 2
    ensures var t := Run(s, [Delete(pid, id)] + Steps(pid, now, f));
            && pid in t.procs && t.procs[pid] == Deleter(id, DeleteReturned(f[0] == NoFault))
            && t.bucket == s.bucket.(pastes := t.bucket.pastes, burns := t.bucket.burns)
            && t.bucket.pastes == s.bucket.pastes - (if f[0] == Refused then {} else {id})
            && t.bucket.burns == s.bucket.burns - (if f[0] == NoFault && f[1] != Refused then {id} else {})
  {
    var p := Deleter(id, DeleteContent);
    CallRuns(s, pid, Delete(pid, id), s, p, now, f);
    TwoSteps(s, p, now, f);
  }

  /** MarkBurned alone: afterwards the marker is there unless its write was refused. */
  lemma MarksAlone(s: System, pid: Pid, id: Id, now: int, f: seq<Fault>)
    requires pid !in s.procs && |f| == 2
    ensures var t := Run(s, [Mark(pid, id)] + Steps(pid, now, f));
            && pid in t.procs && t.procs[pid].Marker? && t.procs[pid].id == id && t.procs[pid].mpc.MarkReturned?
            && (t.procs[pid].mpc.ok <==> (f[0] == NoFault && id in s.bucket.burns) || f[1] == NoFault)
            && t.bucket == s.bucket.(burns := t.bucket.burns)
            && (id in t.bucket.burns <==> id in s.bucket.burns || f[1] != Refused)
            && t.bucket.burns - {id} == s.bucket.burns - {id}
  {
    var p := Marker(id, MarkCheck);
    CallRuns(s, pid, Mark(pid, id), s, p, now, f);
    TwoSteps(s, p, now, f);
  }

  // ------------------------------------------------------------------ SavePaste

  /** The faults of a SavePaste: the plaintext ban, the content ban, the lookup, the write and the index entry. */
  datatype SaveFaults = SaveFaults(plaintext: Fault, content: Fault, lookup: Fault, write: Fault, index: Fault)

  predicate IsText(d: Draft) { d.upload.Plaintext? && d.upload.content.Some? }

  /** Only an upload whose text was decoded has its text looked up. */
  function Listed(d: Draft, f: SaveFaults): seq<Fault> {
    (if IsText(d) then [f.plaintext] else []) + [f.content, f.lookup, f.write, f.index]
  }

  predicate TextBanned(s: System, d: Draft) {
    IsText(d) && PlaintextBan(Sha256(d.upload.content.value)) in s.bucket.banned
  }

  predicate ContentBanned(s: System, d: Draft) {
    CiphertextBan(Sha256(d.content)) in s.bucket.banned
  }

  /** The checks are passed: nothing failed and nothing is banned. */
  predicate Passes(s: System, d: Draft, f: SaveFaults) {
    && !d.upload.Undecodable?
    && (IsText(d) ==> f.plaintext == NoFault && !TextBanned(s, d))
    && f.content == NoFault && !ContentBanned(s, d)
  }

  function Existing(s: System, d: Draft): Id {
    if Sha256(d.content) in s.bucket.hashes then s.bucket.hashes[Sha256(d.content)] else ""
  }

  /** What a SavePaste returns. */
  ghost predicate SaveReturns(s: System, d: Draft, f: SaveFaults, o: SaveOutcome) {
    && (o == Saved <==> Passes(s, d, f) && f.lookup == NoFault && f.write == NoFault)
    && (o == BannedContent <==>
          && !d.upload.Undecodable?
          && (IsText(d) ==> f.plaintext == NoFault)
          && (TextBanned(s, d) || (f.content == NoFault && ContentBanned(s, d))))
  }

  /** The object is as the draft says, with the content or with the paste that holds it. */
  ghost predicate StoredAs(obj: Object, d: Draft, existing: Id) {
    && obj.meta.expiresAt == d.expiresAt && obj.meta.burnAfterRead == d.burnAfterRead
    && (if existing == "" then obj.content == d.content && obj.meta.references == None
        else obj.meta.references == Some(existing))
  }

  /** What it leaves. */
  ghost predicate SaveLeaves(s: System, id: Id, d: Draft, f: SaveFaults, b: Bucket) {
    var h, existing := Sha256(d.content), Existing(s, d);
    && b == s.bucket.(pastes := b.pastes, hashes := b.hashes, nextGeneration := b.nextGeneration)
    && (if Passes(s, d, f) && f.lookup == NoFault && f.write != Refused then
          && id in b.pastes && b.pastes == s.bucket.pastes[id := b.pastes[id]] && StoredAs(b.pastes[id], d, existing)
          && b.pastes[id].generation == s.bucket.nextGeneration < b.nextGeneration
        else
          b.pastes == s.bucket.pastes)
    && (if Passes(s, d, f) && f.lookup == NoFault && f.write == NoFault && existing == "" && f.index != Refused then
          b.hashes == s.bucket.hashes[h := id]
        else
          b.hashes == s.bucket.hashes)
  }

  ghost predicate SaveResult(s: System, id: Id, d: Draft, f: SaveFaults, o: SaveOutcome, b: Bucket) {
    SaveReturns(s, d, f, o) && SaveLeaves(s, id, d, f, b)
  }

  lemma LooksUpAlone(s: System, id: Id, d: Draft, now: int, f: SaveFaults)
    requires !d.upload.Undecodable?
    requires !(IsText(d) && (f.plaintext != NoFault || TextBanned(s, d)))
    ensures Alone(s, Saver(id, d, FirstSavePc(d)), now, Listed(d, f))
         == Alone(s, Saver(id, d, SaveCheckContent), now, [f.content, f.lookup, f.write, f.index])
  {
    var rest := [f.content, f.lookup, f.write, f.index];
    if IsText(d) {
      Goes(s, Saver(id, d, FirstSavePc(d)), now, Listed(d, f));
      assert Listed(d, f)[1..] == rest;
    } else {
      assert Listed(d, f) == rest;
    }
  }

  lemma IndexesAlone(s: System, id: Id, d: Draft, now: int, f: SaveFaults)
    requires Passes(s, d, f) && f.lookup == NoFault
    ensures var (s', p') := Alone(s, Saver(id, d, SaveWrite(Existing(s, d))), now, [f.write, f.index]);
            p'.Saver? && p'.id == id && p'.draft == d && p'.spc.SaveReturned?
            && SaveReturns(s, d, f, p'.spc.outcome) && SaveLeaves(s, id, d, f, s'.bucket)
  {
    var p := Saver(id, d, SaveWrite(Existing(s, d)));
    TwoSteps(s, p, now, [f.write, f.index]);
    var (s1, p1) := One(s, p, now, f.write);
    assert s1.bucket.hashes == s.bucket.hashes && s1.bucket.banned == s.bucket.banned;
    assert f.write != Refused ==> s1.bucket.pastes == s.bucket.pastes[id := s1.bucket.pastes[id]];
  }

  lemma WritesAlone(s: System, id: Id, d: Draft, now: int, f: SaveFaults)
    requires Passes(s, d, f)
    ensures var (s', p') := Alone(s, Saver(id, d, SaveLookup), now, [f.lookup, f.write, f.index]);
            p'.Saver? && p'.id == id && p'.draft == d && p'.spc.SaveReturned?
            && SaveResult(s, id, d, f, p'.spc.outcome, s'.bucket)
  {
    var all := [f.lookup, f.write, f.index];
    var p := Saver(id, d, SaveLookup);
    Goes(s, p, now, all);
    assert all[1..] == [f.write, f.index];
    var (s1, p1) := One(s, p, now, f.lookup);
    if f.lookup == NoFault {
      assert p1 == Saver(id, d, SaveWrite(Existing(s, d)));
      IndexesAlone(s, id, d, now, f);
    } else {
      ReturnedRests(s1, p1, now, [f.write, f.index]);
    }
  }

  lemma ChecksAlone(s: System, id: Id, d: Draft, now: int, f: SaveFaults)
    requires !d.upload.Undecodable?
    requires !(IsText(d) && (f.plaintext != NoFault || TextBanned(s, d)))
    ensures var (s', p') := Alone(s, Saver(id, d, SaveCheckContent), now, [f.content, f.lookup, f.write, f.index]);
            p'.Saver? && p'.id == id && p'.draft == d && p'.spc.SaveReturned?
            && SaveResult(s, id, d, f, p'.spc.outcome, s'.bucket)
  {
    var all := [f.content, f.lookup, f.write, f.index];
    var p := Saver(id, d, SaveCheckContent);
    Goes(s, p, now, all);
    var (s1, p1) := One(s, p, now, f.content);
    assert all[1..] == [f.lookup, f.write, f.index];
    if Passes(s, d, f) { WritesAlone(s, id, d, now, f); } else { ReturnedRests(s1, p1, now, all[1..]); }
  }

  /** SavePaste alone: saved, banned or failed, each exactly when, and the objects it writes, for every upload. */
  lemma SavesAlone(s: System, pid: Pid, id: Id, d: Draft, now: int, f: SaveFaults) returns (o: SaveOutcome)
    requires pid !in s.procs && id !in s.drafts
    ensures var t := Run(s, [Save(pid, id, d)] + Steps(pid, now, Listed(d, f)));
            && pid in t.procs && t.procs[pid] == Saver(id, d, SaveReturned(o))
            && SaveResult(s, id, d, f, o, t.bucket)
  {
    var s0, p := Drafted(s, id, d), Saver(id, d, FirstSavePc(d));
    CallRuns(s, pid, Save(pid, id, d), s0, p, now, Listed(d, f));
    if d.upload.Undecodable? {
      ReturnedRests(s0, p, now, Listed(d, f));
    } else if IsText(d) && (f.plaintext != NoFault || TextBanned(s, d)) {
      Goes(s0, p, now, Listed(d, f));
      ReturnedRests(s0, One(s0, p, now, f.plaintext).1, now, Listed(d, f)[1..]);
    } else {
      LooksUpAlone(s0, id, d, now, f);
      ChecksAlone(s0, id, d, now, f);
    }
    o := Alone(s0, p, now, Listed(d, f)).1.spc.outcome;
  }

  /** A ban takes effect on the next save of its content. */
  lemma BanThenSave(s: System, admin: Pid, pid: Pid, id: Id, d: Draft, now: int)
    requires pid !in s.procs && id !in s.drafts && !d.upload.Undecodable?
    ensures var ban := BanHash(admin, CiphertextBan(Sha256(d.content)));
            var t := Run(Step(s, ban), [Save(pid, id, d)] + Steps(pid, now, Listed(d, NO_FAULTS)));
            && pid in t.procs && t.procs[pid] == Saver(id, d, SaveReturned(BannedContent))
            && t.bucket.pastes == s.bucket.pastes
  {
    var _ := SavesAlone(Step(s, BanHash(admin, CiphertextBan(Sha256(d.content)))), pid, id, d, now, NO_FAULTS);
  }

  const NO_FAULTS: SaveFaults := SaveFaults(NoFault, NoFault, NoFault, NoFault, NoFault)

  /**
   Saved and then read, without faults and before the expiry: what is delivered is what was saved, unless the paste
   that the index names has been deleted, or the id was marked before it was saved.
   */
  lemma SavedThenRead(s: System, i: Pid, j: Pid, id: Id, d: Draft, now: int)
    returns (save: seq<Action>, read: seq<Action>)
    requires Reachable(s) && i != j && i !in s.procs && j !in s.procs && id !in s.drafts
    requires !d.upload.Undecodable? && !IsRefused(s.bucket, d) && now <= d.expiresAt * SECOND
    ensures Calm(save + read, now)
    ensures var t := Run(s, save + read);
            && i in t.procs && t.procs[i] == Saver(id, d, SaveReturned(Saved))
            && (j in Deliveries(t, id) <==>
                  id !in s.bucket.burns && (Existing(s, d) == "" || Existing(s, d) in s.bucket.pastes))
            && (j in Deliveries(t, id) ==> t.procs[j].rpc.outcome.content == d.content)
  {
    save := [Save(i, id, d)] + Steps(i, now, Listed(d, NO_FAULTS));
    var o := SavesAlone(s, i, id, d, now, NO_FAULTS);
    var u := Run(s, save);
    OnlyMyProcess(s, save, i, j);
    read := PresentIsDelivered(u, j, id, now);
    RunAppend(s, save, read);
    NotIndexedYet(s, id, d);
    SaverStays(u, read, i);
    DraftStays(s, i, id, d, Steps(i, now, Listed(d, NO_FAULTS)), read);
    var actions :| Run(START, actions) == s;
    RunAppend(START, actions, save + read);
    if j in Deliveries(Run(s, save + read), id) { DeliveredIsWhatWasSaved(actions + (save + read), j, id); }
  }

  /** A process stays out of a run that never calls it. */
  lemma {:induction false} OnlyMyProcess(s: System, actions: seq<Action>, i: Pid, j: Pid)
    requires i != j && j !in s.procs && forall a :: a in actions ==> a.pid == i
    ensures j !in Run(s, actions).procs
    decreases |actions|
  {
    if actions != [] {
      assert actions[0] in actions;
      OnlyMyProcess(Step(s, actions[0]), actions[1..], i, j);
    }
  }

  /** A fresh id is neither stored nor indexed. */
  lemma NotIndexedYet(s: System, id: Id, d: Draft)
    requires Reachable(s) && id !in s.drafts
    ensures id !in s.bucket.pastes && (Existing(s, d) == "" || Existing(s, d) != id)
  {
    ReachableIsOk(s);
    assert id in s.bucket.pastes ==> WrittenOk(s, id);
    var h := Sha256(d.content);
    if h in s.bucket.hashes { assert HoldsSame(s, s.bucket.hashes[h], h.preimage); }
  }

  lemma SaverRests(s: System, a: Action, i: Pid)
    requires i in s.procs && s.procs[i].Saver? && s.procs[i].spc.SaveReturned?
    ensures i in Step(s, a).procs && Step(s, a).procs[i] == s.procs[i]
  {
    if a.Advance? && a.pid == i { assert SaveStep(s.bucket, s.procs[i], a.fault).0 == s.procs[i]; }
  }

  lemma {:induction false} SaverStays(s: System, actions: seq<Action>, i: Pid)
    requires i in s.procs && s.procs[i].Saver? && s.procs[i].spc.SaveReturned?
    ensures i in Run(s, actions).procs && Run(s, actions).procs[i] == s.procs[i]
    decreases |actions|
  {
    if actions != [] {
      SaverRests(s, actions[0], i);
      SaverStays(Step(s, actions[0]), actions[1..], i);
    }
  }

  lemma {:induction false} DraftsStay(s: System, actions: seq<Action>, id: Id)
    requires id in s.drafts
    ensures id in Run(s, actions).drafts && Run(s, actions).drafts[id] == s.drafts[id]
    decreases |actions|
  {
    if actions != [] { DraftsStay(Step(s, actions[0]), actions[1..], id); }
  }

  lemma DraftStays(s: System, i: Pid, id: Id, d: Draft, steps: seq<Action>, more: seq<Action>)
    requires i !in s.procs && id !in s.drafts
    ensures var t := Run(s, [Save(i, id, d)] + steps + more); id in t.drafts && t.drafts[id] == d
  {
    assert ([Save(i, id, d)] + steps + more)[1..] == steps + more;
    DraftsStay(Step(s, Save(i, id, d)), steps + more, id);
  }
}
