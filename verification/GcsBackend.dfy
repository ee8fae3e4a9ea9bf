/**
 The object-store backend as an object over its bucket. Before each operation of a call other processes may take any
 number of steps, and the operation itself may fail (`Interfere`); the ghost field `sys` shows that every call is a
 process of the protocol.
 */
module GcsBackend {
  import opened Common
  import opened GcsProtocol

  /** Steps of processes other than `me` lead from s to t. */
  ghost predicate OthersRan(s: System, t: System, me: Pid) {
    exists actions: seq<Action> :: (forall a: Action :: a in actions ==> a.pid != me) && Run(s, actions) == t
  }

  /** No step of another process touches a process. */
  lemma {:induction false} OthersLeaveMe(s: System, actions: seq<Action>, me: Pid)
    requires me in s.procs && forall a: Action :: a in actions ==> a.pid != me
    ensures me in Run(s, actions).procs && Run(s, actions).procs[me] == s.procs[me]
    decreases |actions|
  {
    if actions != [] {
      assert actions[0] in actions;
      OthersLeaveMe(Step(s, actions[0]), actions[1..], me);
    }
  }

  predicate ReaderAt(p: Process, id: Id, rpc: ReadPc) {
    p.Reader? && p.id == id && p.rpc == rpc
  }

  /** Whose delivery it is: no one else's, when the paste burns and none of its cleanups failed. */
  ghost predicate OnlyMine(s: System, id: Id, me: Pid) {
    IsBurnAfterRead(s, id) && BearsContent(s, id) && id !in s.leftBehind ==> Deliveries(s, id) == {me}
  }

  class Backend {
    var pastes: map<Id, Object>
    var burns: set<Id>
    var hashes: map<Hash, Id>
    var banned: set<Ban>
    var nextGeneration: nat
    ghost var sys: System

    ghost predicate Valid()
      reads this
    {
      sys.bucket == Bucket(pastes, burns, hashes, banned, nextGeneration) && Reachable(sys)
    }

    constructor ()
      ensures Valid() && sys == START
    {
      pastes, burns, hashes, banned, nextGeneration := map[], {}, map[], {}, 0;
      sys := START;
      new;
      assert Run(START, []) == START;
    }

    /**
     Anything other processes do to the bucket, and how the coming operation will fare. Here they do nothing and it
     does not fail; callers know only the contract.
     */
    method Interfere(ghost me: Pid) returns (fault: Fault)
      requires Valid() && me in sys.procs
      modifies this
      ensures Valid() && OthersRan(old(sys), sys, me)
      ensures me in sys.procs && sys.procs[me] == old(sys.procs[me])
    {
      assert Run(sys, []) == sys;
      fault := NoFault;
    }

    ghost method Call(me: Pid, a: Action, p: Process)
      requires Valid() && me !in sys.procs && !a.Advance? && Step(sys, a) == Put(sys, me, p)
      modifies this`sys
      ensures Valid() && sys == Step(old(sys), a) && me in sys.procs && sys.procs[me] == p
    {
      ReachesStep(sys, a);
      sys := Step(sys, a);
    }

    /** The bucket has just been changed as effect `e` says: enter the step into the protocol. */
    ghost method Record(me: Pid, now: int, fault: Fault, p: Process, e: Effect)
      requires Reachable(sys) && me in sys.procs && ProcessStep(sys.bucket, sys.procs[me], now, fault) == (p, e)
      requires Bucket(pastes, burns, hashes, banned, nextGeneration) == Apply(sys, e).bucket
      modifies this`sys
      ensures Valid() && sys == Put(Apply(old(sys), e), me, p)
      ensures sys == Step(old(sys), Advance(me, now, fault))
    {
      ReachesStep(sys, Advance(me, now, fault));
      sys := Step(sys, Advance(me, now, fault));
    }

    /**
     GetPaste. What it returns is what its process returned in the protocol, so it is the content the id was saved
     with, and a burn-after-read paste with its own content has been delivered to no one else.
     */
    method GetPaste(ghost me: Pid, id: Id, now: int) returns (res: Outcome)
      requires Valid() && me !in sys.procs
      modifies this
      ensures Valid() && me in sys.procs
      ensures ReaderAt(sys.procs[me], id, ReadReturned(res))
      ensures res.Delivered? ==> id in sys.drafts && res.content == sys.drafts[id].content && OnlyMine(sys, id, me)
    {
      res := RunGetPaste(me, id, now);
      ReturnedFacts(sys, me, id, res);
    }

    /** The looks at the paste, its marker and its reference; Some outcome if one of them ends the call. */
    method Locate(ghost me: Pid, id: Id) returns (ended: Option<Outcome>, obj: Object, target: Id, generation: nat)
      requires Valid() && me !in sys.procs
      modifies this
      ensures Valid() && me in sys.procs
      ensures ended.Some? ==> ReaderAt(sys.procs[me], id, ReadReturned(ended.value))
      ensures ended.None? ==> sys.procs[me] == Reader(id, CheckExpiry(obj, target, generation), false)
    {
      obj, target, generation := Object(0, "", Meta(0, false, None)), id, 0;
      Call(me, Read(me, id), Reader(id, ReadAttrs, false));
      var fault := Interfere(me);
      if fault != NoFault || id !in pastes {
        var outcome := if fault != NoFault then Failed else NotFound;
        Record(me, 0, fault, Reader(id, ReadReturned(outcome), false), Nothing);
        return Some(outcome), obj, target, generation;
      }
      obj := pastes[id];
      Record(me, 0, fault, Reader(id, CheckMarker(obj), false), Nothing);

      // a failed look at the marker passes for an absent marker
      fault := Interfere(me);
      if fault == NoFault && id in burns {
        Record(me, 0, fault, Reader(id, ReadReturned(Burned), false), Nothing);
        return Some(Burned), obj, target, generation;
      }
      Record(me, 0, fault, Reader(id, FollowReference(obj), false), Nothing);
      fault := Interfere(me);
      ended, target, generation := Resolve(me, id, obj, fault);
    }

    method Resolve(ghost me: Pid, id: Id, obj: Object, fault: Fault)
      returns (ended: Option<Outcome>, target: Id, generation: nat)
      requires Valid() && me in sys.procs && sys.procs[me] == Reader(id, FollowReference(obj), false)
      modifies this`sys
      ensures Valid() && me in sys.procs
      ensures ended.Some? ==> ReaderAt(sys.procs[me], id, ReadReturned(ended.value))
      ensures ended.None? ==> sys.procs[me] == Reader(id, CheckExpiry(obj, target, generation), false)
    {
      target, generation := id, obj.generation;
      if obj.meta.references.Some? && obj.meta.references.value != "" {
        target := obj.meta.references.value;
        if fault != NoFault || target !in pastes {
          Record(me, 0, fault, Reader(id, ReadReturned(Failed), false), Nothing);
          return Some(Failed), target, generation;
        }
        generation := pastes[target].generation;
      }
      Record(me, 0, fault, Reader(id, CheckExpiry(obj, target, generation), false), Nothing);
      ended := None;
    }

    method RunGetPaste(ghost me: Pid, id: Id, now: int) returns (res: Outcome)
      requires Valid() && me !in sys.procs
      modifies this
      ensures Valid() && me in sys.procs
      ensures ReaderAt(sys.procs[me], id, ReadReturned(res))
    {
      var ended, obj, target, generation := Locate(me, id);
      if ended.Some? { return ended.value; }

      if now > obj.meta.expiresAt * SECOND {
        Record(me, now, NoFault, Reader(id, DropContent(target), false), Nothing);
        DropExpired(me, id, target, now);
        return NotFound;
      }

      if obj.meta.burnAfterRead {
        Record(me, now, NoFault, Reader(id, Claim(target, generation), false), Nothing);
        ended := ClaimPaste(me, id, target, generation, now);
        if ended.Some? { return ended.value; }
      } else {
        Record(me, now, NoFault, Reader(id, ReadContent(target, generation), false), Nothing);
      }
      res := ReadObject(me, id, target, generation, now);
    }

    /** The write of the marker under the condition that there is none. */
    method ClaimPaste(ghost me: Pid, id: Id, target: Id, generation: nat, now: int) returns (ended: Option<Outcome>)
      requires Valid() && me in sys.procs && sys.procs[me] == Reader(id, Claim(target, generation), false)
      modifies this
      ensures Valid() && me in sys.procs
      ensures ended.Some? ==> ReaderAt(sys.procs[me], id, ReadReturned(ended.value))
      ensures ended.None? ==> sys.procs[me] == Reader(id, ReadContent(target, generation), true)
    {
      var fault := Interfere(me);
      if fault != NoFault {
        ghost var e := if fault == Lost then AddMarker(id) else Nothing;
        if fault == Lost {
          burns := burns + {id};
        }
        Record(me, now, fault, Reader(id, ReadReturned(Failed), false), e);
        return Some(Failed);
      }
      if id in burns {
        Record(me, now, fault, Reader(id, ReadReturned(Burned), false), Nothing);
        return Some(Burned);
      }
      burns := burns + {id};
      Record(me, now, fault, Reader(id, ReadContent(target, generation), true), AddMarker(id));
      ended := None;
    }

    /** Errors of the two deletes are ignored. */
    method DropExpired(ghost me: Pid, id: Id, target: Id, now: int)
      requires Valid() && me in sys.procs && sys.procs[me] == Reader(id, DropContent(target), false)
      modifies this
      ensures Valid() && me in sys.procs && sys.procs[me] == Reader(id, ReadReturned(NotFound), false)
    {
      var fault := Interfere(me);
      ghost var left := if target == id && target in pastes then LeaveBehind(target) else Nothing;
      if fault != Refused {
        pastes := pastes - {target};
      }
      Record(me, now, fault, Reader(id, DropMarker, false), if fault != Refused then RemovePaste(target) else left);
      fault := Interfere(me);
      if fault != Refused {
        burns := burns - {id};
      }
      Record(me, now, fault, Reader(id, ReadReturned(NotFound), false),
             if fault != Refused then RemoveMarker(id) else Nothing);
    }

    method ReadObject(ghost me: Pid, id: Id, target: Id, generation: nat, now: int) returns (res: Outcome)
      requires Valid() && me in sys.procs && ReaderAt(sys.procs[me], id, ReadContent(target, generation))
      modifies this
      ensures Valid() && me in sys.procs
      ensures ReaderAt(sys.procs[me], id, ReadReturned(res))
    {
      var fault := Interfere(me);
      if fault != NoFault {
        res := Failed;
      } else if target !in pastes {
        res := NotFound;
      } else if pastes[target].generation != generation {
        res := Failed;
      } else {
        res := Delivered(pastes[target].content);
      }
      Record(me, now, fault, Reader(id, ReadReturned(res), sys.procs[me].claimed), Nothing);
    }

    /** The paste object goes before the marker, and only after it; an error with the first ends the call. */
    method DeletePaste(ghost me: Pid, id: Id) returns (ok: bool)
      requires Valid() && me !in sys.procs && id in sys.written
      modifies this
      ensures Valid() && me in sys.procs && sys.procs[me] == Deleter(id, DeleteReturned(ok))
      ensures ok ==> id !in pastes
    {
      Call(me, Delete(me, id), Deleter(id, DeleteContent));
      var fault := Interfere(me);
      if fault != Refused {
        pastes := pastes - {id};
      }
      ghost var e := if fault == Refused then Nothing else RemovePaste(id);
      if fault != NoFault {
        Record(me, 0, fault, Deleter(id, DeleteReturned(false)), e);
        return false;
      }
      Record(me, 0, fault, Deleter(id, DeleteMarker), e);
      RemoveOwnMarker(me, id);
      ok := true;
    }

    /** An error of the second delete is ignored. */
    method RemoveOwnMarker(ghost me: Pid, id: Id)
      requires Valid() && me in sys.procs && sys.procs[me] == Deleter(id, DeleteMarker)
      modifies this
      ensures Valid() && me in sys.procs && sys.procs[me] == Deleter(id, DeleteReturned(true))
      ensures id !in pastes
    {
      var fault := Interfere(me);
      DeleterFacts(sys, me, id);
      if fault != Refused {
        burns := burns - {id};
      }
      Record(me, 0, fault, Deleter(id, DeleteReturned(true)), if fault == Refused then Nothing else RemoveMarker(id));
    }

    method MarkBurned(ghost me: Pid, id: Id) returns (ok: bool)
      requires Valid() && me !in sys.procs
      modifies this
      ensures Valid() && me in sys.procs && sys.procs[me] == Marker(id, MarkReturned(ok))
      ensures ok ==> id in burns
    {
      Call(me, Mark(me, id), Marker(id, MarkCheck));
      var fault := Interfere(me);
      if fault == NoFault && id in burns {
        Record(me, 0, fault, Marker(id, MarkReturned(true)), Nothing);
        return true;
      }
      Record(me, 0, fault, Marker(id, MarkWrite), Nothing);
      ok := WriteMarker(me, id);
    }

    method WriteMarker(ghost me: Pid, id: Id) returns (ok: bool)
      requires Valid() && me in sys.procs && sys.procs[me] == Marker(id, MarkWrite)
      modifies this
      ensures Valid() && me in sys.procs && sys.procs[me] == Marker(id, MarkReturned(ok))
      ensures ok ==> id in burns
    {
      var fault := Interfere(me);
      if fault != Refused {
        burns := burns + {id};
      }
      ok := fault == NoFault;
      Record(me, 0, fault, Marker(id, MarkReturned(ok)), if fault == Refused then Nothing else AddMarker(id));
    }

    /** Writes the object unless the operation is refused; `next` is where the save then stands. */
    method WriteObject(ghost me: Pid, id: Id, content: Ciphertext, meta: Meta, fault: Fault, ghost next: Process)
      requires Valid() && me in sys.procs
      requires ProcessStep(sys.bucket, sys.procs[me], 0, fault)
            == (next, if fault == Refused then Nothing else WritePaste(id, content, meta))
      modifies this
      ensures Valid() && me in sys.procs && sys.procs[me] == next
    {
      if fault != Refused {
        pastes := pastes[id := Object(nextGeneration, content, meta)];
        nextGeneration := nextGeneration + 1;
      }
      Record(me, 0, fault, next, if fault == Refused then Nothing else WritePaste(id, content, meta));
    }

    /**
     A saved id is written as its draft says: with its content, or one hop from the same content. What is refused as
     banned is banned.
     */
    method SavePaste(ghost me: Pid, id: Id, draft: Draft) returns (res: SaveOutcome)
      requires Valid() && me !in sys.procs && id !in sys.drafts
      modifies this
      ensures Valid() && me in sys.procs && sys.procs[me] == Saver(id, draft, SaveReturned(res))
      ensures id in sys.drafts && sys.drafts[id] == draft
      ensures res.Saved? ==> id in sys.written && WrittenOk(sys, id)
      ensures res.BannedContent? ==> IsRefused(sys.bucket, draft)
    {
      ReachesStep(sys, Save(me, id, draft));
      sys := Step(sys, Save(me, id, draft));
      res := RunSavePaste(me, id, draft);
      SavedFacts(sys, me, id, draft);
    }

    method RunSavePaste(ghost me: Pid, id: Id, draft: Draft) returns (res: SaveOutcome)
      requires Valid() && me in sys.procs && sys.procs[me] == Saver(id, draft, FirstSavePc(draft))
      modifies this
      ensures Valid() && me in sys.procs && sys.procs[me] == Saver(id, draft, SaveReturned(res))
    {
      if draft.upload.Undecodable? { return SaveFailed; }
      if draft.upload.Plaintext? && draft.upload.content.Some? {
        var text := draft.upload.content.value;
        var stopped := CheckBan(me, id, draft, PlaintextBan(Sha256(text)), SaveCheckPlaintext(text), SaveCheckContent);
        if stopped.Some? { return stopped.value; }
      }
      var h := Sha256(draft.content);
      var stopped := CheckBan(me, id, draft, CiphertextBan(h), SaveCheckContent, SaveLookup);
      if stopped.Some? { return stopped.value; }

      var fault := Interfere(me);
      if fault != NoFault {
        Record(me, 0, fault, Saver(id, draft, SaveReturned(SaveFailed)), Nothing);
        return SaveFailed;
      }
      var existing := if h in hashes then hashes[h] else "";
      Record(me, 0, fault, Saver(id, draft, SaveWrite(existing)), Nothing);
      res := WriteDraft(me, id, draft, existing);
    }

    method CheckBan(ghost me: Pid, id: Id, draft: Draft, ban: Ban, ghost pc: SavePc, ghost next: SavePc)
      returns (stopped: Option<SaveOutcome>)
      requires Valid() && me in sys.procs && sys.procs[me] == Saver(id, draft, pc)
      requires forall b, fault ::
                 SaveStep(b, Saver(id, draft, pc), fault)
                 == (Saver(id, draft, AfterBanCheck(b, ban, fault, next)), Nothing)
      modifies this
      ensures Valid() && me in sys.procs
      ensures sys.procs[me] == Saver(id, draft, if stopped.Some? then SaveReturned(stopped.value) else next)
    {
      var fault := Interfere(me);
      if fault != NoFault {
        stopped := Some(SaveFailed);
      } else if ban in banned {
        stopped := Some(BannedContent);
      } else {
        stopped := None;
      }
      Record(me, 0, fault, Saver(id, draft, AfterBanCheck(sys.bucket, ban, fault, next)), Nothing);
    }

    method WriteDraft(ghost me: Pid, id: Id, draft: Draft, existing: Id) returns (res: SaveOutcome)
      requires Valid() && me in sys.procs && sys.procs[me] == Saver(id, draft, SaveWrite(existing))
      modifies this
      ensures Valid() && me in sys.procs && sys.procs[me] == Saver(id, draft, SaveReturned(res))
    {
      var fault := Interfere(me);
      res := if fault != NoFault then SaveFailed else Saved;
      if existing != "" {
        var meta := Meta(draft.expiresAt, draft.burnAfterRead, Some(existing));
        WriteObject(me, id, "", meta, fault, Saver(id, draft, SaveReturned(res)));
        return;
      }
      var meta := Meta(draft.expiresAt, draft.burnAfterRead, None);
      ghost var next := if fault != NoFault then SaveReturned(SaveFailed) else SaveIndex;
      WriteObject(me, id, draft.content, meta, fault, Saver(id, draft, next));
      if fault == NoFault {
        IndexContent(me, id, draft);
      }
    }

    /** A failing index write is logged and otherwise ignored. */
    method IndexContent(ghost me: Pid, id: Id, draft: Draft)
      requires Valid() && me in sys.procs && sys.procs[me] == Saver(id, draft, SaveIndex)
      modifies this
      ensures Valid() && me in sys.procs && sys.procs[me] == Saver(id, draft, SaveReturned(Saved))
    {
      var fault := Interfere(me);
      if fault != Refused {
        hashes := hashes[Sha256(draft.content) := id];
      }
      Record(me, 0, fault, Saver(id, draft, SaveReturned(Saved)),
             if fault == Refused then Nothing else IndexPaste(Sha256(draft.content), id));
    }

    /** An unconditional write, told to have failed or not. */
    method BanContent(ghost me: Pid, ban: Ban, fault: Fault) returns (ok: bool)
      requires Valid()
      modifies this
      ensures Valid() && sys == (if fault == Refused then old(sys) else Step(old(sys), BanHash(me, ban)))
      ensures ok ==> ban in banned
    {
      ok := fault == NoFault;
      if fault != Refused {
        banned := banned + {ban};
        ReachesStep(sys, BanHash(me, ban));
        sys := Step(sys, BanHash(me, ban));
      }
    }
  }

  /** While a delete is about to remove the marker, the paste object is gone. */
  lemma DeleterFacts(s: System, me: Pid, id: Id)
    requires Reachable(s) && me in s.procs && s.procs[me] == Deleter(id, DeleteMarker)
    ensures id !in s.bucket.pastes
  {
    ReachableIsOk(s);
    assert ProcessOk(s, s.procs[me]);
  }

  lemma SavedFacts(s: System, me: Pid, id: Id, draft: Draft)
    requires Reachable(s) && me in s.procs && s.procs[me].Saver? && s.procs[me].id == id
    requires s.procs[me].draft == draft && s.procs[me].spc.SaveReturned?
    ensures id in s.drafts && s.drafts[id] == draft
    ensures s.procs[me].spc.outcome.Saved? ==> id in s.written && WrittenOk(s, id)
    ensures s.procs[me].spc.outcome.BannedContent? ==> IsRefused(s.bucket, draft)
  {
    ReachableIsOk(s);
    assert ProcessOk(s, s.procs[me]);
  }

  lemma ReturnedFacts(s: System, me: Pid, id: Id, res: Outcome)
    requires Reachable(s) && me in s.procs && ReaderAt(s.procs[me], id, ReadReturned(res))
    ensures res.Delivered? ==> id in s.drafts && res.content == s.drafts[id].content && OnlyMine(s, id, me)
  {
    ReachableIsOk(s);
    assert ProcessOk(s, s.procs[me]) && IdOk(s, id);
    if res.Delivered? && IsBurnAfterRead(s, id) && BearsContent(s, id) && id !in s.leftBehind {
      var others := Deliveries(s, id) - {me};
      assert Deliveries(s, id) == others + {me};
    }
  }
}
