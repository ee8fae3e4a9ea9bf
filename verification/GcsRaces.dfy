/**
 How close the object-store protocol comes to delivering a burn-after-read paste once: what must happen between two
 claims, and exactly when a paste can be delivered twice.
 */
module GcsRaces {
  import opened Common
  import opened GcsProtocol

  // ------------------------------------------------------------------ between two claims a marker was deleted

  lemma {:induction false} UnburnedGrows(s: System, actions: seq<Action>, id: Id)
    ensures s.unburned[id] <= Run(s, actions).unburned[id]
    decreases |actions|
  {
    if actions != [] { UnburnedGrows(Step(s, actions[0]), actions[1..], id); }
  }

  lemma ClaimStays(s: System, a: Action, id: Id, pid: Pid)
    requires pid in Claims(s, id)
    ensures pid in Claims(Step(s, a), id)
  {
    if a.Advance? && a.pid in s.procs && a.pid == pid {
      assert ReadStep(s.bucket, s.procs[pid], a.now, a.fault).0.claimed;
    }
  }

  lemma {:induction false} ClaimsStay(s: System, actions: seq<Action>, id: Id)
    ensures Claims(s, id) <= Claims(Run(s, actions), id)
    decreases |actions|
  {
    if actions != [] {
      forall pid | pid in Claims(s, id) ensures pid in Claims(Step(s, actions[0]), id) {
        ClaimStays(s, actions[0], id, pid);
      }
      ClaimsStay(Step(s, actions[0]), actions[1..], id);
    }
  }

  /** A step that makes a process claim is the step of that process; it finds no marker and leaves one. */
  lemma ClaimLeavesMarker(s: System, a: Action, id: Id, pid: Pid)
    requires pid !in Claims(s, id) && pid in Claims(Step(s, a), id)
    ensures id !in s.bucket.burns && id in Step(s, a).bucket.burns
    ensures forall q :: q != pid ==> (q in Claims(Step(s, a), id) <==> q in Claims(s, id))
  {
  }

  /** While the marker stands nobody claims: a process that has claimed later came after a deletion of the marker. */
  lemma {:induction false} ClaimNeedsUnburning(s: System, more: seq<Action>, id: Id, pid: Pid)
    requires id in s.bucket.burns && pid !in Claims(s, id) && pid in Claims(Run(s, more), id)
    ensures s.unburned[id] < Run(s, more).unburned[id]
    decreases |more|
  {
    if more != [] {
      var t := Step(s, more[0]);
      if pid in Claims(t, id) { ClaimLeavesMarker(s, more[0], id, pid); }
      if id in t.bucket.burns {
        ClaimNeedsUnburning(t, more[1..], id, pid);
      } else {
        UnburnedGrows(t, more[1..], id);
      }
    }
  }

  /** The system after the first k steps. */
  function After(actions: seq<Action>, k: nat): System
    requires k <= |actions|
  {
    Run(START, actions[..k])
  }

  lemma {:induction false} RunAppend(s: System, first: seq<Action>, second: seq<Action>)
    ensures Run(s, first + second) == Run(Run(s, first), second)
    decreases |first|
  {
    if first == [] {
      assert first + second == second;
    } else {
      assert (first + second)[1..] == first[1..] + second;
      RunAppend(Step(s, first[0]), first[1..], second);
    }
  }

  lemma AfterSplit(actions: seq<Action>, k: nat, m: nat)
    requires k <= m <= |actions|
    ensures After(actions, m) == Run(After(actions, k), actions[k..m])
  {
    assert actions[..m] == actions[..k] + actions[k..m];
    RunAppend(START, actions[..k], actions[k..m]);
  }

  /** The moment of a claim: the k-th step made `pid` claim. */
  ghost predicate ClaimsAt(actions: seq<Action>, k: nat, id: Id, pid: Pid) {
    0 < k <= |actions| && pid !in Claims(After(actions, k - 1), id) && pid in Claims(After(actions, k), id)
  }

  lemma {:induction false} MomentOfClaim(actions: seq<Action>, n: nat, id: Id, pid: Pid) returns (k: nat)
    requires n <= |actions| && pid in Claims(After(actions, n), id)
    ensures k <= n && ClaimsAt(actions, k, id, pid)
    decreases n
  {
    if n == 0 {
      assert false;
    } else if pid in Claims(After(actions, n - 1), id) {
      k := MomentOfClaim(actions, n - 1, id, pid);
    } else {
      k := n;
    }
  }

  /** Of two claims of one id one comes first, and its marker was deleted between the two. */
  lemma BetweenTwoClaims(actions: seq<Action>, k: nat, m: nat, id: Id, i: Pid, j: Pid)
    requires i != j && ClaimsAt(actions, k, id, i) && ClaimsAt(actions, m, id, j) && k <= m
    ensures k < m && After(actions, k).unburned[id] < After(actions, m).unburned[id]
  {
    AfterSplit(actions, k - 1, k);
    var a := actions[k - 1];
    assert actions[k - 1..k] == [a] && [a][1..] == [];
    assert After(actions, k) == Step(After(actions, k - 1), a);
    ClaimLeavesMarker(After(actions, k - 1), a, id, i);
    if j in Claims(After(actions, k), id) {
      assert j in Claims(After(actions, k - 1), id);
      AfterSplit(actions, k - 1, m - 1);
      ClaimsStay(After(actions, k - 1), actions[k - 1..m - 1], id);
      assert false;
    }
    AfterSplit(actions, k, m);
    ClaimNeedsUnburning(After(actions, k), actions[k..m], id, j);
  }

  /** Two readers that were both given a burn-after-read paste: its marker was deleted between their claims. */
  lemma BetweenTwoDeliveries(actions: seq<Action>, id: Id, i: Pid, j: Pid) returns (k: nat, m: nat)
    requires i != j && i in Deliveries(Run(START, actions), id) && j in Deliveries(Run(START, actions), id)
    requires IsBurnAfterRead(Run(START, actions), id)
    ensures (ClaimsAt(actions, k, id, i) && ClaimsAt(actions, m, id, j))
            || (ClaimsAt(actions, k, id, j) && ClaimsAt(actions, m, id, i))
    ensures k < m <= |actions| && After(actions, k).unburned[id] < After(actions, m).unburned[id]
  {
    StartIsOk();
    RunKeepsInv(START, actions);
    DeliveriesAreClaims(Run(START, actions), id);
    assert actions[..|actions|] == actions;
    k := MomentOfClaim(actions, |actions|, id, i);
    m := MomentOfClaim(actions, |actions|, id, j);
    if k <= m {
      BetweenTwoClaims(actions, k, m, id, i, j);
    } else {
      BetweenTwoClaims(actions, m, k, id, j, i);
      k, m := m, k;
    }
  }

  /**
   After a delivery, or at any time while the marker stands: whoever has not claimed yet is given a burn-after-read
   paste only after another deletion of its marker.
   */
  lemma DeliveryNeedsUnburning(s: System, more: seq<Action>, id: Id, pid: Pid)
    requires Reachable(s) && id in s.bucket.burns && pid !in Claims(s, id)
    requires IsBurnAfterRead(Run(s, more), id) && pid in Deliveries(Run(s, more), id)
    ensures s.unburned[id] < Run(s, more).unburned[id]
  {
    ReachableIsOk(s);
    RunKeepsInv(s, more);
    DeliveriesAreClaims(Run(s, more), id);
    ClaimNeedsUnburning(s, more, id, pid);
  }

  // ------------------------------------------------------------------ single steps

  lemma RunOne(s: System, a: Action)
    ensures Run(s, [a]) == Step(s, a)
  {
    assert [a][1..] == [];
  }

  /** Every operation in the segment succeeds, at one instant. */
  predicate Calm(actions: seq<Action>, now: int) {
    forall a :: a in actions && a.Advance? ==> a.now == now && a.fault == NoFault
  }

  lemma PutTwice(s: System, pid: Pid, p: Process, p': Process, e: Effect)
    ensures Put(Apply(Put(s, pid, p), e), pid, p') == Put(Apply(s, e), pid, p')
  {
    assert s.procs[pid := p][pid := p'] == s.procs[pid := p'];
  }

  /** One more operation of the process `pid`, which the segment so far has brought to `p`. */
  lemma Moves(base: System, sofar: seq<Action>, s: System, pid: Pid, p: Process, p': Process, e: Effect, a: Action)
    returns (more: seq<Action>)
    requires Run(base, sofar) == Put(s, pid, p) && a.Advance? && a.pid == pid
    requires ProcessStep(s.bucket, p, a.now, a.fault) == (p', e)
    ensures more == sofar + [a] && Run(base, more) == Put(Apply(s, e), pid, p')
  {
    more := sofar + [a];
    RunOneMore(base, sofar, a);
    PutTwice(s, pid, p, p', e);
  }

  /** One operation of a process that is at `p`. */
  lemma MovesOn(s: System, pid: Pid, p: Process, p': Process, e: Effect, a: Action)
    requires pid in s.procs && s.procs[pid] == p && a.Advance? && a.pid == pid
    requires ProcessStep(s.bucket, p, a.now, a.fault) == (p', e)
    ensures Run(s, [a]) == Put(Apply(s, e), pid, p')
  {
    RunOne(s, a);
  }

  // ------------------------------------------------------------------ pieces of a race

  /** The paste is there with the object that holds its content, burns after reading, and carries no marker. */
  predicate Ready(s: System, id: Id) {
    && id in s.bucket.pastes && TargetOf(s, id) in s.bucket.pastes
    && s.bucket.pastes[id].meta.burnAfterRead && id !in s.bucket.burns
  }

  /** The paste whose object holds the content. */
  function TargetOf(s: System, id: Id): Id
    requires id in s.bucket.pastes
  {
    var meta := s.bucket.pastes[id].meta;
    if References(meta) then meta.references.value else id
  }

  function ExpiryOf(s: System, id: Id): int
    requires id in s.bucket.pastes
  {
    s.bucket.pastes[id].meta.expiresAt * SECOND
  }

  function Checking(s: System, id: Id): Process
    requires Ready(s, id)
  {
    Reader(id, CheckExpiry(s.bucket.pastes[id], TargetOf(s, id), s.bucket.pastes[TargetOf(s, id)].generation), false)
  }

  function Claiming(s: System, id: Id): Process
    requires Ready(s, id)
  {
    Reader(id, Claim(TargetOf(s, id), s.bucket.pastes[TargetOf(s, id)].generation), false)
  }

  /** A new reader gets past the marker while there is none. */
  lemma PassMarker(s: System, pid: Pid, id: Id, now: int) returns (more: seq<Action>)
    requires Ready(s, id) && pid !in s.procs
    ensures Run(s, more) == Put(s, pid, Checking(s, id)) && Calm(more, now)
  {
    var obj, step := s.bucket.pastes[id], Advance(pid, now, NoFault);
    var p0, p1 := Reader(id, ReadAttrs, false), Reader(id, CheckMarker(obj), false);
    var p2 := Reader(id, FollowReference(obj), false);
    RunOne(s, Read(pid, id));
    more := Moves(s, [Read(pid, id)], s, pid, p0, p1, Nothing, step);
    more := Moves(s, more, s, pid, p1, p2, Nothing, step);
    more := Moves(s, more, s, pid, p2, Checking(s, id), Nothing, step);
  }

  /** Until the paste expires, the new reader gets as far as the claim. */
  lemma PassExpiry(s: System, pid: Pid, id: Id, now: int) returns (more: seq<Action>)
    requires Ready(s, id) && pid !in s.procs && now <= ExpiryOf(s, id)
    ensures Run(s, more) == Put(s, pid, Claiming(s, id)) && Calm(more, now)
  {
    more := PassMarker(s, pid, id, now);
    more := Moves(s, more, s, pid, Checking(s, id), Claiming(s, id), Nothing, Advance(pid, now, NoFault));
  }

  /** A reader that wants this object's content has claimed the paste. */
  function Holding(id: Id, target: Id, generation: nat): Process {
    Reader(id, ReadContent(target, generation), true)
  }

  lemma Claims1(s: System, pid: Pid, id: Id, target: Id, g: nat, now: int)
    requires pid in s.procs && s.procs[pid] == Reader(id, Claim(target, g), false) && id !in s.bucket.burns
    ensures Run(s, [Advance(pid, now, NoFault)]) == Put(Apply(s, AddMarker(id)), pid, Holding(id, target, g))
  {
    MovesOn(s, pid, s.procs[pid], Holding(id, target, g), AddMarker(id), Advance(pid, now, NoFault));
  }

  function ServedWith(s: System, id: Id, target: Id): Process
    requires target in s.bucket.pastes
  {
    Reader(id, ReadReturned(Delivered(s.bucket.pastes[target].content)), true)
  }

  lemma Reads(s: System, pid: Pid, id: Id, target: Id, g: nat, now: int)
    requires pid in s.procs && s.procs[pid] == Holding(id, target, g)
    requires target in s.bucket.pastes && s.bucket.pastes[target].generation == g
    ensures Run(s, [Advance(pid, now, NoFault)]) == Put(s, pid, ServedWith(s, id, target))
  {
    MovesOn(s, pid, s.procs[pid], ServedWith(s, id, target), Nothing, Advance(pid, now, NoFault));
  }

  /** A whole DeletePaste. */
  lemma Deletes(s: System, pid: Pid, id: Id, now: int) returns (more: seq<Action>)
    requires pid !in s.procs && id in s.written
    ensures Run(s, more)
         == Put(Apply(Apply(s, RemovePaste(id)), RemoveMarker(id)), pid, Deleter(id, DeleteReturned(true)))
    ensures Calm(more, now)
  {
    var p0, p1, p2 := Deleter(id, DeleteContent), Deleter(id, DeleteMarker), Deleter(id, DeleteReturned(true));
    var step := Advance(pid, now, NoFault);
    RunOne(s, Delete(pid, id));
    more := Moves(s, [Delete(pid, id)], s, pid, p0, p1, RemovePaste(id), step);
    more := Moves(s, more, Apply(s, RemovePaste(id)), pid, p1, p2, RemoveMarker(id), step);
  }

  /** The cleanup of an expired paste that fails to delete the content, and deletes the marker all the same. */
  function CleanupSteps(pid: Pid, now: int): seq<Action> {
    [Advance(pid, now, NoFault), Advance(pid, now, Refused), Advance(pid, now, NoFault)]
  }

  lemma CleanupFails(s: System, pid: Pid, id: Id, obj: Object, g: nat, now: int)
    requires pid in s.procs && s.procs[pid] == Reader(id, CheckExpiry(obj, id, g), false)
    requires id in s.bucket.pastes && now > obj.meta.expiresAt * SECOND
    ensures var t := Run(s, CleanupSteps(pid, now));
            t == Put(Apply(Apply(s, LeaveBehind(id)), RemoveMarker(id)), pid, Reader(id, ReadReturned(NotFound), false))
  {
    var p1, p2 := Reader(id, DropContent(id), false), Reader(id, DropMarker, false);
    var look, fail := Advance(pid, now, NoFault), Advance(pid, now, Refused);
    MovesOn(s, pid, s.procs[pid], p1, Nothing, look);
    var more := Moves(s, [look], s, pid, p1, p2, LeaveBehind(id), fail);
    more := Moves(s, more, Apply(s, LeaveBehind(id)), pid, p2, Reader(id, ReadReturned(NotFound), false),
                  RemoveMarker(id), look);
    assert more == CleanupSteps(pid, now);
  }

  // ------------------------------------------------------------------ a reference is delivered twice

  predicate Distinct(i: Pid, j: Pid, k: Pid) { i != j && i != k && j != k }

  /** Two readers claim in turn, with a deletion of the paste between the claims; nobody has read yet. */
  lemma OvertakenClaims(s: System, id: Id, now: int, i: Pid, j: Pid, k: Pid) returns (more: seq<Action>)
    requires Ready(s, id) && id in s.written && TargetOf(s, id) != id && now <= ExpiryOf(s, id)
    requires Distinct(i, j, k) && i !in s.procs && j !in s.procs && k !in s.procs
    ensures Calm(more, now)
    ensures var t, target := Run(s, more), TargetOf(s, id);
            && target in t.bucket.pastes && t.written == s.written
            && i in t.procs && j in t.procs
            && t.procs[i] == t.procs[j] == Holding(id, target, t.bucket.pastes[target].generation)
  {
    var target := TargetOf(s, id);
    var g := s.bucket.pastes[target].generation;
    var a1 := PassExpiry(s, i, id, now);
    var s1 := Run(s, a1);
    var a2 := PassExpiry(s1, j, id, now);
    var s2 := Run(s1, a2);
    Claims1(s2, i, id, target, g, now);
    var s3 := Run(s2, [Advance(i, now, NoFault)]);
    var a4 := Deletes(s3, k, id, now);
    var s4 := Run(s3, a4);
    Claims1(s4, j, id, target, g, now);
    RunAppend(s, a1, a2);
    RunAppend(s, a1 + a2, [Advance(i, now, NoFault)]);
    RunAppend(s, a1 + a2 + [Advance(i, now, NoFault)], a4);
    RunAppend(s, a1 + a2 + [Advance(i, now, NoFault)] + a4, [Advance(j, now, NoFault)]);
    more := a1 + a2 + [Advance(i, now, NoFault)] + a4 + [Advance(j, now, NoFault)];
  }

  /**
   From every state in which a reference paste is ready, without any fault and at any instant before it expires, two
   readers are given it, and no marker is deleted between the two deliveries: the first claim was overtaken.
   */
  lemma OvertakenDeliveries(s: System, id: Id, now: int, i: Pid, j: Pid, k: Pid)
    returns (before: seq<Action>, between: seq<Action>)
    requires Reachable(s) && Ready(s, id) && !BearsContent(s, id) && now <= ExpiryOf(s, id)
    requires Distinct(i, j, k) && i !in s.procs && j !in s.procs && k !in s.procs
    ensures Calm(before + between, now)
    ensures var u, t := Run(s, before), Run(s, before + between);
            && i in Deliveries(u, id) && j !in Deliveries(u, id)
            && i in Deliveries(t, id) && j in Deliveries(t, id)
            && u.unburned[id] == t.unburned[id]
  {
    ReachableIsOk(s);
    assert WrittenOk(s, id) && References(s.bucket.pastes[id].meta);
    var target := TargetOf(s, id);
    var claimed := OvertakenClaims(s, id, now, i, j, k);
    var c := Run(s, claimed);
    Reads(c, i, id, target, c.bucket.pastes[target].generation, now);
    before := claimed + [Advance(i, now, NoFault)];
    RunAppend(s, claimed, [Advance(i, now, NoFault)]);
    var u := Run(s, before);
    Reads(u, j, id, target, u.bucket.pastes[target].generation, now);
    between := [Advance(j, now, NoFault)];
    RunAppend(s, before, between);
  }

  // ------------------------------------------------------------------ own content is, after a failed cleanup

  /** Two readers at the claim and a third about to check the expiry; the first claims and reads. */
  lemma FirstIsServed(s: System, id: Id, now: int, i: Pid, j: Pid, k: Pid) returns (more: seq<Action>)
    requires Ready(s, id) && TargetOf(s, id) == id && now <= ExpiryOf(s, id)
    requires Distinct(i, j, k) && i !in s.procs && j !in s.procs && k !in s.procs
    ensures Calm(more, now)
    ensures var t := Run(s, more);
            && t.bucket.pastes == s.bucket.pastes
            && i in t.procs && j in t.procs && k in t.procs
            && t.procs[i] == ServedWith(s, id, id) && t.procs[j] == Claiming(s, id) && t.procs[k] == Checking(s, id)
  {
    var g := s.bucket.pastes[id].generation;
    var a1 := PassExpiry(s, i, id, now);
    var s1 := Run(s, a1);
    var a2 := PassExpiry(s1, j, id, now);
    var s2 := Run(s1, a2);
    var a3 := PassMarker(s2, k, id, now);
    var s3 := Run(s2, a3);
    Claims1(s3, i, id, id, g, now);
    var step := [Advance(i, now, NoFault)];
    Reads(Run(s3, step), i, id, id, g, now);
    RunAppend(s, a1, a2);
    RunAppend(s, a1 + a2, a3);
    RunAppend(s, a1 + a2 + a3, step);
    RunAppend(s, a1 + a2 + a3 + step, step);
    more := a1 + a2 + a3 + step + step;
  }

  /** The instants at which the operations of a run are taken never decrease, and begin no earlier than `start`. */
  predicate ClockRuns(actions: seq<Action>, start: int) {
    && (forall i :: 0 <= i < |actions| && actions[i].Advance? ==> start <= actions[i].now)
    && (forall i, j :: 0 <= i < j < |actions| && actions[i].Advance? && actions[j].Advance?
          ==> actions[i].now <= actions[j].now)
  }

  lemma ClockRunsOn(first: seq<Action>, second: seq<Action>, start: int, later: int)
    requires Calm(first, start) && start <= later
    requires forall a :: a in second && a.Advance? ==> a.now == later
    ensures ClockRuns(first + second, start)
  {
    var all := first + second;
    forall i | 0 <= i < |all| && all[i].Advance?
      ensures all[i].now == if i < |first| then start else later
    {
      if i < |first| { assert all[i] in first; } else { assert all[i] in second; }
    }
  }

  lemma ClaimAndRead(s: System, id: Id, g: nat, j: Pid, now: int)
    requires j in s.procs && s.procs[j] == Reader(id, Claim(id, g), false) && id !in s.bucket.burns
    requires id in s.bucket.pastes && s.bucket.pastes[id].generation == g
    ensures var step := [Advance(j, now, NoFault)];
            Run(s, step + step) == Put(Apply(s, AddMarker(id)), j, ServedWith(s, id, id))
  {
    var step := [Advance(j, now, NoFault)];
    var s1 := Put(Apply(s, AddMarker(id)), j, Holding(id, id, g));
    Claims1(s, j, id, id, g, now);
    Reads(s1, j, id, id, g, now);
    RunAppend(s, step, step);
    PutTwice(Apply(s, AddMarker(id)), j, Holding(id, id, g), ServedWith(s, id, id), Nothing);
  }

  /** After the first delivery, the failed cleanup at the expiry lets the second reader claim and read. */
  lemma LateSteps(s: System, id: Id, obj: Object, late: int, i: Pid, j: Pid, k: Pid)
    requires Distinct(i, j, k) && i in s.procs && j in s.procs && k in s.procs
    requires id in s.bucket.pastes && s.bucket.pastes[id] == obj && late > obj.meta.expiresAt * SECOND
    requires HasDelivered(s.procs[i], id) && s.procs[j] == Reader(id, Claim(id, obj.generation), false)
    requires s.procs[k] == Reader(id, CheckExpiry(obj, id, obj.generation), false)
    ensures var step := [Advance(j, late, NoFault)];
            var t := Run(s, CleanupSteps(k, late) + (step + step));
            i in Deliveries(t, id) && j in Deliveries(t, id)
  {
    var step := [Advance(j, late, NoFault)];
    CleanupFails(s, k, id, obj, obj.generation, late);
    RunAppend(s, CleanupSteps(k, late), step + step);
    ClaimAndRead(Run(s, CleanupSteps(k, late)), id, obj.generation, j, late);
  }

  /** The n-th step is refused, and nothing else fails. */
  predicate OneRefusal(actions: seq<Action>, n: nat) {
    && n < |actions|
    && forall m :: 0 <= m < |actions| && actions[m].Advance? ==> actions[m].fault == if m == n then Refused else NoFault
  }

  /**
   From every state in which a paste with its own content is ready, and before it expires: two readers are given it,
   with a clock that never goes back, and one single fault, the refused delete of a cleanup.
   */
  lemma LeftBehindDeliveries(s: System, id: Id, now: int, i: Pid, j: Pid, k: Pid) returns (more: seq<Action>)
    requires Ready(s, id) && TargetOf(s, id) == id && now <= ExpiryOf(s, id)
    requires Distinct(i, j, k) && i !in s.procs && j !in s.procs && k !in s.procs
    ensures ClockRuns(more, now)
    ensures exists n: nat :: OneRefusal(more, n)
    ensures i in Deliveries(Run(s, more), id) && j in Deliveries(Run(s, more), id)
  {
    var obj := s.bucket.pastes[id];
    var late := obj.meta.expiresAt * SECOND + 1;
    var first := FirstIsServed(s, id, now, i, j, k);
    var step := [Advance(j, late, NoFault)];
    var second := CleanupSteps(k, late) + (step + step);
    LateSteps(Run(s, first), id, obj, late, i, j, k);
    RunAppend(s, first, second);
    more := first + second;
    ClockRunsOn(first, second, now, late);
    forall m | 0 <= m < |more| && more[m].Advance?
      ensures more[m].fault == if m == |first| + 1 then Refused else NoFault
    {
      if m < |first| { assert more[m] in first; } else { assert more[m] == second[m - |first|]; }
    }
    assert OneRefusal(more, |first| + 1);
  }

  // ------------------------------------------------------------------ exactly when

  lemma {:induction false} FailuresAreRefusals(s: System, actions: seq<Action>, id: Id, n: nat)
    requires forall m :: 0 <= m < |actions| && m != n && actions[m].Advance? ==> actions[m].fault != Refused
    ensures FailedCleanups(s, actions, id) <= if n < |actions| then 1 else 0
    decreases |actions|
  {
    if actions != [] {
      var rest := actions[1..];
      assert forall m :: 0 <= m < |rest| ==> rest[m] == actions[m + 1];
      if n == 0 {
        FailuresAreRefusals(Step(s, actions[0]), rest, id, |rest|);
      } else {
        FailuresAreRefusals(Step(s, actions[0]), rest, id, n - 1);
      }
    }
  }

  /** Some continuation, under a clock that never goes back, delivers the paste twice with so few failed cleanups. */
  ghost predicate TwiceWithin(s: System, id: Id, now: int, failures: nat) {
    exists more :: DeliversTwice(s, more, id, now, failures)
  }

  ghost predicate DeliversTwice(s: System, more: seq<Action>, id: Id, now: int, failures: nat) {
    ClockRuns(more, now) && FailedCleanups(s, more, id) <= failures && |Deliveries(Run(s, more), id)| >= 2
  }

  lemma TwoOf(s: System, id: Id, i: Pid, j: Pid)
    requires i != j && i in Deliveries(s, id) && j in Deliveries(s, id)
    ensures |Deliveries(s, id)| >= 2
  {
    SubsetIsSmaller({i, j}, Deliveries(s, id));
  }

  lemma ReferenceTwice(s: System, id: Id, now: int, i: Pid, j: Pid, k: Pid)
    requires Reachable(s) && Ready(s, id) && !BearsContent(s, id) && now <= ExpiryOf(s, id)
    requires Distinct(i, j, k) && i !in s.procs && j !in s.procs && k !in s.procs
    ensures TwiceWithin(s, id, now, 0)
  {
    var before, between := OvertakenDeliveries(s, id, now, i, j, k);
    var more := before + between;
    TwoOf(Run(s, more), id, i, j);
    ClockRunsOn(more, [], now, now);
    assert more + [] == more;
    assert NothingRefused(more);
    NothingRefusedNothingFails(s, more, id);
    assert DeliversTwice(s, more, id, now, 0);
  }

  lemma OwnContentTwice(s: System, id: Id, now: int, i: Pid, j: Pid, k: Pid)
    requires Ready(s, id) && TargetOf(s, id) == id && now <= ExpiryOf(s, id)
    requires Distinct(i, j, k) && i !in s.procs && j !in s.procs && k !in s.procs
    ensures TwiceWithin(s, id, now, 1)
  {
    var more := LeftBehindDeliveries(s, id, now, i, j, k);
    TwoOf(Run(s, more), id, i, j);
    var n: nat :| OneRefusal(more, n);
    FailuresAreRefusals(s, more, id, n);
    assert DeliversTwice(s, more, id, now, 1);
  }

  /** Without a failed cleanup a paste with its own content is never delivered twice. */
  lemma NotTwiceUnfailed(s: System, more: seq<Action>, id: Id)
    requires Reachable(s) && id in s.bucket.pastes && s.bucket.pastes[id].meta.burnAfterRead && BearsContent(s, id)
    requires id !in s.leftBehind && FailedCleanups(s, more, id) == 0
    ensures |Deliveries(Run(s, more), id)| <= 1
  {
    ReachableIsOk(s);
    RunGrows(s, more);
    LeftBehindByFailure(s, more, id);
    assert IdOk(Run(s, more), id);
  }

  /**
   When at-most-once delivery fails. Let a burn-after-read paste be ready in a state reached without a failed cleanup
   of it, and not expired. However few processes there are, however many failed cleanups are allowed, it can be
   delivered twice if and only if it is a reference, or at least one cleanup of it may fail.
   */
  lemma DeliveredTwiceExactly(actions: seq<Action>, id: Id, now: int, failures: nat)
    requires Ready(Run(START, actions), id) && FailedCleanups(START, actions, id) == 0
    requires now <= ExpiryOf(Run(START, actions), id)
    ensures var s := Run(START, actions); TwiceWithin(s, id, now, failures) <==> !BearsContent(s, id) || failures >= 1
  {
    var s := Run(START, actions);
    assert Reachable(s);
    ReachableIsOk(s);
    LeftBehindByFailure(START, actions, id);
    var i, j, k := FreshPids(s.procs.Keys);
    if !BearsContent(s, id) {
      ReferenceTwice(s, id, now, i, j, k);
    } else if failures >= 1 {
      OwnContentTwice(s, id, now, i, j, k);
    } else if TwiceWithin(s, id, now, failures) {
      var more :| DeliversTwice(s, more, id, now, failures);
      NotTwiceUnfailed(s, more, id);
    }
    MoreFailuresAllow(s, id, now, failures);
  }

  lemma MoreFailuresAllow(s: System, id: Id, now: int, failures: nat)
    ensures TwiceWithin(s, id, now, 0) ==> TwiceWithin(s, id, now, failures)
    ensures failures >= 1 && TwiceWithin(s, id, now, 1) ==> TwiceWithin(s, id, now, failures)
  {
    if TwiceWithin(s, id, now, 0) {
      var more :| DeliversTwice(s, more, id, now, 0);
      assert DeliversTwice(s, more, id, now, failures);
    }
    if failures >= 1 && TwiceWithin(s, id, now, 1) {
      var more :| DeliversTwice(s, more, id, now, 1);
      assert DeliversTwice(s, more, id, now, failures);
    }
  }

  /** There is always room for another process. */
  lemma {:induction false} Above(pids: set<Pid>) returns (n: Pid)
    ensures forall pid :: pid in pids ==> pid < n
  {
    n := 0;
    if pids != {} {
      var x :| x in pids;
      var m := Above(pids - {x});
      n := if m <= x then x + 1 else m;
      forall pid | pid in pids ensures pid < n { if pid != x { assert pid in pids - {x}; } }
    }
  }

  lemma FreshPids(pids: set<Pid>) returns (i: Pid, j: Pid, k: Pid)
    ensures Distinct(i, j, k) && i !in pids && j !in pids && k !in pids
  {
    i := Above(pids);
    j, k := i + 1, i + 2;
  }

  // ------------------------------------------------------------------ such states are reached

  /** The system with a new draft. */
  function Drafted(s: System, id: Id, draft: Draft): System {
    s.(drafts := s.drafts[id := draft])
  }

  function WriteOf(id: Id, draft: Draft, existing: Id): Effect {
    if existing != "" then WritePaste(id, "", Meta(draft.expiresAt, draft.burnAfterRead, Some(existing)))
    else WritePaste(id, draft.content, Meta(draft.expiresAt, draft.burnAfterRead, None))
  }

  /** A whole SavePaste of an encrypted paste that nobody has banned, as far as its write. */
  lemma SaveWrites(s: System, pid: Pid, id: Id, draft: Draft, now: int) returns (more: seq<Action>)
    requires pid !in s.procs && id !in s.drafts
    requires draft.upload.Encrypted? && CiphertextBan(Sha256(draft.content)) !in s.bucket.banned
    ensures var h := Sha256(draft.content);
            var existing := if h in s.bucket.hashes then s.bucket.hashes[h] else "";
            Run(s, more) == Put(Apply(Drafted(s, id, draft), WriteOf(id, draft, existing)), pid,
                                Saver(id, draft, if existing != "" then SaveReturned(Saved) else SaveIndex))
    ensures Calm(more, now)
  {
    var h := Sha256(draft.content);
    var existing := if h in s.bucket.hashes then s.bucket.hashes[h] else "";
    var d, step := Drafted(s, id, draft), Advance(pid, now, NoFault);
    var p0, p1 := Saver(id, draft, SaveCheckContent), Saver(id, draft, SaveLookup);
    var p2 := Saver(id, draft, SaveWrite(existing));
    var p3 := Saver(id, draft, if existing != "" then SaveReturned(Saved) else SaveIndex);
    RunOne(s, Save(pid, id, draft));
    more := Moves(s, [Save(pid, id, draft)], d, pid, p0, p1, Nothing, step);
    more := Moves(s, more, d, pid, p1, p2, Nothing, step);
    more := Moves(s, more, d, pid, p2, p3, WriteOf(id, draft, existing), step);
  }

  /** A whole SavePaste of content that is not indexed yet, with its index entry. */
  lemma SaveRuns(s: System, pid: Pid, id: Id, draft: Draft, now: int) returns (more: seq<Action>)
    requires pid !in s.procs && id !in s.drafts && Sha256(draft.content) !in s.bucket.hashes
    requires draft.upload.Encrypted? && CiphertextBan(Sha256(draft.content)) !in s.bucket.banned
    ensures var h := Sha256(draft.content);
            Run(s, more) == Put(Apply(Apply(Drafted(s, id, draft), WriteOf(id, draft, "")), IndexPaste(h, id)), pid,
                                Saver(id, draft, SaveReturned(Saved)))
    ensures Calm(more, now)
  {
    var h := Sha256(draft.content);
    var w := Apply(Drafted(s, id, draft), WriteOf(id, draft, ""));
    more := SaveWrites(s, pid, id, draft, now);
    more := Moves(s, more, w, pid, Saver(id, draft, SaveIndex), Saver(id, draft, SaveReturned(Saved)),
                  IndexPaste(h, id), Advance(pid, now, NoFault));
  }

  /** Every paste that burns after reading is ready once it is saved, whatever it is saved with. */
  lemma OwnContentGetsReady(id: Id, draft: Draft, now: int) returns (actions: seq<Action>)
    requires draft.upload.Encrypted? && draft.burnAfterRead
    ensures Calm(actions, now)
    ensures var s := Run(START, actions);
            Ready(s, id) && BearsContent(s, id) && ExpiryOf(s, id) == draft.expiresAt * SECOND
  {
    actions := SaveRuns(START, 0, id, draft, now);
  }

  /** A second save of the same content makes a reference. */
  lemma ReferenceGetsReady(first: Id, id: Id, draft: Draft, now: int) returns (actions: seq<Action>)
    requires draft.upload.Encrypted? && draft.burnAfterRead && first != id && first != ""
    ensures Calm(actions, now)
    ensures var s := Run(START, actions);
            Ready(s, id) && !BearsContent(s, id) && ExpiryOf(s, id) == draft.expiresAt * SECOND
  {
    var a1 := SaveRuns(START, 0, first, draft, now);
    var s1 := Run(START, a1);
    var a2 := SaveWrites(s1, 1, id, draft, now);
    RunAppend(START, a1, a2);
    actions := a1 + a2;
  }
}
