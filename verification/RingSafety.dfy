/** Every step keeps the ring's invariant, so every reachable state has it. */
module RingSafety {
  import opened Wrappers
  import opened RingProtocol

  /** Sequences less than a ring apart never share a slot. */
  lemma SlotsDiffer(a: int, b: int, size: int)
    requires size > 0 && a < b < a + size
    ensures SlotOf(a, size) != SlotOf(b, size)
  {
    if SlotOf(a, size) == SlotOf(b, size) {
      MultipleOfSize(b / size - a / size, size);
    }
  }

  lemma MultipleOfSize(k: int, size: int)
    requires size > 0
    ensures k * size <= 0 || k * size >= size
  {
  }

  lemma WriteKeepsOthers<E>(s: State<E>, q: int, slot: Slot<E>)
    requires s.size > 0 && |s.slots| == s.size && 0 <= q < |s.published|
    requires |s.published| - s.size < q && Holds(s, q)
    ensures s.slots[SlotOf(|s.published|, s.size) := slot][SlotOf(q, s.size)] == Full(s.published[q])
  {
    SlotsDiffer(q, |s.published|, s.size);
  }

  lemma ProducerStepsKeepInv<E>(s: State<E>, step: Step<E>)
    requires Inv(s) && CanTake(s, step)
    requires step.Request? || step.Find? || step.StartScan? || step.Publish?
    ensures Inv(Take(s, step))
  {
    var t := Take(s, step);
    forall q | Retained(t, q) ensures Holds(t, q) {
      assert Retained(s, q);
    }
    forall id | id in t.peers ensures PeerInv(t, t.peers[id]) {
      assert PeerInv(s, s.peers[id]);
    }
  }

  lemma LoadKeepsInv<E>(s: State<E>, step: Step<E>)
    requires Inv(s) && CanTake(s, step) && step.Load?
    ensures Inv(Take(s, step))
  {
    assert PeerInv(s, s.peers[step.id]);
    OnlyPhase(s, Take(s, step));
  }

  /** A change of phase alone touches neither slots nor consumers. */
  lemma OnlyPhase<E>(s: State<E>, t: State<E>)
    requires Inv(s) && t == s.(phase := t.phase) && !BeingWritten(t)
    requires forall q :: Retained(t, q) ==> Retained(s, q)
    ensures SlotsInv(t) && forall id :: id in t.peers ==> PeerInv(t, t.peers[id])
  {
    forall q | Retained(t, q) ensures Holds(t, q) {
      assert Retained(s, q);
    }
    forall id | id in t.peers ensures PeerInv(t, t.peers[id]) {
      assert PeerInv(s, s.peers[id]);
    }
  }

  /** The reported minimum is no more than any tracked cursor, however stale the loads were. */
  lemma RearBoundsCursors<E>(s: State<E>)
    requires Inv(s) && s.phase.Scanning? && s.phase.todo == {}
    ensures var rear := Rear(s);
            -1 <= rear <= s.cursor
            && (s.mode.Enabled? && s.discovered == {} ==> rear == -1)
            && forall id :: id in s.discovered ==> rear <= s.peers[id].cursor
  {
    if s.phase.min.None? {
      assert s.discovered == {};
    }
  }

  lemma RefusalKeepsInv<E>(s: State<E>, t: State<E>)
    requires Inv(s) && s.phase.Scanning? && t == s.(phase := Idle)
    ensures Inv(t)
  {
    forall q | Retained(t, q) ensures Holds(t, q) {
      assert Retained(s, q);
    }
    forall id | id in t.peers ensures PeerInv(t, t.peers[id]) {
      assert PeerInv(s, s.peers[id]);
    }
  }

  lemma DecideKeepsInv<E>(s: State<E>, t: State<E>)
    requires Inv(s) && CanTake(s, Decide) && t == Take(s, Decide)
    ensures Inv(t)
  {
    var free := FreeSlots(s.size, s.sequence - 1, Rear(s));
    if free < s.phase.n {
      RefusalKeepsInv(s, t);
    } else {
      RearBoundsCursors(s);
      GrantKeepsInv(s, s.sequence - 1 + free, t);
    }
  }

  /** Moving the clearance up keeps a peer's part, given that being left behind is recorded. */
  lemma GrantedPeerInv<E>(s: State<E>, t: State<E>, p: Peer<E>)
    requires PeerInv(s, p) && t.size == s.size && t.cursor == s.cursor && t.published == s.published
    requires s.clear <= t.clear
    ensures PeerInv(t, p.(lapped := p.lapped || t.clear > p.cursor + s.size))
  {
    var q := p.(lapped := p.lapped || t.clear > p.cursor + s.size);
    assert Position(q) == Position(p) && LogShape(q);
  }

  lemma GrantKeepsPeers<E>(s: State<E>, clear: int, upper: int, t: State<E>)
    requires Inv(s) && s.clear <= clear && t == Grant(s, clear, upper)
    ensures forall id :: id in t.peers ==> PeerInv(t, t.peers[id])
  {
    forall id | id in t.peers ensures PeerInv(t, t.peers[id]) {
      assert PeerInv(s, s.peers[id]);
      GrantedPeerInv(s, t, s.peers[id]);
    }
  }

  lemma GrantKeepsRing<E>(s: State<E>, clear: int, t: State<E>)
    requires ProducerInv(s) && SlotsInv(s) && s.phase.Scanning? && t == Grant(s, clear, s.sequence - 1 + s.phase.n)
    requires s.sequence - 1 + s.phase.n <= clear <= s.cursor + s.size
    requires s.mode.Enabled? && s.discovered == {} ==> clear == s.size - 1
    ensures ProducerInv(t) && ScanInv(t) && SlotsInv(t)
  {
    assert t.peers.Keys == s.peers.Keys;
    forall q | Retained(t, q) ensures Holds(t, q) {
      assert Retained(s, q);
    }
  }

  lemma GrantKeepsInv<E>(s: State<E>, clear: int, t: State<E>)
    requires Inv(s) && s.phase.Scanning? && t == Grant(s, clear, s.sequence - 1 + s.phase.n)
    requires s.sequence - 1 + s.phase.n <= clear <= s.cursor + s.size
    requires s.mode.Enabled? && s.discovered == {} ==> clear == s.size - 1
    ensures Inv(t)
  {
    GrantKeepsRing(s, clear, t);
    GrantKeepsPeers(s, clear, s.sequence - 1 + s.phase.n, t);
  }

  lemma WriteKeepsInv<E>(s: State<E>, step: Step<E>)
    requires Inv(s) && CanTake(s, step) && (step.BeginWrite? || step.FinishWrite?)
    ensures Inv(Take(s, step))
  {
    var t := Take(s, step);
    forall q | Retained(t, q) ensures Holds(t, q) {
      if q < |s.published| {
        assert Retained(s, q);
        WriteKeepsOthers(s, q, t.slots[SlotOf(|s.published|, s.size)]);
      }
    }
    forall id | id in t.peers ensures PeerInv(t, t.peers[id]) {
      assert PeerInv(s, s.peers[id]);
    }
  }

  /** A sequence in the window of a consumer that was never lapped is still in the ring. */
  lemma WindowRetained<E>(s: State<E>, p: Peer<E>, q: int)
    requires ProducerInv(s) && PeerInv(s, p) && !p.lapped && p.cursor < q <= s.cursor
    ensures Retained(s, q)
  {
  }

  lemma PeerUpdateKeepsRing<E>(s: State<E>, t: State<E>, id: Id, p: Peer<E>)
    requires ProducerInv(s) && ScanInv(s) && SlotsInv(s) && t == s.(peers := s.peers[id := p])
    requires id in s.peers ==> s.peers[id].cursor <= p.cursor
    ensures ProducerInv(t) && ScanInv(t) && SlotsInv(t)
  {
    forall q | Retained(t, q) ensures Holds(t, q) {
      assert Retained(s, q);
    }
  }

  lemma PeerUpdateKeepsInv<E>(s: State<E>, id: Id, p: Peer<E>)
    requires Inv(s) && PeerInv(s, p)
    requires id in s.peers ==> s.peers[id].cursor <= p.cursor
    ensures Inv(s.(peers := s.peers[id := p]))
  {
    var t := s.(peers := s.peers[id := p]);
    PeerUpdateKeepsRing(s, t, id, p);
    forall other | other in t.peers ensures PeerInv(t, t.peers[other]) {
      if other != id {
        assert PeerInv(s, s.peers[other]);
      } else {
        assert PeerInv(t, p);
      }
    }
  }

  lemma AttachedPeerInv<E>(s: State<E>, id: Id)
    requires Inv(s) && CanTake(s, Attach(id))
    ensures PeerInv(s, Attached(s, id))
  {
    if id in s.peers {
      assert PeerInv(s, s.peers[id]);
    }
  }

  lemma DeliveredShape<E>(s: State<E>, p: Peer<E>, d: Delivery<E>)
    requires PeerInv(s, p) && p.live.Some? && d.seqNo == p.live.value.next
    ensures LogShape(p.(log := p.log + [d], live := Some(p.live.value.(next := d.seqNo + 1))))
  {
    var log := p.log + [d];
    assert log[..|p.log|] == p.log;
    if p.log != [] {
      assert p.log[|p.log| - 1].seqNo >= d.seqNo - 1;
      assert NoSkipAt(log, |p.log|);
    }
    forall k | 1 <= k < |p.log| ensures NoSkipAt(log, k) {
      assert NoSkipAt(p.log, k);
    }
  }

  /** A consumer that was never lapped is handed the published event. */
  lemma DeliveredSafe<E>(s: State<E>, p: Peer<E>)
    requires ProducerInv(s) && SlotsInv(s) && PeerInv(s, p) && !p.lapped
    requires p.live.Some? && p.cursor < p.live.value.next <= s.cursor
    ensures SafePeer(s, Delivered(s, p))
  {
    WindowRetained(s, p, p.live.value.next);
    assert Holds(s, p.live.value.next);
  }

  lemma DeliveredPeerInv<E>(s: State<E>, p: Peer<E>)
    requires ProducerInv(s) && SlotsInv(s) && PeerInv(s, p) && p.live.Some?
    requires p.live.value.upper.Some? && p.live.value.next <= p.live.value.upper.value
    ensures PeerInv(s, Delivered(s, p))
  {
    var next := p.live.value.next;
    var d := Delivery(next, s.slots[SlotOf(next, s.size)]);
    DeliveredShape(s, p, d);
    DeliveredReader(s, p, d);
    if !p.lapped {
      DeliveredSafe(s, p);
    }
  }

  lemma DeliveredReader<E>(s: State<E>, p: Peer<E>, d: Delivery<E>)
    requires p.live.Some? && ReaderInv(s, p, p.live.value) && d.seqNo == p.live.value.next
    requires p.live.value.upper.Some? && d.seqNo <= p.live.value.upper.value
    ensures var p' := p.(log := p.log + [d], live := Some(p.live.value.(next := d.seqNo + 1)));
            ReaderInv(s, p', p'.live.value)
  {
  }

  lemma SnapshotPeerInv<E>(s: State<E>, id: Id, upper: int)
    requires Inv(s) && CanTake(s, Snapshot(id, upper))
    ensures PeerInv(s, Take(s, Snapshot(id, upper)).peers[id])
  {
    var p := s.peers[id];
    assert PeerInv(s, p);
    SnappedPeerInv(s, p, Take(s, Snapshot(id, upper)).peers[id], upper);
  }

  lemma SnappedPeerInv<E>(s: State<E>, p: Peer<E>, p': Peer<E>, upper: int)
    requires ProducerInv(s) && PeerInv(s, p) && p.live.Some? && p.live.value.upper.None?
    requires p.live.value.last < upper <= s.cursor && p' == p.(live := Some(p.live.value.(upper := Some(upper))))
    ensures PeerInv(s, p')
  {
    assert Position(p') == Position(p);
    assert LogShape(p');
  }

  lemma CommitPeerInv<E>(s: State<E>, id: Id)
    requires Inv(s) && CanTake(s, Commit(id))
    ensures PeerInv(s, Take(s, Commit(id)).peers[id])
  {
    var p := s.peers[id];
    assert PeerInv(s, p);
    var p' := Take(s, Commit(id)).peers[id];
    assert p'.log == p.log && Position(p') == Position(p) && p'.cursor >= p.cursor;
    assert LogShape(p');
  }

  lemma CrashPeerInv<E>(s: State<E>, id: Id)
    requires Inv(s) && CanTake(s, Crash(id))
    ensures PeerInv(s, Take(s, Crash(id)).peers[id])
  {
    var p := s.peers[id];
    assert PeerInv(s, p);
    CrashedPeerInv(s, p, Take(s, Crash(id)).peers[id]);
  }

  lemma CrashedPeerInv<E>(s: State<E>, p: Peer<E>, p': Peer<E>)
    requires ProducerInv(s) && PeerInv(s, p) && p.live.Some?
    requires p' == p.(live := None, crashes := p.crashes + 1)
    ensures PeerInv(s, p')
  {
    assert LogShape(p');
    if !p.lapped {
      assert Position(p) <= p'.cursor + 1 + s.size;
    }
  }

  lemma PeerStepKeepsInv<E>(s: State<E>, step: Step<E>, id: Id)
    requires Inv(s) && CanTake(s, step)
    requires (step.Snapshot? && step.id == id) || step == Commit(id) || step == Crash(id)
    ensures Inv(Take(s, step))
  {
    assert PeerInv(s, s.peers[id]);
    if step.Crash? {
      CrashPeerInv(s, id);
    } else if step.Snapshot? {
      SnapshotPeerInv(s, id, step.upper);
    } else {
      CommitPeerInv(s, id);
    }
    PeerUpdateKeepsInv(s, id, Take(s, step).peers[id]);
  }

  lemma DeliverKeepsInv<E>(s: State<E>, id: Id)
    requires Inv(s) && CanTake(s, Deliver(id))
    ensures Inv(Take(s, Deliver(id)))
  {
    assert PeerInv(s, s.peers[id]);
    DeliveredPeerInv(s, s.peers[id]);
    PeerUpdateKeepsInv(s, id, Delivered(s, s.peers[id]));
  }

  lemma StepKeepsInv<E>(s: State<E>, step: Step<E>)
    requires Inv(s) && CanTake(s, step)
    ensures Inv(Take(s, step))
  {
    match step
    case Load(_) => LoadKeepsInv(s, step);
    case Decide => DecideKeepsInv(s, Take(s, step));
    case BeginWrite => WriteKeepsInv(s, step);
    case FinishWrite(_) => WriteKeepsInv(s, step);
    case Attach(id) => AttachedPeerInv(s, id); PeerUpdateKeepsInv(s, id, Attached(s, id));
    case Snapshot(id, _) => PeerStepKeepsInv(s, step, id);
    case Deliver(id) => DeliverKeepsInv(s, id);
    case Commit(id) => PeerStepKeepsInv(s, step, id);
    case Crash(id) => PeerStepKeepsInv(s, step, id);
    case _ => ProducerStepsKeepInv(s, step);
  }

  lemma {:induction false} RunKeepsInv<E>(s: State<E>, steps: seq<Step<E>>)
    requires Inv(s) && IsRun(s, steps)
    ensures Inv(After(s, steps))
    decreases |steps|
  {
    if steps != [] {
      StepKeepsInv(s, steps[0]);
      RunKeepsInv(Take(s, steps[0]), steps[1..]);
    }
  }
}
