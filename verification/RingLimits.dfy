/** What the ring does not promise: a consumer found only after the barrier already tracks another
    one can be overwritten before it reads anything. */
module RingLimits {
  import opened Wrappers
  import opened RingProtocol
  import opened RingTheorems
  import opened RingProgress

  const A: Id := "ad_0"
  const B: Id := "ad_1"

  function Fresh(): Peer<int> {
    Peer(-1, Some(Reader(-1, 0, None)), [], 0, 0, false)
  }

  /** A ring of one slot; both consumers attach before anything is published, but a scan finds only
      the first of them. */
  lemma OneIsFound() returns (t: State<int>)
    ensures Reachable(t) && t.size == 1 && t.slots == [Blank] && t.mode == Enabled && t.cursor == -1
    ensures t == State(1, Enabled, [Blank], -1, 0, 0, Idle, {A}, [], map[A := Fresh(), B := Fresh()])
  {
    t := Init(1, Enabled);
    assert t.slots == [Blank];
    assert ReachedBy(t, 1, Enabled, []);
    ReachableStep(t, Attach(A));
    t := Take(t, Attach(A));
    ReachableStep(t, Attach(B));
    t := Take(t, Attach(B));
    ReachableStep(t, Find(A));
    t := Take(t, Find(A));
  }

  /** Publishes `event` as sequence `q`, once the clearance allows it. */
  lemma PublishGranted(s: State<int>, q: nat, event: int) returns (t: State<int>)
    requires Reachable(s) && s.size == 1 && |s.slots| == 1 && s.phase == Writing(q, false) && |s.published| == q
    ensures Reachable(t) && t == s.(slots := [Full(event)], published := s.published + [event],
                                    cursor := q, sequence := q + 1, phase := Idle)
  {
    ReachableStep(s, BeginWrite);
    t := Take(s, BeginWrite);
    ReachableStep(t, FinishWrite(event));
    t := Take(t, FinishWrite(event));
    ReachableStep(t, Publish);
    t := Take(t, Publish);
    assert t.slots == [Full(event)];
  }

  /** The consumer `id` takes a snapshot of one event and is handed it. */
  lemma DeliverOne(s: State<int>, id: Id, q: nat) returns (t: State<int>)
    requires Reachable(s) && s.size == 1 && |s.slots| == 1 && q <= s.cursor
    requires IsLive(s, id) && s.peers[id].live.value == Reader(q - 1, q, None)
    ensures Reachable(t) && var p := s.peers[id];
            t == s.(peers := s.peers[id := p.(live := Some(Reader(q - 1, q + 1, Some(q))),
                                              log := p.log + [Delivery(q, s.slots[0])])])
  {
    ReachableStep(s, Snapshot(id, q));
    t := Take(s, Snapshot(id, q));
    ReachableStep(t, Deliver(id));
    t := Take(t, Deliver(id));
  }

  /** Piecemeal discovery is not covered: both consumers were there before the first event, one was
      tracked, and yet the other is handed the second event as sequence 0. */
  lemma UntrackedConsumerIsOverwritten() returns (t: State<int>)
    ensures Reachable(t) && t.mode == Enabled && t.published == [10, 20]
    ensures B in t.peers && t.peers[B].crashes == 0 && t.peers[B].log == [Delivery(0, Full(20))]
  {
    t := OneIsFound();
    ReachableStep(t, Request(1));
    t := PublishGranted(Take(t, Request(1)), 0, 10);
    t := DeliverOne(t, A, 0);
    ReachableStep(t, Commit(A));
    t := Take(t, Commit(A));
    t := SecondGrant(t);
    t := PublishGranted(t, 1, 20);
    t := DeliverOne(t, B, 0);
  }

  /** Only the tracked consumer's cursor is loaded. */
  lemma SecondGrant(s: State<int>) returns (t: State<int>)
    requires Reachable(s) && s.size == 1 && |s.slots| == 1 && s.phase.Idle? && s.discovered == {A}
    requires s.cursor == 0 && s.sequence == 1 && s.clear == 0 && |s.published| == 1
    requires A in s.peers && B in s.peers && s.peers[A].cursor == 0 && s.peers[B] == Fresh()
    ensures Reachable(t) && t.phase == Writing(1, false) && t.published == s.published && t.size == 1 && |t.slots| == 1
    ensures t.cursor == s.cursor && t.slots == s.slots && t.mode == s.mode
    ensures B in t.peers && t.peers[B] == Fresh().(lapped := true)
  {
    ReachableStep(s, Request(1));
    t := Take(s, Request(1));
    ReachableStep(t, StartScan);
    t := Take(t, StartScan);
    ReachableStep(t, Load(A));
    t := Take(t, Load(A));
    assert t.phase == Scanning(1, {}, Some(0));
    ReachableStep(t, Decide);
    t := Take(t, Decide);
  }

  /** Being lapped is not yet being overwritten: the same untracked consumer, if it reads before the
      producer begins the write it was granted, is handed the first event and commits it. */
  lemma LappedMayStillBeInTime() returns (t: State<int>)
    ensures Reachable(t) && B in t.peers && t.peers[B].lapped && t.peers[B].cursor == 0 && t.published == [10]
    ensures t.peers[B].log == [Delivery(0, Full(10))] == InOrder(t.published, 1)
  {
    t := OneIsFound();
    ReachableStep(t, Request(1));
    t := PublishGranted(Take(t, Request(1)), 0, 10);
    t := DeliverOne(t, A, 0);
    ReachableStep(t, Commit(A));
    t := Take(t, Commit(A));
    t := SecondGrant(t);
    assert t.slots == [Full(10)];
    t := DeliverOne(t, B, 0);
    ReachableStep(t, Commit(B));
    t := Take(t, Commit(B));
  }
}
