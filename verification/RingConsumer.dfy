/** A consumer process: it snapshots the producer cursor, hands every event up to it to a handler,
    and publishes its own progress once per batch, event or lease. */
module RingConsumer {
  import opened Wrappers
  import opened RingProtocol
  import opened RingTheorems
  import opened RingProgress
  import opened SharedRing

  /** The deliveries of sequences `lower` to `upper`, in order, each with the published event. */
  function Window<E>(published: seq<E>, lower: int, upper: int): (log: seq<Delivery<E>>)
    requires 0 <= lower <= upper + 1 <= |published|
  {
    seq(upper + 1 - lower, i requires 0 <= i < upper + 1 - lower => Delivery(lower + i, Full(published[lower + i])))
  }

  /** `handled` are the consecutive deliveries from `lower` up to just before `next`, and unless the
      consumer was lapped they carry exactly what was published. */
  ghost predicate HandledFrom<E>(s: State<E>, id: Id, handled: seq<Delivery<E>>, lower: int, next: int) {
    && 0 <= lower <= next <= s.cursor + 1 <= |s.published| && |handled| == next - lower
    && (forall k :: 0 <= k < |handled| ==> handled[k].seqNo == lower + k)
    && (id in s.peers && !s.peers[id].lapped ==> handled == Window(s.published, lower, next - 1))
  }

  /** Whatever sits at the end of the log was handled that way. */
  lemma LogTailIsHandled<E(!new)>(s: State<E>, id: Id, before: seq<Delivery<E>>, handled: seq<Delivery<E>>, lower: int)
    requires Reachable(s) && IsLive(s, id) && s.peers[id].log == before + handled
    requires 0 <= lower && s.peers[id].live.value.next == lower + |handled|
    requires forall k :: 0 <= k < |handled| ==> handled[k].seqNo == lower + k
    ensures HandledFrom(s, id, handled, lower, lower + |handled|)
  {
    PeerFacts(s, id);
    var p := s.peers[id];
    forall k | 0 <= k < |handled| ensures p.log[|before| + k] == handled[k] {
    }
  }

  class SharedConsumer<E(!new)> {
    const mem: SharedMemory<E>
    const consumerId: Id
    var lastProcessedSequence: int

    ghost predicate Valid()
      reads this, mem, mem.slots, mem.enrolled
    {
      && mem.Valid() && IsLive(mem.state, consumerId)
      && mem.state.peers[consumerId].live.value == Reader(lastProcessedSequence, lastProcessedSequence + 1, None)
    }

    /** The log of deliveries made under this ID so far. */
    ghost function Log(): seq<Delivery<E>>
      requires consumerId in mem.state.peers
      reads this, mem
    {
      mem.state.peers[consumerId].log
    }

    /** Attaching resumes where the last incarnation of the ID committed, or before sequence 0. */
    constructor (mem: SharedMemory<E>, id: Id)
      requires id != "" && mem.Valid() && CanTake(mem.state, Attach(id))
      modifies mem, mem.slots
      ensures Valid() && this.mem == mem && consumerId == id
      ensures lastProcessedSequence == old(CursorOf(mem.state, id))
      ensures Log() == old(if id in mem.state.peers then mem.state.peers[id].log else [])
    {
      this.mem := mem;
      consumerId := id;
      lastProcessedSequence := -1;
      new;
      ghost var before, mid := mem.state, mem.state;
      lastProcessedSequence, mid := mem.OpenConsumerCursor(id);
      OthersOfConsumer(id, before, mid);
    }

    /** Whether a grant has left this consumer a ring behind. */
    ghost predicate Lapped()
      requires consumerId in mem.state.peers
      reads this, mem
    {
      mem.state.peers[consumerId].lapped
    }

    /** What other processes leave in place. */
    lemma StillMine(s: State<E>, t: State<E>)
      requires Reachable(s) && IsLive(s, consumerId) && OthersRan(Consumer(consumerId), s, t)
      ensures IsLive(t, consumerId) && t.peers[consumerId].live == s.peers[consumerId].live
      ensures s.peers[consumerId].lapped ==> t.peers[consumerId].lapped
      ensures t.peers[consumerId].log == s.peers[consumerId].log && s.cursor <= t.cursor
      ensures t.peers[consumerId].cursor == s.peers[consumerId].cursor
    {
      OthersOfConsumer(consumerId, s, t);
    }

    method AvailableBatchBounds() returns (bounds: Option<(int, int)>)
      requires Valid()
      modifies mem, mem.slots
      ensures Valid() && lastProcessedSequence == old(lastProcessedSequence) && Log() == old(Log())
      ensures old(Lapped()) ==> Lapped()
      ensures bounds.None? ==> mem.state.cursor == lastProcessedSequence
      ensures bounds.Some? ==> bounds.value == (lastProcessedSequence + 1, mem.state.cursor)
                               && lastProcessedSequence < mem.state.cursor
    {
      ghost var before := mem.state;
      var producerSeq := mem.LoadProducerCursor(consumerId);
      StillMine(before, mem.state);
      PeerFacts(mem.state, consumerId);
      var nextSequence := lastProcessedSequence + 1;
      bounds := if nextSequence > producerSeq then None else Some((nextSequence, producerSeq));
    }

    /** One event of a window under way, straight from its slot. */
    method HandleNext(sequence: int) returns (d: Delivery<E>)
      requires mem.Valid() && CanTake(mem.state, Deliver(consumerId))
      requires sequence == mem.state.peers[consumerId].live.value.next
      modifies mem, mem.slots
      ensures mem.Valid() && IsLive(mem.state, consumerId) && d.seqNo == sequence && Log() == old(Log()) + [d]
      ensures old(Lapped()) ==> Lapped()
      ensures mem.state.peers[consumerId].live.value
              == old(mem.state.peers[consumerId].live.value).(next := sequence + 1)
    {
      ghost var before, mid := mem.state, mem.state;
      var slot;
      slot, mid := mem.ReadSlot(consumerId, sequence);
      StillMine(before, mid);
      d := Delivery(sequence, slot);
    }

    method PublishConsumedSequence(sequence: int)
      requires mem.Valid() && CanTake(mem.state, Commit(consumerId))
      requires mem.state.peers[consumerId].live.value.upper == Some(sequence)
      requires mem.state.peers[consumerId].live.value.next == sequence + 1
      modifies `lastProcessedSequence, mem, mem.slots
      ensures Valid() && lastProcessedSequence == sequence && Log() == old(Log())
      ensures old(Lapped()) ==> Lapped()
      ensures mem.state.peers[consumerId].cursor == sequence
    {
      ghost var before, mid := mem.state, mem.state;
      mid := mem.StoreConsumerCursor(consumerId, sequence);
      StillMine(before, mid);
      lastProcessedSequence := sequence;
    }

    /** The consumer's window is `lower` to `upper`, handled up to just before `next`. */
    ghost predicate Inside(lower: int, next: int, upper: int)
      reads this, mem, mem.slots, mem.enrolled
    {
      && mem.Valid() && IsLive(mem.state, consumerId) && lastProcessedSequence == lower - 1
      && mem.state.peers[consumerId].live.value == Reader(lower - 1, next, Some(upper))
    }

    /** From here on the consumer owns the snapshot up to `upper`. */
    ghost method OpenWindow(upper: int)
      requires Valid() && lastProcessedSequence < upper <= mem.state.cursor
      modifies mem`state
      ensures Inside(lastProcessedSequence + 1, lastProcessedSequence + 1, upper) && Log() == old(Log())
    {
      PeerFacts(mem.state, consumerId);
      mem.Local(Snapshot(consumerId, upper));
    }

    /** Hands every event of the window to the handler, in order. */
    method HandleWindow(lower: int, upper: int) returns (processed: nat, handled: seq<Delivery<E>>)
      requires Inside(lower, lower, upper) && lower <= upper
      modifies mem, mem.slots
      ensures Inside(lower, upper + 1, upper) && Log() == old(Log()) + handled
      ensures processed == |handled| == upper + 1 - lower
      ensures forall k :: 0 <= k < |handled| ==> handled[k].seqNo == lower + k
    {
      processed, handled := 0, [];
      var sequence := lower;
      while sequence <= upper
        invariant lower <= sequence <= upper + 1 && Inside(lower, sequence, upper)
        invariant Log() == old(Log()) + handled && processed == |handled| == sequence - lower
        invariant forall k :: 0 <= k < |handled| ==> handled[k].seqNo == lower + k
      {
        var d := HandleNext(sequence);
        handled := handled + [d];
        processed := processed + 1;
        sequence := sequence + 1;
      }
    }

    /** Hands every event of the snapshot to the handler, then commits once. */
    method ProcessSnapshotBatch(lower: int, upper: int) returns (processed: nat, handled: seq<Delivery<E>>)
      requires Valid() && lower == lastProcessedSequence + 1 <= upper <= mem.state.cursor
      modifies this, mem, mem.slots
      ensures Valid() && lastProcessedSequence == upper == mem.state.peers[consumerId].cursor
      ensures Log() == old(Log()) + handled && processed == |handled|
      ensures HandledFrom(mem.state, consumerId, handled, lower, upper + 1)
    {
      assert lower >= 0 by {
        PeerFacts(mem.state, consumerId);
      }
      OpenWindow(upper);
      processed, handled := HandleWindow(lower, upper);
      PublishConsumedSequence(upper);
      LogTailIsHandled(mem.state, consumerId, old(Log()), handled, lower);
    }

    /** Copies the next event out and commits it. */
    method TryConsumeNext() returns (r: Option<(int, Slot<E>)>)
      requires Valid()
      modifies this, mem, mem.slots
      ensures Valid()
      ensures r.None? ==> lastProcessedSequence == old(lastProcessedSequence) == mem.state.cursor && Log() == old(Log())
      ensures old(Lapped()) ==> Lapped()
      ensures r.Some? ==> && lastProcessedSequence == r.value.0 == old(lastProcessedSequence) + 1
                          && Log() == old(Log()) + [Delivery(r.value.0, r.value.1)]
                          && HandledFrom(mem.state, consumerId, [Delivery(r.value.0, r.value.1)],
                                         r.value.0, r.value.0 + 1)
    {
      var bounds := AvailableBatchBounds();
      if bounds.None? {
        return None;
      }
      var next := bounds.value.0;
      assert next >= 0 by {
        PeerFacts(mem.state, consumerId);
      }
      var slot := ConsumeOne(next);
      r := Some((next, slot));
    }

    /** The next event is available: read it, then commit it. */
    method ConsumeOne(next: int) returns (slot: Slot<E>)
      requires Valid() && 0 <= next == lastProcessedSequence + 1 <= mem.state.cursor
      modifies this, mem, mem.slots
      ensures Valid() && lastProcessedSequence == next && Log() == old(Log()) + [Delivery(next, slot)]
      ensures old(Lapped()) ==> Lapped()
      ensures HandledFrom(mem.state, consumerId, [Delivery(next, slot)], next, next + 1)
    {
      mem.Local(Snapshot(consumerId, next));
      var d := HandleNext(next);
      PublishConsumedSequence(next);
      LogTailIsHandled(mem.state, consumerId, old(Log()), [d], next);
      slot := d.slot;
    }

    /** Opens a lease on the next event; progress is committed when the lease is dropped. */
    method TryConsumeNextLeased() returns (lease: Option<SharedConsumerLease<E>>)
      requires Valid()
      modifies this, mem, mem.slots
      ensures lastProcessedSequence == old(lastProcessedSequence)
      ensures lease.None? ==> Valid() && Log() == old(Log()) && (old(Lapped()) ==> Lapped())
      ensures lease.None? ==> lastProcessedSequence == mem.state.cursor
      ensures lease.Some? ==>
                && fresh(lease.value) && lease.value.Valid() && lease.value.consumer == this
                && lease.value.sequence == lastProcessedSequence + 1
                && |Log()| == |old(Log())| + 1 && Log()[..|old(Log())|] == old(Log())
                && Log()[|old(Log())|].seqNo == lease.value.sequence && (old(Lapped()) ==> Lapped())
    {
      var bounds := AvailableBatchBounds();
      if bounds.None? {
        return None;
      }
      var next := bounds.value.0;
      assert next >= 0 by {
        PeerFacts(mem.state, consumerId);
      }
      mem.Local(Snapshot(consumerId, next));
      var d := HandleNext(next);
      var l := new SharedConsumerLease(this, next);
      lease := Some(l);
    }

    /** Polls for the next event and consumes it. It gives up after `polls` tries, and then the last of
        them saw an empty ring. */
    method ConsumeNext(polls: nat) returns (r: Option<(int, Slot<E>)>)
      requires Valid()
      modifies this, mem, mem.slots
      ensures Valid() && (old(Lapped()) ==> Lapped())
      ensures r.None? ==> lastProcessedSequence == old(lastProcessedSequence) && Log() == old(Log())
      ensures r.None? && polls > 0 ==> lastProcessedSequence == mem.state.cursor
      ensures r.Some? ==> && lastProcessedSequence == r.value.0 == old(lastProcessedSequence) + 1
                          && Log() == old(Log()) + [Delivery(r.value.0, r.value.1)]
                          && HandledFrom(mem.state, consumerId, [Delivery(r.value.0, r.value.1)],
                                         r.value.0, r.value.0 + 1)
    {
      r := None;
      var left := polls;
      while left > 0 && r.None?
        invariant Valid() && (old(Lapped()) ==> Lapped()) && left <= polls
        invariant r.None? ==> lastProcessedSequence == old(lastProcessedSequence) && Log() == old(Log())
        invariant r.None? && left < polls ==> lastProcessedSequence == mem.state.cursor
        invariant r.Some? ==>
                    && lastProcessedSequence == r.value.0 == old(lastProcessedSequence) + 1
                    && Log() == old(Log()) + [Delivery(r.value.0, r.value.1)]
                    && HandledFrom(mem.state, consumerId, [Delivery(r.value.0, r.value.1)],
                                   r.value.0, r.value.0 + 1)
        decreases left
      {
        r := TryConsumeNext();
        left := left - 1;
      }
    }

    /** Polls for the next event and leases it, in the same way. */
    method ConsumeNextLeased(polls: nat) returns (lease: Option<SharedConsumerLease<E>>)
      requires Valid()
      modifies this, mem, mem.slots
      ensures lastProcessedSequence == old(lastProcessedSequence)
      ensures lease.None? ==> Valid() && Log() == old(Log()) && (old(Lapped()) ==> Lapped())
      ensures lease.None? && polls > 0 ==> lastProcessedSequence == mem.state.cursor
      ensures lease.Some? ==>
                && fresh(lease.value) && lease.value.Valid() && lease.value.consumer == this
                && lease.value.sequence == lastProcessedSequence + 1
                && |Log()| == |old(Log())| + 1 && Log()[..|old(Log())|] == old(Log())
                && Log()[|old(Log())|].seqNo == lease.value.sequence && (old(Lapped()) ==> Lapped())
    {
      var left := polls;
      while left > 0
        invariant Valid() && (old(Lapped()) ==> Lapped()) && left <= polls
        invariant lastProcessedSequence == old(lastProcessedSequence) && Log() == old(Log())
        invariant left < polls ==> lastProcessedSequence == mem.state.cursor
        decreases left
      {
        lease := TryConsumeNextLeased();
        left := left - 1;
        if lease.Some? {
          return;
        }
      }
      lease := None;
    }

    /** One snapshot, if there is anything to take. */
    method ProcessOnce() returns (processed: nat, handled: seq<Delivery<E>>, empty: bool)
      requires Valid()
      modifies this, mem, mem.slots
      ensures Valid() && Log() == old(Log()) + handled && processed == |handled|
      ensures lastProcessedSequence == old(lastProcessedSequence) + processed
      ensures forall k :: 0 <= k < |handled| ==> handled[k].seqNo == old(lastProcessedSequence) + 1 + k
      ensures empty ==> lastProcessedSequence == mem.state.cursor && processed == 0
      ensures !empty ==> processed > 0
    {
      processed, handled := 0, [];
      var bounds := AvailableBatchBounds();
      empty := bounds.None?;
      if bounds.Some? {
        processed, handled := ProcessSnapshotBatch(bounds.value.0, bounds.value.1);
      }
    }

    /** Drains snapshot after snapshot until the ring looks empty, for at most `rounds` snapshots. */
    method ProcessAvailable(rounds: nat) returns (processed: nat, handled: seq<Delivery<E>>, drained: bool)
      requires Valid()
      modifies this, mem, mem.slots
      ensures Valid() && Log() == old(Log()) + handled && processed == |handled|
      ensures HandledFrom(mem.state, consumerId, handled, old(lastProcessedSequence) + 1, lastProcessedSequence + 1)
      ensures mem.state.peers[consumerId].cursor == lastProcessedSequence
      ensures drained ==> lastProcessedSequence == mem.state.cursor
      ensures !drained ==> processed >= rounds
    {
      processed, handled, drained := 0, [], false;
      ghost var first := lastProcessedSequence + 1;
      assert first >= 0 by {
        PeerFacts(mem.state, consumerId);
      }
      var round := 0;
      while round < rounds && !drained
        invariant round <= rounds && Valid() && (drained || processed >= round)
        invariant Log() == old(Log()) + handled && processed == |handled| == lastProcessedSequence + 1 - first
        invariant forall k :: 0 <= k < |handled| ==> handled[k].seqNo == first + k
        invariant drained ==> lastProcessedSequence == mem.state.cursor
        decreases rounds - round
      {
        var count, batch, empty := ProcessOnce();
        processed, handled, drained := processed + count, handled + batch, empty;
        round := round + 1;
      }
      LogTailIsHandled(mem.state, consumerId, old(Log()), handled, first);
      PeerFacts(mem.state, consumerId);
    }
  }

  /** A borrowed slot: the consumer's cursor stays behind it until the lease is dropped. */
  class SharedConsumerLease<E(!new)> {
    const consumer: SharedConsumer<E>
    const sequence: int

    ghost predicate Valid()
      reads this, consumer, consumer.mem, consumer.mem.slots, consumer.mem.enrolled
    {
      && consumer.mem.Valid() && IsLive(consumer.mem.state, consumer.consumerId)
      && consumer.lastProcessedSequence == sequence - 1
      && consumer.mem.state.peers[consumer.consumerId].live.value == Reader(sequence - 1, sequence + 1, Some(sequence))
    }

    constructor (consumer: SharedConsumer<E>, sequence: int)
      ensures this.consumer == consumer && this.sequence == sequence
    {
      this.consumer := consumer;
      this.sequence := sequence;
    }

    /** Reads the leased slot, as often as the holder likes and whatever the others do meanwhile. */
    method Deref() returns (slot: Slot<E>)
      requires Valid()
      modifies consumer.mem, consumer.mem.slots
      ensures Valid() && 0 <= sequence < |consumer.mem.state.published| && consumer.Log() == old(consumer.Log())
      ensures old(consumer.Lapped()) ==> consumer.Lapped()
      ensures !consumer.mem.state.peers[consumer.consumerId].lapped ==>
                slot == Full(consumer.mem.state.published[sequence])
    {
      var mem := consumer.mem;
      ghost var before := mem.state;
      mem.Yield(Consumer(consumer.consumerId));
      consumer.StillMine(before, mem.state);
      PeerFacts(mem.state, consumer.consumerId);
      slot := mem.slots[mem.Index(sequence)];
      if !mem.state.peers[consumer.consumerId].lapped {
        HeldWindowIsStable(mem.state, consumer.consumerId, sequence);
      }
    }

    method Drop()
      requires Valid()
      modifies consumer, consumer.mem, consumer.mem.slots
      ensures consumer.Valid() && consumer.lastProcessedSequence == sequence
      ensures consumer.mem.state.peers[consumer.consumerId].cursor == sequence && consumer.Log() == old(consumer.Log())
      ensures old(consumer.Lapped()) ==> consumer.Lapped()
    {
      consumer.PublishConsumedSequence(sequence);
    }
  }
}
