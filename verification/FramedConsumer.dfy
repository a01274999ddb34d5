/** The framed consumer over the ring: every frame the ring hands over goes through the reassembly
    buffer, which keeps a message that is still incomplete between two calls. */
module FramedConsumer {
  import R = RingProtocol
  import G = RingGating
  import opened Framing
  import opened SharedRing
  import opened RingConsumer
  import opened Transport
  import opened EndToEnd

  type Log = seq<R.Delivery<Frame>>

  /** Every delivery showed a whole event. */
  predicate Whole(log: Log) {
    forall k :: 0 <= k < |log| ==> log[k].slot.Full?
  }

  /** The frame in a slot. Of a slot that is not whole anything may be seen; nothing is promised then. */
  function SeenFrame(slot: R.Slot<Frame>): Frame {
    if slot.Full? then slot.value else Frame(0, 0, 0, [])
  }

  /** The decoder's state and the messages given out are what the frames handed over decode to. */
  predicate DecodesTo(log: Log, a: Assembly, received: seq<Message>) {
    Whole(log) ==> (a, received) == Decode(Assembly(0, 0, []), FramesOf(log))
  }

  lemma OneMoreFrame(log: Log, d: R.Delivery<Frame>, a: Assembly, received: seq<Message>)
    requires DecodesTo(log, a, received)
    ensures var (b, completed) := Step(a, SeenFrame(d.slot)); DecodesTo(log + [d], b, received + completed)
  {
    if Whole(log + [d]) {
      var more := log + [d];
      assert forall k :: 0 <= k < |log| ==> more[k] == log[k];
      assert more[|log|] == d;
      assert FramesOf(more) == FramesOf(log) + [d.slot.value];
      DecodeAppend(Assembly(0, 0, []), FramesOf(log), [d.slot.value]);
      assert Decode(a, [d.slot.value]).1 == Step(a, d.slot.value).1;
    }
  }

  class FramedTransportConsumer {
    const inner: SharedConsumer<Frame>
    const buffer: ReassemblyBuffer
    ghost const first: nat              // where this incarnation's part of the log begins
    ghost var received: seq<Message>    // what the message handler was given so far

    ghost predicate Decoded()
      reads this, inner, inner.mem, buffer, buffer.buf
    {
      && buffer.Valid() && inner.consumerId in inner.mem.state.peers && first <= |inner.Log()|
      && DecodesTo(inner.Log()[first..], buffer.State(), received)
    }

    ghost predicate Valid()
      reads this, inner, inner.mem, inner.mem.slots, inner.mem.enrolled, buffer, buffer.buf
    {
      inner.Valid() && Decoded()
    }

    constructor (mem: SharedMemory<Frame>, id: R.Id)
      requires id != "" && mem.Valid() && R.CanTake(mem.state, R.Attach(id))
      modifies mem, mem.slots
      ensures Valid() && inner.mem == mem && received == [] && fresh(inner) && fresh(buffer) && fresh(buffer.buf)
      ensures first == |inner.Log()| == old(if id in mem.state.peers then |mem.state.peers[id].log| else 0)
    {
      var i := new SharedConsumer(mem, id);
      var b := new ReassemblyBuffer();
      inner, buffer := i, b;
      first := |i.Log()|;
      received := [];
    }

    /** One frame of a batch under way: read it from its slot and decode it at once. */
    method HandleNextFrame(sequence: int) returns (completed: seq<Message>)
      requires inner.mem.Valid() && R.CanTake(inner.mem.state, R.Deliver(inner.consumerId)) && Decoded()
      requires sequence == inner.mem.state.peers[inner.consumerId].live.value.next
      modifies `received, inner.mem, inner.mem.slots, buffer, buffer.buf
      ensures inner.mem.Valid() && R.IsLive(inner.mem.state, inner.consumerId) && Decoded()
      ensures inner.mem.state.peers[inner.consumerId].live.value
              == old(inner.mem.state.peers[inner.consumerId].live.value).(next := sequence + 1)
      ensures |inner.Log()| == |old(inner.Log())| + 1 && old(inner.Log()) <= inner.Log()
      ensures received == old(received) + completed && (buffer.buf == old(buffer.buf) || fresh(buffer.buf))
    {
      ghost var (before, a) := (inner.Log()[first..], buffer.State());
      var d := inner.HandleNext(sequence);
      assert inner.Log()[first..] == before + [d];
      OneMoreFrame(before, d, a, received);
      completed := HandleFrame(SeenFrame(d.slot), buffer);
      received := received + completed;
    }

    /** The snapshot from `lower` to `upper` is under way, decoded up to just before `next`. */
    ghost predicate InBatch(lower: int, next: int, upper: int)
      reads this, inner, inner.mem, inner.mem.slots, inner.mem.enrolled, buffer, buffer.buf
    {
      inner.Inside(lower, next, upper) && Decoded()
    }

    method HandleBatch(lower: int, upper: int) returns (messages: seq<Message>)
      requires InBatch(lower, lower, upper) && lower <= upper
      modifies `received, inner.mem, inner.mem.slots, buffer, buffer.buf
      ensures InBatch(lower, upper + 1, upper)
      ensures received == old(received) + messages && (buffer.buf == old(buffer.buf) || fresh(buffer.buf))
      ensures old(inner.Log()) <= inner.Log() && |inner.Log()| == |old(inner.Log())| + upper + 1 - lower
    {
      messages := [];
      var sequence := lower;
      while sequence <= upper
        invariant lower <= sequence <= upper + 1 && InBatch(lower, sequence, upper)
        invariant received == old(received) + messages && (buffer.buf == old(buffer.buf) || fresh(buffer.buf))
        invariant old(inner.Log()) <= inner.Log() && |inner.Log()| == |old(inner.Log())| + sequence - lower
      {
        var completed := HandleNextFrame(sequence);
        messages := messages + completed;
        sequence := sequence + 1;
      }
    }

    /** Decodes every frame of the snapshot, then commits it. */
    method ProcessBatch(lower: int, upper: int) returns (messages: seq<Message>)
      requires Valid() && lower == inner.lastProcessedSequence + 1 <= upper <= inner.mem.state.cursor
      modifies this, inner, inner.mem, inner.mem.slots, buffer, buffer.buf
      ensures Valid() && received == old(received) + messages
      ensures inner.lastProcessedSequence == upper && (buffer.buf == old(buffer.buf) || fresh(buffer.buf))
      ensures old(inner.Log()) <= inner.Log() && |inner.Log()| == |old(inner.Log())| + upper + 1 - lower
    {
      inner.OpenWindow(upper);
      messages := HandleBatch(lower, upper);
      inner.PublishConsumedSequence(upper);
    }

    /** One snapshot, if there is anything to take. */
    method ProcessOnce() returns (messages: seq<Message>, empty: bool)
      requires Valid()
      modifies this, inner, inner.mem, inner.mem.slots, buffer, buffer.buf
      ensures Valid() && received == old(received) + messages && (buffer.buf == old(buffer.buf) || fresh(buffer.buf))
      ensures old(inner.Log()) <= inner.Log()
      ensures empty ==> inner.lastProcessedSequence == inner.mem.state.cursor
      ensures !empty ==> |inner.Log()| > |old(inner.Log())|
    {
      messages := [];
      var bounds := inner.AvailableBatchBounds();
      empty := bounds.None?;
      if bounds.Some? {
        messages := ProcessBatch(bounds.value.0, bounds.value.1);
      }
    }

    /** Decodes everything at hand, for at most `rounds` snapshots. As long as every delivery was whole, the
        handler has now been given exactly what the decoder makes of all frames handed over since the
        consumer attached, however the calls were spread. */
    method ProcessAvailableMessages(rounds: nat) returns (delivered: nat, messages: seq<Message>, drained: bool)
      requires Valid()
      modifies this, inner, inner.mem, inner.mem.slots, buffer, buffer.buf
      ensures Valid() && received == old(received) + messages && delivered == |messages|
      ensures old(inner.Log()) <= inner.Log()
      ensures drained ==> inner.lastProcessedSequence == inner.mem.state.cursor
      ensures !drained ==> |inner.Log()| >= |old(inner.Log())| + rounds
    {
      delivered, messages, drained := 0, [], false;
      var round := 0;
      while round < rounds && !drained
        invariant round <= rounds && Valid() && (buffer.buf == old(buffer.buf) || fresh(buffer.buf))
        invariant received == old(received) + messages && delivered == |messages|
        invariant old(inner.Log()) <= inner.Log() && (drained || |inner.Log()| >= |old(inner.Log())| + round)
        invariant drained ==> inner.lastProcessedSequence == inner.mem.state.cursor
        decreases rounds - round
      {
        var batch, empty := ProcessOnce();
        messages, delivered, drained := messages + batch, delivered + |batch|, empty;
        round := round + 1;
      }
    }
  }

  /** End to end, through the objects themselves: while the producer publishes a stream of messages, an
      unlapped consumer that attached once has been given a prefix of the complete ones, and all of
      them once it stands at the end of the stream. */
  lemma ReceivedIsPrefix(c: FramedTransportConsumer, items: seq<Item>, chunk: nat)
    requires c.Valid() && c.first == 0 && chunk > 0
    requires PublishesItems(c.inner.mem.state, items, chunk)
    requires var p := c.inner.mem.state.peers[c.inner.consumerId]; !p.lapped && p.crashes == 0
    ensures c.received <= Complete(items, chunk)
    ensures c.inner.lastProcessedSequence == |Stream(items, chunk)| - 1 ==> c.received == Complete(items, chunk)
  {
    DeliveredMessagesArePrefix(c.inner.mem.state, c.inner.consumerId, items, chunk);
    assert c.inner.Log()[0..] == c.inner.Log();
  }

  /** So for every gating consumer. */
  lemma GatingReceivesPrefix(c: FramedTransportConsumer, items: seq<Item>, chunk: nat)
    requires c.Valid() && c.first == 0 && chunk > 0
    requires G.Gating(c.inner.mem.state, c.inner.consumerId) && PublishesItems(c.inner.mem.state, items, chunk)
    requires c.inner.mem.state.peers[c.inner.consumerId].crashes == 0
    ensures c.received <= Complete(items, chunk)
    ensures c.inner.lastProcessedSequence == |Stream(items, chunk)| - 1 ==> c.received == Complete(items, chunk)
  {
    G.GatingIsSafe(c.inner.mem.state, c.inner.consumerId);
    ReceivedIsPrefix(c, items, chunk);
  }

  /** And so for every consumer enrolled as gating at any time before, whatever ran since. */
  lemma EnrolledReceivesPrefix(c: FramedTransportConsumer, items: seq<Item>, chunk: nat)
    requires c.Valid() && c.first == 0 && chunk > 0
    requires c.inner.consumerId in c.inner.mem.enrolled.gating && PublishesItems(c.inner.mem.state, items, chunk)
    requires c.inner.mem.state.peers[c.inner.consumerId].crashes == 0
    ensures c.received <= Complete(items, chunk)
    ensures c.inner.lastProcessedSequence == |Stream(items, chunk)| - 1 ==> c.received == Complete(items, chunk)
  {
    GatingReceivesPrefix(c, items, chunk);
  }
}
