/** The blocking receivers over the ring: a call polls for frame after frame until one message is whole.
    The copying one owns its payload; the leased one holds each slot while it looks at the frame and
    gathers longer messages in the caller's buffer. */
module FramedReceiver {
  import R = RingProtocol
  import T = RingTheorems
  import opened Wrappers
  import opened Framing
  import opened Receiving
  import opened SharedRing
  import opened RingConsumer
  import opened Transport
  import opened EndToEnd
  import FramedConsumer

  /** The deliveries showed exactly these frames. */
  predicate Records(log: seq<R.Delivery<Frame>>, frames: seq<Frame>) {
    |log| == |frames| && forall k :: 0 <= k < |log| ==> log[k].slot == R.Full(frames[k])
  }

  /** One call's frames `mine`, behind a stretch that earlier calls have taken whole. */
  lemma CallEnds(before: seq<Frame>, mine: seq<Frame>, m: Message)
    requires AllTaken(before) && Receive(mine) == Some((m, |mine|))
    ensures AllTaken(before + mine) && ReceiveAll(before + mine) == ReceiveAll(before) + [m]
  {
    assert mine[|mine|..] == [];
    assert AllTaken(mine[|mine|..]) && ReceiveAll(mine[|mine|..]) == [];
    ReceivingGoesOn(before, mine);
  }

  lemma CallGoesOn(before: seq<Frame>, mine: seq<Frame>)
    requires AllTaken(before) && Receive(mine) == None
    ensures ReceiveAll(before + mine) == ReceiveAll(before)
  {
    ReceivingGoesOn(before, mine);
    assert ReceiveAll(mine) == [];
  }

  lemma FlagsOfOne(f: Frame)
    ensures IsSingleFrame(f.flags) ==> IsLastFrame(f.flags)
    ensures IsLastFrame(f.flags) ==> Receive([f]) == Some((Message(f.kind, f.data), 1))
    ensures !IsLastFrame(f.flags) ==> UnderWay([f], f.data) && Receive([f]) == None
  {
    assert [f][1..] == [];
  }

  /** A receive under way, or just ended with a last frame. */
  ghost predicate Absorbed(frames: seq<Frame>, head: Frame, payload: seq<Byte>, last: bool) {
    && frames != [] && frames[0] == head
    && if last then Receive(frames) == Some((Message(head.kind, payload), |frames|)) else UnderWay(frames, payload)
  }

  /** What the leased receiver does with a frame behind the first. */
  method Absorb(head: Frame, frame: Frame, buffer: ReassemblyBuffer, ghost mine: seq<Frame>) returns (last: bool)
    requires buffer.Valid() && UnderWay(mine, buffer.Bytes()) && mine[0] == head
    modifies buffer, buffer.buf
    ensures buffer.Valid() && (buffer.buf == old(buffer.buf) || fresh(buffer.buf))
    ensures Absorbed(mine + [frame], head, buffer.Bytes(), last)
  {
    OneFrameMore(mine, buffer.Bytes(), frame);
    last := false;
    if frame.msgId == head.msgId {
      buffer.Append(frame.data);
      last := IsLastFrame(frame.flags);
    }
  }

  lemma LastIsPublished(s: R.State<Frame>, id: R.Id)
    requires T.Reachable(s) && id in s.peers && s.peers[id].log != []
    ensures var p := s.peers[id];
            var d := p.log[|p.log| - 1];
            !p.lapped ==> 0 <= d.seqNo < |s.published| && d.slot == R.Full(s.published[d.seqNo])
  {
    T.ReachableInv(s);
    assert R.PeerInv(s, s.peers[id]);
  }

  class BlockingTransportConsumer {
    const inner: SharedConsumer<Frame>
    ghost const first: nat              // where this incarnation's part of the log begins
    ghost var taken: seq<Frame>         // the frames it looked at since
    ghost var received: seq<Message>    // the messages its calls returned

    /** Unless a grant left it a ring behind, the frames it saw are the ones in its log. */
    ghost predicate Follows()
      reads this, inner, inner.mem
    {
      && inner.consumerId in inner.mem.state.peers && first <= |inner.Log()|
      && (!inner.Lapped() ==> Records(inner.Log()[first..], taken))
    }

    /** True also while a message is under way that no call has returned. */
    ghost predicate Attached()
      reads this, inner, inner.mem, inner.mem.slots, inner.mem.enrolled
    {
      inner.Valid() && Follows() && received == ReceiveAll(taken)
    }

    /** Between calls every frame taken belongs to a message received, or went by while one was. */
    ghost predicate Valid()
      reads this, inner, inner.mem, inner.mem.slots, inner.mem.enrolled
    {
      Attached() && AllTaken(taken)
    }

    constructor (mem: SharedMemory<Frame>, id: R.Id)
      requires id != "" && mem.Valid() && R.CanTake(mem.state, R.Attach(id))
      modifies mem, mem.slots
      ensures Valid() && inner.mem == mem && inner.consumerId == id && taken == [] && received == [] && fresh(inner)
      ensures first == |inner.Log()| == old(if id in mem.state.peers then |mem.state.peers[id].log| else 0)
    {
      var i := new SharedConsumer(mem, id);
      inner := i;
      first := |i.Log()|;
      taken, received := [], [];
    }

    /** The last try, if there was one, saw an empty ring. */
    ghost predicate Starved(polls: nat)
      reads this, inner, inner.mem
    {
      polls > 0 ==> inner.lastProcessedSequence == inner.mem.state.cursor
    }

    /** Waits for the next frame, for at most `polls` tries, and copies it out. */
    method NextFrame(polls: nat) returns (f: Option<Frame>)
      requires inner.Valid() && Follows()
      modifies `taken, inner, inner.mem, inner.mem.slots
      ensures inner.Valid() && Follows()
      ensures f.None? ==> taken == old(taken) && Starved(polls)
      ensures f.Some? ==> taken == old(taken) + [f.value]
    {
      var r := inner.ConsumeNext(polls);
      f := None;
      if r.Some? {
        var frame := FramedConsumer.SeenFrame(r.value.1);
        taken := taken + [frame];
        f := Some(frame);
      }
    }

    /** The calls so far are done with `before`, and `mine` came since. */
    ghost predicate InCall(before: seq<Frame>, mine: seq<Frame>)
      reads this, inner, inner.mem, inner.mem.slots, inner.mem.enrolled
    {
      inner.Valid() && Follows() && AllTaken(before) && received == ReceiveAll(before) && taken == before + mine
    }

    /** Waits for the rest of the message that `head` begins, passing over frames of other messages, for at
        most `frames` more. */
    method GatherOwned(polls: nat, frames: nat, head: Frame, ghost before: seq<Frame>)
      returns (payload: Option<seq<Byte>>, ghost mine: seq<Frame>)
      requires InCall(before, [head]) && !IsLastFrame(head.flags)
      modifies `taken, inner, inner.mem, inner.mem.slots
      ensures InCall(before, mine)
      ensures Receive(mine) == if payload.None? then None else Some((Message(head.kind, payload.value), |mine|))
      ensures payload.None? ==> |mine| == frames + 1 || Starved(polls)
    {
      var gathered := head.data;
      var left := frames;
      mine := [head];
      FlagsOfOne(head);
      while left > 0
        invariant InCall(before, mine) && UnderWay(mine, gathered) && mine[0] == head && |mine| + left == frames + 1
        decreases left
      {
        var next := NextFrame(polls);
        if next.None? {
          NotReceivedYet(mine, gathered);
          return None, mine;
        }
        var frame := next.value;
        left := left - 1;
        OneFrameMore(mine, gathered, frame);
        mine := mine + [frame];
        if frame.msgId != head.msgId {
          continue;
        }
        gathered := gathered + frame.data;
        if IsLastFrame(frame.flags) {
          return Some(gathered), mine;
        }
      }
      NotReceivedYet(mine, gathered);
      payload := None;
    }

    /** What a call returns, once its frames are `mine`. */
    ghost method EndCall(before: seq<Frame>, mine: seq<Frame>, m: Option<Message>)
      requires InCall(before, mine)
      requires Receive(mine) == if m.None? then None else Some((m.value, |mine|))
      modifies `received
      ensures Attached() && (m.Some? ==> Valid())
      ensures received == old(received) + if m.None? then [] else [m.value]
    {
      if m.None? {
        CallGoesOn(before, mine);
      } else {
        CallEnds(before, mine, m.value);
        received := received + [m.value];
      }
    }

    /** Waits for one whole message and returns its payload. It gives up, where the program would wait on,
        when `frames` frames did not make one, or when the last of `polls` tries for the next frame saw an
        empty ring. */
    method RecvMessageBlockingOwned(polls: nat, frames: nat) returns (m: Option<Message>)
      requires Valid()
      modifies this, inner, inner.mem, inner.mem.slots
      ensures Attached() && (m.Some? ==> Valid())
      ensures received == old(received) + if m.None? then [] else [m.value]
      ensures old(taken) <= taken
      ensures var mine := taken[|old(taken)|..]; Receive(mine) == if m.None? then None else Some((m.value, |mine|))
      ensures m.None? ==> |taken| == |old(taken)| + frames || Starved(polls)
    {
      ghost var before, mine := taken, [];
      if frames == 0 {
        return None;
      }
      var first := NextFrame(polls);
      if first.None? {
        return None;
      }
      var head := first.value;
      mine := [head];
      FlagsOfOne(head);
      if IsSingleFrame(head.flags) || IsLastFrame(head.flags) {
        m := Some(Message(head.kind, head.data));
      } else {
        var payload;
        payload, mine := GatherOwned(polls, frames - 1, head, before);
        m := if payload.None? then None else Some(Message(head.kind, payload.value));
      }
      EndCall(before, mine, m);
    }

    // ---- The leased receiver ----

    /** A frame is looked at while its slot is leased. */
    ghost predicate Holding(lease: SharedConsumerLease<Frame>)
      reads this, inner, inner.mem, inner.mem.slots, inner.mem.enrolled, lease
    {
      lease.consumer == inner && lease.Valid() && Follows()
    }

    method HoldNext(polls: nat) returns (lease: Option<SharedConsumerLease<Frame>>, frame: Frame)
      requires inner.Valid() && Follows()
      modifies `taken, inner, inner.mem, inner.mem.slots
      ensures lease.None? ==> inner.Valid() && Follows() && Starved(polls) && taken == old(taken)
      ensures lease.Some? ==> fresh(lease.value) && Holding(lease.value) && taken == old(taken) + [frame]
    {
      lease := inner.ConsumeNextLeased(polls);
      frame := Frame(0, 0, 0, []);
      if lease.Some? {
        var slot := lease.value.Deref();
        frame := FramedConsumer.SeenFrame(slot);
        LastIsPublished(inner.mem.state, inner.consumerId);
        taken := taken + [frame];
      }
    }

    /** Commits the frame and lets go of its slot. */
    method Release(lease: SharedConsumerLease<Frame>)
      requires Holding(lease)
      modifies inner, inner.mem, inner.mem.slots
      ensures inner.Valid() && Follows()
    {
      lease.Drop();
    }

    /** One more frame of a receive that gathers in the buffer; `progress` tells whether it was the last. */
    method AbsorbNext(polls: nat, head: Frame, buffer: ReassemblyBuffer, ghost before: seq<Frame>,
                      ghost mine: seq<Frame>)
      returns (progress: Option<bool>, ghost more: seq<Frame>)
      requires InCall(before, mine) && buffer.Valid() && UnderWay(mine, buffer.Bytes()) && mine[0] == head
      modifies `taken, inner, inner.mem, inner.mem.slots, buffer, buffer.buf
      ensures InCall(before, more) && buffer.Valid() && (buffer.buf == old(buffer.buf) || fresh(buffer.buf))
      ensures progress.None? ==> more == mine && UnderWay(more, buffer.Bytes()) && Starved(polls)
      ensures progress.Some? ==> |more| == |mine| + 1 && Absorbed(more, head, buffer.Bytes(), progress.value)
    {
      var lease, frame := HoldNext(polls);
      progress, more := None, mine;
      if lease.Some? {
        more := mine + [frame];
        var last := Absorb(head, frame, buffer, mine);
        progress := Some(last);
        Release(lease.value);
      }
    }

    /** Waits for the rest of the message that `head` begins, gathering it in the buffer. */
    method GatherLeased(polls: nat, frames: nat, head: Frame, buffer: ReassemblyBuffer, ghost before: seq<Frame>)
      returns (whole: bool, ghost mine: seq<Frame>)
      requires InCall(before, [head]) && !IsLastFrame(head.flags) && buffer.Valid() && buffer.Bytes() == head.data
      modifies `taken, inner, inner.mem, inner.mem.slots, buffer, buffer.buf
      ensures InCall(before, mine) && buffer.Valid() && (buffer.buf == old(buffer.buf) || fresh(buffer.buf))
      ensures Receive(mine) == if whole then Some((Message(head.kind, buffer.Bytes()), |mine|)) else None
      ensures !whole ==> |mine| == frames + 1 || Starved(polls)
    {
      var left := frames;
      mine := [head];
      FlagsOfOne(head);
      while left > 0
        invariant buffer.Valid() && (buffer.buf == old(buffer.buf) || fresh(buffer.buf))
        invariant InCall(before, mine) && Absorbed(mine, head, buffer.Bytes(), false) && |mine| + left == frames + 1
        decreases left
      {
        var progress;
        progress, mine := AbsorbNext(polls, head, buffer, before, mine);
        left := left - 1;
        if progress.None? {
          NotReceivedYet(mine, buffer.Bytes());
          return false, mine;
        } else if progress.value {
          return true, mine;
        }
      }
      NotReceivedYet(mine, buffer.Bytes());
      whole := false;
    }

    /** The first frame of a call: unless it is a whole message, the buffer starts with it. */
    method LeaseFirst(polls: nat, buffer: ReassemblyBuffer) returns (first: Option<Frame>)
      requires Valid() && buffer.Valid()
      modifies `taken, inner, inner.mem, inner.mem.slots, buffer, buffer.buf
      ensures buffer.Valid() && (buffer.buf == old(buffer.buf) || fresh(buffer.buf))
      ensures first.None? ==> InCall(old(taken), []) && Starved(polls)
      ensures first.Some? ==> InCall(old(taken), [first.value])
      ensures first.Some? && !IsSingleFrame(first.value.flags) ==> buffer.Bytes() == first.value.data
    {
      var lease, head := HoldNext(polls);
      first := None;
      if lease.Some? {
        if !IsSingleFrame(head.flags) {
          buffer.Start(head.msgId, head.kind, head.data, |head.data|, None);
        }
        first := Some(head);
        Release(lease.value);
      }
    }

    /** The same message, from the slot itself if it has one frame, else from the caller's buffer. */
    method RecvMessageBlockingLeased(polls: nat, frames: nat, buffer: ReassemblyBuffer) returns (m: Option<Message>)
      requires Valid() && buffer.Valid()
      modifies this, inner, inner.mem, inner.mem.slots, buffer, buffer.buf
      ensures Attached() && (m.Some? ==> Valid())
      ensures buffer.Valid() && (buffer.buf == old(buffer.buf) || fresh(buffer.buf))
      ensures received == old(received) + if m.None? then [] else [m.value]
      ensures old(taken) <= taken
      ensures var mine := taken[|old(taken)|..]; Receive(mine) == if m.None? then None else Some((m.value, |mine|))
      ensures m.None? ==> |taken| == |old(taken)| + frames || Starved(polls)
    {
      ghost var before, mine := taken, [];
      m := None;
      if frames == 0 {
        return;
      }
      var first := LeaseFirst(polls, buffer);
      if first.Some? {
        m, mine := MessageOf(polls, frames - 1, first.value, buffer, before);
      }
      EndCall(before, mine, m);
    }

    /** The message that `head` begins, or is. */
    method MessageOf(polls: nat, frames: nat, head: Frame, buffer: ReassemblyBuffer, ghost before: seq<Frame>)
      returns (m: Option<Message>, ghost mine: seq<Frame>)
      requires InCall(before, [head]) && buffer.Valid()
      requires !IsSingleFrame(head.flags) ==> buffer.Bytes() == head.data
      modifies `taken, inner, inner.mem, inner.mem.slots, buffer, buffer.buf
      ensures InCall(before, mine) && buffer.Valid() && (buffer.buf == old(buffer.buf) || fresh(buffer.buf))
      ensures Receive(mine) == if m.None? then None else Some((m.value, |mine|))
      ensures m.None? ==> |mine| == frames + 1 || Starved(polls)
    {
      mine := [head];
      FlagsOfOne(head);
      if IsSingleFrame(head.flags) {
        m := Some(Message(head.kind, head.data));
      } else {
        var whole := IsLastFrame(head.flags);
        if !whole {
          whole, mine := GatherLeased(polls, frames, head, buffer, before);
        }
        m := if whole then Some(Message(head.kind, buffer.Bytes())) else None;
      }
    }
  }

  lemma TakenIsPublished(c: BlockingTransportConsumer)
    requires c.Attached() && c.first == 0
    requires var p := c.inner.mem.state.peers[c.inner.consumerId]; !p.lapped && p.crashes == 0
    ensures 0 <= c.inner.lastProcessedSequence + 1 <= |c.inner.mem.state.published|
    ensures c.taken == c.inner.mem.state.published[..c.inner.lastProcessedSequence + 1]
  {
    T.ExactBroadcast(c.inner.mem.state, c.inner.consumerId);
    assert c.inner.Log()[0..] == c.inner.Log();
  }

  /** Over the ring: an unlapped consumer that attached once has received a prefix of what repeated
      receives make of the whole stream, and all of it once it stands at the end. */
  lemma BlockingReceivesPrefix(c: BlockingTransportConsumer, items: seq<Item>, chunk: nat)
    requires c.Attached() && c.first == 0 && chunk > 0
    requires PublishesItems(c.inner.mem.state, items, chunk)
    requires var p := c.inner.mem.state.peers[c.inner.consumerId]; !p.lapped && p.crashes == 0
    ensures c.received <= ReceiveAll(Stream(items, chunk))
    ensures c.inner.lastProcessedSequence == |Stream(items, chunk)| - 1 ==>
              c.received == ReceiveAll(Stream(items, chunk))
  {
    TakenIsPublished(c);
    BeginningReceived(c.inner.mem.state.published, Stream(items, chunk), c.inner.lastProcessedSequence + 1);
  }

  lemma BeginningReceived(published: seq<Frame>, stream: seq<Frame>, n: nat)
    requires published <= stream && n <= |published|
    ensures ReceiveAll(published[..n]) <= ReceiveAll(stream)
    ensures n == |stream| ==> published[..n] == stream
  {
    assert published[..n] == stream[..n];
    assert stream == stream[..n] + stream[n..];
    ReceivedStays(stream[..n], stream[n..]);
  }

  /** So exactly the complete messages, in order, as long as none comes behind a cut-off one. */
  lemma BlockingReceivesMessages(c: BlockingTransportConsumer, items: seq<Item>, chunk: nat)
    requires c.Attached() && c.first == 0 && chunk > 0
    requires PublishesItems(c.inner.mem.state, items, chunk) && CutsComeLast(items, chunk)
    requires var p := c.inner.mem.state.peers[c.inner.consumerId]; !p.lapped && p.crashes == 0
    ensures c.received <= Complete(items, chunk)
    ensures c.inner.lastProcessedSequence == |Stream(items, chunk)| - 1 ==> c.received == Complete(items, chunk)
  {
    BlockingReceivesPrefix(c, items, chunk);
    BlockingReceivesComplete(items, chunk);
  }
}
