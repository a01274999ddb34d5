/** The framed producer over the ring: each publish call cuts its payload into frames and publishes
    them one by one, waiting for room, until all are in or the wait is given up. */
module FramedRing {
  import opened RingProtocol
  import opened RingProgress
  import opened Framing
  import opened RingProducer
  import opened ConsumerBarrier
  import Bits

  const ID_LIMIT: nat := 0x1_0000_0000

  lemma {:induction false} StreamAppend(items: seq<Item>, item: Item, chunk: nat)
    requires chunk > 0 && AllWellFormed(items, chunk) && WellFormed(item, chunk)
    ensures AllWellFormed(items + [item], chunk)
    ensures Stream(items + [item], chunk) == Stream(items, chunk) + Sent(item, chunk)
    decreases |items|
  {
    var more := items + [item];
    assert forall i :: 0 <= i < |more| ==> more[i] == if i < |items| then items[i] else item;
    if items == [] {
      assert more == [item] && more[1..] == [];
      assert Stream(more[1..], chunk) == [];
      assert Sent(item, chunk) + [] == Sent(item, chunk);
    } else {
      var (head, rest) := (items[0], items[1..]);
      assert more[0] == head && more[1..] == rest + [item];
      StreamAppend(rest, item, chunk);
      assert Sent(head, chunk) + (Stream(rest, chunk) + Sent(item, chunk))
          == (Sent(head, chunk) + Stream(rest, chunk)) + Sent(item, chunk);
    }
  }

  /** At `stuck`, a moment since `s` and the beginning of the last attempt before `t`, the consumers tracked
      at `t` left no room. */
  ghost predicate HadNoRoom<E>(s: State<E>, stuck: State<E>, t: State<E>) {
    PeersKept(s, stuck) && RingKept(stuck, t) && !HasRoom(stuck, t.discovered, 1)
  }

  lemma NoRoomSince<E>(s: State<E>, t: State<E>, stuck: State<E>, u: State<E>)
    requires PeersKept(s, t) && HadNoRoom(t, stuck, u)
    ensures HadNoRoom(s, stuck, u)
  {
    PeersKeptTrans(s, t, stuck);
  }

  class FramedTransportProducer {
    const inner: SharedProducer<Frame>
    const chunkSize: nat
    var nextMessageId: nat
    ghost var items: seq<Item>  // one per publish call so far

    ghost predicate Valid()
      reads this, inner, inner.mem, inner.mem.slots, inner.mem.enrolled, inner.barrier
    {
      && chunkSize > 0 && nextMessageId < ID_LIMIT && inner.Valid()
      && AllWellFormed(items, chunkSize) && inner.mem.state.published == Stream(items, chunkSize)
    }

    constructor (depth: nat, chunkSize: nat, discovery: Discovery, now: nat)
      requires chunkSize > 0 && Bits.IsPowOf2(depth)
      ensures Valid() && this.chunkSize == chunkSize && items == [] && nextMessageId == 1
      ensures inner.mem.size == depth && inner.barrier.discovery == discovery
      ensures inner.mem.state == Init(depth, if discovery.DiscoveryDisabled? then Disabled else Enabled)
    {
      inner := new SharedProducer<Frame>(depth, discovery, now);
      this.chunkSize := chunkSize;
      nextMessageId := 1;
      items := [];
    }

    /** Publishes one frame, retrying while the ring is full for as long as `waits` lasts; it fails only
        if the ring was full as its last attempt began. */
    method WriteFrame(frame: Frame, waits: seq<Surroundings>) returns (ok: bool, ghost stuck: State<Frame>)
      requires inner.Valid()
      modifies inner, inner.barrier, inner.mem, inner.mem.slots
      ensures inner.Valid() && PeersKept(old(inner.mem.state), inner.mem.state)
      ensures inner.mem.state.published == old(inner.mem.state.published) + (if ok then [frame] else [])
      ensures !ok && waits != [] && Fits(old(inner.sequence), 1) ==>
                HadNoRoom(old(inner.mem.state), stuck, inner.mem.state)
    {
      ok, stuck := false, inner.mem.state;
      var k := 0;
      PeersKeptRefl(inner.mem.state);
      while k < |waits| && !ok
        invariant k <= |waits| && inner.Valid() && PeersKept(old(inner.mem.state), inner.mem.state)
        invariant inner.mem.state.published == old(inner.mem.state.published) + (if ok then [frame] else [])
        invariant !ok ==> inner.sequence == old(inner.sequence)
        invariant k > 0 && !ok && Fits(old(inner.sequence), 1) ==>
                    HadNoRoom(old(inner.mem.state), stuck, inner.mem.state)
      {
        stuck := inner.mem.state;
        var r := inner.TryPublish(frame, waits[k]);
        PeersKeptTrans(old(inner.mem.state), stuck, inner.mem.state);
        ok := r.Some?;
        k := k + 1;
      }
    }

    /** The frames published are always a beginning of the message's frames, and all of them exactly
        when the call succeeds. It fails only where the ring was full with exactly the frames before in. */
    method PublishFramedPayload(m: Message, waits: seq<Surroundings>) returns (ok: bool, ghost stuck: State<Frame>)
      requires Valid()
      modifies this, inner, inner.barrier, inner.mem, inner.mem.slots
      ensures Valid() && nextMessageId == (old(nextMessageId) + 1) % ID_LIMIT
      ensures |items| == |old(items)| + 1 && items[..|old(items)|] == old(items)
      ensures items[|old(items)|].id == old(nextMessageId) && items[|old(items)|].message == m
      ensures ok <==> IsComplete(items[|old(items)|], chunkSize)
      ensures !ok && waits != [] && Fits(old(inner.sequence), |Fragment(old(nextMessageId), m, chunkSize)|) ==>
                && HadNoRoom(old(inner.mem.state), stuck, inner.mem.state)
                && stuck.published == Stream(items, chunkSize)
    {
      var msgId := nextMessageId;
      nextMessageId := (nextMessageId + 1) % ID_LIMIT;
      var sent;
      ok, sent, stuck := WriteFrames(msgId, m, waits);
      var item := Item(msgId, m, sent);
      StreamAppend(items, item, chunkSize);
      items := items + [item];
    }

    /** The next frame of a message of which `n` are in already. */
    method WriteNth(frame: Frame, waits: seq<Surroundings>, ghost all: seq<Frame>, ghost n: nat,
                    ghost before: seq<Frame>)
      returns (ok: bool, ghost stuck: State<Frame>)
      requires inner.Valid() && n < |all| && all[n] == frame
      requires inner.mem.state.published == before + all[..n]
      modifies inner, inner.barrier, inner.mem, inner.mem.slots
      ensures inner.Valid() && inner.mem.state.published == before + all[..if ok then n + 1 else n]
      ensures PeersKept(old(inner.mem.state), inner.mem.state)
      ensures !ok && waits != [] && Fits(|before|, |all|) ==> HadNoRoom(old(inner.mem.state), stuck, inner.mem.state)
    {
      ProducerFacts(inner.mem.state);
      ok, stuck := WriteFrame(frame, waits);
      assert all[..n + 1] == all[..n] + [frame];
      assert before + all[..n] + [frame] == before + (all[..n] + [frame]);
    }

    /** Cuts the `index`-th chunk, which begins at `start`, and publishes it. */
    method WriteChunk(msgId: nat, m: Message, index: nat, start: nat, waits: seq<Surroundings>,
                      ghost all: seq<Frame>, ghost before: seq<Frame>)
      returns (ok: bool, end: nat, ghost stuck: State<Frame>)
      requires inner.Valid() && chunkSize > 0 && start == index * chunkSize < |m.payload| && index <= |all|
      requires all == all[..index] + FramesFrom(msgId, m, chunkSize, start)
      requires inner.mem.state.published == before + all[..index]
      modifies inner, inner.barrier, inner.mem, inner.mem.slots
      ensures inner.Valid() && index < |all|
      ensures inner.mem.state.published == before + all[..if ok then index + 1 else index]
      ensures start < end <= |m.payload| && (end < |m.payload| ==> end == (index + 1) * chunkSize)
      ensures all == all[..index + 1] + FramesFrom(msgId, m, chunkSize, end)
      ensures PeersKept(old(inner.mem.state), inner.mem.state)
      ensures !ok && waits != [] && Fits(|before|, |all|) ==> HadNoRoom(old(inner.mem.state), stuck, inner.mem.state)
    {
      end := if start + chunkSize < |m.payload| then start + chunkSize else |m.payload|;
      NextChunk(index, start, end, chunkSize, |m.payload|);
      var last := (index + 1) * chunkSize >= |m.payload|;
      var frame := Frame(m.kind, FrameFlags(index == 0, last), msgId, m.payload[start..end]);
      FrameAt(all, index, FramesFrom(msgId, m, chunkSize, start));
      ok, stuck := WriteNth(frame, waits, all, index, before);
    }

    method WriteFrames(msgId: nat, m: Message, waits: seq<Surroundings>)
      returns (ok: bool, sent: nat, ghost stuck: State<Frame>)
      requires inner.Valid() && chunkSize > 0
      modifies inner, inner.barrier, inner.mem, inner.mem.slots
      ensures inner.Valid() && sent <= |Fragment(msgId, m, chunkSize)|
      ensures inner.mem.state.published == old(inner.mem.state.published) + Fragment(msgId, m, chunkSize)[..sent]
      ensures ok <==> sent == |Fragment(msgId, m, chunkSize)|
      ensures !ok && waits != [] && Fits(old(inner.sequence), |Fragment(msgId, m, chunkSize)|) ==>
                HadNoRoom(old(inner.mem.state), stuck, inner.mem.state)
    {
      ghost var all, published := Fragment(msgId, m, chunkSize), inner.mem.state.published;
      sent, stuck := 0, inner.mem.state;
      ProducerFacts(inner.mem.state);
      if m.payload == [] {
        ok, stuck := WriteNth(Frame(m.kind, FrameFlags(true, true), msgId, []), waits, all, 0, published);
        sent := if ok then 1 else 0;
        return;
      }
      var start := 0;
      PeersKeptRefl(inner.mem.state);
      while start < |m.payload|
        invariant PeersKept(old(inner.mem.state), inner.mem.state)
        invariant 0 <= start <= |m.payload| && (start < |m.payload| ==> start == sent * chunkSize)
        invariant inner.Valid() && sent <= |all| && all == all[..sent] + FramesFrom(msgId, m, chunkSize, start)
        invariant inner.mem.state.published == published + all[..sent]
        decreases |m.payload| - start
      {
        ghost var here := inner.mem.state;
        var wrote, end;
        wrote, end, stuck := WriteChunk(msgId, m, sent, start, waits, all, published);
        PeersKeptTrans(old(inner.mem.state), here, inner.mem.state);
        if !wrote {
          if waits != [] && Fits(old(inner.sequence), |all|) {
            NoRoomSince(old(inner.mem.state), here, stuck, inner.mem.state);
          }
          return false, sent, stuck;
        }
        start, sent := end, sent + 1;
      }
      ok := true;
    }
  }

  /** The chunk is the first one exactly when it starts at 0, the last one when it reaches the end. */
  lemma NextChunk(index: nat, start: nat, end: nat, chunk: nat, length: nat)
    requires start == index * chunk < length && chunk > 0
    requires end == if start + chunk < length then start + chunk else length
    ensures index == 0 <==> start == 0
    ensures (index + 1) * chunk >= length <==> end == length
    ensures end < length ==> end == (index + 1) * chunk
  {
  }

  /** Splitting a sequence one element further. */
  lemma FrameAt(all: seq<Frame>, n: nat, rest: seq<Frame>)
    requires n <= |all| && all == all[..n] + rest && rest != []
    ensures n < |all| && all[n] == rest[0]
    ensures all[..n + 1] == all[..n] + [rest[0]] && all == all[..n + 1] + rest[1..]
  {
    assert all[n] == (all[..n] + rest)[n];
    assert all[n..] == rest;
  }
}
