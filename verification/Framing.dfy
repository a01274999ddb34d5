/** The frame stream: how a payload is cut into flagged frames, and what the receive paths make of a
    stream of frames, as functions. */
module Framing {
  import opened Wrappers
  import Bits

  datatype Message = Message(kind: Byte, payload: seq<Byte>)

  /** A frame as its reader sees it: the header fields and the meaningful payload bytes. */
  datatype Frame = Frame(kind: Byte, flags: bv8, msgId: nat, data: seq<Byte>)

  function FrameFlags(isFirst: bool, isLast: bool): bv8 {
    (if isFirst then 1 else 0) | (if isLast then 2 else 0)
  }

  predicate IsSingleFrame(flags: bv8) {
    flags & 3 == 3
  }

  predicate IsFirstFrame(flags: bv8) {
    flags & 1 != 0
  }

  predicate IsLastFrame(flags: bv8) {
    flags & 2 != 0
  }

  lemma FlagsReadBack(isFirst: bool, isLast: bool)
    ensures IsFirstFrame(FrameFlags(isFirst, isLast)) == isFirst
    ensures IsLastFrame(FrameFlags(isFirst, isLast)) == isLast
    ensures IsSingleFrame(FrameFlags(isFirst, isLast)) == (isFirst && isLast)
  {
  }

  // ---- Fragmentation ----

  function FramesFrom(id: nat, m: Message, chunk: nat, from: nat): (frames: seq<Frame>)
    requires chunk > 0
    decreases |m.payload| - from
  {
    if from >= |m.payload| then []
    else
      var to := if from + chunk < |m.payload| then from + chunk else |m.payload|;
      [Frame(m.kind, FrameFlags(from == 0, to == |m.payload|), id, m.payload[from..to])]
      + FramesFrom(id, m, chunk, to)
  }

  function Fragment(id: nat, m: Message, chunk: nat): (frames: seq<Frame>)
    requires chunk > 0
    ensures |frames| >= 1
  {
    if m.payload == [] then [Frame(m.kind, FrameFlags(true, true), id, [])] else FramesFrom(id, m, chunk, 0)
  }

  /** How many frames a payload takes: one for each begun chunk, and one for an empty payload. */
  function FrameCount(length: nat, chunk: nat): nat
    requires chunk > 0
  {
    if length == 0 then 1 else (length - 1) / chunk + 1
  }

  /** Frame `k` of a message: its header, and the bytes of the `k`-th chunk; only the first frame carries
      the lowest flag bit, only the last one the next bit. */
  ghost predicate IsChunk(f: Frame, id: nat, m: Message, chunk: nat, k: nat) {
    && f.kind == m.kind && f.msgId == id
    && f.flags == (if k == 0 then 1 else 0) | (if |m.payload| <= (k + 1) * chunk then 2 else 0)
    && k * chunk <= |m.payload|
    && f.data == if |m.payload| < (k + 1) * chunk then m.payload[k * chunk..] else m.payload[k * chunk..(k + 1) * chunk]
  }

  /** A payload is cut into its chunks, in order. */
  lemma FragmentShape(id: nat, m: Message, chunk: nat)
    requires chunk > 0
    ensures |Fragment(id, m, chunk)| == FrameCount(|m.payload|, chunk)
    ensures forall k: nat :: k < |Fragment(id, m, chunk)| ==> IsChunk(Fragment(id, m, chunk)[k], id, m, chunk, k)
  {
    if m.payload != [] {
      FramesCounted(id, m, chunk, 0, 0);
      forall k: nat | k < |Fragment(id, m, chunk)| ensures IsChunk(Fragment(id, m, chunk)[k], id, m, chunk, k) {
        FrameIsChunk(id, m, chunk, 0, 0, k);
      }
    }
  }

  lemma {:induction false} FramesCounted(id: nat, m: Message, chunk: nat, k: nat, from: nat)
    requires chunk > 0 && k * chunk == from < |m.payload|
    ensures |FramesFrom(id, m, chunk, from)| == FrameCount(|m.payload|, chunk) - k
    decreases |m.payload| - from
  {
    NextMultiple(k, chunk);
    if from + chunk < |m.payload| {
      FramesCounted(id, m, chunk, k + 1, from + chunk);
    } else {
      assert FramesFrom(id, m, chunk, |m.payload|) == [];
      LastChunk(|m.payload|, chunk, k);
    }
  }

  lemma {:induction false} FrameIsChunk(id: nat, m: Message, chunk: nat, k: nat, from: nat, i: nat)
    requires chunk > 0 && k * chunk == from && i < |FramesFrom(id, m, chunk, from)|
    ensures IsChunk(FramesFrom(id, m, chunk, from)[i], id, m, chunk, k + i)
    decreases i
  {
    NextMultiple(k, chunk);
    if i == 0 {
      ChunkAt(id, m, chunk, k, from);
    } else {
      var to := if from + chunk < |m.payload| then from + chunk else |m.payload|;
      assert FramesFrom(id, m, chunk, from)[i] == FramesFrom(id, m, chunk, to)[i - 1];
      FrameIsChunk(id, m, chunk, k + 1, from + chunk, i - 1);
    }
  }

  lemma ChunkAt(id: nat, m: Message, chunk: nat, k: nat, from: nat)
    requires chunk > 0 && k * chunk == from < |m.payload|
    ensures IsChunk(FramesFrom(id, m, chunk, from)[0], id, m, chunk, k)
  {
    assert (k + 1) * chunk == from + chunk;
  }

  lemma NextMultiple(k: nat, chunk: nat)
    ensures (k + 1) * chunk == k * chunk + chunk
  {
  }

  lemma LastChunk(length: nat, chunk: nat, k: nat)
    requires chunk > 0 && k * chunk < length <= (k + 1) * chunk
    ensures FrameCount(length, chunk) == k + 1
  {
    Bits.ModUnique(length - 1, chunk, k, length - 1 - k * chunk);
  }

  // ---- The resumable batch decoder ----

  /** What survives between frames: the message being assembled; ID 0 means none. */
  datatype Assembly = Assembly(msgId: nat, kind: Byte, bytes: seq<Byte>)

  function Step(a: Assembly, f: Frame): (Assembly, seq<Message>) {
    if IsSingleFrame(f.flags) then (a, [Message(f.kind, f.data)])
    else
      var b := if IsFirstFrame(f.flags) then Assembly(f.msgId, f.kind, f.data)
               else if a.msgId == f.msgId then a.(bytes := a.bytes + f.data)
               else a;
      if IsLastFrame(f.flags) && b.msgId == f.msgId
      then (b.(msgId := 0, bytes := []), [Message(b.kind, b.bytes)])
      else (b, [])
  }

  function Decode(a: Assembly, frames: seq<Frame>): (Assembly, seq<Message>)
    decreases |frames|
  {
    if frames == [] then (a, [])
    else
      var (b, first) := Step(a, frames[0]);
      var (c, rest) := Decode(b, frames[1..]);
      (c, first + rest)
  }

  lemma SilentStep(a: Assembly, frames: seq<Frame>)
    requires frames != [] && Step(a, frames[0]).1 == []
    ensures Decode(a, frames) == Decode(Step(a, frames[0]).0, frames[1..])
  {
    var rest := Decode(Step(a, frames[0]).0, frames[1..]).1;
    assert [] + rest == rest;
  }

  lemma {:induction false} DecodeAppend(a: Assembly, x: seq<Frame>, y: seq<Frame>)
    ensures var (b, first) := Decode(a, x);
            var (c, rest) := Decode(b, y);
            Decode(a, x + y) == (c, first + rest)
    decreases |x|
  {
    if x == [] {
      assert x + y == y && [] + Decode(a, y).1 == Decode(a, y).1;
    } else {
      var (b, first) := Step(a, x[0]);
      DecodeAppend(b, x[1..], y);
      assert (x + y)[1..] == x[1..] + y;
      var (c, middle) := Decode(b, x[1..]);
      assert first + (middle + Decode(c, y).1) == (first + middle) + Decode(c, y).1;
    }
  }

  /** A message of one frame is delivered wherever it comes, and leaves a longer one under way as it is. */
  lemma SinglePassesThrough(a: Assembly, x: seq<Frame>, f: Frame, y: seq<Frame>)
    requires IsSingleFrame(f.flags)
    ensures var (b, before) := Decode(a, x);
            Decode(a, x + [f] + y) == (Decode(a, x + y).0, before + [Message(f.kind, f.data)] + Decode(b, y).1)
  {
    var b := Decode(a, x).0;
    assert [f][1..] == [] && Step(b, f) == (b, [Message(f.kind, f.data)]);
    assert Decode(b, [f]) == (b, [Message(f.kind, f.data)] + []);
    assert [Message(f.kind, f.data)] + [] == [Message(f.kind, f.data)];
    DecodeAppend(a, x, [f]);
    DecodeAppend(a, x + [f], y);
    DecodeAppend(a, x, y);
  }

  // ---- Streams of messages, some cut off ----

  /** One publish call: the message, its ID, and how many of its frames made it into the ring. */
  datatype Item = Item(id: nat, message: Message, sent: nat)

  predicate WellFormed(item: Item, chunk: nat)
    requires chunk > 0
  {
    item.sent <= |Fragment(item.id, item.message, chunk)|
  }

  predicate AllWellFormed(items: seq<Item>, chunk: nat)
    requires chunk > 0
  {
    forall i :: 0 <= i < |items| ==> WellFormed(items[i], chunk)
  }

  predicate IsComplete(item: Item, chunk: nat)
    requires chunk > 0
  {
    item.sent == |Fragment(item.id, item.message, chunk)|
  }

  function Sent(item: Item, chunk: nat): seq<Frame>
    requires chunk > 0 && WellFormed(item, chunk)
  {
    Fragment(item.id, item.message, chunk)[..item.sent]
  }

  function Stream(items: seq<Item>, chunk: nat): seq<Frame>
    requires chunk > 0 && AllWellFormed(items, chunk)
    decreases |items|
  {
    if items == [] then [] else Sent(items[0], chunk) + Stream(items[1..], chunk)
  }

  /** The messages whose last frame was sent. */
  function Complete(items: seq<Item>, chunk: nat): seq<Message>
    requires chunk > 0
    decreases |items|
  {
    if items == [] then []
    else (if IsComplete(items[0], chunk) then [items[0].message] else []) + Complete(items[1..], chunk)
  }

  /** The items whose first frame is at position `k` of the stream or later. */
  function StartingAt(items: seq<Item>, k: nat): seq<Item>
    decreases |items|
  {
    if items == [] || k == 0 then items
    else if k >= items[0].sent then StartingAt(items[1..], k - items[0].sent)
    else items[1..]
  }

  lemma {:induction false} SuffixWellFormed(items: seq<Item>, k: nat, chunk: nat)
    requires chunk > 0 && AllWellFormed(items, chunk)
    ensures AllWellFormed(StartingAt(items, k), chunk)
    decreases |items|
  {
    if items != [] && k > 0 && k >= items[0].sent {
      SuffixWellFormed(items[1..], k - items[0].sent, chunk);
    }
  }

  /** Decoding the first `n` frames from byte `from` on, once the assembly holds what came before. */
  lemma {:induction false} DecodeContinuation(a: Assembly, id: nat, m: Message, chunk: nat, from: nat, n: nat)
    requires chunk > 0 && 0 < from < |m.payload| && n <= |FramesFrom(id, m, chunk, from)|
    requires a == Assembly(id, m.kind, m.payload[..from])
    ensures n == |FramesFrom(id, m, chunk, from)| ==>
              Decode(a, FramesFrom(id, m, chunk, from)[..n]) == (Assembly(0, m.kind, []), [m])
    ensures n < |FramesFrom(id, m, chunk, from)| ==> Decode(a, FramesFrom(id, m, chunk, from)[..n]).1 == []
    decreases n
  {
    var frames := FramesFrom(id, m, chunk, from);
    if n > 0 {
      var to := if from + chunk < |m.payload| then from + chunk else |m.payload|;
      FlagsReadBack(false, to == |m.payload|);
      assert m.payload[..from] + m.payload[from..to] == m.payload[..to];
      var rest := FramesFrom(id, m, chunk, to);
      assert frames == [frames[0]] + rest;
      assert frames[..n] == [frames[0]] + rest[..n - 1];
      assert frames[..n][0] == frames[0] && frames[..n][1..] == rest[..n - 1];
      if to < |m.payload| {
        SilentStep(a, frames[..n]);
        DecodeContinuation(Assembly(id, m.kind, m.payload[..to]), id, m, chunk, to, n - 1);
      } else {
        assert m.payload[..to] == m.payload && [m] + [] == [m];
        assert frames[..n][1..] == [] && Step(a, frames[0]) == (Assembly(0, m.kind, []), [m]);
      }
    }
  }

  /** From any decoder state whatever, one item yields its message exactly when it is complete. */
  lemma DecodeItem(a: Assembly, item: Item, chunk: nat)
    requires chunk > 0 && WellFormed(item, chunk)
    ensures Decode(a, Sent(item, chunk)).1 == if IsComplete(item, chunk) then [item.message] else []
  {
    var m := item.message;
    var frames := Fragment(item.id, m, chunk);
    if item.sent > 0 {
      var to := if chunk < |m.payload| then chunk else |m.payload|;
      FlagsReadBack(true, to == |m.payload|);
      assert frames[0] == Frame(m.kind, FrameFlags(true, to == |m.payload|), item.id, m.payload[..to]);
      assert frames[..item.sent][0] == frames[0];
      if to < |m.payload| {
        assert frames == [frames[0]] + FramesFrom(item.id, m, chunk, to);
        assert frames[..item.sent][1..] == FramesFrom(item.id, m, chunk, to)[..item.sent - 1];
        DecodeContinuation(Assembly(item.id, m.kind, m.payload[..to]), item.id, m, chunk, to, item.sent - 1);
      } else {
        assert m.payload[..to] == m.payload;
        assert frames == [frames[0]] && frames[..item.sent][1..] == [];
      }
    }
  }

  /** A stream that begins with a first frame, mixing complete and cut-off messages, decodes to
      exactly the complete ones, from any decoder state. */
  lemma {:induction false} DecodeStream(a: Assembly, items: seq<Item>, chunk: nat)
    requires chunk > 0 && AllWellFormed(items, chunk)
    ensures Decode(a, Stream(items, chunk)).1 == Complete(items, chunk)
    decreases |items|
  {
    if items != [] {
      DecodeItem(a, items[0], chunk);
      DecodeAppend(a, Sent(items[0], chunk), Stream(items[1..], chunk));
      DecodeStream(Decode(a, Sent(items[0], chunk)).0, items[1..], chunk);
    }
  }

  /** Continuation frames carry the message's ID and no first-frame flag. */
  lemma {:induction false} ContinuationFrames(id: nat, m: Message, chunk: nat, from: nat, k: nat)
    requires chunk > 0 && from > 0 && k < |FramesFrom(id, m, chunk, from)|
    ensures var f := FramesFrom(id, m, chunk, from)[k];
            f.msgId == id && !IsFirstFrame(f.flags) && !IsSingleFrame(f.flags)
            && IsLastFrame(f.flags) == (k == |FramesFrom(id, m, chunk, from)| - 1)
    decreases k
  {
    var to := if from + chunk < |m.payload| then from + chunk else |m.payload|;
    FlagsReadBack(false, to == |m.payload|);
    if k > 0 {
      ContinuationFrames(id, m, chunk, to, k - 1);
    }
  }

  lemma CutFrames(item: Item, chunk: nat, k: nat)
    requires chunk > 0 && WellFormed(item, chunk) && 0 < k < item.sent
    ensures var f := Sent(item, chunk)[k];
            f.msgId == item.id && !IsFirstFrame(f.flags) && !IsSingleFrame(f.flags)
            && IsLastFrame(f.flags) == (k == |Fragment(item.id, item.message, chunk)| - 1)
  {
    var m := item.message;
    var to := if chunk < |m.payload| then chunk else |m.payload|;
    assert Fragment(item.id, m, chunk)[1..] == FramesFrom(item.id, m, chunk, to);
    ContinuationFrames(item.id, m, chunk, to, k - 1);
  }

  /** Frames that only continue some other message leave the decoder as it is. */
  lemma {:induction false} SkipForeign(a: Assembly, frames: seq<Frame>)
    requires forall k :: 0 <= k < |frames| ==>
               a.msgId != frames[k].msgId && !IsFirstFrame(frames[k].flags) && !IsSingleFrame(frames[k].flags)
    ensures Decode(a, frames) == (a, [])
    decreases |frames|
  {
    if frames != [] {
      SkipForeign(a, frames[1..]);
      SilentStep(a, frames);
    }
  }

  /** The rest of a message whose first frame was missed leaves an empty decoder empty. */
  lemma TailIsSkipped(kind: Byte, item: Item, k: nat, chunk: nat)
    requires chunk > 0 && WellFormed(item, chunk) && item.id != 0 && 0 < k < item.sent
    ensures Decode(Assembly(0, kind, []), Sent(item, chunk)[k..]) == (Assembly(0, kind, []), [])
  {
    var tail := Sent(item, chunk)[k..];
    forall j | 0 <= j < |tail|
      ensures 0 != tail[j].msgId && !IsFirstFrame(tail[j].flags) && !IsSingleFrame(tail[j].flags)
    {
      CutFrames(item, chunk, k + j);
    }
    SkipForeign(Assembly(0, kind, []), tail);
  }

  /** Resynchronisation: a decoder with nothing assembled, started at any frame boundary of any
      stream, delivers exactly the complete messages whose first frame it still sees. */
  lemma {:induction false} Resynchronises(kind: Byte, items: seq<Item>, k: nat, chunk: nat)
    requires chunk > 0 && AllWellFormed(items, chunk) && k <= |Stream(items, chunk)|
    requires forall i :: 0 <= i < |items| ==> items[i].id != 0
    ensures Decode(Assembly(0, kind, []), Stream(items, chunk)[k..]).1 == Complete(StartingAt(items, k), chunk)
    decreases |items|
  {
    var empty := Assembly(0, kind, []);
    if items == [] || k == 0 {
      assert Stream(items, chunk)[k..] == Stream(items, chunk);
      DecodeStream(empty, items, chunk);
    } else {
      var head, tail := Sent(items[0], chunk), Stream(items[1..], chunk);
      if k >= |head| {
        assert Stream(items, chunk)[k..] == tail[k - |head|..];
        Resynchronises(kind, items[1..], k - |head|, chunk);
      } else {
        assert Stream(items, chunk)[k..] == head[k..] + tail;
        TailIsSkipped(kind, items[0], k, chunk);
        DecodeAppend(empty, head[k..], tail);
        assert [] + Decode(empty, tail).1 == Decode(empty, tail).1;
        DecodeStream(empty, items[1..], chunk);
      }
    }
  }

  /** The nonzero IDs are needed, and nothing more: a complete message whose first frames were missed
      yields a spurious delivery exactly when its ID is the decoder's. */
  lemma TailIsSilentIffForeign(a: Assembly, item: Item, k: nat, chunk: nat)
    requires chunk > 0 && WellFormed(item, chunk) && IsComplete(item, chunk) && 0 < k < item.sent
    ensures Decode(a, Sent(item, chunk)[k..]).1 == [] <==> a.msgId != item.id
  {
    var tail := Sent(item, chunk)[k..];
    forall j | 0 <= j < |tail|
      ensures tail[j].msgId == item.id && !IsFirstFrame(tail[j].flags) && !IsSingleFrame(tail[j].flags)
              && IsLastFrame(tail[j].flags) == (j == |tail| - 1)
    {
      CutFrames(item, chunk, k + j);
    }
    if a.msgId != item.id {
      SkipForeign(a, tail);
    } else {
      TailIsTaken(a, tail);
    }
  }

  lemma {:induction false} TailIsTaken(a: Assembly, tail: seq<Frame>)
    requires tail != []
    requires forall j :: 0 <= j < |tail| ==>
               && tail[j].msgId == a.msgId && !IsFirstFrame(tail[j].flags) && !IsSingleFrame(tail[j].flags)
               && IsLastFrame(tail[j].flags) == (j == |tail| - 1)
    ensures Decode(a, tail).1 != []
    decreases |tail|
  {
    if |tail| > 1 {
      TailIsTaken(Step(a, tail[0]).0, tail[1..]);
    }
  }

  // ---- Batches ----

  /** The frames of several calls of the batch receiver, which keeps its buffer in between. */
  function DecodeBatches(a: Assembly, batches: seq<seq<Frame>>): seq<Message>
    decreases |batches|
  {
    if batches == [] then []
    else Decode(a, batches[0]).1 + DecodeBatches(Decode(a, batches[0]).0, batches[1..])
  }

  function Flatten<T>(parts: seq<seq<T>>): seq<T>
    decreases |parts|
  {
    if parts == [] then [] else parts[0] + Flatten(parts[1..])
  }

  lemma {:induction false} BatchingIsInvisible(a: Assembly, batches: seq<seq<Frame>>)
    ensures DecodeBatches(a, batches) == Decode(a, Flatten(batches)).1
    decreases |batches|
  {
    if batches != [] {
      BatchingIsInvisible(Decode(a, batches[0]).0, batches[1..]);
      DecodeAppend(a, batches[0], Flatten(batches[1..]));
    }
  }

  // ---- The blocking receivers ----

  /** Continues a message over `frames`: its payload and how many frames that takes, if it ends. */
  function Gather(id: nat, payload: seq<Byte>, frames: seq<Frame>): Option<(seq<Byte>, nat)>
    decreases |frames|
  {
    if frames == [] then None
    else if frames[0].msgId != id then OneMore(Gather(id, payload, frames[1..]))
    else if IsLastFrame(frames[0].flags) then Some((payload + frames[0].data, 1))
    else OneMore(Gather(id, payload + frames[0].data, frames[1..]))
  }

  function OneMore(r: Option<(seq<Byte>, nat)>): Option<(seq<Byte>, nat)> {
    if r.None? then None else Some((r.value.0, r.value.1 + 1))
  }

  /** What a blocking receive returns on `frames` and how many of them it consumes; `None` when it
      would still be waiting. */
  function Receive(frames: seq<Frame>): (r: Option<(Message, nat)>)
    ensures r.Some? ==> 1 <= r.value.1 <= |frames|
  {
    if frames == [] then None
    else
      var first := frames[0];
      if IsLastFrame(first.flags) then Some((Message(first.kind, first.data), 1))
      else
        GatherBounded(first.msgId, first.data, frames[1..]);
        var r := Gather(first.msgId, first.data, frames[1..]);
        if r.None? then None else Some((Message(first.kind, r.value.0), r.value.1 + 1))
  }

  lemma {:induction false} GatherBounded(id: nat, payload: seq<Byte>, frames: seq<Frame>)
    ensures var r := Gather(id, payload, frames); r.Some? ==> 1 <= r.value.1 <= |frames|
    decreases |frames|
  {
    if frames != [] {
      GatherBounded(id, payload, frames[1..]);
      GatherBounded(id, payload + frames[0].data, frames[1..]);
    }
  }

  /** Receiving again and again. */
  function ReceiveAll(frames: seq<Frame>): seq<Message>
    decreases |frames|
  {
    var r := Receive(frames);
    if r.None? then [] else [r.value.0] + ReceiveAll(frames[r.value.1..])
  }

  lemma {:induction false} GatherMessage(id: nat, m: Message, chunk: nat, from: nat, rest: seq<Frame>)
    requires chunk > 0 && 0 < from < |m.payload|
    ensures Gather(id, m.payload[..from], FramesFrom(id, m, chunk, from) + rest)
            == Some((m.payload, |FramesFrom(id, m, chunk, from)|))
    decreases |m.payload| - from
  {
    var frames := FramesFrom(id, m, chunk, from);
    var to := if from + chunk < |m.payload| then from + chunk else |m.payload|;
    FlagsReadBack(false, to == |m.payload|);
    assert m.payload[..from] + m.payload[from..to] == m.payload[..to];
    assert (frames + rest)[1..] == FramesFrom(id, m, chunk, to) + rest;
    if to < |m.payload| {
      GatherMessage(id, m, chunk, to, rest);
    } else {
      assert m.payload[..to] == m.payload;
    }
  }

  /** A whole message at the head of the stream is what a receive returns, and it takes exactly the
      message's frames. */
  lemma ReceiveMessage(id: nat, m: Message, chunk: nat, rest: seq<Frame>)
    requires chunk > 0
    ensures Receive(Fragment(id, m, chunk) + rest) == Some((m, |Fragment(id, m, chunk)|))
  {
    var frames := Fragment(id, m, chunk);
    var to := if chunk < |m.payload| then chunk else |m.payload|;
    FlagsReadBack(true, to == |m.payload|);
    assert frames[0] == Frame(m.kind, FrameFlags(true, to == |m.payload|), id, m.payload[..to]);
    assert (frames + rest)[0] == frames[0] && (frames + rest)[1..] == frames[1..] + rest;
    if to < |m.payload| {
      assert frames[1..] == FramesFrom(id, m, chunk, to);
      GatherMessage(id, m, chunk, to, rest);
    } else {
      assert m.payload[..to] == m.payload;
      assert m.payload != [] ==> FramesFrom(id, m, chunk, to) == [];
      assert |frames| == 1 && (frames + rest)[0] == frames[0];
    }
  }

  /** Complete items under any IDs, one for each message. */
  predicate Publishes(items: seq<Item>, messages: seq<Message>, chunk: nat)
    requires chunk > 0
  {
    && |items| == |messages|
    && forall i :: 0 <= i < |items| ==> items[i].message == messages[i] && IsComplete(items[i], chunk)
  }

  /** All receive paths agree: for every list of messages and every chunk size, repeated blocking
      receives and batch receives under any split of the frames return exactly that list. */
  lemma AllPathsAgree(items: seq<Item>, messages: seq<Message>, chunk: nat,
                      a: Assembly, batches: seq<seq<Frame>>)
    requires chunk > 0 && Publishes(items, messages, chunk)
    requires Flatten(batches) == Stream(items, chunk)
    ensures ReceiveAll(Stream(items, chunk)) == messages
    ensures DecodeBatches(a, batches) == messages
  {
    BatchingIsInvisible(a, batches);
    DecodeStream(a, items, chunk);
    CompleteIsAll(items, messages, chunk);
    ReceiveAllReturns(items, messages, chunk);
  }

  lemma {:induction false} CompleteIsAll(items: seq<Item>, messages: seq<Message>, chunk: nat)
    requires chunk > 0 && Publishes(items, messages, chunk)
    ensures Complete(items, chunk) == messages
    decreases |items|
  {
    if items != [] {
      CompleteIsAll(items[1..], messages[1..], chunk);
    }
  }

  lemma {:induction false} ReceiveAllReturns(items: seq<Item>, messages: seq<Message>, chunk: nat)
    requires chunk > 0 && Publishes(items, messages, chunk)
    ensures ReceiveAll(Stream(items, chunk)) == messages
    decreases |items|
  {
    if items != [] {
      var head, tail := Sent(items[0], chunk), Stream(items[1..], chunk);
      assert head == Fragment(items[0].id, items[0].message, chunk);
      ReceiveMessage(items[0].id, items[0].message, chunk, tail);
      assert (head + tail)[|head|..] == tail;
      ReceiveAllReturns(items[1..], messages[1..], chunk);
    }
  }
}
