/** What repeated blocking receives make of any stream of frames, cut-off messages included. */
module Receiving {
  import opened Wrappers
  import opened Framing

  // ---- Frames that arrive later change nothing that was received ----

  lemma {:induction false} GatherStable(id: nat, payload: seq<Byte>, frames: seq<Frame>, more: seq<Frame>)
    requires Gather(id, payload, frames).Some?
    ensures Gather(id, payload, frames + more) == Gather(id, payload, frames)
    decreases |frames|
  {
    assert (frames + more)[0] == frames[0] && (frames + more)[1..] == frames[1..] + more;
    if frames[0].msgId != id {
      GatherStable(id, payload, frames[1..], more);
    } else if !IsLastFrame(frames[0].flags) {
      GatherStable(id, payload + frames[0].data, frames[1..], more);
    }
  }

  lemma ReceiveStable(frames: seq<Frame>, more: seq<Frame>)
    requires Receive(frames).Some?
    ensures Receive(frames + more) == Receive(frames)
  {
    assert (frames + more)[0] == frames[0] && (frames + more)[1..] == frames[1..] + more;
    if !IsLastFrame(frames[0].flags) {
      GatherStable(frames[0].msgId, frames[0].data, frames[1..], more);
    }
  }

  /** Receives have taken every frame: no message is begun. */
  predicate AllTaken(frames: seq<Frame>)
    decreases |frames|
  {
    frames == [] || (Receive(frames).Some? && AllTaken(frames[Receive(frames).value.1..]))
  }

  /** What was received stays received. */
  lemma {:induction false} ReceivedStays(frames: seq<Frame>, more: seq<Frame>)
    ensures ReceiveAll(frames) <= ReceiveAll(frames + more)
    decreases |frames|
  {
    if Receive(frames).Some? {
      var k := Receive(frames).value.1;
      ReceiveStable(frames, more);
      assert (frames + more)[k..] == frames[k..] + more;
      ReceivedStays(frames[k..], more);
    }
  }

  /** Once all frames are taken, receiving goes on with whatever arrives next. */
  lemma {:induction false} ReceivingGoesOn(frames: seq<Frame>, more: seq<Frame>)
    requires AllTaken(frames)
    ensures ReceiveAll(frames + more) == ReceiveAll(frames) + ReceiveAll(more)
    ensures AllTaken(frames + more) == AllTaken(more)
    decreases |frames|
  {
    if frames == [] {
      assert frames + more == more;
    } else {
      var (m, k) := Receive(frames).value;
      ReceiveStable(frames, more);
      assert (frames + more)[k..] == frames[k..] + more;
      ReceivingGoesOn(frames[k..], more);
      assert [m] + (ReceiveAll(frames[k..]) + ReceiveAll(more)) == ([m] + ReceiveAll(frames[k..])) + ReceiveAll(more);
    }
  }

  // ---- A receive under way ----

  /** The payload gathered once `frames` went by. */
  function Gathered(id: nat, payload: seq<Byte>, frames: seq<Frame>): seq<Byte>
    decreases |frames|
  {
    if frames == [] then payload
    else Gathered(id, if frames[0].msgId == id then payload + frames[0].data else payload, frames[1..])
  }

  /** A stretch without the last frame of `id` only adds to the payload. */
  lemma {:induction false} GatherPast(id: nat, payload: seq<Byte>, frames: seq<Frame>, more: seq<Frame>)
    requires Gather(id, payload, frames).None?
    ensures Gathered(id, payload, frames + more) == Gathered(id, Gathered(id, payload, frames), more)
    ensures var r := Gather(id, Gathered(id, payload, frames), more);
            Gather(id, payload, frames + more)
            == if r.None? then None else Some((r.value.0, r.value.1 + |frames|))
    decreases |frames|
  {
    if frames == [] {
      assert frames + more == more;
    } else {
      assert (frames + more)[0] == frames[0] && (frames + more)[1..] == frames[1..] + more;
      GatherPast(id, if frames[0].msgId == id then payload + frames[0].data else payload, frames[1..], more);
    }
  }

  /** The frames of a receive under way, and the payload it has gathered from them. */
  predicate UnderWay(frames: seq<Frame>, payload: seq<Byte>) {
    && frames != [] && !IsLastFrame(frames[0].flags)
    && Gather(frames[0].msgId, frames[0].data, frames[1..]).None?
    && payload == Gathered(frames[0].msgId, frames[0].data, frames[1..])
  }

  lemma NotReceivedYet(frames: seq<Frame>, payload: seq<Byte>)
    requires UnderWay(frames, payload)
    ensures Receive(frames) == None && ReceiveAll(frames) == []
  {
  }

  /** The next frame either goes by, or is added, or ends the message. */
  lemma OneFrameMore(frames: seq<Frame>, payload: seq<Byte>, f: Frame)
    requires UnderWay(frames, payload)
    ensures f.msgId != frames[0].msgId ==> UnderWay(frames + [f], payload)
    ensures f.msgId == frames[0].msgId && !IsLastFrame(f.flags) ==> UnderWay(frames + [f], payload + f.data)
    ensures f.msgId == frames[0].msgId && IsLastFrame(f.flags) ==>
              Receive(frames + [f]) == Some((Message(frames[0].kind, payload + f.data), |frames| + 1))
  {
    var (id, one) := (frames[0].msgId, [f]);
    assert (frames + one)[0] == frames[0] && (frames + one)[1..] == frames[1..] + one;
    GatherPast(id, frames[0].data, frames[1..], one);
    assert one[0] == f && one[1..] == [];
  }

  // ---- Streams with cut-off messages ----

  /** A message begun but never ended. */
  predicate IsCut(item: Item, chunk: nat)
    requires chunk > 0
  {
    item.sent > 0 && !IsComplete(item, chunk)
  }

  predicate HasComplete(items: seq<Item>, chunk: nat)
    requires chunk > 0
  {
    exists j :: 0 <= j < |items| && IsComplete(items[j], chunk)
  }

  /** No complete message comes behind one that was cut off. */
  predicate CutsComeLast(items: seq<Item>, chunk: nat)
    requires chunk > 0
  {
    forall i, j :: 0 <= i < j < |items| && IsCut(items[i], chunk) ==> !IsComplete(items[j], chunk)
  }

  function LastFrames(frames: seq<Frame>): nat
    decreases |frames|
  {
    if frames == [] then 0 else (if IsLastFrame(frames[0].flags) then 1 else 0) + LastFrames(frames[1..])
  }

  lemma {:induction false} LastFramesAdd(x: seq<Frame>, y: seq<Frame>)
    ensures LastFrames(x + y) == LastFrames(x) + LastFrames(y)
    decreases |x|
  {
    if x == [] {
      assert x + y == y;
    } else {
      assert (x + y)[1..] == x[1..] + y;
      LastFramesAdd(x[1..], y);
    }
  }

  /** A message ends with a last frame, which its receive takes. */
  lemma {:induction false} GatherTakesLast(id: nat, payload: seq<Byte>, frames: seq<Frame>)
    ensures var r := Gather(id, payload, frames);
            r.Some? ==> r.value.1 <= |frames| && LastFrames(frames[r.value.1..]) < LastFrames(frames)
    decreases |frames|
  {
    if frames != [] {
      var rest := frames[1..];
      GatherTakesLast(id, payload, rest);
      GatherTakesLast(id, payload + frames[0].data, rest);
      assert forall k :: 0 <= k <= |rest| ==> frames[k + 1..] == rest[k..];
    }
  }

  lemma ReceiveTakesLast(frames: seq<Frame>)
    requires Receive(frames).Some?
    ensures LastFrames(frames[Receive(frames).value.1..]) < LastFrames(frames)
  {
    if !IsLastFrame(frames[0].flags) {
      var rest := frames[1..];
      GatherTakesLast(frames[0].msgId, frames[0].data, rest);
      assert forall k :: 0 <= k <= |rest| ==> frames[k + 1..] == rest[k..];
    }
  }

  lemma {:induction false} AtMostLastFrames(frames: seq<Frame>)
    ensures |ReceiveAll(frames)| <= LastFrames(frames)
    decreases |frames|
  {
    if Receive(frames).Some? {
      ReceiveTakesLast(frames);
      AtMostLastFrames(frames[Receive(frames).value.1..]);
    }
  }

  /** Where the last frames of one item are. */
  lemma LastOfItem(item: Item, chunk: nat)
    requires chunk > 0 && WellFormed(item, chunk)
    ensures LastFrames(Sent(item, chunk)) == if IsComplete(item, chunk) then 1 else 0
    ensures forall k :: 0 <= k < item.sent ==> Sent(item, chunk)[k].msgId == item.id
    ensures IsCut(item, chunk) ==> Sent(item, chunk)[0].data != []
  {
    var (m, frames) := (item.message, Sent(item, chunk));
    if item.sent > 0 {
      var to := if chunk < |m.payload| then chunk else |m.payload|;
      FlagsReadBack(true, to == |m.payload|);
      assert frames[0] == Frame(m.kind, FrameFlags(true, to == |m.payload|), item.id, m.payload[..to]);
      forall k | 0 < k < item.sent
        ensures frames[k].msgId == item.id
        ensures IsLastFrame(frames[k].flags) == (k == |Fragment(item.id, m, chunk)| - 1)
      {
        CutFrames(item, chunk, k);
      }
      assert to < |m.payload| ==> FramesFrom(item.id, m, chunk, to) != [];
      assert Fragment(item.id, m, chunk)[1..] == FramesFrom(item.id, m, chunk, to);
      assert IsLastFrame(frames[0].flags) == (|Fragment(item.id, m, chunk)| == 1);
      OneLast(frames, IsComplete(item, chunk));
    }
  }

  lemma {:induction false} OneLast(frames: seq<Frame>, ends: bool)
    requires frames != []
    requires forall k :: 0 <= k < |frames| ==> (IsLastFrame(frames[k].flags) <==> ends && k == |frames| - 1)
    ensures LastFrames(frames) == if ends then 1 else 0
    decreases |frames|
  {
    if |frames| > 1 {
      OneLast(frames[1..], ends);
    }
  }

  lemma {:induction false} LastFramesOfStream(items: seq<Item>, chunk: nat)
    requires chunk > 0 && AllWellFormed(items, chunk)
    ensures LastFrames(Stream(items, chunk)) == |Complete(items, chunk)|
    decreases |items|
  {
    if items != [] {
      LastOfItem(items[0], chunk);
      LastFramesAdd(Sent(items[0], chunk), Stream(items[1..], chunk));
      LastFramesOfStream(items[1..], chunk);
    }
  }

  lemma {:induction false} CompleteIfAny(items: seq<Item>, chunk: nat)
    requires chunk > 0
    ensures HasComplete(items, chunk) <==> Complete(items, chunk) != []
    decreases |items|
  {
    if items != [] {
      CompleteIfAny(items[1..], chunk);
      assert forall j :: 0 < j < |items| ==> items[j] == items[1..][j - 1];
    }
  }

  /** Without a last frame a message does not end. */
  lemma {:induction false} NoLastNoEnd(id: nat, payload: seq<Byte>, frames: seq<Frame>)
    requires LastFrames(frames) == 0
    ensures Gather(id, payload, frames) == None && |Gathered(id, payload, frames)| >= |payload|
    decreases |frames|
  {
    if frames != [] {
      NoLastNoEnd(id, if frames[0].msgId == id then payload + frames[0].data else payload, frames[1..]);
    }
  }

  /** Frames of another message go by. */
  lemma {:induction false} ForeignGoBy(id: nat, payload: seq<Byte>, frames: seq<Frame>)
    requires forall k :: 0 <= k < |frames| ==> frames[k].msgId != id
    ensures Gather(id, payload, frames) == None && Gathered(id, payload, frames) == payload
    decreases |frames|
  {
    if frames != [] {
      ForeignGoBy(id, payload, frames[1..]);
    }
  }

  lemma {:induction false} GatherPrefix(id: nat, p: seq<Byte>, payload: seq<Byte>, frames: seq<Frame>)
    ensures var r := Gather(id, payload, frames);
            Gather(id, p + payload, frames) == if r.None? then None else Some((p + r.value.0, r.value.1))
    decreases |frames|
  {
    if frames != [] {
      GatherPrefix(id, p, payload, frames[1..]);
      GatherPrefix(id, p, payload + frames[0].data, frames[1..]);
      assert p + (payload + frames[0].data) == (p + payload) + frames[0].data;
    }
  }

  /** A complete message of the ID waited for ends the receive, behind whatever was gathered before. */
  lemma OwnMessageEnds(p: seq<Byte>, item: Item, chunk: nat, rest: seq<Frame>)
    requires chunk > 0 && WellFormed(item, chunk) && IsComplete(item, chunk)
    ensures Gather(item.id, p, Sent(item, chunk) + rest) == Some((p + item.message.payload, item.sent))
  {
    var frames := Sent(item, chunk) + rest;
    assert Sent(item, chunk) == Fragment(item.id, item.message, chunk);
    LastOfItem(item, chunk);
    assert frames[0] == Sent(item, chunk)[0];
    ReceiveMessage(item.id, item.message, chunk, rest);
    assert [] + frames[0].data == frames[0].data;
    assert Gather(item.id, [], frames) == Some((item.message.payload, item.sent));
    GatherPrefix(item.id, p, [], frames);
    assert p + [] == p;
  }

  /** The receive `r` on `frames` cannot lead to the `expected` messages: either it returns another
      payload, or too few last frames are left behind it. */
  predicate Spoiled(r: Option<(seq<Byte>, nat)>, frames: seq<Frame>, expected: seq<Message>) {
    r.Some? && expected != [] ==>
      && r.value.1 <= |frames|
      && (r.value.0 != expected[0].payload || LastFrames(frames[r.value.1..]) + 1 < |expected|)
  }

  lemma SpoiledBehind(head: seq<Frame>, rest: seq<Frame>, r: Option<(seq<Byte>, nat)>, expected: seq<Message>)
    requires Spoiled(r, rest, expected)
    ensures Spoiled(if r.None? then None else Some((r.value.0, r.value.1 + |head|)), head + rest, expected)
  {
    if r.Some? && r.value.1 <= |rest| {
      assert (head + rest)[r.value.1 + |head|..] == rest[r.value.1..];
    }
  }

  /** Frames that do not end the message only move the spoiling further. */
  lemma SpoilsFurther(id: nat, payload: seq<Byte>, head: seq<Frame>, rest: seq<Frame>, expected: seq<Message>)
    requires Gather(id, payload, head).None?
    requires Spoiled(Gather(id, Gathered(id, payload, head), rest), rest, expected)
    ensures Spoiled(Gather(id, payload, head + rest), head + rest, expected)
  {
    GatherPast(id, payload, head, rest);
    SpoiledBehind(head, rest, Gather(id, Gathered(id, payload, head), rest), expected);
  }

  lemma ForeignSpoils(id: nat, payload: seq<Byte>, head: seq<Frame>, rest: seq<Frame>, expected: seq<Message>)
    requires forall k :: 0 <= k < |head| ==> head[k].msgId != id
    requires LastFrames(rest) < |expected|
    ensures Spoiled(Gather(id, payload, head + rest), head + rest, expected)
  {
    ForeignGoBy(id, payload, head);
    GatherTakesLast(id, payload, rest);
    SpoilsFurther(id, payload, head, rest, expected);
  }

  lemma OwnSpoils(payload: seq<Byte>, item: Item, chunk: nat, rest: seq<Frame>, expected: seq<Message>)
    requires chunk > 0 && WellFormed(item, chunk) && IsComplete(item, chunk) && payload != []
    requires expected != [] && expected[0] == item.message
    ensures var frames := Sent(item, chunk) + rest; Spoiled(Gather(item.id, payload, frames), frames, expected)
  {
    OwnMessageEnds(payload, item, chunk, rest);
    assert |payload + item.message.payload| > |item.message.payload|;
  }

  /** One more item in front of a stretch that spoils the receive from any payload. */
  lemma ItemSpoils(id: nat, payload: seq<Byte>, item: Item, chunk: nat, rest: seq<Frame>, later: seq<Message>)
    requires chunk > 0 && WellFormed(item, chunk) && payload != [] && LastFrames(rest) == |later|
    requires forall p: seq<Byte> :: p != [] ==> Spoiled(Gather(id, p, rest), rest, later)
    ensures var frames := Sent(item, chunk) + rest;
            Spoiled(Gather(id, payload, frames), frames,
                    (if IsComplete(item, chunk) then [item.message] else []) + later)
  {
    var head := Sent(item, chunk);
    LastOfItem(item, chunk);
    if !IsComplete(item, chunk) {
      NoLastNoEnd(id, payload, head);
      assert [] + later == later;
      SpoilsFurther(id, payload, head, rest, later);
    } else if item.id == id {
      OwnSpoils(payload, item, chunk, rest, [item.message] + later);
    } else {
      ForeignSpoils(id, payload, head, rest, [item.message] + later);
    }
  }

  /** A receive left over from a cut-off message spoils the next complete one. */
  lemma {:induction false} LeftoverSpoils(id: nat, payload: seq<Byte>, items: seq<Item>, chunk: nat)
    requires chunk > 0 && AllWellFormed(items, chunk) && payload != []
    ensures Spoiled(Gather(id, payload, Stream(items, chunk)), Stream(items, chunk), Complete(items, chunk))
    decreases |items|
  {
    if items != [] {
      var tail := items[1..];
      LastFramesOfStream(tail, chunk);
      forall p: seq<Byte> | p != []
        ensures Spoiled(Gather(id, p, Stream(tail, chunk)), Stream(tail, chunk), Complete(tail, chunk))
      {
        LeftoverSpoils(id, p, tail, chunk);
      }
      ItemSpoils(id, payload, items[0], chunk, Stream(tail, chunk), Complete(tail, chunk));
    }
  }

  /** Behind a cut-off message the receives miss every complete one, or get the first of them wrong. */
  lemma CutSpoils(items: seq<Item>, chunk: nat)
    requires chunk > 0 && AllWellFormed(items, chunk) && items != [] && IsCut(items[0], chunk)
    requires Complete(items, chunk) != []
    ensures ReceiveAll(Stream(items, chunk)) != Complete(items, chunk)
  {
    var frames := Stream(items, chunk);
    CutReceive(items, chunk);
    if Receive(frames).Some? {
      AtMostLastFrames(frames[Receive(frames).value.1..]);
    }
  }

  lemma CutReceive(items: seq<Item>, chunk: nat)
    requires chunk > 0 && AllWellFormed(items, chunk) && items != [] && IsCut(items[0], chunk)
    ensures Spoiled(PayloadOf(Receive(Stream(items, chunk))), Stream(items, chunk), Complete(items, chunk))
  {
    var (head, tail) := (Sent(items[0], chunk), items[1..]);
    LastOfItem(items[0], chunk);
    forall p: seq<Byte> | p != []
      ensures Spoiled(Gather(items[0].id, p, Stream(tail, chunk)), Stream(tail, chunk), Complete(tail, chunk))
    {
      LeftoverSpoils(items[0].id, p, tail, chunk);
    }
    BegunSpoils(head, Stream(tail, chunk), Complete(tail, chunk));
    assert Complete(items, chunk) == Complete(tail, chunk);
  }

  function PayloadOf(r: Option<(Message, nat)>): Option<(seq<Byte>, nat)> {
    if r.None? then None else Some((r.value.0.payload, r.value.1))
  }

  lemma BegunSpoils(head: seq<Frame>, rest: seq<Frame>, expected: seq<Message>)
    requires head != [] && LastFrames(head) == 0 && head[0].data != []
    requires forall p: seq<Byte> :: p != [] ==> Spoiled(Gather(head[0].msgId, p, rest), rest, expected)
    ensures Spoiled(PayloadOf(Receive(head + rest)), head + rest, expected)
  {
    var (id, data, more) := (head[0].msgId, head[0].data, head[1..]);
    NoLastNoEnd(id, data, more);
    SpoilsFurther(id, data, more, rest, expected);
    assert (head + rest)[0] == head[0] && (head + rest)[1..] == more + rest;
    var r := Gather(id, data, more + rest);
    if r.Some? && r.value.1 <= |more + rest| {
      assert (head + rest)[r.value.1 + 1..] == (more + rest)[r.value.1..];
    }
  }

  lemma CutHead(items: seq<Item>, chunk: nat)
    requires chunk > 0 && AllWellFormed(items, chunk) && items != [] && IsCut(items[0], chunk)
    ensures ReceiveAll(Stream(items, chunk)) == Complete(items, chunk) <==> !HasComplete(items[1..], chunk)
  {
    LastFramesOfStream(items, chunk);
    CompleteIfAny(items[1..], chunk);
    assert Complete(items, chunk) == Complete(items[1..], chunk);
    if HasComplete(items[1..], chunk) {
      CutSpoils(items, chunk);
    } else {
      AtMostLastFrames(Stream(items, chunk));
    }
  }

  lemma NoneComplete(items: seq<Item>, chunk: nat)
    requires chunk > 0
    ensures !HasComplete(items, chunk) ==> CutsComeLast(items, chunk)
  {
  }

  /** Blocking receives return exactly the complete messages if and only if none of them comes behind one
      that was cut off. The batch receiver needs no such condition. */
  lemma {:induction false} BlockingReceivesComplete(items: seq<Item>, chunk: nat)
    requires chunk > 0 && AllWellFormed(items, chunk)
    ensures ReceiveAll(Stream(items, chunk)) == Complete(items, chunk) <==> CutsComeLast(items, chunk)
    decreases |items|
  {
    if items != [] {
      CutsOfTail(items, chunk);
      if IsCut(items[0], chunk) {
        CutHead(items, chunk);
        NoneComplete(items[1..], chunk);
      } else {
        BlockingReceivesComplete(items[1..], chunk);
        HeadIsReceived(items, chunk);
        SameHead(if IsComplete(items[0], chunk) then [items[0].message] else [],
                 ReceiveAll(Stream(items[1..], chunk)), Complete(items[1..], chunk));
      }
    }
  }

  lemma SameHead(head: seq<Message>, x: seq<Message>, y: seq<Message>)
    ensures head + x == head + y <==> x == y
  {
    assert (head + x)[|head|..] == x && (head + y)[|head|..] == y;
  }

  lemma HeadIsReceived(items: seq<Item>, chunk: nat)
    requires chunk > 0 && AllWellFormed(items, chunk) && items != [] && !IsCut(items[0], chunk)
    ensures ReceiveAll(Stream(items, chunk))
            == (if IsComplete(items[0], chunk) then [items[0].message] else [])
               + ReceiveAll(Stream(items[1..], chunk))
  {
    var (head, rest) := (Sent(items[0], chunk), Stream(items[1..], chunk));
    if IsComplete(items[0], chunk) {
      assert head == Fragment(items[0].id, items[0].message, chunk);
      ReceiveMessage(items[0].id, items[0].message, chunk, rest);
      assert (head + rest)[|head|..] == rest;
    } else {
      assert head + rest == rest;
    }
  }

  lemma CutsOfTail(items: seq<Item>, chunk: nat)
    requires chunk > 0 && items != []
    ensures CutsComeLast(items, chunk) <==>
              CutsComeLast(items[1..], chunk) && (IsCut(items[0], chunk) ==> !HasComplete(items[1..], chunk))
  {
    var tail := items[1..];
    assert forall i :: 0 < i < |items| ==> items[i] == tail[i - 1];
    assert forall i :: 0 <= i < |tail| ==> tail[i] == items[i + 1];
  }
}
