/** Framed messages over the ring: what a consumer's handler has received at any moment. */
module EndToEnd {
  import R = RingProtocol
  import T = RingTheorems
  import G = RingGating
  import opened Framing

  /** The frames of deliveries that all carried one. */
  function FramesOf(log: seq<R.Delivery<Frame>>): seq<Frame>
    requires forall k :: 0 <= k < |log| ==> log[k].slot.Full?
  {
    seq(|log|, k requires 0 <= k < |log| => log[k].slot.value)
  }

  /** The producer has published the beginning of the stream of `items`, frame by frame. */
  ghost predicate PublishesItems(s: R.State<Frame>, items: seq<Item>, chunk: nat)
    requires chunk > 0
  {
    AllWellFormed(items, chunk) && s.published <= Stream(items, chunk)
  }

  /** The part of a peer's log that its present incarnation received. */
  function Incarnation<E>(p: R.Peer<E>): seq<R.Delivery<E>>
    requires p.start <= |p.log|
  {
    p.log[p.start..]
  }

  lemma DecodePrefix(a: Assembly, stream: seq<Frame>, n: nat)
    requires n <= |stream|
    ensures Decode(a, stream[..n]).1 <= Decode(a, stream).1
  {
    assert stream == stream[..n] + stream[n..];
    DecodeAppend(a, stream[..n], stream[n..]);
  }

  /** What an unlapped consumer's present incarnation was handed is a stretch of the published
      frames that ends where the consumer stands. */
  lemma IncarnationIsStretch<E(!new)>(s: R.State<E>, id: R.Id)
    requires T.Reachable(s) && R.IsLive(s, id) && !s.peers[id].lapped
    ensures var p := s.peers[id];
            && p.start <= |p.log| && |Incarnation(p)| <= R.Position(p) <= |s.published|
            && forall k :: 0 <= k < |Incarnation(p)| ==>
                 Incarnation(p)[k].slot == R.Full(s.published[R.Position(p) - |Incarnation(p)| + k])
  {
    T.ReachableInv(s);
    var p := s.peers[id];
    assert R.PeerInv(s, p);
    var log := Incarnation(p);
    if log != [] {
      assert p.log[p.start].seqNo == R.Position(p) - |log|;
    }
    forall k | 0 <= k < |log|
      ensures 0 <= R.Position(p) - |log| + k < |s.published|
              && log[k].slot == R.Full(s.published[R.Position(p) - |log| + k])
    {
      assert log[k] == p.log[p.start + k];
      assert log[k].seqNo == R.Position(p) - |log| + k;
    }
  }

  /** End to end, without crashes: in every reachable state the messages decoded so far are a prefix
      of the complete published ones, and once the consumer has seen the whole stream they are all
      of them. A message may have more frames than the ring has slots. */
  lemma DeliveredMessagesArePrefix(s: R.State<Frame>, id: R.Id, items: seq<Item>, chunk: nat)
    requires chunk > 0 && T.Reachable(s) && PublishesItems(s, items, chunk)
    requires id in s.peers && !s.peers[id].lapped && s.peers[id].crashes == 0
    ensures forall k :: 0 <= k < |s.peers[id].log| ==> s.peers[id].log[k].slot.Full?
    ensures var messages := Decode(Assembly(0, 0, []), FramesOf(s.peers[id].log)).1;
            && messages <= Complete(items, chunk)
            && (R.Position(s.peers[id]) == |Stream(items, chunk)| ==> messages == Complete(items, chunk))
  {
    T.ExactBroadcast(s, id);
    var n := R.Position(s.peers[id]);
    var stream := Stream(items, chunk);
    assert FramesOf(s.peers[id].log) == stream[..n];
    DecodePrefix(Assembly(0, 0, []), stream, n);
    DecodeStream(Assembly(0, 0, []), items, chunk);
    assert stream[..|stream|] == stream;
  }

  /** After any number of crashes and rejoins, an incarnation that decodes with a fresh buffer
      delivers, in order, only complete messages whose first frame it was handed; a message whose
      beginning an earlier incarnation had committed is not among them. */
  lemma RejoinedDecoderResynchronises(s: R.State<Frame>, id: R.Id, items: seq<Item>, chunk: nat)
    requires chunk > 0 && T.Reachable(s) && PublishesItems(s, items, chunk)
    requires forall i :: 0 <= i < |items| ==> items[i].id != 0
    requires R.IsLive(s, id) && !s.peers[id].lapped
    ensures var p := s.peers[id];
            && p.start <= |p.log| && 0 <= R.Position(p) - |Incarnation(p)|
            && (forall k :: 0 <= k < |Incarnation(p)| ==> Incarnation(p)[k].slot.Full?)
            && var messages := Decode(Assembly(0, 0, []), FramesOf(Incarnation(p))).1;
               var expected := Complete(StartingAt(items, R.Position(p) - |Incarnation(p)|), chunk);
               messages <= expected && (R.Position(p) == |Stream(items, chunk)| ==> messages == expected)
  {
    IncarnationIsStretch(s, id);
    var p := s.peers[id];
    var stream := Stream(items, chunk);
    var from := R.Position(p) - |Incarnation(p)|;
    assert FramesOf(Incarnation(p)) == stream[from..][..|Incarnation(p)|];
    DecodePrefix(Assembly(0, 0, []), stream[from..], |Incarnation(p)|);
    Resynchronises(0, items, from, chunk);
    if R.Position(p) == |stream| {
      assert stream[from..][..|Incarnation(p)|] == stream[from..];
    }
  }

  /** The same for gating consumers, over every run. */
  lemma GatingMessagesArePrefix(u: R.State<Frame>, id: R.Id, items: seq<Item>, chunk: nat)
    requires chunk > 0 && G.Gating(u, id) && PublishesItems(u, items, chunk)
    ensures id in u.peers
    ensures u.peers[id].crashes == 0 ==>
              && (forall k :: 0 <= k < |u.peers[id].log| ==> u.peers[id].log[k].slot.Full?)
              && var messages := Decode(Assembly(0, 0, []), FramesOf(u.peers[id].log)).1;
                 && messages <= Complete(items, chunk)
                 && (R.Position(u.peers[id]) == |Stream(items, chunk)| ==> messages == Complete(items, chunk))
  {
    G.GatingIsSafe(u, id);
    if u.peers[id].crashes == 0 {
      DeliveredMessagesArePrefix(u, id, items, chunk);
    }
  }

  lemma GatingRejoinResynchronises(u: R.State<Frame>, id: R.Id, items: seq<Item>, chunk: nat)
    requires chunk > 0 && G.Gating(u, id) && PublishesItems(u, items, chunk)
    requires forall i :: 0 <= i < |items| ==> items[i].id != 0
    ensures id in u.peers
    ensures u.peers[id].live.Some? ==>
              var p := u.peers[id];
              && p.start <= |p.log| && 0 <= R.Position(p) - |Incarnation(p)|
              && (forall k :: 0 <= k < |Incarnation(p)| ==> Incarnation(p)[k].slot.Full?)
              && var messages := Decode(Assembly(0, 0, []), FramesOf(Incarnation(p))).1;
                 var expected := Complete(StartingAt(items, R.Position(p) - |Incarnation(p)|), chunk);
                 messages <= expected && (R.Position(p) == |Stream(items, chunk)| ==> messages == expected)
  {
    G.GatingIsSafe(u, id);
    if u.peers[id].live.Some? {
      RejoinedDecoderResynchronises(u, id, items, chunk);
    }
  }
}
