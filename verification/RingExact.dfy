/** What any consumer is handed, tracked or not: exactly when it is the event that was published. */
module RingExact {
  import Bits
  import opened RingProtocol
  import opened RingSafety
  import RingProgress
  import opened RingTheorems

  /** The newest of the first `n` sequences that shares the slot of `q`. */
  function NewestOn(n: int, q: int, size: int): (r: int)
    requires size > 0 && q < n
    ensures q <= r < n && n - size <= r
    ensures r == q <==> n - size <= q
  {
    SmallRemainder(n - 1 - q, size);
    n - 1 - (n - 1 - q) % size
  }

  lemma SmallRemainder(x: nat, size: int)
    requires size > 0
    ensures x % size <= x && (x % size == x <==> x < size)
  {
    Bits.ModUnique(x, size, x / size, x % size);
    if x < size {
      Bits.ModUnique(x, size, 0, x);
    }
  }

  /** It does share the slot, and no newer one does. */
  lemma NewestIsNewest(n: int, q: int, size: int)
    requires size > 0 && q < n
    ensures var r := NewestOn(n, q, size);
            SlotOf(r, size) == SlotOf(q, size) && forall k :: r < k < n ==> SlotOf(k, size) != SlotOf(q, size)
  {
    var r := NewestOn(n, q, size);
    var d := (n - 1 - q) / size;
    assert r == q + d * size;
    assert q == q / size * size + q % size;
    assert q / size * size + d * size == (q / size + d) * size;
    Bits.ModUnique(r, size, q / size + d, q % size);
    forall k | r < k < n ensures SlotOf(k, size) != SlotOf(q, size) {
      SlotsDiffer(r, k, size);
    }
  }

  /** The slot of `q` shows the newest event on it, or a write of the next one in progress. */
  lemma SlotShows<E(!new)>(s: State<E>, q: int)
    requires Reachable(s) && 0 <= q < |s.published|
    ensures s.size > 0 && |s.slots| == s.size
    ensures var r := NewestOn(|s.published|, q, s.size);
            && (Retained(s, r) ==> s.slots[SlotOf(q, s.size)] == Full(s.published[r]))
            && (!Retained(s, r) ==> s.slots[SlotOf(q, s.size)] == Torn)
  {
    ReachableInv(s);
    var n := |s.published|;
    var r := NewestOn(n, q, s.size);
    NewestIsNewest(n, q, s.size);
    if Retained(s, r) {
      assert Holds(s, r);
    } else {
      assert r == n - s.size;
      WrapsAround(r, s.size);
    }
  }

  lemma WrapsAround(r: int, size: int)
    requires size > 0
    ensures SlotOf(r + size, size) == SlotOf(r, size)
  {
    assert r + size == r / size * size + size + r % size;
    assert r / size * size + size == (r / size + 1) * size;
    Bits.ModUnique(r + size, size, r / size + 1, r % size);
  }

  /** What the next delivery of any consumer shows, exactly: the event published for it as long as that
      is retained; afterwards a later event from the same slot, or a write in progress. */
  lemma DeliveryShows<E(!new)>(s: State<E>, id: Id)
    requires Reachable(s) && CanTake(s, Deliver(id))
    ensures s.size > 0 && |s.slots| == s.size && 0 <= s.peers[id].live.value.next < |s.published|
    ensures var q := s.peers[id].live.value.next;
            var slot := s.slots[SlotOf(q, s.size)];
            var r := NewestOn(|s.published|, q, s.size);
            && (Retained(s, q) ==> slot == Full(s.published[q]))
            && (!Retained(s, q) ==> slot == Torn || (r > q && slot == Full(s.published[r])))
            && (slot == Torn <==> !Retained(s, r))
  {
    ReachableInv(s);
    assert PeerInv(s, s.peers[id]);
    SlotShows(s, s.peers[id].live.value.next);
  }

  /** The consumer's next sequence is published, and its slot still holds that event: the producer has
      not begun to reuse it, or what it wrote there is the same event again. */
  predicate ShowsNext<E(==)>(s: State<E>, id: Id) {
    && s.size > 0 && IsLive(s, id)
    && var q := s.peers[id].live.value.next;
       && 0 <= q < |s.published|
       && var r := NewestOn(|s.published|, q, s.size);
          Retained(s, r) && s.published[r] == s.published[q]
  }

  predicate Distinct<E(==)>(published: seq<E>) {
    forall i, j :: 0 <= i < j < |published| ==> published[i] != published[j]
  }

  /** When all events differ, that is when the sequence is still retained. */
  lemma ShowsNextIffRetained<E>(s: State<E>, id: Id)
    requires s.size > 0 && IsLive(s, id) && 0 <= s.peers[id].live.value.next < |s.published|
    requires Distinct(s.published)
    ensures ShowsNext(s, id) <==> Retained(s, s.peers[id].live.value.next)
  {
    var q := s.peers[id].live.value.next;
    var r := NewestOn(|s.published|, q, s.size);
    assert r > q ==> s.published[q] != s.published[r];
  }

  // ---- The whole log ----

  function LogOf<E>(s: State<E>, id: Id): seq<Delivery<E>> {
    if id in s.peers then s.peers[id].log else []
  }

  predicate IsPublished<E(==)>(d: Delivery<E>, published: seq<E>) {
    0 <= d.seqNo < |published| && d.slot == Full(published[d.seqNo])
  }

  predicate AllPublished<E(==)>(log: seq<Delivery<E>>, published: seq<E>) {
    forall k :: 0 <= k < |log| ==> IsPublished(log[k], published)
  }

  /** Each time the run delivers to `id`, the slot still shows the event. */
  predicate AlwaysShown<E(==)>(s: State<E>, steps: seq<Step<E>>, id: Id)
    requires s.size > 0 && |s.slots| == s.size && IsRun(s, steps)
    decreases |steps|
  {
    steps == [] || ((steps[0] == Deliver(id) ==> ShowsNext(s, id)) && AlwaysShown(Take(s, steps[0]), steps[1..], id))
  }

  /** Publishing more does not change what the entries of a log are. */
  lemma OneMoreEvent<E>(log: seq<Delivery<E>>, published: seq<E>, e: E)
    requires forall k :: 0 <= k < |log| ==> log[k].seqNo < |published|
    ensures AllPublished(log, published + [e]) <==> AllPublished(log, published)
  {
    forall k | 0 <= k < |log| ensures IsPublished(log[k], published + [e]) <==> IsPublished(log[k], published) {
    }
  }

  lemma OneMoreDelivery<E>(log: seq<Delivery<E>>, d: Delivery<E>, published: seq<E>)
    ensures AllPublished(log + [d], published) <==> AllPublished(log, published) && IsPublished(d, published)
  {
    var more := log + [d];
    assert more[|log|] == d && forall k :: 0 <= k < |log| ==> more[k] == log[k];
  }

  lemma DeliveryIsPublished<E(!new)>(s: State<E>, id: Id)
    requires Reachable(s) && CanTake(s, Deliver(id))
    ensures s.size > 0 && |s.slots| == s.size
    ensures var q := s.peers[id].live.value.next;
            IsPublished(Delivery(q, s.slots[SlotOf(q, s.size)]), s.published) <==> ShowsNext(s, id)
  {
    DeliveryShows(s, id);
    SlotShows(s, s.peers[id].live.value.next);
  }

  /** One step: the log stays right, or goes wrong, exactly by whether a delivery was still shown. */
  lemma StepShows<E(!new)>(s: State<E>, step: Step<E>, id: Id)
    requires Reachable(s) && s.size > 0 && |s.slots| == s.size && CanTake(s, step)
    ensures var t := Take(s, step);
            AllPublished(LogOf(t, id), t.published)
            <==> AllPublished(LogOf(s, id), s.published) && (step == Deliver(id) ==> ShowsNext(s, id))
  {
    ReachableInv(s);
    assert id in s.peers ==> PeerInv(s, s.peers[id]);
    if step == Deliver(id) {
      var q := s.peers[id].live.value.next;
      DeliveryIsPublished(s, id);
      OneMoreDelivery(LogOf(s, id), Delivery(q, s.slots[SlotOf(q, s.size)]), s.published);
    } else if step.FinishWrite? {
      OneMoreEvent(LogOf(s, id), s.published, step.event);
    } else {
      LogKept(s, step, id);
    }
  }

  lemma LogKept<E>(s: State<E>, step: Step<E>, id: Id)
    requires s.size > 0 && |s.slots| == s.size && CanTake(s, step) && step != Deliver(id) && !step.FinishWrite?
    ensures LogOf(Take(s, step), id) == LogOf(s, id) && Take(s, step).published == s.published
  {
  }

  /** Over any run: everything a consumer was ever handed is what was published exactly if nothing was
      right before and each of its deliveries came while the slot still showed the event. */
  lemma {:induction false} LogRightFrom<E(!new)>(s: State<E>, steps: seq<Step<E>>, id: Id)
    requires Reachable(s) && s.size > 0 && |s.slots| == s.size && IsRun(s, steps)
    ensures var t := After(s, steps);
            AllPublished(LogOf(t, id), t.published)
            <==> AllPublished(LogOf(s, id), s.published) && AlwaysShown(s, steps, id)
    decreases |steps|
  {
    if steps != [] {
      StepShows(s, steps[0], id);
      RingProgress.ReachableStep(s, steps[0]);
      LogRightFrom(Take(s, steps[0]), steps[1..], id);
    }
  }

  /** Exact broadcast holds of any consumer, tracked or not and over any crashes, exactly when each of
      its deliveries came while the slot still showed the event. */
  lemma ExactIffShown<E(!new)>(size: int, mode: DiscoveryMode, steps: seq<Step<E>>, id: Id)
    requires size > 0 && IsRun(Init<E>(size, mode), steps)
    ensures var t := After(Init<E>(size, mode), steps);
            AllPublished(LogOf(t, id), t.published) <==> AlwaysShown(Init<E>(size, mode), steps, id)
  {
    var s := Init<E>(size, mode);
    assert ReachedBy(s, size, mode, []);
    LogRightFrom(s, steps, id);
  }

  /** Without crashes: the log is the published events in order, each once, exactly then. */
  lemma InOrderIffShown<E(!new)>(size: int, mode: DiscoveryMode, steps: seq<Step<E>>, id: Id)
    requires size > 0 && IsRun(Init<E>(size, mode), steps)
    requires var t := After(Init<E>(size, mode), steps); id in t.peers && t.peers[id].crashes == 0
    ensures var t := After(Init<E>(size, mode), steps);
            && 0 <= Position(t.peers[id]) <= |t.published|
            && (t.peers[id].log == InOrder(t.published, Position(t.peers[id]))
                <==> AlwaysShown(Init<E>(size, mode), steps, id))
  {
    var t := After(Init<E>(size, mode), steps);
    assert ReachedBy(t, size, mode, steps);
    ExactIffShown(size, mode, steps, id);
    InOrderIffPublished(t, id);
  }

  lemma InOrderIffPublished<E(!new)>(t: State<E>, id: Id)
    requires Reachable(t) && id in t.peers && t.peers[id].crashes == 0
    ensures 0 <= Position(t.peers[id]) <= |t.published|
    ensures t.peers[id].log == InOrder(t.published, Position(t.peers[id]))
            <==> AllPublished(t.peers[id].log, t.published)
  {
    ReachableInv(t);
    var p := t.peers[id];
    assert PeerInv(t, p);
    var n := Position(p);
    forall k | 0 <= k < |p.log| ensures p.log[k].seqNo == k {
      assert p.log[0].seqNo == 0;
    }
    assert |p.log| == n;
    forall k | 0 <= k < |p.log|
      ensures p.log[k] == InOrder(t.published, n)[k] <==> IsPublished(p.log[k], t.published)
    {
    }
  }

  // ---- When all events differ: a race between one delivery and one write ----

  /** Each time the run delivers to `id`, the producer has not begun to write the sequence one ring later. */
  predicate AlwaysInTime<E(==)>(s: State<E>, steps: seq<Step<E>>, id: Id)
    requires s.size > 0 && |s.slots| == s.size && IsRun(s, steps)
    decreases |steps|
  {
    steps == []
    || ((steps[0] == Deliver(id) ==> Retained(s, s.peers[id].live.value.next))
        && AlwaysInTime(Take(s, steps[0]), steps[1..], id))
  }

  lemma {:induction false} ShownIffInTime<E(!new)>(s: State<E>, steps: seq<Step<E>>, id: Id)
    requires Reachable(s) && s.size > 0 && |s.slots| == s.size && IsRun(s, steps)
    ensures AlwaysInTime(s, steps, id) ==> AlwaysShown(s, steps, id)
    ensures Distinct(After(s, steps).published) && AlwaysShown(s, steps, id) ==> AlwaysInTime(s, steps, id)
    decreases |steps|
  {
    if steps != [] {
      RingProgress.ReachableStep(s, steps[0]);
      RingProgress.PublishedGrows(s, steps);
      ShownIffInTime(Take(s, steps[0]), steps[1..], id);
      if steps[0] == Deliver(id) {
        DeliveryShows(s, id);
        if Distinct(After(s, steps).published) {
          EarlierDistinct(s.published, After(s, steps).published);
          ShowsNextIffRetained(s, id);
        }
      }
    }
  }

  lemma EarlierDistinct<E>(earlier: seq<E>, later: seq<E>)
    requires earlier <= later && Distinct(later)
    ensures Distinct(earlier)
  {
    assert forall i :: 0 <= i < |earlier| ==> earlier[i] == later[i];
  }

  /** With distinct events, a crash-free consumer, tracked or not, gets the exact stream exactly when it
      wins every race: sequence q is delivered before the producer begins to write q + size. */
  lemma ExactIffInTime<E(!new)>(size: int, mode: DiscoveryMode, steps: seq<Step<E>>, id: Id)
    requires size > 0 && IsRun(Init<E>(size, mode), steps)
    requires var t := After(Init<E>(size, mode), steps);
             id in t.peers && t.peers[id].crashes == 0 && Distinct(t.published)
    ensures var t := After(Init<E>(size, mode), steps);
            && 0 <= Position(t.peers[id]) <= |t.published|
            && (t.peers[id].log == InOrder(t.published, Position(t.peers[id]))
                <==> AlwaysInTime(Init<E>(size, mode), steps, id))
  {
    var s := Init<E>(size, mode);
    assert ReachedBy(s, size, mode, []);
    InOrderIffShown(size, mode, steps, id);
    ShownIffInTime(s, steps, id);
  }
}
