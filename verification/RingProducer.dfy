/** The producer process: it reserves sequences behind the slowest tracked consumer, writes their
    slots, and publishes them by one store of its cursor. */
module RingProducer {
  import opened Wrappers
  import opened RingProtocol
  import opened RingTheorems
  import opened RingProgress
  import opened RingGating
  import opened SharedRing
  import opened ConsumerBarrier
  import Bits

  const I64_MAX: int := 0x7FFF_FFFF_FFFF_FFFF
  const U64_MAX: int := 0xFFFF_FFFF_FFFF_FFFF

  /** How many slots were missing for the request. */
  datatype MissingFreeSlots = MissingFreeSlots(count: nat)

  type Reservation = Result<int, MissingFreeSlots>

  /** The events of a batch, by index. */
  function Events<E>(n: nat, update: nat -> E): (events: seq<E>)
    ensures |events| == n && forall i :: 0 <= i < n ==> events[i] == update(i)
  {
    if n == 0 then [] else Events(n - 1, update) + [update(n - 1)]
  }

  /** The request and the sequence it leads to are 64-bit integers. */
  predicate Fits(sequence: int, n: int) {
    n <= I64_MAX && sequence - 1 + n <= I64_MAX
  }

  /** Nobody the barrier tracks was lapped before the barrier found it. */
  ghost predicate TrackedAreSafe<E>(s: State<E>) {
    forall id :: id in s.discovered && id in s.peers ==> !s.peers[id].lapped
  }

  /** If the clearance of `s` was still where it started, everybody tracked in `t` is gating and safe. */
  ghost predicate GatesInTime<E(!new)>(s: State<E>, t: State<E>) {
    s.clear == t.size - 1 ==> AllGating(t, t.discovered) && TrackedAreSafe(t)
  }

  /** That holds at once, and right after the first grant. */
  lemma GatesNow<E(!new)>(s: State<E>)
    requires Reachable(s) && s.size > 0 && |s.slots| == s.size
    ensures GatesInTime(s, s)
    ensures CanTake(s, Decide) ==> GatesInTime(s, Take(s, Decide))
  {
    if s.clear == s.size - 1 {
      FirstGrantGates(s);
      GatingAreSafe(s);
      if CanTake(s, Decide) {
        GatingAreSafe(Take(s, Decide));
      }
    }
  }

  lemma GatingAreSafe<E(!new)>(s: State<E>)
    requires AllGating(s, s.discovered)
    ensures TrackedAreSafe(s)
  {
    forall id | id in s.discovered ensures id in s.peers && !s.peers[id].lapped {
      GatingIsSafe(s, id);
    }
  }

  /** The cached clearance never promises more room than there is. */
  lemma CacheIsSound<E(!new)>(s: State<E>, n: int)
    requires Reachable(s) && TrackedAreSafe(s) && s.sequence - 1 + n <= s.clear
    ensures HasRoom(s, s.discovered, n)
  {
    ProducerFacts(s);
    forall id | id in s.discovered ensures s.cursor + n <= CursorOf(s, id) + s.size {
      PeerFacts(s, id);
    }
  }

  /** What asking for `n` slots does. */
  lemma RequestOutcome<E(!new)>(s: State<E>, n: int)
    requires Reachable(s) && s.phase.Idle? && n > 0
    ensures s.size > 0 && |s.slots| == s.size
    ensures var t := Take(s, Request(n));
            && RingKept(s, t) && t == s.(phase := t.phase) && |s.published| == s.sequence
            && t.phase == (if s.clear >= s.sequence - 1 + n then Writing(s.sequence - 1 + n, false) else Discovering(n))
            && (t.phase.Writing? && TrackedAreSafe(t) ==> HasRoom(t, t.discovered, n))
  {
    ProducerFacts(s);
    var t := Take(s, Request(n));
    if t.phase.Writing? && TrackedAreSafe(s) {
      CacheIsSound(s, n);
      SameCursorsSameRoom(s, t, n);
    }
  }

  /** What the decision after a scan that reported `rear` does. */
  lemma DecideOutcome<E(!new)>(start: State<E>, rear: int, s: State<E>, n: int)
    requires Reachable(s) && s.phase.Scanning? && s.phase.todo == {} && s.phase.n == n
    requires rear == Rear(s)
    requires RingKept(start, s) && RearBetween(start, rear, s, s.discovered)
    ensures s.size > 0 && |s.slots| == s.size && CanTake(s, Decide)
    ensures s.sequence == s.cursor + 1 == |s.published| && n > 0
    ensures var t := Take(s, Decide);
            var free := FreeSlots(s.size, s.cursor, rear);
            && RingKept(start, t) && t.discovered == s.discovered && s.clear <= t.clear
            && HasRoom(t, t.discovered, free) && !HasRoom(start, t.discovered, free + 1)
            && (free < n ==> t == s.(phase := Idle))
            && (free >= n ==>
                  && t.clear == s.cursor + free && t.phase == Writing(s.cursor + n, false)
                  && HasRoom(t, t.discovered, n))
  {
    ProducerFacts(s);
    var t := Take(s, Decide);
    DecideStaysSafe(s);
    assert forall id :: CursorOf(t, id) == CursorOf(s, id);
    var free := FreeSlots(s.size, s.cursor, rear);
    RoomOfRear(start, rear, s, s.discovered, free);
    RoomOfRear(start, rear, s, s.discovered, free + 1);
    RoomOfRear(start, rear, s, s.discovered, n);
    SameCursorsSameRoom(s, t, free);
    SameCursorsSameRoom(s, t, n);
  }

  lemma SameCursorsSameRoom<E>(s: State<E>, t: State<E>, n: int)
    requires s.size == t.size && s.cursor == t.cursor && s.mode == t.mode
    requires forall id :: CursorOf(s, id) == CursorOf(t, id)
    ensures HasRoom(s, s.discovered, n) <==> HasRoom(t, s.discovered, n)
  {
  }

  /** No tracked consumer moved between `s` and `t`. */
  ghost predicate Quiet<E>(s: State<E>, t: State<E>) {
    forall id :: id in t.discovered ==> CursorOf(s, id) == CursorOf(t, id)
  }

  /** The safety of the tracked consumers survives while no new one is found. */
  lemma SafeStays<E(!new)>(s: State<E>, t: State<E>)
    requires Reachable(s) && TrackedAreSafe(s) && StaysSafe(s, t) && t.discovered == s.discovered
    ensures TrackedAreSafe(t)
  {
    ProducerFacts(s);
  }

  lemma KeepsSafe<E(!new)>(s: State<E>, t: State<E>)
    requires Reachable(s) && PeersKept(s, t)
    ensures TrackedAreSafe(s) && t.discovered == s.discovered ==> TrackedAreSafe(t)
  {
    if TrackedAreSafe(s) && t.discovered == s.discovered {
      SafeStays(s, t);
    }
  }

  /** Bounds from both ends of a quiet stretch meet. */
  lemma QuietIsExact<E>(s: State<E>, t: State<E>, n: int)
    requires s.size == t.size && s.cursor == t.cursor && s.mode == t.mode && Quiet(s, t)
    ensures HasRoom(s, t.discovered, n) <==> HasRoom(t, t.discovered, n)
  {
  }

  lemma LessRoom<E>(s: State<E>, tracked: set<Id>, n: int, m: int)
    requires m <= n && HasRoom(s, tracked, n)
    ensures HasRoom(s, tracked, m)
  {
  }

  /** A refusal's count, once the room at both ends is the same, says exactly how much there is. */
  lemma CountIsExact<E>(s: State<E>, t: State<E>, free: int)
    requires s.size == t.size && s.cursor == t.cursor && s.mode == t.mode && Quiet(s, t)
    requires HasRoom(t, t.discovered, free) && !HasRoom(s, t.discovered, free + 1)
    ensures forall m :: HasRoom(s, t.discovered, m) <==> m <= free
  {
    forall m ensures HasRoom(s, t.discovered, m) <==> m <= free {
      QuietIsExact(s, t, free);
      if m <= free {
        LessRoom(s, t.discovered, free, m);
      } else if HasRoom(s, t.discovered, m) {
        LessRoom(s, t.discovered, m, free + 1);
      }
    }
  }

  /** The decision after a scan leaves nobody behind whom the barrier tracks. */
  lemma DecideStaysSafe<E(!new)>(s: State<E>)
    requires Reachable(s) && CanTake(s, Decide)
    ensures s.size > 0 && |s.slots| == s.size && StaysSafe(s, Take(s, Decide))
  {
    ReachableInv(s);
    forall id | id in s.discovered && id in s.peers && !s.peers[id].lapped
      ensures !Take(s, Decide).peers[id].lapped
    {
      LappingStep(s, Decide, id);
    }
  }

  /** When the producer has to wait for tracked consumers, one of them has events to consume. */
  lemma BlockedMeansWork<E(!new)>(s: State<E>)
    requires Reachable(s) && s.discovered != {} && !HasRoom(s, s.discovered, 1)
    ensures exists id :: id in s.discovered && id in s.peers && s.peers[id].cursor < s.cursor
  {
    ProducerFacts(s);
    var id :| id in s.discovered && s.cursor + 1 > CursorOf(s, id) + s.size;
    assert id in s.peers;
  }

  class SharedProducer<E(!new)> {
    const mem: SharedMemory<E>
    const barrier: SharedConsumerBarrier<E>
    var sequence: int
    var sequenceClearOfConsumers: int

    ghost predicate Linked()
      reads this, mem, mem.slots, mem.enrolled, barrier
    {
      && barrier.mem == mem && barrier.Linked()
      && sequence == mem.state.sequence && sequenceClearOfConsumers == mem.state.clear
    }

    ghost predicate Valid()
      reads this, mem, mem.slots, mem.enrolled, barrier
    {
      Linked() && mem.state.phase.Idle?
    }

    /** `n` more slots are granted but not written yet. */
    ghost predicate Granted(n: int)
      reads this, mem, mem.slots, mem.enrolled, barrier
    {
      Linked() && n > 0 && mem.state.phase == Writing(sequence - 1 + n, false) && |mem.state.published| == sequence
    }

    /** A request for `n` slots has to scan the barrier. */
    predicate NeedsScan(n: int)
      reads this
    {
      sequenceClearOfConsumers < sequence - 1 + n && Fits(sequence, n)
    }

    constructor (size: nat, discovery: Discovery, now: nat)
      requires Bits.IsPowOf2(size)
      ensures Valid() && fresh(mem) && fresh(mem.slots) && fresh(barrier)
      ensures sequence == 0 && sequenceClearOfConsumers == size - 1 && mem.size == size
      ensures barrier.discovery == discovery && barrier.consumerCursors == {} && !barrier.discoveryCompleted
      ensures barrier.lastScan == now
      ensures mem.state == Init(size, if discovery.DiscoveryDisabled? then Disabled else Enabled)
    {
      var m := new SharedMemory<E>(size, if discovery.DiscoveryDisabled? then Disabled else Enabled);
      var b := new SharedConsumerBarrier(m, discovery, now);
      mem, barrier := m, b;
      sequence := 0;
      sequenceClearOfConsumers := size - 1;
    }

    /** The last of `n` sequences from `sequence` on, unless there are fewer in 64 bits. */
    function LastReservedSequence(n: int): (r: Reservation)
      requires n > 0
      reads this
      ensures r.Ok? ==> r.value <= I64_MAX && r.value - sequence + 1 == n
      ensures r.Err? ==> I64_MAX - sequence + 1 < n && r.error.count == U64_MAX
    {
      if sequence - 1 + n > I64_MAX then Err(MissingFreeSlots(U64_MAX)) else Ok(sequence - 1 + n)
    }

    /** Reserves `n` slots or reports how many are missing. Consumers run on throughout; the answer
        is right for some moment during the call: room before the call is enough, a grant leaves
        room after it, and the missing count lies between the two. */
    method NextSequences(n: nat, env: Surroundings) returns (r: Reservation)
      requires Valid() && n > 0
      modifies this, barrier, mem, mem.slots
      ensures RingKept(old(mem.state), mem.state)
      ensures old(mem.state.clear) <= mem.state.clear && sequence == old(sequence)
      ensures r.Ok? ==> Granted(n) && r.value == sequence - 1 + n
      ensures r.Err? ==> Valid() && mem.state.clear == old(mem.state.clear)
      ensures r.Ok? && TrackedAreSafe(mem.state) ==> HasRoom(mem.state, mem.state.discovered, n)
      ensures HasRoom(old(mem.state), mem.state.discovered, n) && Fits(sequence, n) ==> r.Ok?
      ensures !Fits(sequence, n) ==> r == Err(MissingFreeSlots(U64_MAX))
      ensures r.Err? && Fits(sequence, n) ==>
                && HasRoom(mem.state, mem.state.discovered, n - r.error.count)
                && !HasRoom(old(mem.state), mem.state.discovered, n - r.error.count + 1)
      ensures Quiet(old(mem.state), mem.state) && TrackedAreSafe(mem.state) && Fits(sequence, n) ==>
                (r.Ok? <==> HasRoom(old(mem.state), mem.state.discovered, n))
      ensures Quiet(old(mem.state), mem.state) && r.Err? && Fits(sequence, n) ==>
                forall m :: HasRoom(old(mem.state), mem.state.discovered, m) <==> m <= n - r.error.count
      ensures TrackedAreSafe(old(mem.state)) && mem.state.discovered == old(mem.state.discovered) ==>
                TrackedAreSafe(mem.state)
      ensures GatesInTime(old(mem.state), mem.state)
      ensures ScannedIf(old(NeedsScan(n) && barrier.DiscoveryScanPlan(env.now).0), barrier.discovery, env,
                        old(mem.consumerCursors).Keys, old(barrier.consumerCursors), barrier.consumerCursors)
    {
      r := Reserve(n, env);
      KeepsSafe(old(mem.state), mem.state);
      if Quiet(old(mem.state), mem.state) && Fits(sequence, n) {
        QuietIsExact(old(mem.state), mem.state, n);
        if r.Err? {
          CountIsExact(old(mem.state), mem.state, n - r.error.count);
        }
      }
    }

    method Reserve(n: nat, env: Surroundings) returns (r: Reservation)
      requires Valid() && n > 0
      modifies this, barrier, mem, mem.slots
      ensures RingKept(old(mem.state), mem.state)
      ensures old(mem.state.clear) <= mem.state.clear && sequence == old(sequence)
      ensures r.Ok? ==> Granted(n) && r.value == sequence - 1 + n
      ensures r.Err? ==> Valid() && mem.state.clear == old(mem.state.clear)
      ensures r.Ok? && TrackedAreSafe(mem.state) ==> HasRoom(mem.state, mem.state.discovered, n)
      ensures HasRoom(old(mem.state), mem.state.discovered, n) && Fits(sequence, n) ==> r.Ok?
      ensures !Fits(sequence, n) ==> r == Err(MissingFreeSlots(U64_MAX))
      ensures r.Err? && Fits(sequence, n) ==>
                && HasRoom(mem.state, mem.state.discovered, n - r.error.count)
                && !HasRoom(old(mem.state), mem.state.discovered, n - r.error.count + 1)
      ensures GatesInTime(old(mem.state), mem.state)
      ensures ScannedIf(old(NeedsScan(n) && barrier.DiscoveryScanPlan(env.now).0), barrier.discovery, env,
                        old(mem.consumerCursors).Keys, old(barrier.consumerCursors), barrier.consumerCursors)
    {
      GatesNow(mem.state);
      if n > I64_MAX {
        return Err(MissingFreeSlots(U64_MAX));
      }
      r := LastReservedSequence(n);
      if r.Ok? {
        var missing := Ask(n, r.value, env);
        if missing.Some? {
          r := Err(missing.value);
        }
      }
    }

    /** Takes the slots from the cached clearance or, when that is not enough, by the slow path. */
    method Ask(n: nat, last: int, env: Surroundings) returns (missing: Option<MissingFreeSlots>)
      requires Valid() && n > 0 && last == sequence - 1 + n && Fits(sequence, n)
      modifies this, barrier, mem, mem.slots
      ensures RingKept(old(mem.state), mem.state)
      ensures old(mem.state.clear) <= mem.state.clear && sequence == old(sequence)
      ensures missing.None? ==> Granted(n)
      ensures missing.None? && TrackedAreSafe(mem.state) ==> HasRoom(mem.state, mem.state.discovered, n)
      ensures missing.Some? ==>
                && Valid() && mem.state.clear == old(mem.state.clear) && missing.value.count > 0
                && HasRoom(mem.state, mem.state.discovered, n - missing.value.count)
                && !HasRoom(old(mem.state), mem.state.discovered, n - missing.value.count + 1)
      ensures GatesInTime(old(mem.state), mem.state)
      ensures ScannedIf(old(NeedsScan(n) && barrier.DiscoveryScanPlan(env.now).0), barrier.discovery, env,
                        old(mem.consumerCursors).Keys, old(barrier.consumerCursors), barrier.consumerCursors)
    {
      RequestOutcome(mem.state, n);
      mem.Local(Request(n));
      ghost var asked := mem.state;
      GatesNow(asked);
      missing := None;
      if sequenceClearOfConsumers < last {
        missing := UpdateMinConsumerClearanceWindow(n, env);
        RingKeptTrans(old(mem.state), asked, mem.state);
      }
    }

    /** The slow path: scan the barrier, then either move the clearance or refuse. */
    method UpdateMinConsumerClearanceWindow(n: nat, env: Surroundings) returns (missing: Option<MissingFreeSlots>)
      requires Linked() && mem.state.phase == Discovering(n)
      modifies this, barrier, mem, mem.slots
      ensures RingKept(old(mem.state), mem.state)
      ensures old(mem.state.clear) <= mem.state.clear && sequence == old(sequence)
      ensures missing.None? ==> Granted(n) && HasRoom(mem.state, mem.state.discovered, n)
      ensures missing.Some? ==>
                && Valid() && mem.state.clear == old(mem.state.clear) && missing.value.count > 0
                && HasRoom(mem.state, mem.state.discovered, n - missing.value.count)
                && !HasRoom(old(mem.state), mem.state.discovered, n - missing.value.count + 1)
      ensures GatesInTime(old(mem.state), mem.state)
      ensures missing.None? ==>
                var free := mem.state.clear - mem.state.cursor;
                && HasRoom(mem.state, mem.state.discovered, free)
                && !HasRoom(old(mem.state), mem.state.discovered, free + 1)
      ensures ScannedIf(old(barrier.DiscoveryScanPlan(env.now).0), barrier.discovery, env,
                        old(mem.consumerCursors).Keys, old(barrier.consumerCursors), barrier.consumerCursors)
    {
      ghost var start := mem.state;
      var rear := barrier.GetMinConsumerSequence(env);
      DecideOutcome(start, rear, mem.state, n);
      GatesNow(mem.state);
      missing := DecideOn(rear, n);
    }

    /** Moves the clearance to the wrap point behind `rear` if the request fits before it. */
    method DecideOn(rear: int, n: nat) returns (missing: Option<MissingFreeSlots>)
      requires Linked() && CanTake(mem.state, Decide) && rear == Rear(mem.state) && n == mem.state.phase.n
      requires mem.state.sequence == mem.state.cursor + 1
      modifies `sequenceClearOfConsumers, mem`state
      ensures Linked() && mem.state == Take(old(mem.state), Decide)
      ensures var free := FreeSlots(mem.size, mem.state.cursor, rear);
              missing == if free < n then Some(MissingFreeSlots(n - free)) else None
    {
      var lastPublished := sequence - 1;
      var freeSlots := FreeSlots(mem.size, lastPublished, rear);
      mem.Local(Decide);
      if freeSlots < n {
        missing := Some(MissingFreeSlots(n - freeSlots));
      } else {
        sequenceClearOfConsumers := lastPublished + freeSlots;
        missing := None;
      }
    }

    /** Writes one granted slot: the update runs in place, so it begins and ends. */
    method WriteSlot(q: int, event: E)
      requires Linked() && mem.state.phase.Writing? && !mem.state.phase.torn
      requires q == |mem.state.published| <= mem.state.phase.upper
      modifies mem, mem.slots
      ensures Linked() && mem.state.phase == old(mem.state.phase)
      ensures mem.state.published == old(mem.state.published) + [event]
      ensures mem.state.clear == old(mem.state.clear) && mem.state.discovered == old(mem.state.discovered)
      ensures PeersKept(old(mem.state), mem.state)
      ensures mem.state.slots[SlotOf(q, mem.size)] == Full(event)
    {
      ghost var before, mid := mem.state, mem.state;
      ProducerFacts(before);
      mid := mem.BeginSlotWrite(q);
      OthersOfProducer(before, mid);
      ghost var torn, end := mem.state, mem.state;
      ProducerFacts(torn);
      end := mem.FinishSlotWrite(q, event);
      OthersOfProducer(torn, end);
    }

    /** Publishes the granted event and advances. */
    method ApplyUpdate(event: E) returns (published: int)
      requires Granted(1)
      modifies this, mem, mem.slots
      ensures Valid() && published == old(sequence) && sequence == old(sequence) + 1
      ensures mem.state.published == old(mem.state.published) + [event] && mem.state.cursor == published
      ensures mem.state.clear == old(mem.state.clear) && mem.state.discovered == old(mem.state.discovered)
      ensures PeersKept(old(mem.state), mem.state)
    {
      published := sequence;
      WriteSlot(published, event);
      PublishThrough(published);
    }

    /** Stores the producer cursor and advances the local sequence past it. */
    method PublishThrough(upper: int)
      requires Linked() && CanTake(mem.state, Publish) && upper == mem.state.phase.upper
      modifies this, mem, mem.slots
      ensures Valid() && sequence == upper + 1 && mem.state.cursor == upper
      ensures mem.state.published == old(mem.state.published) && mem.state.clear == old(mem.state.clear)
      ensures mem.state.discovered == old(mem.state.discovered) && PeersKept(old(mem.state), mem.state)
    {
      ghost var before, mid := mem.state, mem.state;
      mid := mem.StoreProducerCursor(upper);
      OthersOfProducer(before, mid);
      sequence := upper + 1;
    }

    /** Writes the whole granted batch, then publishes it by its last sequence. */
    method ApplyBatchUpdates(n: nat, update: nat -> E) returns (upper: int)
      requires Granted(n)
      modifies this, mem, mem.slots
      ensures Valid() && upper == old(sequence) + n - 1 && sequence == old(sequence) + n
      ensures mem.state.published == old(mem.state.published) + Events(n, update) && mem.state.cursor == upper
      ensures mem.state.clear == old(mem.state.clear) && mem.state.discovered == old(mem.state.discovered)
      ensures PeersKept(old(mem.state), mem.state)
    {
      var lower := sequence;
      upper := lower + (n - 1);
      ProducerFacts(mem.state);
      var i := 0;
      while i < n
        invariant 0 <= i <= n && Linked() && sequence == lower
        invariant mem.state.phase == Writing(upper, false)
        invariant mem.state.published == old(mem.state.published) + Events(i, update)
        invariant mem.state.clear == old(mem.state.clear) && mem.state.discovered == old(mem.state.discovered)
        invariant PeersKept(old(mem.state), mem.state)
      {
        WriteSlot(lower + i, update(i));
        i := i + 1;
      }
      PublishThrough(upper);
    }

    /** Publishes all `n` events or none; a batch of zero is a no-op. */
    method TryBatchPublish(n: nat, update: nat -> E, env: Surroundings) returns (r: Reservation)
      requires Valid()
      modifies this, barrier, mem, mem.slots
      ensures Valid()
      ensures r.Ok? ==> && r.value == old(sequence) - 1 + n == mem.state.cursor && sequence == old(sequence) + n
                        && mem.state.published == old(mem.state.published) + Events(n, update)
                        && n <= mem.size
      ensures r.Err? ==> sequence == old(sequence) && mem.state.published == old(mem.state.published)
      ensures n == 0 ==> r.Ok?
      ensures PeersKept(old(mem.state), mem.state)
      ensures HasRoom(old(mem.state), mem.state.discovered, n) && Fits(old(sequence), n) ==> r.Ok?
      ensures r.Err? && Fits(old(sequence), n) ==>
                && HasRoom(mem.state, mem.state.discovered, n - r.error.count)
                && !HasRoom(old(mem.state), mem.state.discovered, n - r.error.count + 1)
      ensures TrackedAreSafe(old(mem.state)) && mem.state.discovered == old(mem.state.discovered) ==>
                TrackedAreSafe(mem.state)
      ensures old(mem.state.clear) == mem.size - 1 ==> TrackedAreSafe(mem.state)
      ensures ScannedIf(old(n > 0 && NeedsScan(n) && barrier.DiscoveryScanPlan(env.now).0), barrier.discovery, env,
                        old(mem.consumerCursors).Keys, old(barrier.consumerCursors), barrier.consumerCursors)
    {
      if n == 0 {
        ProducerFacts(mem.state);
        assert mem.state.published == mem.state.published + Events(0, update);
        GatesNow(mem.state);
        return Ok(sequence - 1);
      }
      r := PublishAllOrNone(n, update, env);
    }

    method PublishAllOrNone(n: nat, update: nat -> E, env: Surroundings) returns (r: Reservation)
      requires Valid() && n > 0
      modifies this, barrier, mem, mem.slots
      ensures Valid()
      ensures r.Ok? ==> && r.value == old(sequence) - 1 + n == mem.state.cursor && sequence == old(sequence) + n
                        && mem.state.published == old(mem.state.published) + Events(n, update)
                        && n <= mem.size
      ensures r.Err? ==> sequence == old(sequence) && mem.state.published == old(mem.state.published)
      ensures PeersKept(old(mem.state), mem.state)
      ensures HasRoom(old(mem.state), mem.state.discovered, n) && Fits(old(sequence), n) ==> r.Ok?
      ensures r.Err? && Fits(old(sequence), n) ==>
                && HasRoom(mem.state, mem.state.discovered, n - r.error.count)
                && !HasRoom(old(mem.state), mem.state.discovered, n - r.error.count + 1)
      ensures TrackedAreSafe(old(mem.state)) && mem.state.discovered == old(mem.state.discovered) ==>
                TrackedAreSafe(mem.state)
      ensures old(mem.state.clear) == mem.size - 1 ==> TrackedAreSafe(mem.state)
      ensures ScannedIf(old(NeedsScan(n) && barrier.DiscoveryScanPlan(env.now).0), barrier.discovery, env,
                        old(mem.consumerCursors).Keys, old(barrier.consumerCursors), barrier.consumerCursors)
    {
      r := NextSequences(n, env);
      if r.Ok? {
        ProducerFacts(mem.state);
        ghost var granted := mem.state;
        var upper := ApplyBatchUpdates(n, update);
        KeepsSafe(granted, mem.state);
      }
      KeepsSafe(old(mem.state), mem.state);
    }

    method TryPublish(event: E, env: Surroundings) returns (r: Option<int>)
      requires Valid()
      modifies this, barrier, mem, mem.slots
      ensures Valid()
      ensures r.Some? ==> r.value == old(sequence) && mem.state.published == old(mem.state.published) + [event]
      ensures r.None? ==> sequence == old(sequence) && RingKept(old(mem.state), mem.state)
      ensures PeersKept(old(mem.state), mem.state)
      ensures HasRoom(old(mem.state), mem.state.discovered, 1) && Fits(old(sequence), 1) ==> r.Some?
      ensures TrackedAreSafe(old(mem.state)) && mem.state.discovered == old(mem.state.discovered) ==>
                TrackedAreSafe(mem.state)
      ensures old(mem.state.clear) == mem.size - 1 ==> TrackedAreSafe(mem.state)
      ensures ScannedIf(old(NeedsScan(1) && barrier.DiscoveryScanPlan(env.now).0), barrier.discovery, env,
                        old(mem.consumerCursors).Keys, old(barrier.consumerCursors), barrier.consumerCursors)
    {
      var reserved := NextSequences(1, env);
      r := None;
      if reserved.Ok? {
        ghost var granted := mem.state;
        var published := ApplyUpdate(event);
        KeepsSafe(granted, mem.state);
        r := Some(published);
      }
      KeepsSafe(old(mem.state), mem.state);
    }
  }
}
