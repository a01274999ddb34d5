/** The shared segment every process maps: ring slots, producer cursor, consumer cursors.

    Before every access the other processes may take any number of their own steps (`Yield`). The
    ghost `state` is the ring protocol's state; each access is exactly one step of that protocol, so
    whatever a process does with this memory is a run of it. */
module SharedRing {
  import opened Wrappers
  import opened RingProtocol
  import opened RingSafety
  import opened RingTheorems
  import opened RingProgress
  import opened RingGating
  import Bits

  datatype Actor = Producer | Consumer(id: Id)

  function ActorOf<E>(step: Step<E>): Actor {
    match step
    case Attach(id) => Consumer(id)
    case Snapshot(id, _) => Consumer(id)
    case Deliver(id) => Consumer(id)
    case Commit(id) => Consumer(id)
    case Crash(id) => Consumer(id)
    case _ => Producer
  }

  ghost predicate NotBy<E>(me: Actor, steps: seq<Step<E>>) {
    forall i :: 0 <= i < |steps| ==> ActorOf(steps[i]) != me
  }

  ghost predicate RunOfOthers<E>(me: Actor, s: State<E>, steps: seq<Step<E>>, t: State<E>) {
    s.size > 0 && |s.slots| == s.size && IsRun(s, steps) && NotBy(me, steps) && t == After(s, steps)
  }

  /** Everything but `me` may have moved from `s` to `t`. */
  ghost predicate OthersRan<E(!new)>(me: Actor, s: State<E>, t: State<E>) {
    exists steps: seq<Step<E>> :: RunOfOthers(me, s, steps, t)
  }

  lemma NobodyRan<E(!new)>(me: Actor, s: State<E>)
    requires Reachable(s)
    ensures OthersRan(me, s, s)
  {
    ProducerFacts(s);
    assert RunOfOthers(me, s, [], s);
  }

  // ---- What interference can and cannot do ----

  function CursorOf<E>(s: State<E>, id: Id): int {
    if id in s.peers then s.peers[id].cursor else -1
  }

  /** Consumers only ever add cursors and move them forward; the producer's part is untouched. */
  ghost predicate ProducerRely<E>(s: State<E>, t: State<E>) {
    && t == s.(peers := t.peers) && s.peers.Keys <= t.peers.Keys
    && (forall id :: id in t.peers ==> CursorOf(s, id) <= t.peers[id].cursor)
    && (forall id :: id in s.peers ==> t.peers[id].lapped == s.peers[id].lapped)
  }

  /** The others leave a consumer's record alone (they can only lap it), and only append to the
      stream it reads. */
  ghost predicate ConsumerRely<E>(id: Id, s: State<E>, t: State<E>) {
    && s.size == t.size && s.cursor <= t.cursor && s.published <= t.published
    && (id in s.peers <==> id in t.peers)
    && (id in s.peers ==> t.peers[id] == s.peers[id].(lapped := t.peers[id].lapped))
    && (id in s.peers && s.peers[id].lapped ==> t.peers[id].lapped)
  }

  lemma OneStepOfConsumers<E>(s: State<E>, step: Step<E>)
    requires Inv(s) && CanTake(s, step) && ActorOf(step) != Producer
    ensures ProducerRely(s, Take(s, step))
  {
    var id := ActorOf(step).id;
    assert id in s.peers ==> PeerInv(s, s.peers[id]);
  }

  lemma {:induction false} ProducerRelyOfRun<E>(s: State<E>, steps: seq<Step<E>>, t: State<E>)
    requires Inv(s) && RunOfOthers(Producer, s, steps, t)
    ensures ProducerRely(s, t)
    decreases |steps|
  {
    if steps != [] {
      var u := Take(s, steps[0]);
      assert ActorOf(steps[0]) != Producer;
      OneStepOfConsumers(s, steps[0]);
      StepKeepsInv(s, steps[0]);
      assert RunOfOthers(Producer, u, steps[1..], t);
      ProducerRelyOfRun(u, steps[1..], t);
      assert forall id :: id in s.peers ==> id in u.peers && id in t.peers;
    }
  }

  lemma OthersOfProducer<E(!new)>(s: State<E>, t: State<E>)
    requires Reachable(s) && OthersRan(Producer, s, t)
    ensures ProducerRely(s, t)
  {
    ReachableInv(s);
    var steps :| RunOfOthers(Producer, s, steps, t);
    ProducerRelyOfRun(s, steps, t);
  }

  lemma OneStepOfOthers<E>(id: Id, s: State<E>, step: Step<E>)
    requires Inv(s) && CanTake(s, step) && ActorOf(step) != Consumer(id)
    ensures ConsumerRely(id, s, Take(s, step))
  {
  }

  lemma {:induction false} ConsumerRelyOfRun<E>(id: Id, s: State<E>, steps: seq<Step<E>>, t: State<E>)
    requires Inv(s) && RunOfOthers(Consumer(id), s, steps, t)
    ensures ConsumerRely(id, s, t)
    decreases |steps|
  {
    if steps != [] {
      var u := Take(s, steps[0]);
      assert ActorOf(steps[0]) != Consumer(id);
      OneStepOfOthers(id, s, steps[0]);
      StepKeepsInv(s, steps[0]);
      assert RunOfOthers(Consumer(id), u, steps[1..], t);
      ConsumerRelyOfRun(id, u, steps[1..], t);
    }
  }

  lemma OthersOfConsumer<E(!new)>(id: Id, s: State<E>, t: State<E>)
    requires Reachable(s) && OthersRan(Consumer(id), s, t)
    ensures ConsumerRely(id, s, t)
  {
    ReachableInv(s);
    var steps :| RunOfOthers(Consumer(id), s, steps, t);
    ConsumerRelyOfRun(id, s, steps, t);
  }

  // ---- The memory ----

  /** Consumers known to gate the producer; what is known once stays known. */
  class Enrolment {
    ghost var gating: set<Id>

    constructor ()
      ensures gating == {}
    {
      gating := {};
    }
  }

  class SharedMemory<E(!new)> {
    const size: nat
    const slots: array<Slot<E>>
    var producerCursor: int
    var consumerCursors: map<Id, int>
    ghost var state: State<E>
    const enrolled: Enrolment

    ghost predicate Valid()
      reads this, slots, enrolled
    {
      && Reachable(state) && AllGating(state, enrolled.gating) && Bits.IsPowOf2(size)
      && state.size == size && state.slots == slots[..] && producerCursor == state.cursor
      && consumerCursors.Keys == state.peers.Keys
      && forall id :: id in state.peers ==> consumerCursors[id] == state.peers[id].cursor
    }

    /** A fresh segment: default slots, the producer cursor at -1, no consumer yet. */
    constructor (size: nat, ghost mode: DiscoveryMode)
      requires Bits.IsPowOf2(size)
      ensures Valid() && fresh(slots) && this.size == size && state == Init(size, mode)
      ensures fresh(enrolled) && enrolled.gating == {}
    {
      this.size := size;
      slots := new Slot<E>[size](_ => Blank);
      enrolled := new Enrolment();
      producerCursor := -1;
      consumerCursors := map[];
      state := Init(size, mode);
      new;
      assert ReachedBy(state, size, mode, []);
    }

    /** The slot index of a sequence, by masking. */
    function Index(sequence: int): (i: int)
      requires Bits.IsPowOf2(size) && sequence >= 0
      ensures i == SlotOf(sequence, size)
    {
      MaskIsSlot(sequence, size);
      Bits.And(sequence, size - 1)
    }

    /** Lets every other process run. */
    method Yield(ghost me: Actor)
      requires Valid()
      modifies this, slots
      ensures Valid() && OthersRan(me, old(state), state)
    {
      NobodyRan(me, state);
    }

    /** Notes that a consumer gates the producer; every later access keeps it so. */
    ghost method Enrol(id: Id)
      requires Valid() && Gating(state, id)
      modifies enrolled
      ensures Valid() && enrolled.gating == old(enrolled.gating) + {id}
    {
      enrolled.gating := enrolled.gating + {id};
    }

    /** A protocol step that touches only the process's own variables. */
    ghost method Local(step: Step<E>)
      requires Valid() && CanTake(state, step)
      requires step.Request? || step.StartScan? || step.Decide? || step.Snapshot?
      modifies `state
      ensures Valid() && state == Take(old(state), step)
    {
      Advance(state, step, enrolled.gating);
      state := Take(state, step);
    }

    /** Opens a cursor segment for reading; fails when nobody created it. */
    method AttachCursor(id: Id) returns (ok: bool, ghost mid: State<E>)
      requires Valid() && (state.phase.Idle? || state.phase.Discovering?)
      modifies this, slots
      ensures Valid() && OthersRan(Producer, old(state), mid) && ok == (id in mid.peers)
      ensures state == if ok then mid.(discovered := mid.discovered + {id}) else mid
    {
      Yield(Producer);
      mid := state;
      OthersOfProducer(old(state), mid);
      ok := id in consumerCursors;
      if ok {
        Advance(state, Find(id), enrolled.gating);
        state := Take(state, Find(id));
      }
    }

    method LoadConsumerCursor(id: Id) returns (value: int, ghost mid: State<E>)
      requires Valid() && CanTake(state, Load(id))
      modifies this, slots
      ensures Valid() && OthersRan(Producer, old(state), mid)
      ensures CanTake(mid, Load(id)) && state == Take(mid, Load(id)) && value == mid.peers[id].cursor
    {
      Yield(Producer);
      mid := state;
      OthersOfProducer(old(state), mid);
      value := consumerCursors[id];
      Advance(state, Load(id), enrolled.gating);
      state := Take(state, Load(id));
    }

    /** The caller's update of a slot begins: until it ends, a reader may see anything. */
    method BeginSlotWrite(sequence: int) returns (ghost mid: State<E>)
      requires Valid() && CanTake(state, BeginWrite) && sequence == |state.published|
      modifies this, slots
      ensures Valid() && OthersRan(Producer, old(state), mid)
      ensures CanTake(mid, BeginWrite) && state == Take(mid, BeginWrite)
    {
      Yield(Producer);
      mid := state;
      OthersOfProducer(old(state), mid);
      slots[Index(sequence)] := Torn;
      Advance(state, BeginWrite, enrolled.gating);
      state := Take(state, BeginWrite);
    }

    method FinishSlotWrite(sequence: int, event: E) returns (ghost mid: State<E>)
      requires Valid() && CanTake(state, FinishWrite(event)) && sequence == |state.published|
      modifies this, slots
      ensures Valid() && OthersRan(Producer, old(state), mid)
      ensures CanTake(mid, FinishWrite(event)) && state == Take(mid, FinishWrite(event))
    {
      Yield(Producer);
      mid := state;
      OthersOfProducer(old(state), mid);
      slots[Index(sequence)] := Full(event);
      Advance(state, FinishWrite(event), enrolled.gating);
      state := Take(state, FinishWrite(event));
    }

    method StoreProducerCursor(value: int) returns (ghost mid: State<E>)
      requires Valid() && CanTake(state, Publish) && value == state.phase.upper
      modifies this, slots
      ensures Valid() && OthersRan(Producer, old(state), mid)
      ensures CanTake(mid, Publish) && state == Take(mid, Publish)
    {
      Yield(Producer);
      mid := state;
      OthersOfProducer(old(state), mid);
      producerCursor := value;
      Advance(state, Publish, enrolled.gating);
      state := Take(state, Publish);
    }

    method LoadProducerCursor(ghost me: Id) returns (value: int)
      requires Valid()
      modifies this, slots
      ensures Valid() && OthersRan(Consumer(me), old(state), state) && value == state.cursor
    {
      Yield(Consumer(me));
      value := producerCursor;
    }

    /** Creates the consumer's cursor at -1, or attaches to the one a previous incarnation left. */
    method OpenConsumerCursor(me: Id) returns (value: int, ghost mid: State<E>)
      requires Valid() && CanTake(state, Attach(me))
      modifies this, slots
      ensures Valid() && OthersRan(Consumer(me), old(state), mid)
      ensures CanTake(mid, Attach(me)) && state == Take(mid, Attach(me)) && value == state.peers[me].cursor
    {
      Yield(Consumer(me));
      mid := state;
      OthersOfConsumer(me, old(state), mid);
      if me !in consumerCursors {
        consumerCursors := consumerCursors[me := -1];
      }
      value := consumerCursors[me];
      ProducerFacts(state);
      Advance(state, Attach(me), enrolled.gating);
      state := Take(state, Attach(me));
    }

    /** Reads a slot for the consumer's handler. */
    method ReadSlot(me: Id, sequence: int) returns (slot: Slot<E>, ghost mid: State<E>)
      requires Valid() && CanTake(state, Deliver(me)) && sequence == state.peers[me].live.value.next
      modifies this, slots
      ensures Valid() && OthersRan(Consumer(me), old(state), mid)
      ensures CanTake(mid, Deliver(me)) && state == Take(mid, Deliver(me))
      ensures slot == mid.slots[SlotOf(sequence, mid.size)]
    {
      PeerFacts(state, me);
      Yield(Consumer(me));
      mid := state;
      OthersOfConsumer(me, old(state), mid);
      slot := slots[Index(sequence)];
      Advance(state, Deliver(me), enrolled.gating);
      state := Take(state, Deliver(me));
    }

    method StoreConsumerCursor(me: Id, value: int) returns (ghost mid: State<E>)
      requires Valid() && CanTake(state, Commit(me)) && state.peers[me].live.value.upper == Some(value)
      modifies this, slots
      ensures Valid() && OthersRan(Consumer(me), old(state), mid)
      ensures CanTake(mid, Commit(me)) && state == Take(mid, Commit(me))
    {
      Yield(Consumer(me));
      mid := state;
      OthersOfConsumer(me, old(state), mid);
      consumerCursors := consumerCursors[me := value];
      ProducerFacts(state);
      Advance(state, Commit(me), enrolled.gating);
      state := Take(state, Commit(me));
    }
  }

  lemma MaskIsSlot(sequence: nat, size: nat)
    requires Bits.IsPowOf2(size)
    ensures Bits.And(sequence, size - 1) == SlotOf(sequence, size)
  {
    Bits.PowOf2Trick(size);
    var k: nat :| size == Bits.Pow2(k);
    Bits.MaskIsMod(sequence, k);
  }
}
