/**
 The strict-broadcast ring as a step machine: one producer process, any number of consumer
 processes, and the shared memory between them (slots, producer cursor, one cursor per consumer).

 Every load and store of a shared cursor is a step of its own, so a barrier scan is not an atomic
 snapshot; a slot write is two steps, so a half-written event is observable as `Torn`.
 */
module RingProtocol {
  import opened Wrappers

  /** A consumer ID; it names the consumer's cursor segment. */
  type Id = string

  /** What a ring slot holds: its start-up default, a write in progress, or a whole event. */
  datatype Slot<+E> = Blank | Torn | Full(value: E)

  /** What discovery mode the producer was built with. */
  datatype DiscoveryMode = Disabled | Enabled

  datatype ProducerPhase =
    | Idle
      // `next_sequences(n)` found the cached clearance too small and discovers consumers
    | Discovering(n: int)
      // ... and folds the minimum over the tracked cursors; `todo` are the cursors still to load
    | Scanning(n: int, todo: set<Id>, min: Option<int>)
      // slots up to `upper` are granted and being written
    | Writing(upper: int, torn: bool)

  /** One call of a consumer's event handler: the sequence passed and what the slot held. */
  datatype Delivery<+E> = Delivery(seqNo: int, slot: Slot<E>)

  /** The local state of a running consumer: it has handled everything below `next`, and while
      `upper` is set it owns the snapshot batch (or lease) up to that sequence. */
  datatype Reader = Reader(last: int, next: int, upper: Option<int>)

  /** A consumer ID over all its incarnations. `cursor` lives in shared memory and survives
      crashes. `log`, `start` (where the present incarnation's part of the log begins), `crashes`
      and `lapped` are history. */
  datatype Peer<+E> = Peer(
    cursor: int,
    live: Option<Reader>,
    log: seq<Delivery<E>>,
    start: nat,
    crashes: nat,
    lapped: bool)

  datatype State<+E> = State(
    size: int,
    mode: DiscoveryMode,
    slots: seq<Slot<E>>,
    cursor: int,           // shared producer cursor
    sequence: int,         // next sequence to publish
    clear: int,            // sequence_clear_of_consumers
    phase: ProducerPhase,
    discovered: set<Id>,   // cursors the barrier tracks
    published: seq<E>,     // history: the event written for each sequence
    peers: map<Id, Peer<E>>)

  datatype Step<+E> =
    | Request(n: int)
    | Find(id: Id)
    | StartScan
    | Load(id: Id)
    | Decide
    | BeginWrite
    | FinishWrite(event: E)
    | Publish
    | Attach(id: Id)
    | Snapshot(id: Id, upper: int)
    | Deliver(id: Id)
    | Commit(id: Id)
    | Crash(id: Id)

  function SlotOf(q: int, size: int): (i: int)
    requires size > 0
    ensures 0 <= i < size
  {
    q % size
  }

  /** Slots that stay writable: the distance from the producer's last sequence to the wrap point. */
  function FreeSlots(size: int, lastPublished: int, rear: int): int {
    rear - (lastPublished - size)
  }

  /** Where a consumer stands: the next sequence it will hand to its handler. */
  function Position<E>(p: Peer<E>): int {
    if p.live.Some? then p.live.value.next else p.cursor + 1
  }

  function MinWith(min: Option<int>, cursor: int): Option<int> {
    if cursor < -1 then min
    else if min.Some? && min.value <= cursor then min
    else Some(cursor)
  }

  /** The sequence reported when no cursor was loaded. */
  function Fallback<E>(s: State<E>): int {
    if s.mode.Enabled? then -1 else s.cursor
  }

  /** What a finished scan reports as the slowest consumer's sequence. */
  function Rear<E>(s: State<E>): int
    requires s.phase.Scanning?
  {
    if s.phase.min.Some? then s.phase.min.value else Fallback(s)
  }

  function Init<E>(size: int, mode: DiscoveryMode): State<E>
    requires size > 0
  {
    State(size, mode, seq(size, _ => Blank), -1, 0, size - 1, Idle, {}, [], map[])
  }

  predicate IsLive<E>(s: State<E>, id: Id) {
    id in s.peers && s.peers[id].live.Some?
  }

  predicate CanTake<E>(s: State<E>, step: Step<E>) {
    match step
    case Request(n) => s.phase.Idle? && n > 0
    case Find(id) => (s.phase.Idle? || s.phase.Discovering?) && id in s.peers
    case StartScan => s.phase.Discovering?
    case Load(id) => s.phase.Scanning? && id in s.phase.todo && id in s.peers
    case Decide => s.phase.Scanning? && s.phase.todo == {}
    case BeginWrite => s.phase.Writing? && !s.phase.torn && |s.published| <= s.phase.upper
    case FinishWrite(_) => s.phase.Writing? && s.phase.torn
    case Publish => s.phase.Writing? && !s.phase.torn && |s.published| > s.phase.upper
    case Attach(id) => id in s.peers ==> s.peers[id].live.None?
    case Snapshot(id, upper) => IsLive(s, id) && s.peers[id].live.value.upper.None?
                                && s.peers[id].live.value.last < upper <= s.cursor
    case Deliver(id) => IsLive(s, id) && s.peers[id].live.value.upper.Some?
                        && s.peers[id].live.value.next <= s.peers[id].live.value.upper.value
    case Commit(id) => IsLive(s, id) && s.peers[id].live.value.upper.Some?
                       && s.peers[id].live.value.next > s.peers[id].live.value.upper.value
    case Crash(id) => IsLive(s, id)
  }

  function Take<E>(s: State<E>, step: Step<E>): (t: State<E>)
    requires s.size > 0 && |s.slots| == s.size && CanTake(s, step)
    ensures t.size == s.size && |t.slots| == s.size && t.mode == s.mode
  {
    match step
    case Request(n) =>
      var upper := s.sequence - 1 + n;
      s.(phase := if s.clear >= upper then Writing(upper, false) else Discovering(n))
    case Find(id) => s.(discovered := s.discovered + {id})
    case StartScan => s.(phase := Scanning(s.phase.n, s.discovered, None))
    case Load(id) =>
      s.(phase := Scanning(s.phase.n, s.phase.todo - {id}, MinWith(s.phase.min, s.peers[id].cursor)))
    case Decide =>
      var free := FreeSlots(s.size, s.sequence - 1, Rear(s));
      if free < s.phase.n then s.(phase := Idle)
      else Grant(s, s.sequence - 1 + free, s.sequence - 1 + s.phase.n)
    case BeginWrite =>
      s.(slots := s.slots[SlotOf(|s.published|, s.size) := Torn], phase := Writing(s.phase.upper, true))
    case FinishWrite(event) =>
      s.(slots := s.slots[SlotOf(|s.published|, s.size) := Full(event)],
         published := s.published + [event], phase := Writing(s.phase.upper, false))
    case Publish => s.(cursor := s.phase.upper, sequence := s.phase.upper + 1, phase := Idle)
    case Attach(id) => s.(peers := s.peers[id := Attached(s, id)])
    case Snapshot(id, upper) => WithReader(s, id, s.peers[id].live.value.(upper := Some(upper)))
    case Deliver(id) => s.(peers := s.peers[id := Delivered(s, s.peers[id])])
    case Commit(id) =>
      var p := s.peers[id];
      var u := p.live.value.upper.value;
      s.(peers := s.peers[id := p.(cursor := u, live := Some(Reader(u, p.live.value.next, None)))])
    case Crash(id) =>
      var p := s.peers[id];
      s.(peers := s.peers[id := p.(live := None, crashes := p.crashes + 1)])
  }

  /** The clearance moves to `clear`; whoever is more than a ring behind it is lapped for good. */
  function Grant<E>(s: State<E>, clear: int, upper: int): State<E> {
    s.(clear := clear, phase := Writing(upper, false),
       peers := map id | id in s.peers ::
         s.peers[id].(lapped := s.peers[id].lapped || clear > s.peers[id].cursor + s.size))
  }

  /** Creating the cursor segment writes -1; attaching to an existing one keeps its value. */
  function Attached<E>(s: State<E>, id: Id): Peer<E> {
    if id in s.peers then
      var p := s.peers[id];
      p.(live := Some(Reader(p.cursor, p.cursor + 1, None)), start := |p.log|)
    else
      Peer(-1, Some(Reader(-1, 0, None)), [], 0, 0, s.clear > s.size - 1)
  }

  /** The handler is given what the slot of the next sequence holds. */
  function Delivered<E>(s: State<E>, p: Peer<E>): Peer<E>
    requires s.size > 0 && |s.slots| == s.size && p.live.Some?
  {
    var r := p.live.value;
    p.(log := p.log + [Delivery(r.next, s.slots[SlotOf(r.next, s.size)])], live := Some(r.(next := r.next + 1)))
  }

  function WithReader<E>(s: State<E>, id: Id, r: Reader): State<E>
    requires id in s.peers
  {
    s.(peers := s.peers[id := s.peers[id].(live := Some(r))])
  }

  // ---- Runs ----

  predicate IsRun<E>(s: State<E>, steps: seq<Step<E>>)
    requires s.size > 0 && |s.slots| == s.size
    decreases |steps|
  {
    steps == [] || (CanTake(s, steps[0]) && IsRun(Take(s, steps[0]), steps[1..]))
  }

  /** The state after a run. */
  function After<E>(s: State<E>, steps: seq<Step<E>>): (t: State<E>)
    requires s.size > 0 && |s.slots| == s.size && IsRun(s, steps)
    ensures t.size == s.size && |t.slots| == s.size && t.mode == s.mode
    decreases |steps|
  {
    if steps == [] then s else After(Take(s, steps[0]), steps[1..])
  }

  // ---- The invariant ----

  ghost predicate ProducerInv<E>(s: State<E>) {
    && s.size > 0 && |s.slots| == s.size
    && s.sequence == s.cursor + 1 && s.cursor >= -1
    && s.size - 1 <= s.clear && s.cursor <= s.clear <= s.cursor + s.size
    && s.discovered <= s.peers.Keys
    && (s.mode.Enabled? && s.discovered == {} ==> s.clear == s.size - 1)
    && match s.phase
       case Idle => |s.published| == s.sequence
       case Discovering(n) => |s.published| == s.sequence && n > 0 && s.clear < s.sequence - 1 + n
       case Scanning(n, todo, min) =>
         |s.published| == s.sequence && n > 0 && s.clear < s.sequence - 1 + n && todo <= s.discovered
       case Writing(upper, torn) =>
         s.sequence <= |s.published| <= upper + 1 && s.sequence <= upper <= s.clear
         && (torn ==> |s.published| <= upper)
  }

  /** The partial minimum of a scan under way bounds every cursor already loaded, although those
      cursors may have moved since. */
  ghost predicate ScanInv<E>(s: State<E>) {
    s.phase.Scanning? ==>
      && (s.phase.min.None? ==> s.phase.todo == s.discovered)
      && (s.phase.min.Some? ==>
            -1 <= s.phase.min.value <= s.cursor && s.discovered != {}
            && forall id :: id in s.discovered - s.phase.todo && id in s.peers ==>
                              s.phase.min.value <= s.peers[id].cursor)
  }

  predicate BeingWritten<E>(s: State<E>) {
    s.phase.Writing? && s.phase.torn
  }

  /** Sequence `q` is still in the ring: written, and its slot not reused. */
  predicate Retained<E>(s: State<E>, q: int) {
    0 <= q < |s.published| && (if BeingWritten(s) then |s.published| - s.size < q else |s.published| - s.size <= q)
  }

  ghost predicate Holds<E>(s: State<E>, q: int)
    requires s.size > 0 && |s.slots| == s.size && 0 <= q < |s.published|
  {
    s.slots[SlotOf(q, s.size)] == Full(s.published[q])
  }

  ghost predicate SlotsInv<E>(s: State<E>)
    requires s.size > 0 && |s.slots| == s.size
  {
    && (forall q :: Retained(s, q) ==> Holds(s, q))
    && (BeingWritten(s) ==> s.slots[SlotOf(|s.published|, s.size)] == Torn)
  }

  ghost predicate ReaderInv<E>(s: State<E>, p: Peer<E>, r: Reader) {
    && r.last == p.cursor && p.start <= |p.log|
    && (match r.upper
        case None => r.next == r.last + 1
        case Some(u) => r.last + 1 <= u <= s.cursor && r.last + 1 <= r.next <= u + 1)
    && (p.start == |p.log| ==> r.next == r.last + 1)
    && (forall k :: p.start <= k < |p.log| ==> p.log[k].seqNo == r.next - |p.log| + k)
  }

  predicate NoSkipAt<E>(log: seq<Delivery<E>>, k: int)
    requires 1 <= k < |log|
  {
    log[k].seqNo <= log[k - 1].seqNo + 1
  }

  /** `size` times `crashes`, by repeated addition. */
  function Times(size: int, crashes: nat): int {
    if crashes == 0 then 0 else size + Times(size, crashes - 1)
  }

  /** The log starts at sequence 0, never skips ahead, and reaches at least the committed cursor. */
  ghost predicate LogShape<E>(p: Peer<E>) {
    && (p.log == [] ==> p.cursor == -1)
    && (p.log != [] ==> p.log[0].seqNo == 0 && p.cursor <= p.log[|p.log| - 1].seqNo)
    && (forall k :: 0 <= k < |p.log| ==> 0 <= p.log[k].seqNo)
    && (forall k :: 1 <= k < |p.log| ==> NoSkipAt(p.log, k))
    && (p.crashes == 0 ==> p.start == 0 && p.live.Some?)
  }

  /** What holds of a consumer that was never lapped. */
  ghost predicate SafePeer<E>(s: State<E>, p: Peer<E>) {
    && s.clear <= p.cursor + s.size
    && (forall k :: 0 <= k < |p.log| ==>
          0 <= p.log[k].seqNo < |s.published| && p.log[k].slot == Full(s.published[p.log[k].seqNo]))
    && |p.log| <= Position(p) + Times(s.size, p.crashes)
  }

  ghost predicate PeerInv<E>(s: State<E>, p: Peer<E>) {
    && -1 <= p.cursor <= s.cursor
    && (p.live.Some? ==> ReaderInv(s, p, p.live.value))
    && LogShape(p)
    && (forall k :: 0 <= k < |p.log| ==> p.log[k].seqNo < |s.published|)
    && (!p.lapped ==> SafePeer(s, p))
    && (p.lapped ==> s.clear >= s.size)
  }

  ghost predicate Inv<E>(s: State<E>) {
    && ProducerInv(s) && ScanInv(s) && SlotsInv(s)
    && forall id :: id in s.peers ==> PeerInv(s, s.peers[id])
  }
}
