/** Discovery of consumer cursors and the minimum over them, as the producer process runs it. */
module ConsumerBarrier {
  import opened Wrappers
  import opened RingProtocol
  import opened RingTheorems
  import opened RingProgress
  import opened SharedRing

  /** Discovery configuration: the expected number of consumers, an optional name prefix, and the
      least time between two scans once something was found. */
  datatype Discovery =
    | DiscoveryDisabled
    | DiscoveryEnabled(maxConsumers: nat, consumerPrefix: Option<string>, scanInterval: nat)

  /** What a scan learns from outside the ring: the clock, the registration counter if that segment
      exists, and the consumer names nearby process IDs would have. */
  datatype Surroundings = Surroundings(now: nat, registered: Option<int>, pidNames: seq<Id>)

  function Decimal(n: nat): (s: string)
    ensures |s| >= 1 && (n >= 10 ==> |s| >= 2)
  {
    if n < 10 then [Digit(n)] else Decimal(n / 10) + [Digit(n % 10)]
  }

  function Digit(d: nat): char
    requires d < 10
  {
    "0123456789"[d]
  }

  function AutoConsumerId(slot: nat): Id {
    "ad_" + Decimal(slot)
  }

  function PrefixedId(prefix: string, counter: nat): Id {
    prefix + "_" + Decimal(counter)
  }

  lemma {:induction false} DecimalInjective(a: nat, b: nat)
    requires Decimal(a) == Decimal(b)
    ensures a == b
  {
    var (x, y) := (Decimal(a), Decimal(b));
    assert x[|x| - 1] == Digit(a % 10) && y[|y| - 1] == Digit(b % 10);
    if a >= 10 && b >= 10 {
      assert x[..|x| - 1] == Decimal(a / 10) && y[..|y| - 1] == Decimal(b / 10);
      DecimalInjective(a / 10, b / 10);
    }
  }

  /** The number that a text of decimal digits stands for. */
  function ReadDecimal(digits: string): int
    decreases |digits|
  {
    if digits == [] then 0
    else 10 * ReadDecimal(digits[..|digits| - 1]) + (digits[|digits| - 1] as int - '0' as int)
  }

  predicate AllDigits(s: string) {
    forall i :: 0 <= i < |s| ==> '0' <= s[i] <= '9'
  }

  /** A slot number is printed in decimal digits, without a leading zero, and they read back as the number. */
  lemma {:induction false} DecimalReadsBack(n: nat)
    ensures ReadDecimal(Decimal(n)) == n && AllDigits(Decimal(n)) && (n > 0 ==> Decimal(n)[0] != '0')
  {
    DigitIs(n % 10);
    if n >= 10 {
      DecimalReadsBack(n / 10);
      assert Decimal(n)[..|Decimal(n)| - 1] == Decimal(n / 10);
    }
  }

  lemma DigitIs(d: nat)
    requires d < 10
    ensures Digit(d) as int == '0' as int + d
  {
  }

  /** Consumers that drew different registration slots have different IDs, hence different cursors. */
  lemma AutoIdsDistinct(a: nat, b: nat)
    requires a != b
    ensures AutoConsumerId(a) != AutoConsumerId(b)
  {
    if AutoConsumerId(a) == AutoConsumerId(b) {
      assert AutoConsumerId(a)[3..] == Decimal(a);
      assert AutoConsumerId(b)[3..] == Decimal(b);
      DecimalInjective(a, b);
    }
  }

  function Clamp(value: int, max: nat): (r: nat)
    ensures r <= max && (0 <= value <= max ==> r == value) && (value > max ==> r == max)
  {
    if value < 0 then 0 else if value > max then max else value
  }

  function RegisteredNames(registered: nat): seq<Id> {
    seq(registered, slot requires 0 <= slot < registered => AutoConsumerId(slot))
  }

  function PrefixNames(prefix: string, max: nat): seq<Id> {
    seq(max, counter requires 0 <= counter < max => PrefixedId(prefix, counter))
  }

  /** A scan has to look for this name: a counter behind the configured prefix, or, without a prefix, a
      slot that was drawn at registration; in both cases only as many as are expected. */
  ghost predicate Sought(d: Discovery, env: Surroundings, id: Id) {
    d.DiscoveryEnabled?
    && match d.consumerPrefix
       case Some(prefix) => exists k: nat :: k < d.maxConsumers && id == prefix + "_" + Decimal(k)
       case None =>
         env.registered.Some? && exists k: nat :: k < d.maxConsumers && k < env.registered.value
                                                  && id == "ad_" + Decimal(k)
  }

  /** How many slots a scan without a prefix counts on. */
  function SlotsExpected(d: Discovery, env: Surroundings): int {
    if d.DiscoveryDisabled? || env.registered.None? then 0
    else if env.registered.value < d.maxConsumers then env.registered.value
    else d.maxConsumers
  }

  /** What a scan may have changed, by the cursors `existing` when it began: every sought one is tracked;
      names of nearby processes come in only without a prefix, they do when fewer than the expected slots
      are tracked, and they do not when all those slots' cursors exist. */
  ghost predicate Scanned(d: Discovery, env: Surroundings, existing: set<Id>, before: set<Id>, after: set<Id>)
  {
    && d.DiscoveryEnabled? && before <= after
    && (forall id :: id in existing && Sought(d, env, id) ==> id in after)
    && (forall id :: id in after - before ==> Sought(d, env, id) || (d.consumerPrefix.None? && id in env.pidNames))
    && (d.consumerPrefix.None? && (SlotsExpected(d, env) <= 0 || |after| < SlotsExpected(d, env)) ==>
          forall id :: id in env.pidNames && id in existing ==> id in after)
    && (SlotsExpected(d, env) > 0 && (forall id :: Sought(d, env, id) ==> id in existing) ==>
          forall id :: id in after - before ==> Sought(d, env, id))
  }

  /** The tracked cursors around a call that scans exactly if a scan is due. */
  ghost predicate ScannedIf(due: bool, d: Discovery, env: Surroundings, existing: set<Id>, before: set<Id>,
                            after: set<Id>) {
    if due then Scanned(d, env, existing, before, after) else after == before
  }

  lemma SoughtSlot(d: Discovery, env: Surroundings, k: nat)
    requires d.DiscoveryEnabled? && d.consumerPrefix.None? && k < SlotsExpected(d, env)
    ensures Sought(d, env, AutoConsumerId(k))
  {
    assert AutoConsumerId(k) == "ad_" + Decimal(k);
  }

  /** Tracking `n` slots takes `n` cursors. */
  lemma {:induction false} SlotsCount(n: nat, tracked: set<Id>)
    requires forall k: nat :: k < n ==> AutoConsumerId(k) in tracked
    ensures |tracked| >= n
    decreases n
  {
    if n > 0 {
      var last := AutoConsumerId(n - 1);
      forall k: nat | k < n - 1 ensures AutoConsumerId(k) in tracked - {last} {
        AutoIdsDistinct(k, n - 1);
      }
      SlotsCount(n - 1, tracked - {last});
    }
  }

  lemma RegisteredAreSought(d: Discovery, env: Surroundings, id: Id)
    requires d.DiscoveryEnabled? && d.consumerPrefix.None?
    ensures var registered := if env.registered.Some? then Clamp(env.registered.value, d.maxConsumers) else 0;
            id in RegisteredNames(registered) <==> Sought(d, env, id)
  {
    var registered := if env.registered.Some? then Clamp(env.registered.value, d.maxConsumers) else 0;
    if Sought(d, env, id) {
      var k: nat :| k < d.maxConsumers && k < env.registered.value && id == "ad_" + Decimal(k);
      assert RegisteredNames(registered)[k] == id;
    }
    if id in RegisteredNames(registered) {
      var k :| 0 <= k < registered && RegisteredNames(registered)[k] == id;
      SoughtSlot(d, env, k);
    }
  }

  lemma PrefixedAreSought(d: Discovery, env: Surroundings, id: Id)
    requires d.DiscoveryEnabled? && d.consumerPrefix.Some?
    ensures id in PrefixNames(d.consumerPrefix.value, d.maxConsumers) <==> Sought(d, env, id)
  {
    var names := PrefixNames(d.consumerPrefix.value, d.maxConsumers);
    if Sought(d, env, id) {
      var k: nat :| k < d.maxConsumers && id == d.consumerPrefix.value + "_" + Decimal(k);
      assert names[k] == id;
    }
    if id in names {
      var k :| 0 <= k < |names| && names[k] == id;
    }
  }

  // ---- The states around a call ----

  /** The producer's ring is as it was; consumers may have joined and moved on. */
  ghost predicate RingKept<E>(s: State<E>, t: State<E>) {
    && t.size == s.size && t.mode == s.mode && t.slots == s.slots && t.published == s.published
    && t.cursor == s.cursor && t.sequence == s.sequence && PeersKept(s, t)
  }

  ghost predicate Grown<E>(s: State<E>, t: State<E>) {
    s.peers.Keys <= t.peers.Keys && forall id :: id in t.peers ==> CursorOf(s, id) <= CursorOf(t, id)
  }

  /** Whoever was tracked still is, and was not left behind in between. */
  ghost predicate StaysSafe<E>(s: State<E>, t: State<E>) {
    && s.discovered <= t.discovered && s.peers.Keys <= t.peers.Keys
    && forall id :: id in s.discovered && id in s.peers ==> t.peers[id].lapped ==> s.peers[id].lapped
  }

  ghost predicate PeersKept<E>(s: State<E>, t: State<E>) {
    Grown(s, t) && StaysSafe(s, t)
  }

  /** The same, with the publish call and the clearance where they were. */
  ghost predicate Discovered<E>(s: State<E>, t: State<E>) {
    RingKept(s, t) && t.phase == s.phase && t.clear == s.clear
  }

  lemma RelyKeeps<E>(s: State<E>, t: State<E>)
    requires ProducerRely(s, t)
    ensures Discovered(s, t)
  {
  }

  lemma RingKeptTrans<E>(s: State<E>, t: State<E>, u: State<E>)
    requires RingKept(s, t) && RingKept(t, u)
    ensures RingKept(s, u)
  {
    forall id | id in u.peers ensures CursorOf(s, id) <= CursorOf(u, id) {
      assert CursorOf(t, id) <= CursorOf(u, id);
      if id in t.peers {
        assert CursorOf(s, id) <= CursorOf(t, id);
      }
    }
  }

  lemma PeersKeptRefl<E>(s: State<E>)
    ensures PeersKept(s, s)
  {
  }

  lemma PeersKeptTrans<E>(s: State<E>, t: State<E>, u: State<E>)
    requires PeersKept(s, t) && PeersKept(t, u)
    ensures PeersKept(s, u)
  {
    forall id | id in u.peers ensures CursorOf(s, id) <= CursorOf(u, id) {
      assert id in t.peers ==> CursorOf(s, id) <= CursorOf(t, id);
    }
  }

  lemma DiscoverTwice<E>(s: State<E>, t: State<E>, u: State<E>)
    requires Discovered(s, t) && Discovered(t, u)
    ensures Discovered(s, u)
  {
    RingKeptTrans(s, t, u);
  }

  lemma CanLoad<E(!new)>(s: State<E>, id: Id)
    requires Reachable(s) && s.phase.Scanning? && id in s.phase.todo
    ensures CanTake(s, Load(id))
  {
    ProducerFacts(s);
  }

  // ---- The folded minimum ----

  /** `min` is no less than some cursor was at `s` and no more than any is at `t`, over `done`. */
  ghost predicate Folded<E>(s: State<E>, t: State<E>, done: set<Id>, min: Option<int>) {
    && (min.None? ==> done == {})
    && (min.Some? ==> (exists id :: id in done && CursorOf(s, id) <= min.value)
                      && forall id :: id in done ==> min.value <= CursorOf(t, id))
  }

  lemma FoldLoad<E>(start: State<E>, s: State<E>, t: State<E>, done: set<Id>, min: Option<int>, id: Id)
    requires Folded(start, s, done, min) && RingKept(start, t) && RingKept(s, t)
    requires id in t.peers && t.peers[id].cursor >= -1 && done <= s.peers.Keys
    requires t.size > 0 && |t.slots| == t.size
    requires t.phase.Scanning? && id in t.phase.todo
    ensures Folded(start, Take(t, Load(id)), done + {id}, MinWith(min, t.peers[id].cursor))
    ensures RingKept(start, Take(t, Load(id)))
  {
    assert CursorOf(start, id) <= CursorOf(t, id);
  }

  // ---- Room in the ring ----

  /** `n` more events fit without reaching a ring beyond any cursor in `tracked`. While nobody is tracked, a
      whole ring fits if discovery is disabled, and otherwise what a consumer before sequence 0 leaves. */
  ghost predicate HasRoom<E>(s: State<E>, tracked: set<Id>, n: int) {
    && (forall id :: id in tracked ==> s.cursor + n <= CursorOf(s, id) + s.size)
    && (tracked == {} ==> if s.mode.Disabled? then n <= s.size else s.cursor + n <= s.size - 1)
  }

  /** `rear` lies between the least tracked cursor of `s` and that of the later state `t`. */
  ghost predicate RearBetween<E>(s: State<E>, rear: int, t: State<E>, tracked: set<Id>) {
    && (forall id :: id in tracked ==> rear <= CursorOf(t, id))
    && (tracked != {} ==> exists id :: id in tracked && CursorOf(s, id) <= rear)
    && (tracked == {} ==> rear == (if s.mode.Disabled? then s.cursor else -1) && t.mode == s.mode)
  }

  lemma RoomOfRear<E>(s: State<E>, rear: int, t: State<E>, tracked: set<Id>, n: int)
    requires RearBetween(s, rear, t, tracked) && s.size == t.size && s.cursor == t.cursor
    ensures FreeSlots(s.size, s.cursor, rear) >= n ==> HasRoom(t, tracked, n)
    ensures HasRoom(s, tracked, n) ==> FreeSlots(s.size, s.cursor, rear) >= n
  {
  }

  lemma MoreIsMore(few: set<Id>, many: set<Id>)
    requires few <= many
    ensures |few| <= |many|
  {
    assert many == few + (many - few);
  }

  class SharedConsumerBarrier<E(!new)> {
    const mem: SharedMemory<E>
    const discovery: Discovery
    var consumerCursors: set<Id>
    var lastScan: nat
    var discoveryCompleted: bool

    constructor (mem: SharedMemory<E>, discovery: Discovery, now: nat)
      ensures this.mem == mem && this.discovery == discovery
      ensures consumerCursors == {} && !discoveryCompleted && lastScan == now
    {
      this.mem := mem;
      this.discovery := discovery;
      consumerCursors, lastScan, discoveryCompleted := {}, now, false;
    }

    /** The map's keys are the cursors the protocol's barrier tracks. */
    ghost predicate Linked()
      reads this, mem, mem.slots, mem.enrolled
    {
      mem.Valid() && consumerCursors == mem.state.discovered
      && (discovery.DiscoveryDisabled? <==> mem.state.mode.Disabled?)
    }

    ghost predicate Attachable()
      reads this, mem, mem.slots, mem.enrolled
    {
      Linked() && (mem.state.phase.Idle? || mem.state.phase.Discovering?)
    }

    function DiscoveryScanPlan(now: nat): (plan: (bool, nat, Option<string>))
      reads this
      ensures discovery.DiscoveryDisabled? || discoveryCompleted ==> !plan.0
      ensures plan.0 ==> |consumerCursors| < discovery.maxConsumers
      ensures plan.0 && consumerCursors != {} ==> now - lastScan >= discovery.scanInterval
      ensures !plan.0 && discovery.DiscoveryEnabled? && !discoveryCompleted ==>
                |consumerCursors| >= discovery.maxConsumers
                || (consumerCursors != {} && now - lastScan < discovery.scanInterval)
    {
      match discovery
      case DiscoveryDisabled => (false, 0, None)
      case DiscoveryEnabled(max, prefix, interval) =>
        if discoveryCompleted then (false, max, None)
        else if |consumerCursors| >= max then (false, max, None)
        else if now < lastScan + interval && consumerCursors != {} then (false, max, None)
        else (true, max, prefix)
    }

    /** Attaches one known cursor by its ID. */
    method DiscoverConsumerId(id: Id) returns (found: bool)
      requires Attachable()
      modifies `consumerCursors, mem, mem.slots
      ensures Attachable() && Discovered(old(mem.state), mem.state)
      ensures consumerCursors == if found then old(consumerCursors) + {id} else old(consumerCursors)
      ensures id in old(consumerCursors) || id in old(mem.consumerCursors) ==> found
    {
      found := id in consumerCursors;
      if !found {
        ghost var before, mid := mem.state, mem.state;
        found, mid := mem.AttachCursor(id);
        OthersOfProducer(before, mid);
        RelyKeeps(before, mid);
        if found {
          consumerCursors := consumerCursors + {id};
        }
      }
    }

    /** Tries every name in turn; afterwards every one whose cursor existed at the start is tracked. */
    method DiscoverNames(names: seq<Id>)
      requires Attachable()
      modifies `consumerCursors, mem, mem.slots
      ensures Attachable() && Discovered(old(mem.state), mem.state)
      ensures old(consumerCursors) <= consumerCursors
      ensures forall id :: id in consumerCursors - old(consumerCursors) ==> id in names
      ensures forall id :: id in names && id in old(mem.consumerCursors) ==> id in consumerCursors
    {
      var k := 0;
      while k < |names|
        invariant k <= |names|
        invariant Attachable() && Discovered(old(mem.state), mem.state)
        invariant old(consumerCursors) <= consumerCursors
        invariant old(mem.consumerCursors).Keys <= mem.consumerCursors.Keys
        invariant forall id :: id in consumerCursors - old(consumerCursors) ==> id in names
        invariant forall j :: 0 <= j < k && names[j] in old(mem.consumerCursors) ==> names[j] in consumerCursors
      {
        ghost var before := mem.state;
        var found := DiscoverConsumerId(names[k]);
        DiscoverTwice(old(mem.state), before, mem.state);
        k := k + 1;
      }
    }

    /** Scans for consumers when a scan is due; `lastScan` and `discoveryCompleted` record it. Until
        something is found every call scans; afterwards two scans are at least an interval apart; after
        completion there are none. */
    method DiscoverConsumers(env: Surroundings)
      requires Attachable()
      modifies this, mem, mem.slots
      ensures Attachable() && Discovered(old(mem.state), mem.state)
      ensures old(DiscoveryScanPlan(env.now)).0 ==>
                && lastScan == env.now
                && (discoveryCompleted <==> |consumerCursors| >= discovery.maxConsumers)
                && Scanned(discovery, env, old(mem.consumerCursors).Keys, old(consumerCursors), consumerCursors)
      ensures !old(DiscoveryScanPlan(env.now)).0 ==>
                && consumerCursors == old(consumerCursors) && lastScan == old(lastScan)
                && discoveryCompleted == old(discoveryCompleted) && mem.state == old(mem.state)
      ensures old(consumerCursors) == {} && discovery.DiscoveryEnabled? && discovery.maxConsumers > 0
              && !old(discoveryCompleted) ==>
                && lastScan == env.now
                && Scanned(discovery, env, old(mem.consumerCursors).Keys, {}, consumerCursors)
      ensures lastScan != old(lastScan) && old(consumerCursors) != {} ==>
                lastScan - old(lastScan) >= discovery.scanInterval
      ensures old(discoveryCompleted) ==> lastScan == old(lastScan) && consumerCursors == old(consumerCursors)
    {
      var (due, max, prefix) := DiscoveryScanPlan(env.now);
      if !due {
        return;
      }
      lastScan := env.now;
      if prefix.Some? {
        DiscoverPrefixed(prefix.value, max, env);
      } else {
        DiscoverUnprefixed(max, env);
      }
      if |consumerCursors| >= max {
        discoveryCompleted := true;
      }
    }

    method DiscoverPrefixed(prefix: string, max: nat, ghost env: Surroundings)
      requires Attachable() && discovery.DiscoveryEnabled?
      requires discovery.consumerPrefix == Some(prefix) && discovery.maxConsumers == max
      modifies `consumerCursors, mem, mem.slots
      ensures Attachable() && Discovered(old(mem.state), mem.state)
      ensures Scanned(discovery, env, old(mem.consumerCursors).Keys, old(consumerCursors), consumerCursors)
    {
      DiscoverNames(PrefixNames(prefix, max));
      forall id ensures id in PrefixNames(prefix, max) <==> Sought(discovery, env, id) {
        PrefixedAreSought(discovery, env, id);
      }
    }

    /** Looks for the registered slots, then for names of nearby processes if too few are tracked. */
    method DiscoverUnprefixed(max: nat, env: Surroundings)
      requires Attachable() && discovery.DiscoveryEnabled?
      requires discovery.consumerPrefix == None && discovery.maxConsumers == max
      modifies `consumerCursors, mem, mem.slots
      ensures Attachable() && Discovered(old(mem.state), mem.state)
      ensures Scanned(discovery, env, old(mem.consumerCursors).Keys, old(consumerCursors), consumerCursors)
    {
      ghost var before, existing := mem.state, mem.consumerCursors.Keys;
      var registered := if env.registered.Some? then Clamp(env.registered.value, max) else 0;
      DiscoverNames(RegisteredNames(registered));
      ghost var between, found := mem.state, consumerCursors;
      forall id ensures id in RegisteredNames(registered) <==> Sought(discovery, env, id) {
        RegisteredAreSought(discovery, env, id);
      }
      SlotsAllFound(env, registered, existing, found);
      if registered == 0 || |consumerCursors| < registered {
        DiscoverNames(env.pidNames);
        DiscoverTwice(before, between, mem.state);
        MoreIsMore(found, consumerCursors);
      }
    }

    /** Once all expected slots exist, a scan has found enough. */
    lemma SlotsAllFound(env: Surroundings, registered: nat, existing: set<Id>, found: set<Id>)
      requires discovery.DiscoveryEnabled? && discovery.consumerPrefix.None?
      requires registered > 0 ==> registered == SlotsExpected(discovery, env)
      requires forall id :: id in existing && Sought(discovery, env, id) ==> id in found
      ensures registered > 0 && (forall id :: Sought(discovery, env, id) ==> id in existing) ==> |found| >= registered
    {
      if registered > 0 && (forall id :: Sought(discovery, env, id) ==> id in existing) {
        forall k: nat | k < registered ensures AutoConsumerId(k) in found {
          SoughtSlot(discovery, env, k);
        }
        SlotsCount(registered, found);
      }
    }

    /** In the middle of a scan begun at `start`: `todo` is still to be loaded. */
    ghost predicate Folding(start: State<E>, todo: set<Id>, min: Option<int>)
      requires start.phase.Discovering?
      reads this, mem, mem.slots, mem.enrolled
    {
      && Linked() && todo <= consumerCursors == start.discovered
      && RingKept(start, mem.state) && mem.state.discovered == start.discovered
      && mem.state.phase == Scanning(start.phase.n, todo, min) && mem.state.clear == start.clear
      && Folded(start, mem.state, consumerCursors - todo, min)
    }

    /** Folds the minimum over the tracked cursors, loading them one at a time in any order while
        the consumers keep running. */
    method DiscoveredMinSequence() returns (min: Option<int>)
      requires Linked() && mem.state.phase.Discovering?
      modifies mem, mem.slots
      ensures Linked() && RingKept(old(mem.state), mem.state) && consumerCursors == old(mem.state.discovered)
      ensures mem.state.clear == old(mem.state.clear)
      ensures mem.state.phase == Scanning(old(mem.state.phase.n), {}, min)
      ensures Folded(old(mem.state), mem.state, consumerCursors, min)
    {
      ghost var start := mem.state;
      ProducerFacts(start);
      mem.Local(StartScan);
      min := None;
      var todo := consumerCursors;
      assert consumerCursors - todo == {};
      while todo != {}
        invariant Folding(start, todo, min)
        decreases todo
      {
        var id :| id in todo;
        min := LoadAndFold(id, min, start, todo);
        todo := todo - {id};
      }
      assert consumerCursors - todo == consumerCursors;
    }

    method LoadAndFold(id: Id, min: Option<int>, ghost start: State<E>, ghost todo: set<Id>)
      returns (folded: Option<int>)
      requires start.phase.Discovering? && Folding(start, todo, min) && id in todo
      modifies mem, mem.slots
      ensures Folding(start, todo - {id}, folded)
    {
      ghost var before, seen := mem.state, mem.state;
      CanLoad(before, id);
      ProducerFacts(before);
      var value;
      value, seen := mem.LoadConsumerCursor(id);
      OthersOfProducer(before, seen);
      RelyKeeps(before, seen);
      RingKeptTrans(start, before, seen);
      PeerFacts(mem.state, id);
      FoldLoad(start, before, seen, consumerCursors - todo, min, id);
      assert consumerCursors - (todo - {id}) == consumerCursors - todo + {id};
      folded := if value >= -1 && (min.None? || value < min.value) then Some(value) else min;
    }

    /** The sequence all tracked consumers have reached, or the fallback when there is none. */
    method GetMinConsumerSequence(env: Surroundings) returns (rear: int)
      requires Linked() && mem.state.phase.Discovering?
      modifies this, mem, mem.slots
      ensures Linked() && old(consumerCursors) <= consumerCursors
      ensures mem.state.phase.Scanning? && mem.state.phase.n == old(mem.state.phase.n) && mem.state.phase.todo == {}
      ensures RingKept(old(mem.state), mem.state) && mem.state.clear == old(mem.state.clear)
      ensures rear == Rear(mem.state)
      ensures RearBetween(old(mem.state), rear, mem.state, consumerCursors)
      ensures ScannedIf(old(DiscoveryScanPlan(env.now)).0, discovery, env, old(mem.consumerCursors).Keys,
                        old(consumerCursors), consumerCursors)
    {
      if discovery.DiscoveryEnabled? && !discoveryCompleted {
        DiscoverConsumers(env);
      }
      ghost var found := mem.state;
      var min := DiscoveredMinSequence();
      if min.Some? {
        rear := min.value;
      } else {
        rear := if discovery.DiscoveryEnabled? then -1 else mem.producerCursor;
      }
      RingKeptTrans(old(mem.state), found, mem.state);
    }
  }
}
