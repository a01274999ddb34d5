/** Publishing under required-consumer liveness: the producer waits for the required consumers to
    exist, and while it is blocked it checks that they keep moving. */
module ManagedProducer {
  import opened Wrappers
  import R = RingProtocol
  import opened RingTheorems
  import opened RingProgress
  import opened SharedRing
  import opened ConsumerBarrier
  import opened RingProducer
  import opened Liveness
  import L = LivenessModel
  import LT = LivenessTheorems
  import LD = LivenessDetection

  datatype Readiness = Ready | StillWaiting | NotReady(error: L.LivenessError)

  /** The clock readings of `waits` never go back, and start at `from` or later. */
  predicate Advancing(from: nat, waits: seq<Surroundings>) {
    && (forall i :: 0 <= i < |waits| ==> from <= waits[i].now)
    && (forall i, j :: 0 <= i < j < |waits| ==> waits[i].now <= waits[j].now)
  }

  lemma {:induction false} OneMoreCall(cfg: L.Config, t0: nat, calls: seq<L.Call>, call: L.Call)
    requires L.Timely(t0, calls) && LT.LastCall(t0, calls) <= call.now && t0 <= call.now
    ensures L.Timely(t0, calls + [call]) && LT.LastCall(t0, calls + [call]) == call.now
    ensures L.After(cfg, t0, calls + [call]) == L.Apply(cfg, L.After(cfg, t0, calls), call)
  {
    assert (calls + [call])[..|calls|] == calls;
  }

  /** A newly raised error names a consumer that was observed no further than the error says, and
      behind the producer, unless it was not observed at all. */
  lemma {:induction false} ErrorWasObserved(cfg: L.Config, m: L.Model, k: nat, now: nat, producer: int,
                                            observed: map<L.Id, int>)
    requires L.Tracks(cfg, m) && k <= |cfg.ids| && m.terminal.None?
    ensures var r := L.Scan(cfg, m, k, now, producer, observed);
            r.terminal.Some? ==>
              && r.terminal.value.GracefulShutdownTriggered? && r.terminal.value.consumerId in cfg.ids
              && (r.terminal.value.consumerId in observed ==>
                    observed[r.terminal.value.consumerId] <= r.terminal.value.lastSequence
                    && observed[r.terminal.value.consumerId] < producer)
    decreases |cfg.ids| - k
  {
    if k < |cfg.ids| {
      var n := L.ScanOne(cfg, m, cfg.ids[k], now, producer, observed);
      if n.terminal.None? {
        ErrorWasObserved(cfg, n, k + 1, now, producer, observed);
      }
    }
  }

  lemma CheckErrorWasObserved(cfg: L.Config, m: L.Model, now: nat, producer: int, observed: map<L.Id, int>, n: L.Model)
    requires L.Tracks(cfg, m) && n == L.Evaluate(cfg, m, now, producer, observed)
    ensures m.terminal.None? && n.terminal.Some? ==>
              && n.terminal.value.GracefulShutdownTriggered? && n.terminal.value.consumerId in cfg.ids
              && (n.terminal.value.consumerId in observed ==>
                    observed[n.terminal.value.consumerId] <= n.terminal.value.lastSequence
                    && observed[n.terminal.value.consumerId] < producer)
  {
    if m.terminal.None? {
      ErrorWasObserved(cfg, m.(lastCheckAt := now, entries := m.entries + [L.Check(now, producer, observed)]),
                       0, now, producer, observed);
    }
  }

  /** What was read lies between the cursors before and after. */
  ghost predicate TrueReading<E>(s: R.State<E>, observed: map<R.Id, int>, t: R.State<E>) {
    forall id :: id in observed ==> CursorOf(s, id) <= observed[id] <= CursorOf(t, id)
  }

  /** The call reports all required cursors, as they were somewhere between `s` and `t`. */
  ghost predicate IsCheck<E>(call: L.Call, now: nat, producer: int, ids: seq<R.Id>, s: R.State<E>, t: R.State<E>) {
    && call.Blocked? && call.now == now && call.producer == producer
    && TrueReading(s, call.observed, t) && forall id :: id in ids ==> id in call.observed
  }

  ghost predicate IsStart<E>(call: L.Call, now: nat, ids: seq<R.Id>, s: R.State<E>, t: R.State<E>) {
    && call.Started? && call.now == now && TrueReading(s, call.observed, t)
    && forall id :: id in ids ==> id in call.observed
  }

  /** The calls since `before` are one such check for each of the first waits. */
  ghost predicate ChecksMade<E>(before: seq<L.Call>, calls: seq<L.Call>, waits: seq<Surroundings>, producer: int,
                                ids: seq<R.Id>, s: R.State<E>, t: R.State<E>)
    decreases |calls|
  {
    if |calls| <= |before| then calls == before
    else
      var n := |calls| - 1 - |before|;
      && n < |waits| && IsCheck(calls[|calls| - 1], waits[n].now, producer, ids, s, t)
      && ChecksMade(before, calls[..|calls| - 1], waits, producer, ids, s, t)
  }

  lemma CheckLater<E>(call: L.Call, now: nat, producer: int, ids: seq<R.Id>, s: R.State<E>, t: R.State<E>,
                      u: R.State<E>, v: R.State<E>)
    requires IsCheck(call, now, producer, ids, t, u) && PeersKept(s, t) && PeersKept(u, v)
    ensures IsCheck(call, now, producer, ids, s, v)
  {
    forall id | id in call.observed ensures CursorOf(s, id) <= call.observed[id] <= CursorOf(v, id) {
      assert id in t.peers ==> CursorOf(s, id) <= CursorOf(t, id);
      assert id in v.peers ==> CursorOf(u, id) <= CursorOf(v, id);
    }
  }

  lemma {:induction false} ChecksLater<E>(before: seq<L.Call>, calls: seq<L.Call>, waits: seq<Surroundings>,
                                          producer: int, ids: seq<R.Id>, s: R.State<E>, t: R.State<E>, u: R.State<E>,
                                          v: R.State<E>)
    requires ChecksMade(before, calls, waits, producer, ids, t, u) && PeersKept(s, t) && PeersKept(u, v)
    ensures ChecksMade(before, calls, waits, producer, ids, s, v)
    decreases |calls|
  {
    if |calls| > |before| {
      CheckLater(calls[|calls| - 1], waits[|calls| - 1 - |before|].now, producer, ids, s, t, u, v);
      ChecksLater(before, calls[..|calls| - 1], waits, producer, ids, s, t, u, v);
    }
  }

  lemma {:induction false} OneMoreCheck<E>(before: seq<L.Call>, calls: seq<L.Call>, call: L.Call,
                                           waits: seq<Surroundings>, producer: int, ids: seq<R.Id>, s: R.State<E>,
                                           t: R.State<E>, u: R.State<E>)
    requires ChecksMade(before, calls, waits, producer, ids, s, t) && |before| <= |calls| < |before| + |waits|
    requires IsCheck(call, waits[|calls| - |before|].now, producer, ids, t, u) && PeersKept(s, t) && PeersKept(t, u)
    ensures ChecksMade(before, calls + [call], waits, producer, ids, s, u)
  {
    PeersKeptRefl(s);
    PeersKeptRefl(u);
    CheckLater(call, waits[|calls| - |before|].now, producer, ids, s, t, u, u);
    ChecksLater(before, calls, waits, producer, ids, s, s, t, u);
    assert (calls + [call])[..|calls|] == calls;
  }

  lemma {:induction false} CheckAt<E>(before: seq<L.Call>, calls: seq<L.Call>, waits: seq<Surroundings>, producer: int,
                                      ids: seq<R.Id>, s: R.State<E>, t: R.State<E>, i: nat)
    requires ChecksMade(before, calls, waits, producer, ids, s, t) && |before| + i < |calls|
    ensures i < |waits| && before <= calls && IsCheck(calls[|before| + i], waits[i].now, producer, ids, s, t)
    decreases |calls|
  {
    if |before| + i < |calls| - 1 {
      CheckAt(before, calls[..|calls| - 1], waits, producer, ids, s, t, i);
    } else {
      ChecksExtend(before, calls, waits, producer, ids, s, t);
    }
  }

  lemma {:induction false} ChecksExtend<E>(before: seq<L.Call>, calls: seq<L.Call>, waits: seq<Surroundings>,
                                           producer: int, ids: seq<R.Id>, s: R.State<E>, t: R.State<E>)
    requires ChecksMade(before, calls, waits, producer, ids, s, t)
    ensures before <= calls && |calls| <= |before| + |waits|
    decreases |calls|
  {
    if |calls| > |before| {
      ChecksExtend(before, calls[..|calls| - 1], waits, producer, ids, s, t);
    }
  }

  // ---- How long a blocked call lasts ----

  /** The clock readings come at most `d` apart. */
  predicate Paced(waits: seq<Surroundings>, d: nat) {
    forall i :: 0 < i < |waits| ==> Soon(waits, i, d)
  }

  predicate Soon(waits: seq<Surroundings>, i: int, d: nat)
    requires 0 < i < |waits|
  {
    waits[i].now <= waits[i - 1].now + d
  }

  /** The consumer stood still, behind the producer. */
  ghost predicate Stands<E>(s: R.State<E>, t: R.State<E>, id: R.Id) {
    CursorOf(s, id) == CursorOf(t, id) < s.cursor
  }

  /** The last check came in time; a call that waits on has not reached the limit. */
  predicate InTime(cfg: L.Config, t0: nat, calls: seq<L.Call>, waits: seq<Surroundings>, d: nat, waiting: bool) {
    && waits != [] && LT.LastCall(t0, calls) < LD.BlockedLimit(cfg, d, waits[0].now) + d
    && (waiting ==> waits[|waits| - 1].now < LD.BlockedLimit(cfg, d, waits[0].now))
  }

  /** Checks without an error so far have not reached the limit. */
  lemma {:induction false} WaitsInTime<E>(cfg: L.Config, t0: nat, before: seq<L.Call>, calls: seq<L.Call>,
                                          waits: seq<Surroundings>, s: R.State<E>, t: R.State<E>, d: nat, id: R.Id)
    requires L.ValidConfig(cfg) && L.Timely(t0, calls) && L.After(cfg, t0, calls).terminal.None? && id in cfg.ids
    requires ChecksMade(before, calls, waits, s.cursor, cfg.ids, s, t) && Stands(s, t, id) && Paced(waits, d)
    requires waits != [] && LT.LastCall(t0, before) <= waits[0].now
    ensures LT.LastCall(t0, calls) < LD.BlockedLimit(cfg, d, waits[0].now)
  {
    var from := |before|;
    ChecksExtend(before, calls, waits, s.cursor, cfg.ids, s, t);
    assert calls[..from] == before;
    forall i | from <= i < |calls| ensures LD.CallInTime(waits[0].now, calls, from, i, d) {
      CheckAt(before, calls, waits, s.cursor, cfg.ids, s, t, i - from);
      if i > from {
        CheckAt(before, calls, waits, s.cursor, cfg.ids, s, t, i - 1 - from);
        assert Soon(waits, i - from, d);
      }
    }
    forall i | from <= i < |calls| ensures LD.SeesStanding(calls[i], id, CursorOf(s, id)) {
      CheckAt(before, calls, waits, s.cursor, cfg.ids, s, t, i - from);
    }
    LD.StandingIsDetected(cfg, t0, calls, from, waits[0].now, d, id, CursorOf(s, id));
  }

  /** So a call in which every check but the last was without an error ends in time. */
  lemma {:induction false} EndsInTime<E>(cfg: L.Config, t0: nat, before: seq<L.Call>, calls: seq<L.Call>,
                                         waits: seq<Surroundings>, s: R.State<E>, t: R.State<E>, d: nat, id: R.Id)
    requires L.ValidConfig(cfg) && L.Timely(t0, calls) && id in cfg.ids
    requires ChecksMade(before, calls, waits, s.cursor, cfg.ids, s, t) && Stands(s, t, id) && Paced(waits, d)
    requires waits != [] && LT.LastCall(t0, before) <= waits[0].now
    requires |calls| > |before| ==> L.After(cfg, t0, calls[..|calls| - 1]).terminal.None?
    ensures InTime(cfg, t0, calls, waits, d, false)
  {
    if |calls| > |before| + 1 {
      WaitsInTime(cfg, t0, before, calls[..|calls| - 1], waits, s, t, d, id);
    }
    LastCallSoon(t0, before, calls, waits, s.cursor, cfg.ids, s, t, d);
  }

  /** The last call of several came at most `d` after the one before. */
  lemma {:induction false} LastCallSoon<E>(t0: nat, before: seq<L.Call>, calls: seq<L.Call>, waits: seq<Surroundings>,
                                           producer: int, ids: seq<R.Id>, s: R.State<E>, t: R.State<E>, d: nat)
    requires ChecksMade(before, calls, waits, producer, ids, s, t) && Paced(waits, d)
    requires waits != [] && LT.LastCall(t0, before) <= waits[0].now
    ensures |calls| > |before| + 1 ==> LT.LastCall(t0, calls) <= LT.LastCall(t0, calls[..|calls| - 1]) + d
    ensures |calls| <= |before| + 1 ==> LT.LastCall(t0, calls) <= waits[0].now
  {
    if |calls| > |before| {
      var n := |calls| - |before|;
      CheckAt(before, calls, waits, producer, ids, s, t, n - 1);
      if n > 1 {
        CheckAt(before, calls, waits, producer, ids, s, t, n - 2);
        assert Soon(waits, n - 1, d);
      }
    }
  }

  // ---- Stretches in which nothing the producer waits for happens ----

  /** No tracked consumer moved, none was found, and none had been left behind before it was found. */
  ghost predicate Undisturbed<E>(s: R.State<E>, t: R.State<E>) {
    Quiet(s, t) && t.discovered == s.discovered && TrackedAreSafe(s)
  }

  /** Cursors that ended where they began did not move in between. */
  lemma StoodStill<E>(s: R.State<E>, t: R.State<E>, u: R.State<E>, id: R.Id)
    requires PeersKept(s, t) && PeersKept(t, u) && CursorOf(s, id) == CursorOf(u, id)
    ensures CursorOf(t, id) == CursorOf(s, id)
  {
    assert id in t.peers ==> CursorOf(s, id) <= CursorOf(t, id);
    assert id in u.peers ==> CursorOf(t, id) <= CursorOf(u, id);
  }

  lemma UndisturbedLater<E(!new)>(s: R.State<E>, t: R.State<E>, u: R.State<E>)
    requires Reachable(s) && PeersKept(s, t) && PeersKept(t, u) && Undisturbed(s, u)
    ensures Undisturbed(t, u)
  {
    SafeStays(s, t);
    forall id | id in u.discovered ensures CursorOf(t, id) == CursorOf(u, id) {
      StoodStill(s, t, u, id);
    }
  }

  lemma SameRoomBefore<E>(s: R.State<E>, t: R.State<E>, u: R.State<E>, n: int)
    requires RingKept(s, t) && PeersKept(t, u) && Quiet(s, u)
    ensures HasRoom(s, u.discovered, n) <==> HasRoom(t, u.discovered, n)
  {
    forall id | id in u.discovered ensures CursorOf(t, id) == CursorOf(s, id) {
      StoodStill(s, t, u, id);
    }
  }

  /** A grant in an undisturbed stretch found the room that was there at its beginning. */
  lemma RoomWasThere<E(!new)>(s: R.State<E>, granted: R.State<E>, t: R.State<E>, n: int)
    requires Reachable(s) && RingKept(s, granted) && PeersKept(granted, t) && Undisturbed(s, t)
    requires TrackedAreSafe(granted) ==> HasRoom(granted, granted.discovered, n)
    ensures HasRoom(s, t.discovered, n)
  {
    assert granted.discovered == s.discovered;
    SafeStays(s, granted);
    SameRoomBefore(s, granted, t, n);
  }

  class ManagedSharedProducer<E(!new)> {
    const inner: SharedProducer<E>
    const liveness: RequiredConsumerLivenessState
    ghost const t0: nat
    ghost var calls: seq<L.Call>  // the calls made on the liveness state so far

    ghost predicate Valid()
      reads this, inner, inner.mem, inner.mem.slots, inner.mem.enrolled, inner.barrier, liveness
    {
      && inner.Valid() && Followed()
      && (liveness.startupCompleted ==> forall id :: id in liveness.config.ids ==> id in inner.barrier.consumerCursors)
    }

    constructor (inner: SharedProducer<E>, config: L.Config, now: nat)
      requires inner.Valid() && L.ValidConfig(config)
      ensures Valid() && this.inner == inner && liveness.config == config && fresh(liveness)
      ensures !liveness.startupCompleted
      ensures t0 == now && calls == []
    {
      this.inner := inner;
      liveness := new RequiredConsumerLivenessState(config, now);
      t0 := now;
      calls := [];
    }

    /** The committed cursor of one consumer, discovering it first if need be. */
    method ConsumerSequence(id: R.Id) returns (seen: Option<int>)
      requires inner.Valid()
      modifies inner.barrier`consumerCursors, inner.mem, inner.mem.slots
      ensures inner.Valid() && Discovered(old(inner.mem.state), inner.mem.state)
      ensures old(inner.barrier.consumerCursors) <= inner.barrier.consumerCursors
      ensures id in old(inner.barrier.consumerCursors) ==> seen.Some?
      ensures seen.Some? ==> CursorOf(old(inner.mem.state), id) <= seen.value <= CursorOf(inner.mem.state, id)
    {
      var mem := inner.mem;
      var found := inner.barrier.DiscoverConsumerId(id);
      if !found {
        return None;
      }
      ghost var attached := mem.state;
      mem.Yield(Producer);
      OthersOfProducer(attached, mem.state);
      RelyKeeps(attached, mem.state);
      DiscoverTwice(old(mem.state), attached, mem.state);
      ProducerFacts(mem.state);
      assert id in mem.state.peers && CursorOf(old(mem.state), id) <= CursorOf(mem.state, id);
      seen := Some(mem.consumerCursors[id]);
    }

    /** Every required consumer's cursor, one after the other while the consumers keep running. */
    method ObserveAll() returns (observed: map<R.Id, int>)
      requires inner.Valid()
      modifies inner.barrier`consumerCursors, inner.mem, inner.mem.slots
      ensures inner.Valid() && Discovered(old(inner.mem.state), inner.mem.state)
      ensures old(inner.barrier.consumerCursors) <= inner.barrier.consumerCursors
      ensures TrueReading(old(inner.mem.state), observed, inner.mem.state)
      ensures forall id :: id in liveness.config.ids && id in old(inner.barrier.consumerCursors) ==> id in observed
    {
      var ids := liveness.config.ids;
      observed := map[];
      var k := 0;
      while k < |ids|
        invariant k <= |ids| && inner.Valid() && Discovered(old(inner.mem.state), inner.mem.state)
        invariant old(inner.barrier.consumerCursors) <= inner.barrier.consumerCursors
        invariant TrueReading(old(inner.mem.state), observed, inner.mem.state)
        invariant forall j :: 0 <= j < k && ids[j] in old(inner.barrier.consumerCursors) ==> ids[j] in observed
      {
        ghost var before := inner.mem.state;
        var seen := ConsumerSequence(ids[k]);
        ReadingKept(old(inner.mem.state), observed, before, inner.mem.state);
        DiscoverTwice(old(inner.mem.state), before, inner.mem.state);
        if seen.Some? {
          OneMoreReading(old(inner.mem.state), observed, before, inner.mem.state, ids[k], seen.value);
          observed := observed[ids[k] := seen.value];
        }
        k := k + 1;
      }
    }

    /** The required consumers whose cursors do not exist yet, in order. */
    method MissingRequiredConsumers() returns (missing: seq<R.Id>)
      requires inner.Valid()
      modifies inner.barrier`consumerCursors, inner.mem, inner.mem.slots
      ensures inner.Valid() && Discovered(old(inner.mem.state), inner.mem.state)
      ensures old(inner.barrier.consumerCursors) <= inner.barrier.consumerCursors
      ensures forall id :: id in missing ==> id in liveness.config.ids && id !in old(inner.mem.consumerCursors)
      ensures forall id :: id in liveness.config.ids && id !in missing ==> id in inner.barrier.consumerCursors
    {
      var ids := liveness.config.ids;
      missing := [];
      var k := 0;
      while k < |ids|
        invariant k <= |ids| && inner.Valid() && Discovered(old(inner.mem.state), inner.mem.state)
        invariant old(inner.barrier.consumerCursors) <= inner.barrier.consumerCursors
        invariant old(inner.mem.consumerCursors).Keys <= inner.mem.consumerCursors.Keys
        invariant forall id :: id in missing ==> id in ids && id !in old(inner.mem.consumerCursors)
        invariant forall j :: 0 <= j < k && ids[j] !in missing ==> ids[j] in inner.barrier.consumerCursors
      {
        ghost var before := inner.mem.state;
        var found := inner.barrier.DiscoverConsumerId(ids[k]);
        DiscoverTwice(old(inner.mem.state), before, inner.mem.state);
        if !found {
          missing := missing + [ids[k]];
        }
        k := k + 1;
      }
    }

    /** Polls until every required consumer's cursor exists, then seeds their records; gives up when
        the startup timeout is over. `used` polls were made. */
    method EnsureRequiredConsumersReady(waits: seq<Surroundings>) returns (r: Readiness, used: nat)
      requires Valid() && Advancing(LT.LastCall(t0, calls), waits) && Advancing(t0, waits)
      modifies `calls, liveness, inner.barrier`consumerCursors, inner.mem, inner.mem.slots
      ensures Valid() && Discovered(old(inner.mem.state), inner.mem.state)
      ensures used <= |waits| && liveness.terminalError == old(liveness.terminalError)
      ensures (r.Ready? <==> liveness.startupCompleted) && (!r.Ready? ==> calls == old(calls))
      ensures old(liveness.startupCompleted) ==>
                r.Ready? && used == 0 && calls == old(calls) && inner.mem.state == old(inner.mem.state)
      ensures !old(liveness.startupCompleted) ==>
                if waits == [] then r.StillWaiting?
                else
                  && used > 0 && (used > 1 ==> waits[used - 2].now < Deadline(waits))
                  && (r.StillWaiting? ==> used == |waits|)
                  && RoundOutcome(r, waits[used - 1].now, Deadline(waits), old(calls), old(inner.mem.state),
                                  old(inner.mem.consumerCursors).Keys)
    {
      if liveness.startupCompleted {
        return Ready, 0;
      }
      if waits == [] {
        return StillWaiting, 0;
      }
      r, used := PollRounds(waits);
    }

    method PollRounds(waits: seq<Surroundings>) returns (r: Readiness, used: nat)
      requires Valid() && !liveness.startupCompleted && waits != []
      requires Advancing(LT.LastCall(t0, calls), waits) && Advancing(t0, waits)
      modifies `calls, liveness, inner.barrier`consumerCursors, inner.mem, inner.mem.slots
      ensures Valid() && Discovered(old(inner.mem.state), inner.mem.state)
      ensures 0 < used <= |waits| && liveness.terminalError == old(liveness.terminalError)
      ensures (r.Ready? <==> liveness.startupCompleted) && (!r.Ready? ==> calls == old(calls))
      ensures (used > 1 ==> waits[used - 2].now < Deadline(waits)) && (r.StillWaiting? ==> used == |waits|)
      ensures RoundOutcome(r, waits[used - 1].now, Deadline(waits), old(calls), old(inner.mem.state),
                           old(inner.mem.consumerCursors).Keys)
    {
      used := 0;
      ghost var s, existing := inner.mem.state, inner.mem.consumerCursors.Keys;
      while used < |waits|
        invariant used <= |waits| && Valid() && Discovered(s, inner.mem.state)
        invariant existing <= inner.mem.consumerCursors.Keys
        invariant liveness.terminalError == old(liveness.terminalError) && !liveness.startupCompleted
        invariant calls == old(calls)
        invariant used > 0 ==> waits[used - 1].now < Deadline(waits) && SomeMissing(existing)
      {
        r := StartupRound(waits[used].now, Deadline(waits), s, existing);
        used := used + 1;
        if !r.StillWaiting? {
          return;
        }
      }
      r := StillWaiting;
    }

    /** When the wait for required consumers is over. */
    function Deadline(waits: seq<Surroundings>): nat
      requires waits != []
    {
      waits[0].now + liveness.config.startupWaitTimeout
    }

    /** What a round of startup may come to. */
    ghost predicate RoundOutcome(r: Readiness, now: nat, deadline: nat, before: seq<L.Call>, s: R.State<E>,
                                 existing: set<R.Id>)
      reads this, inner, inner.mem
    {
      match r
      case Ready =>
        && LT.LastCall(t0, calls) == now && |calls| == |before| + 1 && before <= calls
        && IsStart(calls[|before|], now, liveness.config.ids, s, inner.mem.state)
      case StillWaiting => now < deadline && SomeMissing(existing)
      case NotReady(error) =>
        && now >= deadline && error.StartupTimeout? && error.missing != [] && SomeMissing(existing)
        && forall id :: id in error.missing ==> id in liveness.config.ids && id !in existing
    }

    /** One look for the required consumers, since `s` and the cursors that existed then. */
    method StartupRound(now: nat, deadline: nat, ghost s: R.State<E>, ghost existing: set<R.Id>) returns (r: Readiness)
      requires Valid() && !liveness.startupCompleted && LT.LastCall(t0, calls) <= now && t0 <= now
      requires Discovered(s, inner.mem.state) && existing <= inner.mem.consumerCursors.Keys
      modifies `calls, liveness, inner.barrier`consumerCursors, inner.mem, inner.mem.slots
      ensures Valid() && Discovered(s, inner.mem.state) && existing <= inner.mem.consumerCursors.Keys
      ensures liveness.terminalError == old(liveness.terminalError) && (r.Ready? <==> liveness.startupCompleted)
      ensures !r.Ready? ==> calls == old(calls)
      ensures RoundOutcome(r, now, deadline, old(calls), s, existing)
    {
      ghost var before := inner.mem.state;
      var missing := PollStartup(now);
      DiscoverTwice(s, before, inner.mem.state);
      if missing == [] {
        StartLater(calls[|old(calls)|], now, liveness.config.ids, s, before, inner.mem.state, inner.mem.state);
        r := Ready;
      } else {
        r := if now >= deadline then NotReady(L.StartupTimeout(missing)) else StillWaiting;
      }
    }

    /** Some required consumer is not among the cursors. */
    ghost predicate SomeMissing(cursors: set<R.Id>) {
      exists id :: id in liveness.config.ids && id !in cursors
    }

    /** One look for the required consumers; once none is missing, the startup is complete. */
    method PollStartup(now: nat) returns (missing: seq<R.Id>)
      requires Valid() && !liveness.startupCompleted && LT.LastCall(t0, calls) <= now && t0 <= now
      modifies `calls, liveness, inner.barrier`consumerCursors, inner.mem, inner.mem.slots
      ensures Valid() && Discovered(old(inner.mem.state), inner.mem.state)
      ensures PeersKept(inner.mem.state, inner.mem.state)
      ensures liveness.terminalError == old(liveness.terminalError) && (liveness.startupCompleted <==> missing == [])
      ensures missing == [] ==>
                && LT.LastCall(t0, calls) == now && |calls| == |old(calls)| + 1 && old(calls) <= calls
                && IsStart(calls[|old(calls)|], now, liveness.config.ids, old(inner.mem.state), inner.mem.state)
      ensures missing != [] ==> calls == old(calls) && SomeMissing(old(inner.mem.consumerCursors).Keys)
      ensures forall id :: id in missing ==> id in liveness.config.ids && id !in old(inner.mem.consumerCursors)
    {
      missing := MissingRequiredConsumers();
      PeersKeptRefl(inner.mem.state);
      if missing == [] {
        ghost var complete := inner.mem.state;
        CompleteStartup(now);
        PeersKeptRefl(inner.mem.state);
        StartLater(calls[|old(calls)|], now, liveness.config.ids, old(inner.mem.state), complete, inner.mem.state,
                   inner.mem.state);
        DiscoverTwice(old(inner.mem.state), complete, inner.mem.state);
      } else {
        assert missing[0] in missing;
      }
    }

    method CompleteStartup(now: nat)
      requires Valid() && LT.LastCall(t0, calls) <= now && t0 <= now
      requires forall id :: id in liveness.config.ids ==> id in inner.barrier.consumerCursors
      modifies `calls, liveness, inner.barrier`consumerCursors, inner.mem, inner.mem.slots
      ensures Valid() && liveness.startupCompleted && LT.LastCall(t0, calls) == now
      ensures |calls| == |old(calls)| + 1 && old(calls) <= calls
      ensures IsStart(calls[|old(calls)|], now, liveness.config.ids, old(inner.mem.state), inner.mem.state)
      ensures liveness.terminalError == old(liveness.terminalError)
      ensures Discovered(old(inner.mem.state), inner.mem.state)
      ensures old(inner.barrier.consumerCursors) <= inner.barrier.consumerCursors
    {
      var observed := ObserveAll();
      SeedObserved(now, observed);
    }

    method SeedObserved(now: nat, observed: map<R.Id, int>)
      requires Valid() && LT.LastCall(t0, calls) <= now && t0 <= now
      requires forall id :: id in liveness.config.ids ==> id in inner.barrier.consumerCursors
      modifies `calls, liveness
      ensures Valid() && liveness.startupCompleted && LT.LastCall(t0, calls) == now
      ensures calls == old(calls) + [L.Started(now, observed)] && liveness.terminalError == old(liveness.terminalError)
    {
      SeedLiveness(now, observed);
    }

    /** The liveness state is what the calls made of it. */
    ghost predicate Followed()
      reads this, liveness
    {
      && L.ValidConfig(liveness.config) && L.Timely(t0, calls)
      && liveness.Valid() && liveness.Model() == L.After(liveness.config, t0, calls)
    }

    method SeedLiveness(now: nat, observed: map<R.Id, int>)
      requires Followed() && LT.LastCall(t0, calls) <= now && t0 <= now
      modifies `calls, liveness
      ensures Followed() && liveness.startupCompleted && LT.LastCall(t0, calls) == now
      ensures calls == old(calls) + [L.Started(now, observed)] && liveness.terminalError == old(liveness.terminalError)
    {
      ghost var m := liveness.Model();
      OneMoreCall(liveness.config, t0, calls, L.Started(now, observed));
      liveness.SeedProgress(now, observed);
      liveness.MarkStartupCompleted(now);
      assert liveness.Model() == L.Start(liveness.config, m, now, observed);
      calls := calls + [L.Started(now, observed)];
    }

    /** Runs the liveness check on what was observed. */
    method EvaluateObserved(now: nat, producerSequence: int, observed: map<R.Id, int>)
      returns (error: Option<L.LivenessError>)
      requires Valid() && liveness.startupCompleted && LT.LastCall(t0, calls) <= now && t0 <= now
      modifies `calls, liveness
      ensures Valid() && liveness.startupCompleted && error == liveness.terminalError && LT.LastCall(t0, calls) == now
      ensures calls == old(calls) + [L.Blocked(now, producerSequence, observed)]
      ensures old(liveness.terminalError).Some? ==> error == old(liveness.terminalError)
      ensures error.Some? && old(liveness.terminalError).None? ==>
                && error.value.GracefulShutdownTriggered? && error.value.consumerId in liveness.config.ids
                && (error.value.consumerId in observed ==>
                      observed[error.value.consumerId] <= error.value.lastSequence
                      && observed[error.value.consumerId] < producerSequence)
    {
      ghost var m := liveness.Model();
      error := liveness.EvaluateBlocked(now, producerSequence, observed);
      ghost var call := L.Blocked(now, producerSequence, observed);
      OneMoreCall(liveness.config, t0, calls, call);
      CheckErrorWasObserved(liveness.config, m, now, producerSequence, observed, liveness.Model());
      calls := calls + [call];
    }

    /** The check between two attempts: it reports the producer's sequence and every required consumer's
        cursor. An error it raises is about a consumer that really had not committed past the sequence it
        names, and was behind the producer. */
    method CheckRequiredConsumerLiveness(now: nat) returns (error: Option<L.LivenessError>)
      requires Valid() && liveness.startupCompleted && LT.LastCall(t0, calls) <= now && t0 <= now
      modifies `calls, liveness, inner.barrier`consumerCursors, inner.mem, inner.mem.slots
      ensures Valid() && liveness.startupCompleted && error == liveness.terminalError && LT.LastCall(t0, calls) == now
      ensures |calls| == |old(calls)| + 1 && old(calls) <= calls
      ensures IsCheck(calls[|old(calls)|], now, inner.mem.state.cursor, liveness.config.ids, old(inner.mem.state),
                      inner.mem.state)
      ensures old(liveness.terminalError).Some? ==> error == old(liveness.terminalError)
      ensures Discovered(old(inner.mem.state), inner.mem.state)
      ensures error.Some? && old(liveness.terminalError).None? ==>
                && error.value.GracefulShutdownTriggered? && error.value.consumerId in liveness.config.ids
                && CursorOf(old(inner.mem.state), error.value.consumerId) <= error.value.lastSequence
                && CursorOf(old(inner.mem.state), error.value.consumerId) < inner.mem.state.cursor
    {
      var producerSequence := inner.mem.producerCursor;
      var observed := ObserveAll();
      error := EvaluateObserved(now, producerSequence, observed);
    }

    /** One attempt: publish if there is room, otherwise check the required consumers. */
    method Attempt(event: E, env: Surroundings) returns (published: Option<int>, error: Option<L.LivenessError>)
      requires Valid() && liveness.startupCompleted && LT.LastCall(t0, calls) <= env.now && t0 <= env.now
      modifies this, liveness, inner, inner.barrier, inner.mem, inner.mem.slots
      ensures Valid() && liveness.startupCompleted && LT.LastCall(t0, calls) <= env.now
      ensures published.Some? ==>
                && published.value == old(inner.sequence) && error.None?
                && inner.mem.state.published == old(inner.mem.state.published) + [event]
                && calls == old(calls) && liveness.terminalError == old(liveness.terminalError)
      ensures published.None? ==>
                && RingKept(old(inner.mem.state), inner.mem.state) && inner.sequence == old(inner.sequence)
                && error == liveness.terminalError && |calls| == |old(calls)| + 1 && old(calls) <= calls
                && IsCheck(calls[|old(calls)|], env.now, inner.mem.state.cursor, liveness.config.ids,
                           old(inner.mem.state), inner.mem.state)
                && (old(liveness.terminalError).Some? ==> error == old(liveness.terminalError))
                && (Fits(old(inner.sequence), 1) ==> !HasRoom(old(inner.mem.state), inner.mem.state.discovered, 1))
      ensures PeersKept(old(inner.mem.state), inner.mem.state)
      ensures published.Some? && Undisturbed(old(inner.mem.state), inner.mem.state) ==>
                HasRoom(old(inner.mem.state), inner.mem.state.discovered, 1)
    {
      assert liveness.config.ids[0] in inner.barrier.consumerCursors;
      var reserved := inner.NextSequences(1, env);
      if reserved.Ok? {
        ghost var granted := inner.mem.state;
        var sequence := inner.ApplyUpdate(event);
        PeersKeptTrans(old(inner.mem.state), granted, inner.mem.state);
        if Undisturbed(old(inner.mem.state), inner.mem.state) {
          RoomWasThere(old(inner.mem.state), granted, inner.mem.state, 1);
        }
        return Some(sequence), None;
      }
      ghost var refused := inner.mem.state;
      error := CheckRequiredConsumerLiveness(env.now);
      PeersKeptRefl(inner.mem.state);
      CheckLater(calls[|old(calls)|], env.now, inner.mem.state.cursor, liveness.config.ids, old(inner.mem.state),
                 refused, inner.mem.state, inner.mem.state);
      RoomForFewer(old(inner.mem.state), refused.discovered, inner.mem.state.discovered, 1);
      RingKeptTrans(old(inner.mem.state), refused, inner.mem.state);
      published := None;
    }

    /** Since `s` and the calls `before`, when the error was `was`, the first `k` waits have been spent on
        refused attempts, each followed by a check. */
    ghost predicate Refused(before: seq<L.Call>, s: R.State<E>, was: Option<L.LivenessError>, waits: seq<Surroundings>,
                            k: nat)
      reads this, inner, inner.mem, inner.mem.slots, inner.mem.enrolled, inner.barrier, liveness
    {
      && Valid() && liveness.startupCompleted && k <= |waits| && |calls| == |before| + k
      && ChecksMade(before, calls, waits, s.cursor, liveness.config.ids, s, inner.mem.state)
      && RingKept(s, inner.mem.state)
      && (k > 0 && was.None? ==> L.After(liveness.config, t0, calls[..|calls| - 1]).terminal.None?)
      && (k > 0 && Fits(s.sequence, 1) ==> !HasRoom(s, inner.mem.state.discovered, 1))
    }

    /** The event is in, after some refused attempts. */
    ghost predicate Succeeded(before: seq<L.Call>, s: R.State<E>, was: Option<L.LivenessError>,
                              waits: seq<Surroundings>, event: E)
      reads this, inner, inner.mem, liveness
    {
      && PeersKept(s, inner.mem.state) && inner.mem.state.published == s.published + [event]
      && ChecksMade(before, calls, waits, s.cursor, liveness.config.ids, s, inner.mem.state)
      && (|calls| > |before| && was.None? ==> L.After(liveness.config, t0, calls[..|calls| - 1]).terminal.None?)
      && (Undisturbed(s, inner.mem.state) ==> HasRoom(s, inner.mem.state.discovered, 1))
    }

    /** One more round. */
    method AttemptAgain(event: E, waits: seq<Surroundings>, k: nat, ghost before: seq<L.Call>, ghost s: R.State<E>,
                        ghost was: Option<L.LivenessError>)
      returns (published: Option<int>, error: Option<L.LivenessError>)
      requires Reachable(s) && Refused(before, s, was, waits, k) && k < |waits|
      requires LT.LastCall(t0, calls) <= waits[k].now && t0 <= waits[k].now
      requires was.None? ==> liveness.terminalError.None?
      modifies this, liveness, inner, inner.barrier, inner.mem, inner.mem.slots
      ensures Valid() && liveness.startupCompleted && LT.LastCall(t0, calls) <= waits[k].now
      ensures published.Some? ==> published.value == s.sequence && Succeeded(before, s, was, waits, event)
      ensures published.None? ==> Refused(before, s, was, waits, k + 1) && error == liveness.terminalError
      ensures published.None? && old(liveness.terminalError).Some? ==> error == old(liveness.terminalError)
    {
      ghost var mid, made := inner.mem.state, calls;
      assert L.After(liveness.config, t0, made).terminal == liveness.terminalError;
      published, error := Attempt(event, waits[k]);
      if published.Some? {
        NowSucceeded(before, s, was, waits, event, mid);
      } else {
        NowRefused(before, s, was, waits, k, mid, made);
      }
    }

    lemma {:induction false} NowSucceeded(before: seq<L.Call>, s: R.State<E>, was: Option<L.LivenessError>,
                                          waits: seq<Surroundings>, event: E, mid: R.State<E>)
      requires Reachable(s) && RingKept(s, mid) && PeersKept(mid, inner.mem.state)
      requires ChecksMade(before, calls, waits, s.cursor, liveness.config.ids, s, mid)
      requires |calls| > |before| && was.None? ==> L.After(liveness.config, t0, calls[..|calls| - 1]).terminal.None?
      requires inner.mem.state.published == mid.published + [event]
      requires Undisturbed(mid, inner.mem.state) ==> HasRoom(mid, inner.mem.state.discovered, 1)
      ensures Succeeded(before, s, was, waits, event)
    {
      PublishedLater(before, calls, waits, s, mid, inner.mem.state);
    }

    lemma {:induction false} NowRefused(before: seq<L.Call>, s: R.State<E>, was: Option<L.LivenessError>,
                                        waits: seq<Surroundings>, k: nat, mid: R.State<E>, made: seq<L.Call>)
      requires Valid() && liveness.startupCompleted && k < |waits| && |made| == |before| + k
      requires RingKept(s, mid) && RingKept(mid, inner.mem.state)
      requires ChecksMade(before, made, waits, s.cursor, liveness.config.ids, s, mid)
      requires |calls| == |made| + 1 && made <= calls
      requires IsCheck(calls[|made|], waits[k].now, s.cursor, liveness.config.ids, mid, inner.mem.state)
      requires was.None? ==> L.After(liveness.config, t0, made).terminal.None?
      requires Fits(s.sequence, 1) ==> !HasRoom(mid, inner.mem.state.discovered, 1)
      ensures Refused(before, s, was, waits, k + 1)
    {
      assert calls == made + [calls[|made|]] && calls[..|calls| - 1] == made;
      OneMoreCheck(before, made, calls[|made|], waits, s.cursor, liveness.config.ids, s, mid, inner.mem.state);
      RoomStays(s, mid, inner.mem.state.discovered, 1);
      RingKeptTrans(s, mid, inner.mem.state);
    }

    /** Attempts to publish until one succeeds or a check reports an error, each attempt without room
        being followed by a check. */
    method PublishWhenReady(event: E, waits: seq<Surroundings>) returns (r: Option<Result<int, L.LivenessError>>)
      requires Valid() && liveness.startupCompleted && Advancing(t0, waits)
      requires waits != [] ==> LT.LastCall(t0, calls) <= waits[0].now
      modifies this, liveness, inner, inner.barrier, inner.mem, inner.mem.slots
      ensures Valid() && liveness.startupCompleted && PeersKept(old(inner.mem.state), inner.mem.state)
      ensures ChecksMade(old(calls), calls, waits, old(inner.mem.state.cursor), liveness.config.ids,
                         old(inner.mem.state), inner.mem.state)
      ensures r.Some? && r.value.Ok? ==>
                && r.value.value == old(inner.sequence)
                && inner.mem.state.published == old(inner.mem.state.published) + [event]
      ensures !(r.Some? && r.value.Ok?) ==> RingKept(old(inner.mem.state), inner.mem.state)
      ensures r.Some? && r.value.Err? ==> liveness.terminalError == Some(r.value.error) && |calls| > |old(calls)|
      ensures r.None? ==> |calls| == |old(calls)| + |waits| && (waits != [] ==> liveness.terminalError.None?)
      ensures old(liveness.terminalError).None? && |calls| > |old(calls)| ==>
                L.After(liveness.config, t0, calls[..|calls| - 1]).terminal.None?
      ensures (waits != [] && Fits(old(inner.sequence), 1)
               && HasRoom(old(inner.mem.state), inner.mem.state.discovered, 1)) ==> r.Some? && r.value.Ok?
      ensures old(liveness.terminalError).Some? && waits != [] ==>
                r.Some? && (r.value.Err? ==> r.value.error == old(liveness.terminalError).value)
      ensures waits != [] && Fits(old(inner.sequence), 1) && Undisturbed(old(inner.mem.state), inner.mem.state) ==>
                (r.Some? && r.value.Ok? <==> HasRoom(old(inner.mem.state), inner.mem.state.discovered, 1))
    {
      ghost var before, s, was := calls, inner.mem.state, liveness.terminalError;
      PeersKeptRefl(s);
      var published, error, k := AttemptRounds(event, waits, before, s, was);
      if published.Some? {
        r := Some(Ok(published.value));
      } else {
        r := if error.Some? then Some(Err(error.value)) else None;
      }
    }

    /** Round after round, until an event is in or an error is up. */
    method AttemptRounds(event: E, waits: seq<Surroundings>, ghost before: seq<L.Call>, ghost s: R.State<E>,
                         ghost was: Option<L.LivenessError>)
      returns (published: Option<int>, error: Option<L.LivenessError>, ghost k: nat)
      requires Refused(before, s, was, waits, 0) && Reachable(s) && was == liveness.terminalError
      requires Advancing(t0, waits) && (waits != [] ==> LT.LastCall(t0, calls) <= waits[0].now)
      modifies this, liveness, inner, inner.barrier, inner.mem, inner.mem.slots
      ensures published.Some? ==>
                && Valid() && liveness.startupCompleted
                && published.value == s.sequence && Succeeded(before, s, was, waits, event)
      ensures published.None? ==>
                && Refused(before, s, was, waits, k) && (waits != [] ==> k > 0 && error == liveness.terminalError)
                && (waits != [] && was.Some? ==> error == was) && (error.None? ==> k == |waits|)
                && (waits == [] ==> error.None?)
    {
      published, error, k := None, None, 0;
      var round := 0;
      while round < |waits|
        invariant k == round && Refused(before, s, was, waits, round)
        invariant round < |waits| ==> LT.LastCall(t0, calls) <= waits[round].now
        invariant if round == 0 then liveness.terminalError == was else was.None? && liveness.terminalError.None?
        invariant published.None? && error.None? && (round > 0 ==> error == liveness.terminalError)
      {
        published, error := AttemptAgain(event, waits, round, before, s, was);
        if published.Some? {
          return;
        }
        round, k := round + 1, k + 1;
        if error.Some? {
          return;
        }
      }
    }

    /** What a success after some refusals leaves true of the whole call. */
    lemma {:induction false} PublishedLater(earlier: seq<L.Call>, made: seq<L.Call>, waits: seq<Surroundings>,
                                            s: R.State<E>, before: R.State<E>, t: R.State<E>)
      requires RingKept(s, before) && PeersKept(before, t) && Reachable(s)
      requires ChecksMade(earlier, made, waits, s.cursor, liveness.config.ids, s, before)
      ensures PeersKept(s, t) && ChecksMade(earlier, made, waits, s.cursor, liveness.config.ids, s, t)
      ensures Undisturbed(s, t) ==>
                && Undisturbed(before, t)
                && (HasRoom(before, t.discovered, 1) <==> HasRoom(s, t.discovered, 1))
    {
      PeersKeptRefl(s);
      PeersKeptTrans(s, before, t);
      ChecksLater(earlier, made, waits, s.cursor, liveness.config.ids, s, s, before, t);
      if Undisturbed(s, t) {
        UndisturbedLater(s, before, t);
        SameRoomBefore(s, before, t, 1);
      }
    }

    /** The calls since `before`: the startup, unless it was complete, then a check for each further wait. */
    ghost predicate Begun(before: seq<L.Call>, calls: seq<L.Call>, started: bool, waits: seq<Surroundings>, ready: nat,
                          s: R.State<E>, t: R.State<E>) {
      && ready <= |waits|
      && if started then ready == 0 && ChecksMade(before, calls, waits, s.cursor, liveness.config.ids, s, t)
         else
           && ready > 0 && |calls| > |before| && before <= calls
           && IsStart(calls[|before|], waits[ready - 1].now, liveness.config.ids, s, t)
           && ChecksMade(calls[..|before| + 1], calls, waits[ready..], s.cursor, liveness.config.ids, s, t)
    }

    /** What the checks of a call say about its length. */
    lemma {:induction false} CallEndsInTime(made: seq<L.Call>, calls: seq<L.Call>, rest: seq<Surroundings>,
                                            s: R.State<E>, start: R.State<E>, t: R.State<E>, d: nat, id: R.Id,
                                            waiting: bool)
      requires L.ValidConfig(liveness.config) && L.Timely(t0, calls) && id in liveness.config.ids && rest != []
      requires RingKept(s, start) && PeersKept(start, t) && Stands(s, t, id) && Paced(rest, d)
      requires ChecksMade(made, calls, rest, start.cursor, liveness.config.ids, start, t)
      requires LT.LastCall(t0, made) <= rest[0].now
      requires |calls| > |made| ==> L.After(liveness.config, t0, calls[..|calls| - 1]).terminal.None?
      requires waiting ==> |calls| == |made| + |rest| && L.After(liveness.config, t0, calls).terminal.None?
      ensures InTime(liveness.config, t0, calls, rest, d, waiting)
    {
      StoodStill(s, start, t, id);
      EndsInTime(liveness.config, t0, made, calls, rest, start, t, d, id);
      if waiting {
        WaitsInTime(liveness.config, t0, made, calls, rest, start, t, d, id);
        CheckAt(made, calls, rest, start.cursor, liveness.config.ids, start, t, |rest| - 1);
      }
    }

    /** Publishes one event, waiting while the ring is full, until the liveness check ends it. `None`
        when it would still be waiting after `waits`: the first `ready` of them for the required consumers
        to exist, the others each followed by a check. An earlier error does not keep an event out that
        there is room for; without room the call ends with exactly that error. A required consumer that
        stands still behind the producer ends it in bounded time. */
    method PublishManaged(event: E, waits: seq<Surroundings>)
      returns (r: Option<Result<int, L.LivenessError>>, ready: nat)
      requires Valid() && Advancing(LT.LastCall(t0, calls), waits) && Advancing(t0, waits)
      modifies this, liveness, inner, inner.barrier, inner.mem, inner.mem.slots
      ensures Valid() && ready <= |waits| && PeersKept(old(inner.mem.state), inner.mem.state)
      ensures r.Some? && r.value.Ok? ==>
                && r.value.value == old(inner.sequence)
                && inner.mem.state.published == old(inner.mem.state.published) + [event]
                && liveness.startupCompleted
      ensures !(r.Some? && r.value.Ok?) ==> RingKept(old(inner.mem.state), inner.mem.state)
      ensures r.Some? && r.value.Err? && liveness.startupCompleted ==> liveness.terminalError == Some(r.value.error)
      ensures old(liveness.startupCompleted) ==> liveness.startupCompleted && ready == 0
      ensures !liveness.startupCompleted ==>
                && calls == old(calls) && (waits != [] ==> SomeMissing(old(inner.mem.consumerCursors).Keys))
                && (r.Some? <==> ready > 0 && waits[ready - 1].now >= waits[0].now + liveness.config.startupWaitTimeout)
                && (r.Some? ==> r.value.Err? && r.value.error.StartupTimeout? && r.value.error.missing != []
                                && forall id :: id in r.value.error.missing ==>
                                      id in liveness.config.ids && id !in old(inner.mem.consumerCursors))
                && (r.None? ==> ready == |waits|)
      ensures liveness.startupCompleted ==>
                && Begun(old(calls), calls, old(liveness.startupCompleted), waits, ready, old(inner.mem.state),
                         inner.mem.state)
                && (r.None? ==> |calls| == |old(calls)| + (if old(liveness.startupCompleted) then 0 else 1)
                                           + |waits| - ready)
      ensures (old(liveness.startupCompleted) && waits != [] && Fits(old(inner.sequence), 1)
               && HasRoom(old(inner.mem.state), inner.barrier.consumerCursors, 1)) ==> r.Some? && r.value.Ok?
      ensures old(liveness.startupCompleted) && old(liveness.terminalError).Some? && waits != [] ==>
                r.Some? && (r.value.Err? ==> r.value.error == old(liveness.terminalError).value)
      ensures old(liveness.startupCompleted) && waits != [] && Fits(old(inner.sequence), 1)
              && Undisturbed(old(inner.mem.state), inner.mem.state) ==>
                (r.Some? && r.value.Ok? <==> HasRoom(old(inner.mem.state), inner.mem.state.discovered, 1))
      ensures liveness.startupCompleted && old(liveness.terminalError).None? && ready < |waits| ==>
                EveryStandingEnds(calls, waits[ready..], old(inner.mem.state), inner.mem.state, r.None?)
    {
      var readiness;
      readiness, ready := EnsureRequiredConsumersReady(waits);
      if readiness.StillWaiting? {
        return None, ready;
      }
      if readiness.NotReady? {
        return Some(Err(readiness.error)), ready;
      }
      LaterWaits(t0, waits, ready);
      r := PublishSince(event, waits, ready, old(calls), old(inner.mem.state), old(liveness.startupCompleted));
    }

    /** The startup is complete; what follows is told of the whole call, from `s` and the calls `before` on. */
    method PublishSince(event: E, waits: seq<Surroundings>, ready: nat, ghost before: seq<L.Call>, ghost s: R.State<E>,
                        ghost started: bool)
      returns (r: Option<Result<int, L.LivenessError>>)
      requires Valid() && liveness.startupCompleted && ready <= |waits| && RingKept(s, inner.mem.state)
      requires Advancing(t0, waits[ready..]) && (ready < |waits| ==> LT.LastCall(t0, calls) <= waits[ready].now)
      requires if started then ready == 0 && calls == before && inner.mem.state == s
               else ready > 0 && before <= calls && |calls| == |before| + 1
                    && IsStart(calls[|before|], waits[ready - 1].now, liveness.config.ids, s, inner.mem.state)
      modifies this, liveness, inner, inner.barrier, inner.mem, inner.mem.slots
      ensures Valid() && liveness.startupCompleted && PeersKept(s, inner.mem.state)
      ensures r.Some? && r.value.Ok? ==>
                r.value.value == s.sequence && inner.mem.state.published == s.published + [event]
      ensures !(r.Some? && r.value.Ok?) ==> RingKept(s, inner.mem.state)
      ensures r.Some? && r.value.Err? ==> liveness.terminalError == Some(r.value.error)
      ensures Begun(before, calls, started, waits, ready, s, inner.mem.state)
      ensures r.None? ==> |calls| == |old(calls)| + |waits| - ready
      ensures (started && waits != [] && Fits(s.sequence, 1)
               && HasRoom(s, inner.mem.state.discovered, 1)) ==> r.Some? && r.value.Ok?
      ensures started && old(liveness.terminalError).Some? && waits != [] ==>
                r.Some? && (r.value.Err? ==> r.value.error == old(liveness.terminalError).value)
      ensures started && waits != [] && Fits(s.sequence, 1) && Undisturbed(s, inner.mem.state) ==>
                (r.Some? && r.value.Ok? <==> HasRoom(s, inner.mem.state.discovered, 1))
      ensures old(liveness.terminalError).None? && ready < |waits| ==>
                EveryStandingEnds(calls, waits[ready..], s, inner.mem.state, r.None?)
    {
      ghost var start, made := inner.mem.state, calls;
      assert waits[0..] == waits;
      r := PublishWhenReady(event, waits[ready..]);
      PublishedSince(before, made, calls, started, waits, ready, s, start, inner.mem.state);
      RingKeptThen(s, start, inner.mem.state);
      if old(liveness.terminalError).None? && ready < |waits| {
        AllEndInTime(made, calls, waits[ready..], s, start, inner.mem.state, r.None?);
      }
    }

    lemma {:induction false} AllEndInTime(made: seq<L.Call>, calls: seq<L.Call>, rest: seq<Surroundings>,
                                          s: R.State<E>, start: R.State<E>, t: R.State<E>, waiting: bool)
      requires L.ValidConfig(liveness.config) && L.Timely(t0, calls) && rest != []
      requires RingKept(s, start) && PeersKept(start, t)
      requires ChecksMade(made, calls, rest, start.cursor, liveness.config.ids, start, t)
      requires LT.LastCall(t0, made) <= rest[0].now
      requires |calls| > |made| ==> L.After(liveness.config, t0, calls[..|calls| - 1]).terminal.None?
      requires waiting ==> |calls| == |made| + |rest| && L.After(liveness.config, t0, calls).terminal.None?
      ensures EveryStandingEnds(calls, rest, s, t, waiting)
    {
      forall id, d: nat | id in liveness.config.ids && Stands(s, t, id) && Paced(rest, d)
        ensures InTime(liveness.config, t0, calls, rest, d, waiting)
      {
        CallEndsInTime(made, calls, rest, s, start, t, d, id, waiting);
      }
    }

    /** Had any required consumer stood still behind the producer from `s` to `t`, with checks made at a
        steady pace, the call would have ended, or will end, in time. */
    ghost predicate EveryStandingEnds(calls: seq<L.Call>, rest: seq<Surroundings>, s: R.State<E>, t: R.State<E>,
                                      waiting: bool) {
      forall id, d: nat :: id in liveness.config.ids && Stands(s, t, id) && Paced(rest, d) ==>
        InTime(liveness.config, t0, calls, rest, d, waiting)
    }

    lemma RingKeptThen(s: R.State<E>, start: R.State<E>, t: R.State<E>)
      requires RingKept(s, start)
      ensures RingKept(start, t) ==> RingKept(s, t)
    {
      if RingKept(start, t) {
        RingKeptTrans(s, start, t);
      }
    }

    lemma {:induction false} PublishedSince(before: seq<L.Call>, made: seq<L.Call>, calls: seq<L.Call>, started: bool,
                                            waits: seq<Surroundings>, ready: nat, s: R.State<E>, start: R.State<E>,
                                            t: R.State<E>)
      requires ready <= |waits| && RingKept(s, start) && PeersKept(start, t)
      requires ChecksMade(made, calls, waits[ready..], start.cursor, liveness.config.ids, start, t)
      requires if started then ready == 0 && made == before
               else ready > 0 && before <= made && |made| == |before| + 1
                    && IsStart(made[|before|], waits[ready - 1].now, liveness.config.ids, s, start)
      ensures PeersKept(s, t) && Begun(before, calls, started, waits, ready, s, t)
    {
      PeersKeptTrans(s, start, t);
      PeersKeptRefl(t);
      ChecksLater(made, calls, waits[ready..], start.cursor, liveness.config.ids, s, start, t, t);
      if started {
        assert waits[0..] == waits;
      } else {
        PeersKeptRefl(s);
        StartLater(made[|before|], waits[ready - 1].now, liveness.config.ids, s, s, start, t);
        ChecksExtend(made, calls, waits[ready..], start.cursor, liveness.config.ids, start, t);
        assert calls[..|before| + 1] == made;
      }
    }
  }

  lemma StartLater<E>(call: L.Call, now: nat, ids: seq<R.Id>, s: R.State<E>, t: R.State<E>, u: R.State<E>,
                      v: R.State<E>)
    requires IsStart(call, now, ids, t, u) && PeersKept(s, t) && PeersKept(u, v)
    ensures IsStart(call, now, ids, s, v)
  {
    forall id | id in call.observed ensures CursorOf(s, id) <= call.observed[id] <= CursorOf(v, id) {
      assert id in t.peers ==> CursorOf(s, id) <= CursorOf(t, id);
      assert id in v.peers ==> CursorOf(u, id) <= CursorOf(v, id);
    }
  }

  lemma LaterWaits(from: nat, waits: seq<Surroundings>, k: nat)
    requires k <= |waits| && Advancing(from, waits)
    ensures Advancing(from, waits[k..])
  {
  }

  lemma RoomStays<E>(s: R.State<E>, t: R.State<E>, tracked: set<R.Id>, n: int)
    requires RingKept(s, t)
    ensures HasRoom(s, tracked, n) ==> HasRoom(t, tracked, n)
  {
    forall id ensures CursorOf(s, id) <= CursorOf(t, id) {
      assert id in t.peers || CursorOf(s, id) == CursorOf(t, id);
    }
  }

  lemma RoomForFewer<E>(s: R.State<E>, few: set<R.Id>, many: set<R.Id>, n: int)
    requires few <= many && few != {}
    ensures HasRoom(s, many, n) ==> HasRoom(s, few, n)
  {
  }

  lemma ReadingKept<E>(s: R.State<E>, observed: map<R.Id, int>, t: R.State<E>, u: R.State<E>)
    requires TrueReading(s, observed, t) && Discovered(t, u)
    ensures TrueReading(s, observed, u)
  {
    forall id | id in observed ensures observed[id] <= CursorOf(u, id) {
      assert CursorOf(t, id) <= CursorOf(u, id);
    }
  }

  lemma OneMoreReading<E>(s: R.State<E>, observed: map<R.Id, int>, t: R.State<E>, u: R.State<E>, id: R.Id, value: int)
    requires TrueReading(s, observed, u) && Discovered(s, t)
    requires CursorOf(t, id) <= value <= CursorOf(u, id)
    ensures TrueReading(s, observed[id := value], u)
  {
    assert CursorOf(s, id) <= CursorOf(t, id);
  }
}
