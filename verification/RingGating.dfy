/** The guarantees for gating consumers: those the barrier tracks before the producer's clearance first
    moves. Everybody found by the first scan that finds anybody is one of them. */
module RingGating {
  import opened RingProtocol
  import opened RingTheorems
  import opened RingProgress

  /** At `s` the clearance is still where it started and `id` is tracked; any run `rest` leads on to `u`. */
  ghost predicate FoundInTime<E(!new)>(s: State<E>, rest: seq<Step<E>>, u: State<E>, id: Id) {
    && Reachable(s) && s.size > 0 && |s.slots| == s.size && s.clear == s.size - 1 && id in s.discovered
    && IsRun(s, rest) && u == After(s, rest)
  }

  ghost predicate Gating<E(!new)>(u: State<E>, id: Id) {
    exists s: State<E>, rest: seq<Step<E>> :: FoundInTime(s, rest, u, id)
  }

  lemma {:induction false} ReachableRun<E(!new)>(s: State<E>, steps: seq<Step<E>>)
    requires Reachable(s) && s.size > 0 && |s.slots| == s.size && IsRun(s, steps)
    ensures Reachable(After(s, steps))
    decreases |steps|
  {
    if steps != [] {
      ReachableStep(s, steps[0]);
      ReachableRun(Take(s, steps[0]), steps[1..]);
    }
  }

  lemma {:induction false} RunAppend<E>(s: State<E>, a: seq<Step<E>>, b: seq<Step<E>>)
    requires s.size > 0 && |s.slots| == s.size && IsRun(s, a) && IsRun(After(s, a), b)
    ensures IsRun(s, a + b) && After(s, a + b) == After(After(s, a), b)
    decreases |a|
  {
    if a == [] {
      assert a + b == b;
    } else {
      RunAppend(Take(s, a[0]), a[1..], b);
      assert (a + b)[1..] == a[1..] + b;
    }
  }

  /** While the clearance is where it started, nobody has been left behind. */
  lemma NobodyLeftBehind<E(!new)>(s: State<E>, id: Id)
    requires Reachable(s) && s.clear == s.size - 1 && id in s.peers
    ensures !s.peers[id].lapped
  {
    PeerFacts(s, id);
  }

  /** A gating consumer is tracked, and no grant ever left it a ring behind. */
  lemma GatingIsSafe<E(!new)>(u: State<E>, id: Id)
    requires Gating(u, id)
    ensures Reachable(u) && id in u.discovered && id in u.peers && !u.peers[id].lapped
  {
    var s: State<E>, rest: seq<Step<E>> :| FoundInTime(s, rest, u, id);
    ReachableInv(s);
    NobodyLeftBehind(s, id);
    ReachableRun(s, rest);
    ProtectedForever(s, rest, id);
    TrackedStays(s, rest, id);
  }

  /** With discovery enabled, from a state where nobody was found yet: whoever is tracked when the first
      scan that finds anybody ends, before the producer decides anything, is gating ever after. */
  lemma FirstScanGates<E(!new)>(s: State<E>, scan: seq<Step<E>>, rest: seq<Step<E>>, id: Id)
    requires Reachable(s) && s.mode.Enabled? && s.discovered == {} && s.size > 0 && |s.slots| == s.size
    requires IsRun(s, scan) && forall i :: 0 <= i < |scan| ==> !scan[i].Decide?
    requires id in After(s, scan).discovered && IsRun(After(s, scan), rest)
    ensures Gating(After(After(s, scan), rest), id)
  {
    ProducerFacts(s);
    ClearanceStays(s, scan);
    ReachableRun(s, scan);
    assert FoundInTime(After(s, scan), rest, After(After(s, scan), rest), id);
  }

  lemma {:induction false} ClearanceStays<E>(s: State<E>, steps: seq<Step<E>>)
    requires s.size > 0 && |s.slots| == s.size && IsRun(s, steps)
    requires forall i :: 0 <= i < |steps| ==> !steps[i].Decide?
    ensures After(s, steps).clear == s.clear
    decreases |steps|
  {
    if steps != [] {
      ClearanceStays(Take(s, steps[0]), steps[1..]);
    }
  }

  lemma {:induction false} TrackedStays<E>(s: State<E>, steps: seq<Step<E>>, id: Id)
    requires s.size > 0 && |s.slots| == s.size && IsRun(s, steps) && id in s.discovered
    ensures id in After(s, steps).discovered
    decreases |steps|
  {
    if steps != [] {
      TrackedStays(Take(s, steps[0]), steps[1..], id);
    }
  }

  /** Being tracked before the clearance moves is enough. */
  lemma GatingNow<E(!new)>(s: State<E>, id: Id)
    requires Reachable(s) && s.clear == s.size - 1 && id in s.discovered
    ensures Gating(s, id)
  {
    ProducerFacts(s);
    assert FoundInTime(s, [], s, id);
  }

  /** Once gating, always gating, whatever happens next. */
  lemma GatingLasts<E(!new)>(u: State<E>, steps: seq<Step<E>>, id: Id)
    requires Gating(u, id) && u.size > 0 && |u.slots| == u.size && IsRun(u, steps)
    ensures Gating(After(u, steps), id)
  {
    var s: State<E>, rest: seq<Step<E>> :| FoundInTime(s, rest, u, id);
    RunAppend(s, rest, steps);
    assert FoundInTime(s, rest + steps, After(u, steps), id);
  }

  lemma GatingStep<E(!new)>(u: State<E>, step: Step<E>, id: Id)
    requires Gating(u, id) && u.size > 0 && |u.slots| == u.size && CanTake(u, step)
    ensures Gating(Take(u, step), id)
  {
    var one := [step];
    assert one[1..] == [];
    assert IsRun(Take(u, step), one[1..]) && After(Take(u, step), one[1..]) == Take(u, step);
    GatingLasts(u, one, id);
  }

  /** No overwrite: whenever the producer starts to write a slot, it aliases no sequence a gating
      consumer still has to commit, and lies at most a ring above its cursor. */
  lemma GatingNoOverwrite<E(!new)>(u: State<E>, id: Id, q: int)
    requires Gating(u, id) && CanTake(u, BeginWrite)
    requires id in u.peers && u.peers[id].cursor < q < |u.published|
    ensures u.size > 0 && SlotOf(q, u.size) != SlotOf(|u.published|, u.size)
    ensures |u.published| <= u.clear <= u.peers[id].cursor + u.size
  {
    GatingIsSafe(u, id);
    NoOverwrite(u, id, q);
  }

  /** Every slot of a held snapshot or lease of a gating consumer reads back the published event. */
  lemma GatingWindowIsStable<E(!new)>(u: State<E>, id: Id, q: int)
    requires Gating(u, id) && IsLive(u, id) && u.peers[id].live.value.upper.Some?
    requires u.peers[id].live.value.last < q <= u.peers[id].live.value.upper.value
    ensures u.size > 0 && |u.slots| == u.size
    ensures 0 <= q < |u.published| && u.slots[SlotOf(q, u.size)] == Full(u.published[q])
  {
    GatingIsSafe(u, id);
    HeldWindowIsStable(u, id, q);
  }

  /** Exact broadcast to a gating consumer that did not crash. */
  lemma GatingBroadcast<E(!new)>(u: State<E>, id: Id)
    requires Gating(u, id)
    ensures id in u.peers
    ensures var p := u.peers[id];
            p.crashes == 0 ==>
              0 <= Position(p) <= |u.published| && p.log == InOrder(u.published, Position(p))
  {
    GatingIsSafe(u, id);
    if u.peers[id].crashes == 0 {
      ExactBroadcast(u, id);
    }
  }

  /** Over any crashes and rejoins of a gating consumer nothing committed was skipped, everything handed
      over was the published event, a crash costs at most a ring of redeliveries, and a rejoin resumes
      right behind the committed cursor. */
  lemma GatingRejoin<E(!new)>(u: State<E>, id: Id)
    requires Gating(u, id)
    ensures id in u.peers && u.size > 0 && |u.slots| == u.size
    ensures var p := u.peers[id];
            && (forall q :: 0 <= q <= p.cursor ==> WasDelivered(p.log, q))
            && (forall k :: 0 <= k < |p.log| ==>
                  0 <= p.log[k].seqNo < |u.published| && p.log[k].slot == Full(u.published[p.log[k].seqNo]))
            && 0 <= Position(p) - (p.cursor + 1) <= u.size
            && |p.log| <= Position(p) + u.size * p.crashes
            && (CanTake(u, Attach(id)) ==> Position(Take(u, Attach(id)).peers[id]) == p.cursor + 1)
  {
    GatingIsSafe(u, id);
    ProducerFacts(u);
    RejoinNeverSkips(u, id);
  }

  ghost predicate AllGating<E(!new)>(s: State<E>, ids: set<Id>) {
    forall id :: id in ids ==> Gating(s, id)
  }

  /** Until the clearance moves, and right after the first grant that moves it, everybody the barrier
      tracks is gating. */
  lemma FirstGrantGates<E(!new)>(s: State<E>)
    requires Reachable(s) && s.size > 0 && |s.slots| == s.size && s.clear == s.size - 1
    ensures AllGating(s, s.discovered)
    ensures CanTake(s, Decide) ==> AllGating(Take(s, Decide), s.discovered)
  {
    forall id | id in s.discovered ensures Gating(s, id) {
      GatingNow(s, id);
    }
    if CanTake(s, Decide) {
      Advance(s, Decide, s.discovered);
    }
  }

  /** A step leads on to a reachable state with the same gating consumers. */
  lemma Advance<E(!new)>(s: State<E>, step: Step<E>, ids: set<Id>)
    requires Reachable(s) && s.size > 0 && |s.slots| == s.size && CanTake(s, step) && AllGating(s, ids)
    ensures Reachable(Take(s, step)) && AllGating(Take(s, step), ids)
  {
    ReachableStep(s, step);
    forall id | id in ids ensures Gating(Take(s, step), id) {
      GatingStep(s, step, id);
    }
  }
}
