/** What every run of the ring guarantees. */
module RingTheorems {
  import opened RingProtocol
  import opened RingSafety

  ghost predicate Reachable<E(!new)>(s: State<E>) {
    exists size: int, mode: DiscoveryMode, steps: seq<Step<E>> :: ReachedBy(s, size, mode, steps)
  }

  ghost predicate ReachedBy<E>(s: State<E>, size: int, mode: DiscoveryMode, steps: seq<Step<E>>) {
    size > 0 && IsRun(Init(size, mode), steps) && s == After(Init(size, mode), steps)
  }

  lemma ReachableInv<E(!new)>(s: State<E>)
    requires Reachable(s)
    ensures Inv(s)
  {
    var size, mode, steps :| ReachedBy(s, size, mode, steps);
    RunKeepsInv(Init(size, mode), steps);
  }

  // ---- No overwrite ----

  /** Whenever the producer starts writing a slot, that slot aliases no sequence an unlapped
      consumer still has to commit, and the write is within the granted clearance. */
  lemma NoOverwrite<E(!new)>(s: State<E>, id: Id, q: int)
    requires Reachable(s) && CanTake(s, BeginWrite)
    requires id in s.peers && !s.peers[id].lapped
    requires s.peers[id].cursor < q < |s.published|
    ensures SlotOf(q, s.size) != SlotOf(|s.published|, s.size)
    ensures |s.published| <= s.clear <= s.peers[id].cursor + s.size
  {
    ReachableInv(s);
    assert PeerInv(s, s.peers[id]);
    SlotsDiffer(q, |s.published|, s.size);
  }

  /** While a consumer that was never lapped holds a snapshot batch or a lease, every slot of it
      reads back the published event, at every moment until the commit. */
  lemma HeldWindowIsStable<E(!new)>(s: State<E>, id: Id, q: int)
    requires Reachable(s) && IsLive(s, id) && !s.peers[id].lapped
    requires s.peers[id].live.value.upper.Some?
    requires s.peers[id].live.value.last < q <= s.peers[id].live.value.upper.value
    ensures 0 <= q < |s.published| && s.slots[SlotOf(q, s.size)] == Full(s.published[q])
  {
    ReachableInv(s);
    assert PeerInv(s, s.peers[id]);
    WindowRetained(s, s.peers[id], q);
    assert Holds(s, q);
  }

  // ---- Exact broadcast ----

  /** The deliveries of sequences 0 up to `n`, each once, in order, with the published event. */
  function InOrder<E>(published: seq<E>, n: nat): (log: seq<Delivery<E>>)
    requires n <= |published|
  {
    seq(n, i requires 0 <= i < n => Delivery(i, Full(published[i])))
  }

  lemma ExactBroadcast<E(!new)>(s: State<E>, id: Id)
    requires Reachable(s) && id in s.peers && !s.peers[id].lapped && s.peers[id].crashes == 0
    ensures 0 <= Position(s.peers[id]) <= |s.published|
    ensures s.peers[id].log == InOrder(s.published, Position(s.peers[id]))
  {
    ReachableInv(s);
    var p := s.peers[id];
    assert PeerInv(s, p);
    var n := Position(p);
    forall k | 0 <= k < |p.log| ensures p.log[k] == Delivery(k, Full(s.published[k])) {
      assert p.log[0].seqNo == 0;
      assert p.log[k].seqNo == p.log[0].seqNo + k;
    }
    assert |p.log| == n;
  }

  // ---- Crash and rejoin under the same ID ----

  ghost predicate WasDelivered<E>(log: seq<Delivery<E>>, q: int) {
    exists k :: 0 <= k < |log| && log[k].seqNo == q
  }

  /** A rejoin resumes right after the committed cursor. Over all incarnations of an unlapped
      consumer no committed sequence was skipped and everything handed to the handler was the published
      event. What a crash now would have redelivered is at most a ring's worth, so the log is longer than
      the position by at most that much for each crash. */
  lemma RejoinNeverSkips<E(!new)>(s: State<E>, id: Id)
    requires Reachable(s) && id in s.peers && !s.peers[id].lapped
    ensures var p := s.peers[id];
            && (forall q :: 0 <= q <= p.cursor ==> WasDelivered(p.log, q))
            && (forall k :: 0 <= k < |p.log| ==>
                  0 <= p.log[k].seqNo < |s.published| && p.log[k].slot == Full(s.published[p.log[k].seqNo]))
            && |p.log| <= Position(p) + s.size * p.crashes
            && 0 <= Position(p) - (p.cursor + 1) <= s.size
            && (CanTake(s, Attach(id)) ==> Position(Take(s, Attach(id)).peers[id]) == p.cursor + 1)
  {
    ReachableInv(s);
    var p := s.peers[id];
    assert PeerInv(s, p);
    forall q | 0 <= q <= p.cursor ensures WasDelivered(p.log, q) {
      var k := FirstAt(p.log, q);
    }
    TimesIsProduct(s.size, p.crashes);
  }

  lemma {:induction false} TimesIsProduct(size: int, k: nat)
    ensures Times(size, k) == size * k
  {
    if k > 0 {
      TimesIsProduct(size, k - 1);
    }
  }

  /** A log that starts at 0, never skips ahead and ends at `q` or later contains `q`. */
  lemma {:induction false} FirstAt<E>(log: seq<Delivery<E>>, q: int) returns (k: nat)
    requires log != [] && log[0].seqNo == 0 && 0 <= q <= log[|log| - 1].seqNo
    requires forall i :: 1 <= i < |log| ==> NoSkipAt(log, i)
    ensures k < |log| && log[k].seqNo == q
  {
    k := |log| - 1;
    if log[k].seqNo != q {
      assert NoSkipAt(log, k);
      var shorter := log[..k];
      forall i | 1 <= i < |shorter| ensures NoSkipAt(shorter, i) {
        assert NoSkipAt(log, i);
      }
      k := FirstAt(shorter, q);
    }
  }

  lemma CursorStep<E>(s: State<E>, step: Step<E>, id: Id)
    requires Inv(s) && CanTake(s, step) && id in s.peers
    ensures id in Take(s, step).peers && s.peers[id].cursor <= Take(s, step).peers[id].cursor
  {
    assert PeerInv(s, s.peers[id]);
  }

  /** Committed cursors never move backwards, whatever crashes and rejoins happen. */
  lemma {:induction false} CursorsNeverRegress<E>(s: State<E>, steps: seq<Step<E>>, id: Id)
    requires Inv(s) && IsRun(s, steps) && id in s.peers
    ensures id in After(s, steps).peers && s.peers[id].cursor <= After(s, steps).peers[id].cursor
    decreases |steps|
  {
    if steps != [] {
      CursorStep(s, steps[0], id);
      StepKeepsInv(s, steps[0]);
      CursorsNeverRegress(Take(s, steps[0]), steps[1..], id);
    }
  }

  // ---- Who is protected ----

  /** The request is granted, and the consumer has committed less than what the scan reported. */
  predicate GrantLeavesBehind<E>(s: State<E>, id: Id)
    requires s.phase.Scanning? && id in s.peers
  {
    FreeSlots(s.size, s.sequence - 1, Rear(s)) >= s.phase.n && Rear(s) > s.peers[id].cursor
  }

  /** Exactly which step leaves a consumer more than a ring behind the clearance, in terms of the state
      before it: the decision that grants on a report above the consumer's cursor. Such a consumer is
      one the barrier does not track. */
  lemma LappingStep<E>(s: State<E>, step: Step<E>, id: Id)
    requires Inv(s) && CanTake(s, step) && id in s.peers && !s.peers[id].lapped
    ensures id in Take(s, step).peers
    ensures Take(s, step).peers[id].lapped <==> step.Decide? && GrantLeavesBehind(s, id)
    ensures Take(s, step).clear > s.peers[id].cursor + s.size <==> step.Decide? && GrantLeavesBehind(s, id)
    ensures step.Decide? && GrantLeavesBehind(s, id) ==> id !in s.discovered
  {
    assert PeerInv(s, s.peers[id]);
    if step.Decide? {
      RearBoundsCursors(s);
    }
  }

  /** A consumer the barrier tracks and has not lapped stays so for the rest of the run. */
  lemma {:induction false} ProtectedForever<E>(s: State<E>, steps: seq<Step<E>>, id: Id)
    requires Inv(s) && IsRun(s, steps) && id in s.discovered && !s.peers[id].lapped
    ensures id in After(s, steps).discovered && id in After(s, steps).peers && !After(s, steps).peers[id].lapped
    decreases |steps|
  {
    if steps != [] {
      LappingStep(s, steps[0], id);
      StepKeepsInv(s, steps[0]);
      ProtectedForever(Take(s, steps[0]), steps[1..], id);
    }
  }

  /** Nobody is lapped by, or joins too late because of, steps that grant nothing. */
  lemma {:induction false} NothingGranted<E>(s: State<E>, steps: seq<Step<E>>)
    requires Inv(s) && IsRun(s, steps) && s.clear == s.size - 1
    requires forall i :: 0 <= i < |steps| ==> !steps[i].Decide?
    requires forall id :: id in s.peers ==> !s.peers[id].lapped
    ensures Inv(After(s, steps)) && forall id :: id in After(s, steps).peers ==> !After(s, steps).peers[id].lapped
    decreases |steps|
  {
    if steps != [] {
      var t := Take(s, steps[0]);
      StepKeepsInv(s, steps[0]);
      forall id | id in t.peers ensures !t.peers[id].lapped {
        if id in s.peers {
          LappingStep(s, steps[0], id);
        }
      }
      NothingGranted(t, steps[1..]);
    }
  }

  /** With discovery enabled at most a ring of events is published before the first consumer is
      found, and every consumer tracked when that first scan ends, before the producer decides
      anything, is protected for the rest of the run. */
  lemma FirstScanProtects<E(!new)>(s: State<E>, scan: seq<Step<E>>, rest: seq<Step<E>>)
    requires Reachable(s) && s.mode.Enabled? && s.discovered == {} && s.size > 0 && |s.slots| == s.size
    requires IsRun(s, scan) && forall i :: 0 <= i < |scan| ==> !scan[i].Decide?
    requires IsRun(After(s, scan), rest)
    ensures |s.published| <= s.size
    ensures forall id :: id in After(s, scan).discovered ==>
              id in After(After(s, scan), rest).peers && !After(After(s, scan), rest).peers[id].lapped
  {
    ReachableInv(s);
    var t := After(s, scan);
    forall id | id in s.peers ensures !s.peers[id].lapped {
      assert PeerInv(s, s.peers[id]);
    }
    NothingGranted(s, scan);
    forall id | id in t.discovered ensures id in After(t, rest).peers && !After(t, rest).peers[id].lapped {
      ProtectedForever(t, rest, id);
    }
  }

  lemma OnlyConsumerStep<E>(s: State<E>, step: Step<E>, t: State<E>, c: Id)
    requires Inv(s) && CanTake(s, step) && s.mode.Enabled? && t == Take(s, step) && t.peers.Keys <= {c}
    requires c in s.peers ==> !s.peers[c].lapped
    ensures Inv(t) && (c in t.peers ==> !t.peers[c].lapped)
  {
    StepKeepsInv(s, step);
    if c in s.peers {
      LappingStep(s, step, c);
    }
    assert c in t.peers ==> PeerInv(t, t.peers[c]);
  }

  lemma {:induction false} OnlyConsumerNeverLapped<E>(s: State<E>, steps: seq<Step<E>>, c: Id)
    requires Inv(s) && IsRun(s, steps) && s.mode.Enabled?
    requires After(s, steps).peers.Keys <= {c}
    requires c in s.peers ==> !s.peers[c].lapped
    ensures c in After(s, steps).peers ==> !After(s, steps).peers[c].lapped
    decreases |steps|
  {
    if steps != [] {
      var t := Take(s, steps[0]);
      KeysGrow(t, steps[1..]);
      OnlyConsumerStep(s, steps[0], t, c);
      OnlyConsumerNeverLapped(t, steps[1..], c);
    }
  }

  lemma {:induction false} KeysGrow<E>(s: State<E>, steps: seq<Step<E>>)
    requires s.size > 0 && |s.slots| == s.size && IsRun(s, steps)
    ensures s.peers.Keys <= After(s, steps).peers.Keys
    decreases |steps|
  {
    if steps != [] {
      KeysGrow(Take(s, steps[0]), steps[1..]);
    }
  }

  /** One expected consumer with discovery enabled: however late it attaches and is found, and
      however the run interleaves, it gets every event from sequence 0. */
  lemma LateSingleConsumer<E(!new)>(size: int, steps: seq<Step<E>>, c: Id)
    requires size > 0 && IsRun(Init<E>(size, Enabled), steps)
    requires After(Init<E>(size, Enabled), steps).peers.Keys == {c}
    ensures var t := After(Init<E>(size, Enabled), steps);
            !t.peers[c].lapped
            && (t.discovered == {} ==> |t.published| <= size)
            && (t.peers[c].crashes == 0 ==>
                  0 <= Position(t.peers[c]) <= |t.published|
                  && t.peers[c].log == InOrder(t.published, Position(t.peers[c])))
  {
    var s := Init<E>(size, Enabled);
    var t := After(s, steps);
    OnlyConsumerNeverLapped(s, steps, c);
    assert ReachedBy(t, size, Enabled, steps);
    ReachableInv(t);
    if t.peers[c].crashes == 0 {
      ExactBroadcast(t, c);
    }
  }
}
