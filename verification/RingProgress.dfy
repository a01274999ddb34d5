/** The ring is never stuck: from every reachable state with a consumer attached, any further events can
    be published, and consumed by whoever is tracked, without a crash. */
module RingProgress {
  import opened Wrappers
  import opened RingProtocol
  import opened RingSafety
  import opened RingTheorems

  predicate CrashFree<E>(steps: seq<Step<E>>) {
    forall i :: 0 <= i < |steps| ==> !steps[i].Crash?
  }

  /** The barrier tracks somebody; others may be attached that it does not track. */
  ghost predicate Tracking<E(!new)>(s: State<E>) {
    Reachable(s) && s.discovered != {}
  }

  /** How many events the publish call under way still has to write. */
  function Pending<E>(s: State<E>): int {
    match s.phase
    case Idle => 0
    case Discovering(n) => n
    case Scanning(n, _, _) => n
    case Writing(upper, _) => upper + 1 - |s.published|
  }

  ghost predicate Leads<E>(s: State<E>, steps: seq<Step<E>>, t: State<E>) {
    && s.size > 0 && |s.slots| == s.size
    && IsRun(s, steps) && CrashFree(steps) && t == After(s, steps)
  }

  lemma {:induction false} LeadsTrans<E>(s: State<E>, a: seq<Step<E>>, t: State<E>, b: seq<Step<E>>, u: State<E>)
    requires Leads(s, a, t) && Leads(t, b, u)
    ensures Leads(s, a + b, u)
    decreases |a|
  {
    if a == [] {
      assert a + b == b;
    } else {
      var rest := a[1..];
      assert Leads(Take(s, a[0]), rest, t);
      LeadsTrans(Take(s, a[0]), rest, t, b, u);
      assert (a + b)[1..] == rest + b;
    }
  }

  /** What the producer side of the invariant says of a reachable state. */
  lemma ProducerFacts<E(!new)>(s: State<E>)
    requires Reachable(s)
    ensures ProducerInv(s)
  {
    ReachableInv(s);
  }

  lemma PeerFacts<E(!new)>(s: State<E>, id: Id)
    requires Reachable(s) && id in s.peers
    ensures ProducerInv(s) && PeerInv(s, s.peers[id])
  {
    ReachableInv(s);
  }

  lemma Extend<E>(s: State<E>, steps: seq<Step<E>>, step: Step<E>)
    requires s.size > 0 && |s.slots| == s.size && IsRun(s, steps) && CanTake(After(s, steps), step)
    ensures IsRun(s, steps + [step]) && After(s, steps + [step]) == Take(After(s, steps), step)
    decreases |steps|
  {
    var more := steps + [step];
    if steps == [] {
      assert more[1..] == [];
    } else {
      assert more[1..] == steps[1..] + [step];
      Extend(Take(s, steps[0]), steps[1..], step);
    }
  }

  lemma ReachableStep<E(!new)>(s: State<E>, step: Step<E>)
    requires Reachable(s) && s.size > 0 && |s.slots| == s.size && CanTake(s, step)
    ensures Reachable(Take(s, step))
  {
    var size, mode, steps :| ReachedBy(s, size, mode, steps);
    Extend(Init(size, mode), steps, step);
    assert ReachedBy(Take(s, step), size, mode, steps + [step]);
  }

  lemma SingleStep<E>(s: State<E>, step: Step<E>)
    requires s.size > 0 && |s.slots| == s.size && CanTake(s, step) && !step.Crash?
    ensures Leads(s, [step], Take(s, step))
  {
    assert [step][1..] == [];
  }

  lemma OneStep<E(!new)>(s: State<E>, step: Step<E>)
    requires Reachable(s) && CanTake(s, step) && !step.Crash?
    ensures s.size > 0 && |s.slots| == s.size
    ensures Leads(s, [step], Take(s, step)) && Reachable(Take(s, step))
  {
    ProducerFacts(s);
    SingleStep(s, step);
    ReachableStep(s, step);
  }

  /** Takes `step`, then continues along `rest`. */
  lemma Then<E(!new)>(s: State<E>, step: Step<E>, rest: seq<Step<E>>, t: State<E>) returns (steps: seq<Step<E>>)
    requires Reachable(s) && s.size > 0 && |s.slots| == s.size && CanTake(s, step) && !step.Crash?
    requires Leads(Take(s, step), rest, t)
    ensures Leads(s, steps, t)
  {
    OneStep(s, step);
    LeadsTrans(s, [step], Take(s, step), rest, t);
    steps := [step] + rest;
  }

  ghost predicate CaughtUp<E>(s: State<E>, id: Id) {
    id in s.peers && s.peers[id].live == Some(Reader(s.cursor, s.cursor + 1, None)) && s.peers[id].cursor == s.cursor
  }

  ghost predicate SameProducer<E>(s: State<E>, t: State<E>) {
    t == s.(peers := t.peers) && t.peers.Keys == s.peers.Keys
  }

  function StepsBehind(k: int): int {
    if k == 0 then 0 else k + 2
  }

  /** How many steps of its own a consumer needs to catch up: rejoin, snapshot, deliver each, commit. */
  function StepsToDrain<E>(s: State<E>, p: Peer<E>): int {
    if p.live.None? then 1 + StepsBehind(s.cursor - p.cursor)
    else if p.live.value.upper.None? then StepsBehind(s.cursor - p.cursor)
    else p.live.value.upper.value + 2 - p.live.value.next + StepsBehind(s.cursor - p.live.value.upper.value)
  }

  ghost predicate OnlyMoved<E>(s: State<E>, t: State<E>, id: Id) {
    SameProducer(s, t) && forall other :: other in s.peers && other != id ==> t.peers[other] == s.peers[other]
  }

  lemma ConsumerStep<E(!new)>(s: State<E>, id: Id) returns (step: Step<E>)
    requires Reachable(s) && id in s.peers && !CaughtUp(s, id)
    ensures s.size > 0 && |s.slots| == s.size && CanTake(s, step) && !step.Crash?
    ensures OnlyMoved(s, Take(s, step), id)
    ensures 0 <= StepsToDrain(Take(s, step), Take(s, step).peers[id]) == StepsToDrain(s, s.peers[id]) - 1
  {
    var p := s.peers[id];
    PeerFacts(s, id);
    step := if p.live.None? then Attach(id)
            else if p.live.value.upper.None? then Snapshot(id, s.cursor)
            else if p.live.value.next <= p.live.value.upper.value then Deliver(id)
            else Commit(id);
  }

  /** One consumer alone can rejoin, finish its batch and commit up to the producer. */
  lemma {:induction false} DrainOne<E(!new)>(s: State<E>, id: Id) returns (steps: seq<Step<E>>, t: State<E>)
    requires Reachable(s) && id in s.peers
    ensures Leads(s, steps, t) && Reachable(t) && OnlyMoved(s, t, id) && CaughtUp(t, id)
    decreases StepsToDrain(s, s.peers[id])
  {
    ProducerFacts(s);
    if CaughtUp(s, id) {
      steps, t := [], s;
    } else {
      var step := ConsumerStep(s, id);
      OneStep(s, step);
      var rest;
      rest, t := DrainOne(Take(s, step), id);
      steps := Then(s, step, rest, t);
    }
  }

  lemma {:induction false} DrainAll<E(!new)>(s: State<E>, todo: set<Id>) returns (steps: seq<Step<E>>, t: State<E>)
    requires Reachable(s) && todo <= s.discovered
    requires forall id :: id in s.discovered && id !in todo ==> CaughtUp(s, id)
    ensures Leads(s, steps, t) && Reachable(t) && SameProducer(s, t)
    ensures forall id :: id in s.discovered ==> CaughtUp(t, id)
    decreases todo
  {
    ProducerFacts(s);
    if todo == {} {
      steps, t := [], s;
    } else {
      var id :| id in todo;
      var first, u := DrainOne(s, id);
      var rest;
      rest, t := DrainAll(u, todo - {id});
      LeadsTrans(s, first, u, rest, t);
      steps := first + rest;
    }
  }

  ghost predicate SameParties<E>(s: State<E>, t: State<E>) {
    t.peers.Keys == s.peers.Keys && t.discovered == s.discovered
  }

  /** How far the publish call under way is from its end. */
  function CallRank<E>(s: State<E>): nat {
    match s.phase
    case Idle => 0
    case Discovering(_) => 3
    case Scanning(_, _, _) => 2
    case Writing(_, torn) => if torn then 0 else 1
  }

  predicate Closer<E>(s: State<E>, u: State<E>) {
    if s.phase.Writing? then BeingWritten(u) && Pending(u) == Pending(s)
    else u.phase.Writing? || CallRank(u) < CallRank(s)
         || (s.phase.Scanning? && u.phase.Scanning? && u.phase.todo < s.phase.todo)
  }

  /** Some step that writes nothing brings the publish call closer to its end. */
  lemma QuietStep<E(!new)>(s: State<E>) returns (step: Step<E>)
    requires Reachable(s) && !s.phase.Idle? && !BeingWritten(s)
    ensures s.size > 0 && |s.slots| == s.size && CanTake(s, step) && !step.Crash? && !step.Attach?
    ensures var u := Take(s, step);
            && u.published == s.published && SameParties(s, u) && Pending(u) <= Pending(s)
            && (u.phase.Idle? || Closer(s, u))
  {
    ProducerFacts(s);
    if s.phase.Scanning? && s.phase.todo != {} {
      var id :| id in s.phase.todo;
      step := Load(id);
    } else {
      step := if s.phase.Discovering? then StartScan
              else if s.phase.Scanning? then Decide
              else if |s.published| <= s.phase.upper then BeginWrite
              else Publish;
    }
  }

  /** The write under way finishes with the next event. */
  lemma FinishTorn<E(!new)>(s: State<E>, e: E) returns (u: State<E>)
    requires Reachable(s) && BeingWritten(s)
    ensures Leads(s, [FinishWrite(e)], u) && Reachable(u) && SameParties(s, u) && u.published == s.published + [e]
    ensures u.phase.Writing? && Pending(u) == Pending(s) - 1 && Pending(u) >= 0
  {
    ProducerFacts(s);
    OneStep(s, FinishWrite(e));
    u := Take(s, FinishWrite(e));
  }

  /** The publish call under way finishes, granted or refused. */
  lemma {:induction false} ToIdle<E(!new)>(s: State<E>, es: seq<E>)
    returns (steps: seq<Step<E>>, t: State<E>, used: nat)
    requires Reachable(s) && |es| >= Pending(s)
    ensures used <= |es| && Leads(s, steps, t) && Reachable(t) && t.phase.Idle?
    ensures SameParties(s, t) && t.published == s.published + es[..used]
    decreases !s.phase.Writing?, if s.phase.Writing? then Pending(s) else 0, CallRank(s),
              if s.phase.Scanning? then s.phase.todo else {}
  {
    ProducerFacts(s);
    if s.phase.Idle? {
      steps, t, used := [], s, 0;
    } else if BeingWritten(s) {
      var u := FinishTorn(s, es[0]);
      steps, t, used := ToIdle(u, es[1..]);
      assert es[..used + 1] == [es[0]] + es[1..][..used];
      LeadsTrans(s, [FinishWrite(es[0])], u, steps, t);
      steps, used := [FinishWrite(es[0])] + steps, used + 1;
    } else {
      var step := QuietStep(s);
      OneStep(s, step);
      var u := Take(s, step);
      if u.phase.Idle? {
        steps, t, used := [step], u, 0;
      } else {
        steps, t, used := ToIdle(u, es);
        steps := Then(s, step, steps, t);
      }
    }
  }

  /** A scan that starts after everybody caught up reports the producer's own cursor. */
  lemma {:induction false} ScanCaughtUp<E(!new)>(s: State<E>) returns (steps: seq<Step<E>>, t: State<E>)
    requires Tracking(s) && s.phase.Scanning? && s.phase.n == 1
    requires forall id :: id in s.discovered ==> CaughtUp(s, id)
    requires s.phase.min == (if s.phase.todo == s.discovered then None else Some(s.cursor))
    ensures Leads(s, steps, t) && Reachable(t) && SameParties(s, t)
    ensures t.phase == Writing(s.sequence, false) && t.published == s.published && t.cursor == s.cursor
    decreases |s.phase.todo|
  {
    ProducerFacts(s);
    if s.phase.todo == {} {
      OneStep(s, Decide);
      steps, t := [Decide], Take(s, Decide);
    } else {
      var id :| id in s.phase.todo;
      OneStep(s, Load(id));
      var u := Take(s, Load(id));
      assert CaughtUp(s, id);
      assert u.phase.todo != u.discovered;
      forall other | other in u.discovered ensures CaughtUp(u, other) {
        assert CaughtUp(s, other);
      }
      var rest;
      rest, t := ScanCaughtUp(u);
      steps := Then(s, Load(id), rest, t);
    }
  }

  /** With everybody caught up a request for one slot is granted, at once or by a scan. */
  lemma GrantOne<E(!new)>(s: State<E>) returns (steps: seq<Step<E>>, t: State<E>)
    requires Tracking(s) && s.phase.Idle?
    requires forall id :: id in s.discovered ==> CaughtUp(s, id)
    ensures Leads(s, steps, t) && Reachable(t) && SameParties(s, t)
    ensures t.phase == Writing(s.sequence, false) && t.published == s.published && |s.published| == s.sequence
  {
    ProducerFacts(s);
    OneStep(s, Request(1));
    t := Take(s, Request(1));
    steps := [Request(1)];
    if t.phase.Discovering? {
      var asked := t;
      OneStep(asked, StartScan);
      t := Take(asked, StartScan);
      forall id | id in t.discovered ensures CaughtUp(t, id) {
        assert CaughtUp(s, id);
      }
      var loads;
      loads, t := ScanCaughtUp(t);
      steps := Then(asked, StartScan, loads, t);
      steps := Then(s, Request(1), steps, t);
    }
  }

  lemma PublishOne<E(!new)>(s: State<E>, e: E) returns (steps: seq<Step<E>>, t: State<E>)
    requires Tracking(s) && s.phase.Idle?
    requires forall id :: id in s.discovered ==> CaughtUp(s, id)
    ensures Leads(s, steps, t) && Reachable(t) && t.phase.Idle?
    ensures SameParties(s, t) && t.published == s.published + [e]
  {
    var grant, granted := GrantOne(s);
    var finish, used;
    finish, t, used := ToIdle(granted, [e]);
    ReachableInv(granted);
    WritesAreUsed(granted, t, finish);
    assert used == 1;
    LeadsTrans(s, grant, granted, finish, t);
    steps := grant + finish;
  }

  /** A granted call never ends before its last event is written. */
  lemma {:induction false} WritesAreUsed<E>(s: State<E>, t: State<E>, steps: seq<Step<E>>)
    requires Inv(s) && Leads(s, steps, t) && s.phase.Writing? && t.phase.Idle?
    ensures |t.published| > s.phase.upper
    decreases |steps|
  {
    var u := Take(s, steps[0]);
    StepKeepsInv(s, steps[0]);
    if u.phase.Writing? {
      WritesAreUsed(u, t, steps[1..]);
    } else {
      PublishedGrows(u, steps[1..]);
    }
  }

  lemma {:induction false} PublishedGrows<E>(s: State<E>, steps: seq<Step<E>>)
    requires s.size > 0 && |s.slots| == s.size && IsRun(s, steps)
    ensures s.published <= After(s, steps).published
    decreases |steps|
  {
    if steps != [] {
      PublishedGrows(Take(s, steps[0]), steps[1..]);
    }
  }

  lemma {:induction false} PublishAll<E(!new)>(s: State<E>, es: seq<E>) returns (steps: seq<Step<E>>, t: State<E>)
    requires Tracking(s) && s.phase.Idle?
    ensures Leads(s, steps, t) && t.phase.Idle? && t.published == s.published + es
    ensures Reachable(t) && SameParties(s, t)
    ensures forall id :: id in t.discovered ==> CaughtUp(t, id)
    decreases |es|
  {
    steps, t := DrainAll(s, s.discovered);
    if es == [] {
      assert t.published == s.published + es;
    } else {
      var write, u := PublishOne(t, es[0]);
      LeadsTrans(s, steps, t, write, u);
      var rest, v := PublishAll(u, es[1..]);
      LeadsTrans(s, steps + write, u, rest, v);
      assert s.published + [es[0]] + es[1..] == s.published + es;
      steps, t := steps + write + rest, v;
    }
  }

  /** Between two calls the barrier can find an attached consumer. */
  lemma FindOne<E(!new)>(s: State<E>) returns (steps: seq<Step<E>>, t: State<E>)
    requires Reachable(s) && s.phase.Idle? && s.peers.Keys != {}
    ensures Leads(s, steps, t) && Tracking(t) && t.phase.Idle? && t.published == s.published
    ensures t.peers == s.peers && (s.discovered != {} ==> t.discovered == s.discovered)
  {
    ProducerFacts(s);
    if s.discovered != {} {
      steps, t := [], s;
    } else {
      var id :| id in s.peers.Keys;
      OneStep(s, Find(id));
      steps, t := [Find(id)], Take(s, Find(id));
    }
  }

  /** From every reachable state with any consumer attached, running or crashed, tracked or not, in the
      middle of a scan, a batch or a write, some crash-free continuation publishes exactly the given
      further events and brings every tracked consumer to the end of the stream. If nobody was tracked
      yet, the producer attaches one by its ID on the way, which a scan does only for the names it expects
      and a direct request for any; otherwise nobody new has to be tracked. */
  lemma NeverStuck<E(!new)>(s: State<E>, es: seq<E>) returns (steps: seq<Step<E>>)
    requires Reachable(s) && s.peers.Keys != {} && |es| >= Pending(s)
    ensures IsRun(s, steps) && CrashFree(steps)
    ensures var t := After(s, steps);
            && t.published == s.published + es && t.cursor == |t.published| - 1
            && t.peers.Keys == s.peers.Keys && t.discovered != {}
            && (s.discovered != {} ==> t.discovered == s.discovered)
            && forall id :: id in t.discovered ==> id in t.peers && t.peers[id].cursor == t.cursor
  {
    ProducerFacts(s);
    var first, u, used := ToIdle(s, es);
    var found, v := FindOne(u);
    var rest, t := PublishAll(v, es[used..]);
    ProducerFacts(t);
    LeadsTrans(s, first, u, found, v);
    LeadsTrans(s, first + found, v, rest, t);
    steps := first + found + rest;
    assert es[..used] + es[used..] == es;
    assert s.published + es[..used] + es[used..] == s.published + es;
    forall id | id in t.discovered ensures id in t.peers && t.peers[id].cursor == t.cursor {
      assert CaughtUp(t, id);
    }
  }

  // ---- A measure of the work left ----

  /** What the consumers in `ids` still have to be handed of `total` events. */
  ghost function ToDeliver<E>(s: State<E>, ids: set<Id>, total: int): int
    requires ids <= s.peers.Keys
    decreases ids
  {
    if ids == {} then 0
    else
      var id :| id in ids;
      total - Position(s.peers[id]) + ToDeliver(s, ids - {id}, total)
  }

  /** Events still to be written, and deliveries still to be made, until all of `total` are through. */
  ghost function WorkLeft<E>(s: State<E>, total: int): int {
    total - |s.published| + ToDeliver(s, s.peers.Keys, total)
  }

  lemma {:induction false} TakeOut<E>(s: State<E>, ids: set<Id>, id: Id, total: int)
    requires ids <= s.peers.Keys && id in ids
    ensures ToDeliver(s, ids, total) == total - Position(s.peers[id]) + ToDeliver(s, ids - {id}, total)
    decreases ids
  {
    var first :| first in ids && ToDeliver(s, ids, total)
                                 == total - Position(s.peers[first]) + ToDeliver(s, ids - {first}, total);
    if first != id {
      TakeOut(s, ids - {first}, id, total);
      TakeOut(s, ids - {id}, first, total);
      assert ids - {first} - {id} == ids - {id} - {first};
    }
  }

  lemma {:induction false} SamePositions<E>(s: State<E>, t: State<E>, ids: set<Id>, total: int)
    requires ids <= s.peers.Keys && ids <= t.peers.Keys
    requires forall id :: id in ids ==> Position(t.peers[id]) == Position(s.peers[id])
    ensures ToDeliver(t, ids, total) == ToDeliver(s, ids, total)
    decreases ids
  {
    if ids != {} {
      var id :| id in ids;
      TakeOut(s, ids, id, total);
      TakeOut(t, ids, id, total);
      SamePositions(s, t, ids - {id}, total);
    }
  }

  /** Where consumers stand after a crash-free step by which nobody new joins: a delivery moves its
      consumer one ahead, and nothing else moves anybody. */
  lemma PositionsAfter<E>(s: State<E>, step: Step<E>, id: Id)
    requires Inv(s) && CanTake(s, step) && !step.Crash? && id in s.peers
    requires step.Attach? ==> step.id in s.peers
    ensures id in Take(s, step).peers
    ensures Position(Take(s, step).peers[id]) == Position(s.peers[id]) + (if step == Deliver(id) then 1 else 0)
  {
    assert PeerInv(s, s.peers[id]);
  }

  lemma PublishedAfter<E>(s: State<E>, step: Step<E>)
    requires Inv(s) && CanTake(s, step) && !step.Crash?
    requires step.Attach? ==> step.id in s.peers
    ensures |Take(s, step).published| == |s.published| + (if step.FinishWrite? then 1 else 0)
    ensures Take(s, step).peers.Keys == s.peers.Keys
  {
  }

  /** One consumer of `ids` moved one ahead, the others stood still. */
  lemma OneMoved<E>(s: State<E>, t: State<E>, ids: set<Id>, mover: Id, total: int)
    requires ids <= s.peers.Keys && ids <= t.peers.Keys && mover in ids
    requires forall id :: id in ids ==> Position(t.peers[id]) == Position(s.peers[id]) + (if id == mover then 1 else 0)
    ensures ToDeliver(t, ids, total) == ToDeliver(s, ids, total) - 1
  {
    TakeOut(s, ids, mover, total);
    TakeOut(t, ids, mover, total);
    SamePositions(s, t, ids - {mover}, total);
  }

  /** Every crash-free step keeps or shrinks the work left; a finished write and a delivery each take
      exactly one off. */
  lemma StepShrinksWork<E>(s: State<E>, step: Step<E>, total: int)
    requires Inv(s) && CanTake(s, step) && !step.Crash?
    requires step.Attach? ==> step.id in s.peers
    ensures WorkLeft(Take(s, step), total) == WorkLeft(s, total) - (if Productive(step) then 1 else 0)
  {
    var t := Take(s, step);
    PublishedAfter(s, step);
    forall id | id in s.peers
      ensures Position(t.peers[id]) == Position(s.peers[id]) + (if step == Deliver(id) then 1 else 0)
    {
      PositionsAfter(s, step, id);
    }
    if step.Deliver? {
      OneMoved(s, t, s.peers.Keys, step.id, total);
    } else {
      SamePositions(s, t, s.peers.Keys, total);
    }
  }

  predicate Productive<E>(step: Step<E>) {
    step.FinishWrite? || step.Deliver?
  }

  function CountProductive<E>(steps: seq<Step<E>>): nat
    decreases |steps|
  {
    if steps == [] then 0 else (if Productive(steps[0]) then 1 else 0) + CountProductive(steps[1..])
  }

  /** Nobody joins anew. */
  ghost predicate NoNewcomers<E>(s: State<E>, steps: seq<Step<E>>) {
    forall i :: 0 <= i < |steps| ==> steps[i].Attach? ==> steps[i].id in s.peers
  }

  /** So a crash-free run that ends with at most `total` events published has exactly as many productive
      steps as the work it takes off, and never more than the work there was. */
  lemma {:induction false} RunShrinksWork<E>(s: State<E>, steps: seq<Step<E>>, total: int)
    requires Inv(s) && IsRun(s, steps) && CrashFree(steps) && NoNewcomers(s, steps)
    ensures WorkLeft(After(s, steps), total) == WorkLeft(s, total) - CountProductive(steps)
    ensures |After(s, steps).published| <= total ==> CountProductive(steps) <= WorkLeft(s, total)
    decreases |steps|
  {
    if steps != [] {
      var t := Take(s, steps[0]);
      StepShrinksWork(s, steps[0], total);
      StepKeepsInv(s, steps[0]);
      KeysGrow(s, [steps[0]]);
      RunShrinksWork(t, steps[1..], total);
    } else {
      WorkIsNonnegative(s, s.peers.Keys, total);
    }
  }

  lemma {:induction false} WorkIsNonnegative<E>(s: State<E>, ids: set<Id>, total: int)
    requires Inv(s) && ids <= s.peers.Keys
    ensures |s.published| <= total ==> ToDeliver(s, ids, total) >= 0
    decreases ids
  {
    if ids != {} {
      var id :| id in ids;
      TakeOut(s, ids, id, total);
      assert PeerInv(s, s.peers[id]);
      WorkIsNonnegative(s, ids - {id}, total);
    }
  }
}
