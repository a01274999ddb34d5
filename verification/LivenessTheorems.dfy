/** What every history of liveness checks guarantees. */
module LivenessTheorems {
  import opened LivenessModel

  function LastTime(t0: nat, entries: seq<Entry>): nat {
    if entries == [] then t0 else entries[|entries| - 1].now
  }

  predicate Ordered(t0: nat, entries: seq<Entry>) {
    && (forall j :: 0 <= j < |entries| ==> t0 <= entries[j].now)
    && (forall i, j :: 0 <= i < j < |entries| ==> entries[i].now <= entries[j].now)
  }

  ghost predicate MovedWithin(entries: seq<Entry>, after: int, upTo: int, id: Id)
    requires upTo < |entries|
  {
    exists j :: after < j <= upTo && 0 <= j && Moved(entries, j, id)
  }

  /** Alert `i` is still open, or its consumer has moved since. */
  ghost predicate Settled(cfg: Config, t0: nat, entries: seq<Entry>, id: Id, at: nat) {
    StallStart(cfg, t0, entries, id).Some? || MovedWithin(entries, at, |entries| - 1, id)
  }

  ghost predicate AlertsInv(cfg: Config, t0: nat, entries: seq<Entry>, alerts: seq<Alert>, alertAt: seq<nat>) {
    && |alerts| == |alertAt|
    && (forall i :: 0 <= i < |alertAt| ==> alertAt[i] < |entries|)
    && (forall a, b :: 0 <= a < b < |alerts| && alerts[a].consumerId == alerts[b].consumerId ==>
          MovedWithin(entries, alertAt[a], alertAt[b], alerts[a].consumerId))
    && (forall i :: 0 <= i < |alerts| ==> Settled(cfg, t0, entries, alerts[i].consumerId, alertAt[i]))
  }

  /** No stall known at the last entry has outlived the grace period. */
  ghost predicate NotDue(cfg: Config, t0: nat, entries: seq<Entry>, id: Id) {
    var s := StallStart(cfg, t0, entries, id);
    s.Some? ==> Since(LastTime(t0, entries), s.value) < cfg.shutdownGracePeriod
  }

  /** The error is what the failing consumer's history says. */
  ghost predicate Justified(cfg: Config, t0: nat, entries: seq<Entry>, e: LivenessError) {
    && entries != [] && e.GracefulShutdownTriggered? && e.consumerId in cfg.ids
    && var p := Track(cfg, t0, entries, e.consumerId);
       var now := LastTime(t0, entries);
       && p.stallStartedAt.Some? && Since(now, p.stallStartedAt.value) >= cfg.shutdownGracePeriod
       && e == GracefulShutdownTriggered(e.consumerId, p.lastObserved, Since(now, p.lastProgressAt))
  }

  /** While no error was raised, every record is what the history says. */
  ghost predicate Following(cfg: Config, t0: nat, m: Model) {
    && Tracks(cfg, m) && m.lastCheckAt == LastTime(t0, m.entries)
    && (forall id :: id in cfg.ids ==> m.consumers[id] == Track(cfg, t0, m.entries, id))
    && (forall id :: id in cfg.ids ==> NotDue(cfg, t0, m.entries, id))
  }

  ghost predicate Inv(cfg: Config, t0: nat, m: Model) {
    && Tracks(cfg, m) && Ordered(t0, m.entries) && AlertsInv(cfg, t0, m.entries, m.alerts, m.alertAt)
    && (m.terminal.None? ==> Following(cfg, t0, m))
    && (m.terminal.Some? ==> Justified(cfg, t0, m.entries, m.terminal.value))
  }

  // ---- Histories grow at the end ----

  lemma PrefixOf(entries: seq<Entry>, e: Entry)
    ensures (entries + [e])[..|entries|] == entries
    ensures forall j :: 0 <= j <= |entries| ==> (entries + [e])[..j] == entries[..j]
  {
  }

  lemma MovedKept(entries: seq<Entry>, e: Entry, j: int, id: Id)
    requires 0 <= j < |entries|
    ensures Moved(entries + [e], j, id) == Moved(entries, j, id)
  {
    PrefixOf(entries, e);
  }

  lemma WithinKept(entries: seq<Entry>, e: Entry, after: int, upTo: int, id: Id)
    requires upTo < |entries| && MovedWithin(entries, after, upTo, id)
    ensures MovedWithin(entries + [e], after, upTo, id)
    ensures MovedWithin(entries + [e], after, |entries|, id)
  {
    var j :| after < j <= upTo && 0 <= j && Moved(entries, j, id);
    MovedKept(entries, e, j, id);
  }

  lemma SettledKept(cfg: Config, t0: nat, entries: seq<Entry>, e: Entry, id: Id, at: nat)
    requires at < |entries| && Settled(cfg, t0, entries, id, at)
    ensures Settled(cfg, t0, entries + [e], id, at)
  {
    PrefixOf(entries, e);
    if StallStart(cfg, t0, entries, id).None? {
      WithinKept(entries, e, at, |entries| - 1, id);
    } else if Moved(entries + [e], |entries|, id) {
      assert MovedWithin(entries + [e], at, |entries|, id);
    }
  }

  lemma {:induction false} LastMoveBounds(t0: nat, entries: seq<Entry>, id: Id)
    requires Ordered(t0, entries)
    ensures t0 <= LastMove(t0, entries, id) <= LastTime(t0, entries)
    decreases |entries|
  {
    if entries != [] {
      LastMoveBounds(t0, entries[..|entries| - 1], id);
    }
  }

  lemma {:induction false} StallBounds(cfg: Config, t0: nat, entries: seq<Entry>, id: Id)
    requires Ordered(t0, entries)
    ensures var s := StallStart(cfg, t0, entries, id);
            s.Some? ==> LastMove(t0, entries, id) + cfg.progressTimeout <= s.value <= LastTime(t0, entries)
    decreases |entries|
  {
    if entries != [] {
      LastMoveBounds(t0, entries, id);
      StallBounds(cfg, t0, entries[..|entries| - 1], id);
    }
  }

  // ---- The automaton follows the history ----

  /** One effective check moves a consumer's record exactly as its history says. */
  lemma ObserveIsTrack(cfg: Config, t0: nat, entries: seq<Entry>, e: Entry, id: Id)
    requires e.Check? && Ordered(t0, entries + [e])
    ensures var o := Observe(cfg, Track(cfg, t0, entries, id), e.now, e.producer, Lookup(e.observed, id));
            && o.progress == Track(cfg, t0, entries + [e], id)
            && (o.alert <==> StallStart(cfg, t0, entries, id).None? && StallStart(cfg, t0, entries + [e], id).Some?)
            && (o.failed ==> o.progress.stallStartedAt.Some?
                             && Since(e.now, o.progress.stallStartedAt.value) >= cfg.shutdownGracePeriod)
            && (!o.failed && o.progress.stallStartedAt.Some? ==>
                  Since(e.now, o.progress.stallStartedAt.value) < cfg.shutdownGracePeriod)
  {
    PrefixOf(entries, e);
    LastMoveBounds(t0, entries, id);
  }

  /** A consumer listed twice is left alone the second time. */
  lemma ObserveTwice(cfg: Config, t0: nat, entries: seq<Entry>, e: Entry, id: Id)
    requires ValidConfig(cfg) && e.Check? && Ordered(t0, entries + [e])
    ensures var p := Track(cfg, t0, entries + [e], id);
            var o := Observe(cfg, p, e.now, e.producer, Lookup(e.observed, id));
            o.progress == p && !o.alert
            && (o.failed ==> p.stallStartedAt.Some? && Since(e.now, p.stallStartedAt.value) >= cfg.shutdownGracePeriod)
  {
    PrefixOf(entries, e);
    LastMoveBounds(t0, entries, id);
    StallBounds(cfg, t0, entries, id);
  }

  /** In the middle of a scan of entry `e`: the first `k` consumers have been checked. */
  ghost predicate Partial(cfg: Config, t0: nat, before: seq<Entry>, e: Entry, m: Model, k: nat) {
    && k <= |cfg.ids| && Tracks(cfg, m) && e.Check? && m.entries == before + [e] && Ordered(t0, m.entries)
    && m.terminal.None? && m.lastCheckAt == e.now
    && (forall id :: id in cfg.ids && id in cfg.ids[..k] ==>
          m.consumers[id] == Track(cfg, t0, m.entries, id) && NotDue(cfg, t0, m.entries, id))
    && (forall id :: id in cfg.ids && id !in cfg.ids[..k] ==> m.consumers[id] == Track(cfg, t0, before, id))
  }

  /** The alerts so far, those of the scan under way having been raised by consumers in `done`. */
  ghost predicate PartialAlerts(cfg: Config, t0: nat, before: seq<Entry>, e: Entry, m: Model, done: seq<Id>) {
    && AlertsInv(cfg, t0, before + [e], m.alerts, m.alertAt)
    && (forall i :: 0 <= i < |m.alerts| && m.alertAt[i] < |before| ==>
          Settled(cfg, t0, before, m.alerts[i].consumerId, m.alertAt[i]))
    && (forall i :: 0 <= i < |m.alerts| && m.alertAt[i] == |before| ==> m.alerts[i].consumerId in done)
  }

  /** A consumer whose stall begins now has moved since any alert before. */
  lemma MovedSinceAlert(cfg: Config, t0: nat, before: seq<Entry>, e: Entry, m: Model, done: seq<Id>, id: Id, i: nat)
    requires PartialAlerts(cfg, t0, before, e, m, done) && id !in done
    requires StallStart(cfg, t0, before, id).None? && i < |m.alerts| && m.alerts[i].consumerId == id
    ensures m.alertAt[i] < |before| && MovedWithin(before + [e], m.alertAt[i], |before|, id)
  {
    assert m.alertAt[i] < |before + [e]|;
    assert Settled(cfg, t0, before, id, m.alertAt[i]);
    WithinKept(before, e, m.alertAt[i], |before| - 1, id);
  }

  lemma AlertRaised(cfg: Config, t0: nat, before: seq<Entry>, e: Entry, m: Model, n: Model, done: seq<Id>, id: Id)
    requires PartialAlerts(cfg, t0, before, e, m, done) && id !in done
    requires StallStart(cfg, t0, before, id).None? && StallStart(cfg, t0, before + [e], id).Some?
    requires |n.alerts| == |m.alerts| + 1 && n.alerts[..|m.alerts|] == m.alerts && n.alerts[|m.alerts|].consumerId == id
    requires n.alertAt == m.alertAt + [|before|]
    ensures PartialAlerts(cfg, t0, before, e, n, done + [id])
  {
    var (entries, last) := (before + [e], |m.alerts|);
    assert forall i :: 0 <= i < last ==> n.alerts[i] == m.alerts[i] && n.alertAt[i] == m.alertAt[i];
    forall a, b | 0 <= a < b < |n.alerts| && n.alerts[a].consumerId == n.alerts[b].consumerId
      ensures MovedWithin(entries, n.alertAt[a], n.alertAt[b], n.alerts[a].consumerId)
    {
      if b == last {
        MovedSinceAlert(cfg, t0, before, e, m, done, id, a);
      } else {
        assert MovedWithin(entries, m.alertAt[a], m.alertAt[b], m.alerts[a].consumerId);
      }
    }
    forall i | 0 <= i < |n.alerts| ensures Settled(cfg, t0, entries, n.alerts[i].consumerId, n.alertAt[i]) {
      assert i < last ==> Settled(cfg, t0, entries, m.alerts[i].consumerId, m.alertAt[i]);
    }
  }

  lemma SameAlerts(cfg: Config, t0: nat, before: seq<Entry>, e: Entry, m: Model, n: Model, done: seq<Id>, id: Id)
    requires PartialAlerts(cfg, t0, before, e, m, done) && n.alerts == m.alerts && n.alertAt == m.alertAt
    ensures PartialAlerts(cfg, t0, before, e, n, done + [id])
  {
  }

  lemma ScanOneAlerts(cfg: Config, t0: nat, before: seq<Entry>, e: Entry, m: Model, k: nat)
    requires ValidConfig(cfg) && Partial(cfg, t0, before, e, m, k) && k < |cfg.ids|
    requires PartialAlerts(cfg, t0, before, e, m, cfg.ids[..k])
    ensures var n := ScanOne(cfg, m, cfg.ids[k], e.now, e.producer, e.observed);
            PartialAlerts(cfg, t0, before, e, n, cfg.ids[..k + 1])
  {
    var (id, done) := (cfg.ids[k], cfg.ids[..k]);
    var n := ScanOne(cfg, m, id, e.now, e.producer, e.observed);
    assert cfg.ids[..k + 1] == done + [id];
    if id in done {
      ObserveTwice(cfg, t0, before, e, id);
      SameAlerts(cfg, t0, before, e, m, n, done, id);
    } else {
      ObserveIsTrack(cfg, t0, before, e, id);
      if |n.alerts| > |m.alerts| {
        AlertRaised(cfg, t0, before, e, m, n, done, id);
      } else {
        SameAlerts(cfg, t0, before, e, m, n, done, id);
      }
    }
  }

  lemma ScanOneStep(cfg: Config, t0: nat, before: seq<Entry>, e: Entry, m: Model, k: nat)
    requires ValidConfig(cfg) && Partial(cfg, t0, before, e, m, k) && k < |cfg.ids|
    ensures var n := ScanOne(cfg, m, cfg.ids[k], e.now, e.producer, e.observed);
            && n.entries == m.entries
            && (n.terminal.None? ==> Partial(cfg, t0, before, e, n, k + 1))
            && (n.terminal.Some? ==> Justified(cfg, t0, n.entries, n.terminal.value))
  {
    var id := cfg.ids[k];
    assert cfg.ids[..k + 1] == cfg.ids[..k] + [id];
    if id in cfg.ids[..k] {
      ObserveTwice(cfg, t0, before, e, id);
    } else {
      ObserveIsTrack(cfg, t0, before, e, id);
    }
  }

  lemma {:induction false} ScanKeepsInv(cfg: Config, t0: nat, before: seq<Entry>, e: Entry, m: Model, k: nat)
    requires ValidConfig(cfg) && Partial(cfg, t0, before, e, m, k)
    requires PartialAlerts(cfg, t0, before, e, m, cfg.ids[..k])
    ensures var r := Scan(cfg, m, k, e.now, e.producer, e.observed);
            Inv(cfg, t0, r) && r.entries == m.entries
    decreases |cfg.ids| - k
  {
    if k < |cfg.ids| {
      ScanOneStep(cfg, t0, before, e, m, k);
      ScanOneAlerts(cfg, t0, before, e, m, k);
      var n := ScanOne(cfg, m, cfg.ids[k], e.now, e.producer, e.observed);
      if n.terminal.None? {
        ScanKeepsInv(cfg, t0, before, e, n, k + 1);
      }
    } else {
      assert cfg.ids[..k] == cfg.ids;
    }
  }

  lemma AlertsKept(cfg: Config, t0: nat, m: Model, e: Entry)
    requires AlertsInv(cfg, t0, m.entries, m.alerts, m.alertAt)
    ensures AlertsInv(cfg, t0, m.entries + [e], m.alerts, m.alertAt)
  {
    forall a, b | 0 <= a < b < |m.alerts| && m.alerts[a].consumerId == m.alerts[b].consumerId
      ensures MovedWithin(m.entries + [e], m.alertAt[a], m.alertAt[b], m.alerts[a].consumerId)
    {
      WithinKept(m.entries, e, m.alertAt[a], m.alertAt[b], m.alerts[a].consumerId);
    }
    forall i | 0 <= i < |m.alerts| ensures Settled(cfg, t0, m.entries + [e], m.alerts[i].consumerId, m.alertAt[i]) {
      SettledKept(cfg, t0, m.entries, e, m.alerts[i].consumerId, m.alertAt[i]);
    }
  }

  /** A seeding makes the history say what the restarted record says. */
  lemma SeedIsTracked(cfg: Config, t0: nat, entries: seq<Entry>, now: nat, observed: map<Id, int>, id: Id)
    ensures var after := entries + [LivenessModel.Seed(now, observed)];
            && Track(cfg, t0, after, id) == Restarted(now, if id in observed then observed[id] else -1)
            && NotDue(cfg, t0, after, id)
  {
    PrefixOf(entries, LivenessModel.Seed(now, observed));
  }

  lemma StartFollows(cfg: Config, t0: nat, m: Model, now: nat, observed: map<Id, int>, n: Model)
    requires Tracks(cfg, m) && m.terminal.None? && n == LivenessModel.Start(cfg, m, now, observed)
    ensures Following(cfg, t0, n)
  {
    forall id | id in cfg.ids
      ensures n.consumers[id] == Track(cfg, t0, n.entries, id) && NotDue(cfg, t0, n.entries, id)
    {
      SeedIsTracked(cfg, t0, m.entries, now, observed, id);
    }
  }

  lemma StartKeepsInv(cfg: Config, t0: nat, m: Model, now: nat, observed: map<Id, int>)
    requires ValidConfig(cfg) && Inv(cfg, t0, m) && t0 <= now && LastTime(t0, m.entries) <= now
    ensures Inv(cfg, t0, LivenessModel.Start(cfg, m, now, observed))
  {
    if m.terminal.None? {
      AlertsKept(cfg, t0, m, LivenessModel.Seed(now, observed));
      StartFollows(cfg, t0, m, now, observed, LivenessModel.Start(cfg, m, now, observed));
    }
  }

  lemma CheckKeepsInv(cfg: Config, t0: nat, m: Model, now: nat, producer: int, observed: map<Id, int>)
    requires ValidConfig(cfg) && Inv(cfg, t0, m) && t0 <= now && LastTime(t0, m.entries) <= now
    ensures Inv(cfg, t0, Evaluate(cfg, m, now, producer, observed))
  {
    if m.terminal.None? && Since(now, m.lastCheckAt) >= cfg.progressCheckInterval {
      var e := Check(now, producer, observed);
      AlertsKept(cfg, t0, m, e);
      ScanKeepsInv(cfg, t0, m.entries, e, m.(lastCheckAt := now, entries := m.entries + [e]), 0);
    }
  }

  lemma CallKeepsInv(cfg: Config, t0: nat, m: Model, call: Call, n: Model)
    requires ValidConfig(cfg) && Inv(cfg, t0, m) && t0 <= call.now && LastTime(t0, m.entries) <= call.now
    requires n == Apply(cfg, m, call)
    ensures Inv(cfg, t0, n)
  {
    match call
    case Started(now, observed) => StartKeepsInv(cfg, t0, m, now, observed);
    case Blocked(now, producer, observed) => CheckKeepsInv(cfg, t0, m, now, producer, observed);
  }

  /** The time of the last call, or of creation. */
  function LastCall(t0: nat, calls: seq<Call>): nat {
    if calls == [] then t0 else calls[|calls| - 1].now
  }

  /** The entry a call leaves, if it is effective: a check does, unless it comes less than an interval after
      the last one; a seeding always does. */
  function EntryOf(cfg: Config, lastCheckAt: nat, call: Call): seq<Entry> {
    match call
    case Started(now, observed) => [LivenessModel.Seed(now, observed)]
    case Blocked(now, producer, observed) =>
      if now - lastCheckAt >= cfg.progressCheckInterval then [Check(now, producer, observed)] else []
  }

  /** A call records exactly itself, if it is effective and no error was raised before. */
  lemma EntriesOfCall(cfg: Config, m: Model, call: Call)
    requires ValidConfig(cfg) && Tracks(cfg, m)
    ensures Apply(cfg, m, call).entries
            == m.entries + if m.terminal.Some? then [] else EntryOf(cfg, m.lastCheckAt, call)
  {
    if call.Blocked? {
      var e := Check(call.now, call.producer, call.observed);
      var begun := m.(lastCheckAt := call.now, entries := m.entries + [e]);
      ScanKeepsEntries(cfg, begun, 0, call.now, call.producer, call.observed);
    }
  }

  lemma CallIsLatest(cfg: Config, t0: nat, m: Model, call: Call)
    requires ValidConfig(cfg) && Tracks(cfg, m) && LastTime(t0, m.entries) <= call.now
    ensures LastTime(t0, Apply(cfg, m, call).entries) <= call.now
  {
    EntriesOfCall(cfg, m, call);
  }

  lemma {:induction false} ScanKeepsEntries(cfg: Config, m: Model, k: nat, now: nat, producer: int,
                                            observed: map<Id, int>)
    requires Tracks(cfg, m) && k <= |cfg.ids|
    ensures var r := Scan(cfg, m, k, now, producer, observed);
            r.entries == m.entries && r.lastCheckAt == m.lastCheckAt
    decreases |cfg.ids| - k
  {
    if k < |cfg.ids| {
      ScanKeepsEntries(cfg, ScanOne(cfg, m, cfg.ids[k], now, producer, observed), k + 1, now, producer, observed);
    }
  }

  lemma {:induction false} HistoryInv(cfg: Config, t0: nat, calls: seq<Call>)
    requires ValidConfig(cfg) && Timely(t0, calls)
    ensures Inv(cfg, t0, After(cfg, t0, calls))
    ensures LastTime(t0, After(cfg, t0, calls).entries) <= LastCall(t0, calls)
    decreases |calls|
  {
    if calls != [] {
      var earlier := calls[..|calls| - 1];
      HistoryInv(cfg, t0, earlier);
      CallKeepsInv(cfg, t0, After(cfg, t0, earlier), calls[|calls| - 1], After(cfg, t0, calls));
      CallIsLatest(cfg, t0, After(cfg, t0, earlier), calls[|calls| - 1]);
    }
  }

  /** The parts of the invariant that timing needs. */
  lemma TimingFacts(cfg: Config, t0: nat, calls: seq<Call>, id: Id)
    requires ValidConfig(cfg) && Timely(t0, calls)
    ensures var m := After(cfg, t0, calls);
            && Ordered(t0, m.entries) && LastTime(t0, m.entries) <= LastCall(t0, calls)
            && (m.terminal.None? ==> m.lastCheckAt == LastTime(t0, m.entries))
            && (m.terminal.None? && id in cfg.ids ==> NotDue(cfg, t0, m.entries, id))
  {
    HistoryInv(cfg, t0, calls);
  }

  // ---- The entries are the effective calls ----

  /** The entries of a history, by the times of its calls alone. */
  function Effective(cfg: Config, t0: nat, calls: seq<Call>): seq<Entry>
    decreases |calls|
  {
    if calls == [] then []
    else
      var before := Effective(cfg, t0, calls[..|calls| - 1]);
      before + EntryOf(cfg, LastTime(t0, before), calls[|calls| - 1])
  }

  /** What the automaton works on is exactly the effective calls, with what they observed, up to and
      including the one that raises an error; from there on `ErrorIsFinal` has it. */
  lemma {:induction false} EntriesAreEffective(cfg: Config, t0: nat, calls: seq<Call>)
    requires ValidConfig(cfg) && Timely(t0, calls)
    requires calls == [] || After(cfg, t0, calls[..|calls| - 1]).terminal.None?
    ensures After(cfg, t0, calls).entries == Effective(cfg, t0, calls)
    decreases |calls|
  {
    if calls != [] {
      var earlier := calls[..|calls| - 1];
      if earlier != [] {
        NoErrorBefore(cfg, t0, earlier);
      }
      EntriesAreEffective(cfg, t0, earlier);
      EntriesOfCall(cfg, After(cfg, t0, earlier), calls[|calls| - 1]);
      TimingFacts(cfg, t0, earlier, "");
    }
  }

  lemma NoErrorBefore(cfg: Config, t0: nat, calls: seq<Call>)
    requires calls != [] && After(cfg, t0, calls).terminal.None?
    ensures After(cfg, t0, calls[..|calls| - 1]).terminal.None?
  {
  }

  // ---- No early shutdown ----

  /** An error reports a stall at least as long as both periods together, it tells the time since
      the consumer's last move, and no effective check within that span saw the consumer advance or
      reach the producer. */
  lemma NoEarlyShutdown(cfg: Config, t0: nat, calls: seq<Call>)
    requires ValidConfig(cfg) && Timely(t0, calls)
    requires After(cfg, t0, calls).terminal.Some?
    ensures var m := After(cfg, t0, calls);
            var e := m.terminal.value;
            && e.GracefulShutdownTriggered? && e.consumerId in cfg.ids && m.entries != []
            && e.stalledFor >= cfg.progressTimeout + cfg.shutdownGracePeriod
            && e.lastSequence == Peak(m.entries, e.consumerId)
            && e.stalledFor == LastTime(t0, m.entries) - LastMove(t0, m.entries, e.consumerId)
            && forall j :: 0 <= j < |m.entries| && m.entries[j].now > LastTime(t0, m.entries) - e.stalledFor ==>
                 !Moved(m.entries, j, e.consumerId)
  {
    HistoryInv(cfg, t0, calls);
    var m := After(cfg, t0, calls);
    var id := m.terminal.value.consumerId;
    LastMoveBounds(t0, m.entries, id);
    StallBounds(cfg, t0, m.entries, id);
    forall j | 0 <= j < |m.entries| && Moved(m.entries, j, id)
      ensures m.entries[j].now <= LastMove(t0, m.entries, id)
    {
      MovesAreEarlier(t0, m.entries, j, id);
    }
  }

  lemma {:induction false} MovesAreEarlier(t0: nat, entries: seq<Entry>, j: int, id: Id)
    requires Ordered(t0, entries) && 0 <= j < |entries| && Moved(entries, j, id)
    ensures entries[j].now <= LastMove(t0, entries, id)
    decreases |entries|
  {
    if j < |entries| - 1 {
      var front := entries[..|entries| - 1];
      assert front[..j] == entries[..j];
      MovesAreEarlier(t0, front, j, id);
      LastMoveBounds(t0, front, id);
    }
  }

  /** Once raised, the same error is returned by every later check, whatever it observes. */
  lemma {:induction false} ErrorIsFinal(cfg: Config, t0: nat, calls: seq<Call>, n: nat)
    requires n <= |calls| && After(cfg, t0, calls[..n]).terminal.Some?
    ensures After(cfg, t0, calls).terminal == After(cfg, t0, calls[..n]).terminal
    ensures After(cfg, t0, calls).entries == After(cfg, t0, calls[..n]).entries
    decreases |calls|
  {
    if n < |calls| {
      var earlier := calls[..|calls| - 1];
      assert earlier[..n] == calls[..n];
      ErrorIsFinal(cfg, t0, earlier, n);
    } else {
      assert calls[..n] == calls;
    }
  }

  // ---- One alert per stall window ----

  /** The alert flag is up exactly while a stall is recorded. */
  predicate FlagsTellStalls(m: Model) {
    forall id :: id in m.consumers ==> m.consumers[id].alertEmitted == m.consumers[id].stallStartedAt.Some?
  }

  lemma {:induction false} ScanKeepsFlags(cfg: Config, m: Model, k: nat, now: nat, producer: int,
                                          observed: map<Id, int>)
    requires Tracks(cfg, m) && k <= |cfg.ids| && FlagsTellStalls(m)
    ensures FlagsTellStalls(Scan(cfg, m, k, now, producer, observed))
    decreases |cfg.ids| - k
  {
    if k < |cfg.ids| {
      ScanKeepsFlags(cfg, ScanOne(cfg, m, cfg.ids[k], now, producer, observed), k + 1, now, producer, observed);
    }
  }

  /** In every reachable state, before and after an error and whatever the clock says, a consumer's alert
      flag is up exactly while a stall is recorded. */
  lemma {:induction false} AlertIffStalled(cfg: Config, t0: nat, calls: seq<Call>)
    ensures FlagsTellStalls(After(cfg, t0, calls))
    decreases |calls|
  {
    if calls != [] {
      var call := calls[|calls| - 1];
      var m := After(cfg, t0, calls[..|calls| - 1]);
      AlertIffStalled(cfg, t0, calls[..|calls| - 1]);
      if call.Blocked? {
        var e := Check(call.now, call.producer, call.observed);
        ScanKeepsFlags(cfg, m.(lastCheckAt := call.now, entries := m.entries + [e]), 0,
                       call.now, call.producer, call.observed);
      }
    }
  }

  /** A consumer's alert flag is up exactly while a stall is recorded; while no error was raised, that is
      the stall the history of checks shows. Between two alerts for the same consumer some check saw it
      move (or it was seeded anew). */
  lemma OneAlertPerStall(cfg: Config, t0: nat, calls: seq<Call>)
    requires ValidConfig(cfg) && Timely(t0, calls)
    ensures var m := After(cfg, t0, calls);
            && |m.alerts| == |m.alertAt| && (forall i :: 0 <= i < |m.alertAt| ==> m.alertAt[i] < |m.entries|)
            && (forall a, b :: 0 <= a < b < |m.alerts| && m.alerts[a].consumerId == m.alerts[b].consumerId ==>
                  MovedWithin(m.entries, m.alertAt[a], m.alertAt[b], m.alerts[a].consumerId))
            && FlagsTellStalls(m)
            && (m.terminal.None? ==> forall id :: id in cfg.ids ==>
                  m.consumers[id].stallStartedAt == StallStart(cfg, t0, m.entries, id))
  {
    HistoryInv(cfg, t0, calls);
    AlertIffStalled(cfg, t0, calls);
  }
}
