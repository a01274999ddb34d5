/** Every recorded stall has exactly one alert, which tells the truth about it. */
module LivenessAlerts {
  import opened Wrappers
  import opened LivenessModel
  import opened LivenessTheorems

  /** Entry `j` is the first to show the stall that the alert reports, and the alert says what the history
      up to that entry says about its consumer. */
  ghost predicate TellsTruth(cfg: Config, t0: nat, entries: seq<Entry>, a: Alert, j: nat) {
    && j < |entries| && a.consumerId in cfg.ids
    && StallStart(cfg, t0, entries[..j], a.consumerId).None?
    && StallStart(cfg, t0, entries[..j + 1], a.consumerId).Some?
    && a.lastSequence == Peak(entries[..j + 1], a.consumerId)
    && a.stalledFor == Since(entries[j].now, LastMove(t0, entries[..j + 1], a.consumerId))
  }

  ghost predicate AllTellTruth(cfg: Config, t0: nat, m: Model) {
    && |m.alerts| == |m.alertAt|
    && forall i :: 0 <= i < |m.alerts| ==> TellsTruth(cfg, t0, m.entries, m.alerts[i], m.alertAt[i])
  }

  /** Alert `i` is about this consumer, and nothing since has seen it move. */
  ghost predicate IsOpen(entries: seq<Entry>, m: Model, i: nat, id: Id) {
    && i < |m.alerts| == |m.alertAt| && m.alerts[i].consumerId == id && m.alertAt[i] < |entries|
    && !MovedWithin(entries, m.alertAt[i], |entries| - 1, id)
  }

  ghost predicate HasOpen(entries: seq<Entry>, m: Model, id: Id) {
    exists i: nat :: IsOpen(entries, m, i, id)
  }

  /** The last check went through the consumers in order and stopped at the failing one. */
  predicate Reached(cfg: Config, failing: Id, id: Id) {
    exists k :: 0 <= k < |cfg.ids| && cfg.ids[k] == id && failing !in cfg.ids[..k]
  }

  /** Whether a stall of this consumer has come to the notice of a check: always, unless an error ended
      the very check that would have found it before its turn came. */
  ghost predicate Noticed(cfg: Config, t0: nat, m: Model, id: Id) {
    m.terminal.Some? ==>
      && m.terminal.value.GracefulShutdownTriggered? && m.entries != []
      && (StallStart(cfg, t0, m.entries[..|m.entries| - 1], id).Some? || Reached(cfg, m.terminal.value.consumerId, id))
  }

  ghost predicate OpenInv(cfg: Config, t0: nat, m: Model) {
    && AllTellTruth(cfg, t0, m)
    && forall id :: id in cfg.ids ==>
         (HasOpen(m.entries, m, id) <==> StallStart(cfg, t0, m.entries, id).Some? && Noticed(cfg, t0, m, id))
  }

  // ---- Alerts over a growing history ----

  lemma TruthKept(cfg: Config, t0: nat, entries: seq<Entry>, e: Entry, a: Alert, j: nat)
    requires TellsTruth(cfg, t0, entries, a, j)
    ensures TellsTruth(cfg, t0, entries + [e], a, j)
  {
    PrefixOf(entries, e);
  }

  /** An open alert stays open until a move. */
  lemma OpenKept(entries: seq<Entry>, e: Entry, m: Model, i: nat, id: Id)
    requires IsOpen(entries, m, i, id) && !Moved(entries + [e], |entries|, id)
    ensures IsOpen(entries + [e], m, i, id)
  {
    if MovedWithin(entries + [e], m.alertAt[i], |entries|, id) {
      var j :| m.alertAt[i] < j <= |entries| && 0 <= j && Moved(entries + [e], j, id);
      MovedKept(entries, e, j, id);
      assert MovedWithin(entries, m.alertAt[i], |entries| - 1, id);
    }
  }

  lemma StillOpen(cfg: Config, t0: nat, entries: seq<Entry>, e: Entry, m: Model, id: Id)
    requires StallStart(cfg, t0, entries + [e], id).Some? && HasOpen(entries, m, id)
    ensures HasOpen(entries + [e], m, id)
  {
    var i: nat :| IsOpen(entries, m, i, id);
    OpenKept(entries, e, m, i, id);
  }

  lemma OpenMeansStalled(cfg: Config, t0: nat, m: Model, id: Id)
    requires AlertsInv(cfg, t0, m.entries, m.alerts, m.alertAt) && HasOpen(m.entries, m, id)
    ensures StallStart(cfg, t0, m.entries, id).Some?
  {
    var i: nat :| IsOpen(m.entries, m, i, id);
    assert Settled(cfg, t0, m.entries, id, m.alertAt[i]);
  }

  // ---- During a scan ----

  /** During a scan of entry `e`: consumers already checked have their alert, the others had theirs before. */
  ghost predicate PartialOpen(cfg: Config, t0: nat, before: seq<Entry>, e: Entry, m: Model, done: seq<Id>) {
    && m.entries == before + [e] && AllTellTruth(cfg, t0, m)
    && (forall id :: id in cfg.ids && id in done && StallStart(cfg, t0, before + [e], id).Some? ==>
          HasOpen(before + [e], m, id))
    && (forall id :: id in cfg.ids && id !in done && StallStart(cfg, t0, before, id).Some? ==> HasOpen(before, m, id))
  }

  /** More alerts leave those there were. */
  lemma MoreAlerts(entries: seq<Entry>, m: Model, n: Model, id: Id)
    requires HasOpen(entries, m, id) && m.alerts <= n.alerts && m.alertAt <= n.alertAt && |n.alerts| == |n.alertAt|
    ensures HasOpen(entries, n, id)
  {
    var i: nat :| IsOpen(entries, m, i, id);
    assert IsOpen(entries, n, i, id);
  }

  /** What checking one consumer does to the alerts: nothing, or one true alert where its stall begins. */
  lemma ScanOneTells(cfg: Config, t0: nat, before: seq<Entry>, e: Entry, m: Model, k: nat)
    requires ValidConfig(cfg) && Partial(cfg, t0, before, e, m, k) && k < |cfg.ids| && cfg.ids[k] !in cfg.ids[..k]
    requires |m.alerts| == |m.alertAt|
    ensures var id := cfg.ids[k];
            var n := ScanOne(cfg, m, id, e.now, e.producer, e.observed);
            var begins := StallStart(cfg, t0, before, id).None? && StallStart(cfg, t0, before + [e], id).Some?;
            && n.entries == m.entries
            && (!begins ==> n.alerts == m.alerts && n.alertAt == m.alertAt)
            && (begins ==> |n.alerts| == |m.alerts| + 1 && n.alerts[..|m.alerts|] == m.alerts
                           && n.alertAt == m.alertAt + [|before|] && n.alerts[|m.alerts|].consumerId == id
                           && TellsTruth(cfg, t0, before + [e], n.alerts[|m.alerts|], |before|))
  {
    var id := cfg.ids[k];
    ObserveIsTrack(cfg, t0, before, e, id);
    PrefixOf(before, e);
    assert (before + [e])[..|before| + 1] == before + [e];
  }

  /** A stall that begins with the last entry has its alert open. */
  lemma NewIsOpen(before: seq<Entry>, e: Entry, n: Model, i: nat, id: Id)
    requires i < |n.alerts| == |n.alertAt| && n.alerts[i].consumerId == id && n.alertAt[i] == |before|
    ensures HasOpen(before + [e], n, id)
  {
    assert IsOpen(before + [e], n, i, id);
  }

  lemma ScanOneOpen(cfg: Config, t0: nat, before: seq<Entry>, e: Entry, m: Model, k: nat)
    requires ValidConfig(cfg) && Partial(cfg, t0, before, e, m, k) && k < |cfg.ids|
    requires PartialOpen(cfg, t0, before, e, m, cfg.ids[..k])
    ensures PartialOpen(cfg, t0, before, e, ScanOne(cfg, m, cfg.ids[k], e.now, e.producer, e.observed),
                        cfg.ids[..k + 1])
  {
    var (id, done) := (cfg.ids[k], cfg.ids[..k]);
    var n := ScanOne(cfg, m, id, e.now, e.producer, e.observed);
    assert cfg.ids[..k + 1] == done + [id];
    if id in done {
      ObserveTwice(cfg, t0, before, e, id);
      OpenAsBefore(cfg, t0, before, e, m, n, done, id);
    } else {
      ScanOneTells(cfg, t0, before, e, m, k);
      OneMoreDone(cfg, t0, before, e, m, n, done, id);
    }
  }

  lemma OpenAsBefore(cfg: Config, t0: nat, before: seq<Entry>, e: Entry, m: Model, n: Model, done: seq<Id>, id: Id)
    requires PartialOpen(cfg, t0, before, e, m, done) && id in done
    requires n.entries == m.entries && n.alerts == m.alerts && n.alertAt == m.alertAt
    ensures PartialOpen(cfg, t0, before, e, n, done + [id])
  {
    forall x, entries | HasOpen(entries, m, x) ensures HasOpen(entries, n, x) {
      MoreAlerts(entries, m, n, x);
    }
  }

  lemma OneMoreDone(cfg: Config, t0: nat, before: seq<Entry>, e: Entry, m: Model, n: Model, done: seq<Id>, id: Id)
    requires PartialOpen(cfg, t0, before, e, m, done) && id in cfg.ids && id !in done
    requires n.entries == m.entries && AllTellTruth(cfg, t0, n) && m.alerts <= n.alerts && m.alertAt <= n.alertAt
    requires StallStart(cfg, t0, before, id).None? && StallStart(cfg, t0, before + [e], id).Some? ==>
               |n.alerts| > 0 && n.alerts[|n.alerts| - 1].consumerId == id && n.alertAt[|n.alerts| - 1] == |before|
    ensures PartialOpen(cfg, t0, before, e, n, done + [id])
  {
    forall x, entries | HasOpen(entries, m, x) ensures HasOpen(entries, n, x) {
      MoreAlerts(entries, m, n, x);
    }
    if StallStart(cfg, t0, before + [e], id).Some? {
      if StallStart(cfg, t0, before, id).Some? {
        StillOpen(cfg, t0, before, e, n, id);
      } else {
        NewIsOpen(before, e, n, |n.alerts| - 1, id);
      }
    }
  }

  // ---- Every call ----

  /** A check that went through. */
  lemma ScanDone(cfg: Config, t0: nat, before: seq<Entry>, e: Entry, m: Model)
    requires PartialOpen(cfg, t0, before, e, m, cfg.ids) && m.terminal.None?
    requires AlertsInv(cfg, t0, m.entries, m.alerts, m.alertAt)
    ensures OpenInv(cfg, t0, m)
  {
    forall id | id in cfg.ids
      ensures HasOpen(m.entries, m, id) <==> StallStart(cfg, t0, m.entries, id).Some? && Noticed(cfg, t0, m, id)
    {
      if HasOpen(m.entries, m, id) {
        OpenMeansStalled(cfg, t0, m, id);
      }
    }
  }

  /** A check that stopped at the failing consumer, the one at place `k`. */
  lemma ScanFailed(cfg: Config, t0: nat, before: seq<Entry>, e: Entry, m: Model, k: nat)
    requires k < |cfg.ids| && cfg.ids[k] !in cfg.ids[..k]
    requires PartialOpen(cfg, t0, before, e, m, cfg.ids[..k + 1])
    requires PartialAlerts(cfg, t0, before, e, m, cfg.ids[..k + 1])
    requires m.terminal.Some? && m.terminal.value.GracefulShutdownTriggered?
    requires m.terminal.value.consumerId == cfg.ids[k]
    ensures OpenInv(cfg, t0, m)
  {
    var (f, done) := (cfg.ids[k], cfg.ids[..k + 1]);
    assert m.entries[..|m.entries| - 1] == before;
    forall id | id in cfg.ids
      ensures HasOpen(m.entries, m, id) <==> StallStart(cfg, t0, m.entries, id).Some? && Noticed(cfg, t0, m, id)
    {
      ReachedIsDone(cfg, k, id);
      if HasOpen(m.entries, m, id) {
        OpenMeansStalled(cfg, t0, m, id);
        OpenWasNoticed(cfg, t0, before, e, m, done, id);
      }
      if StallStart(cfg, t0, m.entries, id).Some? && id !in done && StallStart(cfg, t0, before, id).Some? {
        StillOpen(cfg, t0, before, e, m, id);
      }
    }
  }

  lemma ReachedIsDone(cfg: Config, k: nat, id: Id)
    requires k < |cfg.ids| && cfg.ids[k] !in cfg.ids[..k]
    ensures Reached(cfg, cfg.ids[k], id) <==> id in cfg.ids[..k + 1]
  {
    if id in cfg.ids[..k + 1] {
      var j :| 0 <= j < k + 1 && cfg.ids[j] == id;
      assert forall x :: x in cfg.ids[..j] ==> x in cfg.ids[..k];
    }
    if Reached(cfg, cfg.ids[k], id) {
      var j :| 0 <= j < |cfg.ids| && cfg.ids[j] == id && cfg.ids[k] !in cfg.ids[..j];
      assert cfg.ids[..k + 1][j] == id;
    }
  }

  /** An alert open after the entry was raised by a consumer checked, or was open before. */
  lemma OpenWasNoticed(cfg: Config, t0: nat, before: seq<Entry>, e: Entry, m: Model, done: seq<Id>, id: Id)
    requires PartialAlerts(cfg, t0, before, e, m, done) && HasOpen(before + [e], m, id)
    ensures id in done || StallStart(cfg, t0, before, id).Some?
  {
    var i: nat :| IsOpen(before + [e], m, i, id);
    if m.alertAt[i] < |before| {
      assert Settled(cfg, t0, before, id, m.alertAt[i]);
      if StallStart(cfg, t0, before, id).None? {
        WithinKept(before, e, m.alertAt[i], |before| - 1, id);
      }
    }
  }

  lemma FailsOnlyOnce(cfg: Config, t0: nat, before: seq<Entry>, e: Entry, m: Model, k: nat)
    requires ValidConfig(cfg) && Partial(cfg, t0, before, e, m, k) && k < |cfg.ids|
    requires ScanOne(cfg, m, cfg.ids[k], e.now, e.producer, e.observed).terminal.Some?
    ensures cfg.ids[k] !in cfg.ids[..k]
  {
    ObserveTwice(cfg, t0, before, e, cfg.ids[k]);
  }

  lemma {:induction false} ScanKeepsOpen(cfg: Config, t0: nat, before: seq<Entry>, e: Entry, m: Model, k: nat)
    requires ValidConfig(cfg) && Partial(cfg, t0, before, e, m, k)
    requires PartialAlerts(cfg, t0, before, e, m, cfg.ids[..k]) && PartialOpen(cfg, t0, before, e, m, cfg.ids[..k])
    ensures OpenInv(cfg, t0, Scan(cfg, m, k, e.now, e.producer, e.observed))
    decreases |cfg.ids| - k
  {
    if k < |cfg.ids| {
      var n := ScanOne(cfg, m, cfg.ids[k], e.now, e.producer, e.observed);
      ScanOneStep(cfg, t0, before, e, m, k);
      ScanOneAlerts(cfg, t0, before, e, m, k);
      ScanOneOpen(cfg, t0, before, e, m, k);
      if n.terminal.None? {
        ScanKeepsOpen(cfg, t0, before, e, n, k + 1);
      } else {
        FailsOnlyOnce(cfg, t0, before, e, m, k);
        ScanFailed(cfg, t0, before, e, n, k);
      }
    } else {
      assert cfg.ids[..k] == cfg.ids;
      ScanDone(cfg, t0, before, e, m);
    }
  }

  lemma CheckKeepsOpen(cfg: Config, t0: nat, m: Model, now: nat, producer: int, observed: map<Id, int>)
    requires ValidConfig(cfg) && Inv(cfg, t0, m) && t0 <= now && LastTime(t0, m.entries) <= now && OpenInv(cfg, t0, m)
    ensures OpenInv(cfg, t0, Evaluate(cfg, m, now, producer, observed))
  {
    if m.terminal.None? && Since(now, m.lastCheckAt) >= cfg.progressCheckInterval {
      var e := Check(now, producer, observed);
      var begun := m.(lastCheckAt := now, entries := m.entries + [e]);
      AlertsKept(cfg, t0, m, e);
      ScanBegins(cfg, t0, m, e, begun);
      ScanKeepsOpen(cfg, t0, m.entries, e, begun, 0);
    }
  }

  lemma ScanBegins(cfg: Config, t0: nat, m: Model, e: Entry, begun: Model)
    requires OpenInv(cfg, t0, m) && m.terminal.None?
    requires begun == m.(lastCheckAt := begun.lastCheckAt, entries := m.entries + [e])
    ensures PartialOpen(cfg, t0, m.entries, e, begun, [])
  {
    forall i | 0 <= i < |m.alerts| ensures TellsTruth(cfg, t0, begun.entries, m.alerts[i], m.alertAt[i]) {
      TruthKept(cfg, t0, m.entries, e, m.alerts[i], m.alertAt[i]);
    }
    forall id | HasOpen(m.entries, m, id) ensures HasOpen(m.entries, begun, id) {
      MoreAlerts(m.entries, m, begun, id);
    }
  }

  /** A seeding ends every stall. */
  lemma StartKeepsOpen(cfg: Config, t0: nat, m: Model, now: nat, observed: map<Id, int>)
    requires ValidConfig(cfg) && Tracks(cfg, m) && OpenInv(cfg, t0, m)
    ensures OpenInv(cfg, t0, LivenessModel.Start(cfg, m, now, observed))
  {
    var n := LivenessModel.Start(cfg, m, now, observed);
    if m.terminal.None? {
      var e := LivenessModel.Seed(now, observed);
      forall i | 0 <= i < |m.alerts| ensures TellsTruth(cfg, t0, n.entries, m.alerts[i], m.alertAt[i]) {
        TruthKept(cfg, t0, m.entries, e, m.alerts[i], m.alertAt[i]);
      }
      forall id ensures !HasOpen(n.entries, n, id) && StallStart(cfg, t0, n.entries, id).None? {
        NothingOpen(cfg, t0, m, e, n, id);
      }
    } else {
      assert n.entries == m.entries && n.alerts == m.alerts && n.alertAt == m.alertAt;
      forall id ensures HasOpen(m.entries, m, id) <==> HasOpen(n.entries, n, id) {
        SameOpen(m.entries, m, n, id);
      }
    }
  }

  lemma SameOpen(entries: seq<Entry>, m: Model, n: Model, id: Id)
    requires n.alerts == m.alerts && n.alertAt == m.alertAt
    ensures HasOpen(entries, m, id) <==> HasOpen(entries, n, id)
  {
    assert forall i: nat :: IsOpen(entries, m, i, id) <==> IsOpen(entries, n, i, id);
  }

  lemma NothingOpen(cfg: Config, t0: nat, m: Model, e: Entry, n: Model, id: Id)
    requires AllTellTruth(cfg, t0, m) && e.Seed? && n.entries == m.entries + [e]
    requires n.alerts == m.alerts && n.alertAt == m.alertAt
    ensures !HasOpen(n.entries, n, id) && StallStart(cfg, t0, n.entries, id).None?
  {
    assert Moved(n.entries, |m.entries|, id);
    forall i: nat | i < |m.alerts| ensures !IsOpen(n.entries, n, i, id) {
      assert TellsTruth(cfg, t0, m.entries, m.alerts[i], m.alertAt[i]);
      assert MovedWithin(n.entries, m.alertAt[i], |m.entries|, id);
    }
  }

  lemma {:induction false} HistoryOpen(cfg: Config, t0: nat, calls: seq<Call>)
    requires ValidConfig(cfg) && Timely(t0, calls)
    ensures OpenInv(cfg, t0, After(cfg, t0, calls))
    decreases |calls|
  {
    if calls != [] {
      var (earlier, call) := (calls[..|calls| - 1], calls[|calls| - 1]);
      HistoryInv(cfg, t0, earlier);
      HistoryOpen(cfg, t0, earlier);
      match call
      case Started(now, observed) => StartKeepsOpen(cfg, t0, After(cfg, t0, earlier), now, observed);
      case Blocked(now, producer, observed) =>
        CheckKeepsOpen(cfg, t0, After(cfg, t0, earlier), now, producer, observed);
    }
  }

  // ---- The alerts of every history ----

  /** Over every history: exactly while a required consumer's stall has been noticed, exactly one of its
      alerts has no move behind it. */
  lemma AlertOpenIffStalled(cfg: Config, t0: nat, calls: seq<Call>, id: Id)
    requires ValidConfig(cfg) && Timely(t0, calls) && id in cfg.ids
    ensures var m := After(cfg, t0, calls);
            && (HasOpen(m.entries, m, id) <==> StallStart(cfg, t0, m.entries, id).Some? && Noticed(cfg, t0, m, id))
            && forall a: nat, b: nat :: IsOpen(m.entries, m, a, id) && IsOpen(m.entries, m, b, id) ==> a == b
  {
    HistoryOpen(cfg, t0, calls);
    HistoryInv(cfg, t0, calls);
    var m := After(cfg, t0, calls);
    forall a: nat, b: nat | a < b < |m.alerts| && m.alerts[a].consumerId == m.alerts[b].consumerId == id
      ensures !IsOpen(m.entries, m, a, id)
    {
      ClosedByLater(cfg, t0, m, a, b, id);
    }
  }

  /** A later alert for the same consumer means that it moved. */
  lemma ClosedByLater(cfg: Config, t0: nat, m: Model, a: nat, b: nat, id: Id)
    requires AlertsInv(cfg, t0, m.entries, m.alerts, m.alertAt)
    requires a < b < |m.alerts| && m.alerts[a].consumerId == m.alerts[b].consumerId == id
    ensures !IsOpen(m.entries, m, a, id)
  {
    assert MovedWithin(m.entries, m.alertAt[a], m.alertAt[b], id);
    var j :| m.alertAt[a] < j <= m.alertAt[b] && 0 <= j && Moved(m.entries, j, id);
    assert MovedWithin(m.entries, m.alertAt[a], |m.entries| - 1, id);
  }

  /** Every alert was raised at the entry that first showed its stall, and names the highest sequence seen
      and the time since the last move. */
  lemma AlertsTellTruth(cfg: Config, t0: nat, calls: seq<Call>, i: nat)
    requires ValidConfig(cfg) && Timely(t0, calls) && i < |After(cfg, t0, calls).alerts|
    ensures var m := After(cfg, t0, calls);
            && |m.alertAt| == |m.alerts| && TellsTruth(cfg, t0, m.entries, m.alerts[i], m.alertAt[i])
  {
    HistoryOpen(cfg, t0, calls);
  }

  /** Not every stall the history shows has its alert: a check that fails for the first consumer ends
      before the second one's turn. */
  lemma UnreachedGetsNoAlert()
    ensures var cfg := Config(["a", "b"], 0, 10, 1, 0);
            var m := After(cfg, 0, [Blocked(20, 5, map["a" := -1, "b" := -1])]);
            && ValidConfig(cfg) && m.terminal.Some? && |m.alerts| == 1 && m.alerts[0].consumerId == "a"
            && StallStart(cfg, 0, m.entries, "b") == Some(20) && !HasOpen(m.entries, m, "b")
  {
    var cfg := Config(["a", "b"], 0, 10, 1, 0);
    var call := Blocked(20, 5, map["a" := -1, "b" := -1]);
    var e := Check(20, 5, map["a" := -1, "b" := -1]);
    assert [call][..0] == [] && After(cfg, 0, []) == New(cfg, 0);
    assert [e][..0] == [] && !Moved([e], 0, "b");
    assert StallStart(cfg, 0, [e], "b") == Some(20);
  }
}
