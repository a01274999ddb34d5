/** Required-consumer liveness as a function of what the producer's blocked checks observed. */
module LivenessModel {
  import opened Wrappers

  type Id = string

  datatype Config = Config(
    ids: seq<Id>,
    startupWaitTimeout: nat,
    progressTimeout: nat,
    progressCheckInterval: nat,
    shutdownGracePeriod: nat)

  /** What the configuration's setters insist on. */
  predicate ValidConfig(cfg: Config) {
    cfg.ids != [] && cfg.progressTimeout > 0 && cfg.progressCheckInterval > 0
  }

  datatype Alert = Alert(consumerId: Id, lastSequence: int, stalledFor: nat)

  datatype LivenessError =
    | StartupTimeout(missing: seq<Id>)
    | GracefulShutdownTriggered(consumerId: Id, lastSequence: int, stalledFor: nat)

  datatype Progress = Progress(lastObserved: int, lastProgressAt: nat, stallStartedAt: Option<nat>, alertEmitted: bool)

  /** Elapsed time, zero when the clock reads earlier. */
  function Since(later: nat, earlier: nat): nat {
    if later >= earlier then later - earlier else 0
  }

  function Lookup(observed: map<Id, int>, id: Id): Option<int> {
    if id in observed then Some(observed[id]) else None
  }

  function Restarted(now: nat, sequence: int): Progress {
    Progress(sequence, now, None, false)
  }

  datatype Outcome = Outcome(progress: Progress, alert: bool, failed: bool)

  /** One consumer's part of an effective check. */
  function Observe(cfg: Config, p: Progress, now: nat, producer: int, seen: Option<int>): Outcome {
    if seen.Some? && seen.value > p.lastObserved then Outcome(Restarted(now, seen.value), false, false)
    else if seen.Some? && seen.value >= producer then Outcome(Restarted(now, p.lastObserved), false, false)
    else if Since(now, p.lastProgressAt) < cfg.progressTimeout then Outcome(p, false, false)
    else
      var started := if p.stallStartedAt.Some? then p.stallStartedAt.value else now;
      Outcome(p.(stallStartedAt := Some(started), alertEmitted := true), !p.alertEmitted,
              Since(now, started) >= cfg.shutdownGracePeriod)
  }

  // ---- The history of effective checks ----

  /** A check that was not skipped, or the seeding at startup. */
  datatype Entry =
    | Check(now: nat, producer: int, observed: map<Id, int>)
    | Seed(now: nat, observed: map<Id, int>)

  /** The whole state, with its history: `alertAt[i]` is the entry that raised `alerts[i]`. */
  datatype Model = Model(
    consumers: map<Id, Progress>,
    lastCheckAt: nat,
    terminal: Option<LivenessError>,
    alerts: seq<Alert>,
    entries: seq<Entry>,
    alertAt: seq<nat>)

  function New(cfg: Config, now: nat): Model {
    Model(map id | id in cfg.ids :: Restarted(now, -1), now, None, [], [], [])
  }

  predicate Tracks(cfg: Config, m: Model) {
    m.consumers.Keys == (set id | id in cfg.ids)
  }

  /** The consumers from the `k`-th on, in order, until one fails. */
  function Scan(cfg: Config, m: Model, k: nat, now: nat, producer: int, observed: map<Id, int>): (r: Model)
    requires Tracks(cfg, m) && k <= |cfg.ids|
    ensures Tracks(cfg, r)
    decreases |cfg.ids| - k
  {
    if k == |cfg.ids| then m
    else
      var n := ScanOne(cfg, m, cfg.ids[k], now, producer, observed);
      if n.terminal.Some? then n else Scan(cfg, n, k + 1, now, producer, observed)
  }

  function ScanOne(cfg: Config, m: Model, id: Id, now: nat, producer: int, observed: map<Id, int>): (r: Model)
    requires Tracks(cfg, m) && id in cfg.ids
    ensures Tracks(cfg, r)
  {
    var o := Observe(cfg, m.consumers[id], now, producer, Lookup(observed, id));
    var stalledFor := Since(now, o.progress.lastProgressAt);
    m.(consumers := m.consumers[id := o.progress],
       alerts := if o.alert then m.alerts + [Alert(id, o.progress.lastObserved, stalledFor)] else m.alerts,
       alertAt := if o.alert && m.entries != [] then m.alertAt + [|m.entries| - 1] else m.alertAt,
       terminal := if o.failed then Some(GracefulShutdownTriggered(id, o.progress.lastObserved, stalledFor))
                   else m.terminal)
  }

  function Evaluate(cfg: Config, m: Model, now: nat, producer: int, observed: map<Id, int>): (r: Model)
    requires Tracks(cfg, m)
    ensures Tracks(cfg, r)
  {
    if m.terminal.Some? || Since(now, m.lastCheckAt) < cfg.progressCheckInterval then m
    else
      var begun := m.(lastCheckAt := now, entries := m.entries + [Check(now, producer, observed)]);
      Scan(cfg, begun, 0, now, producer, observed)
  }

  /** The records start over from what is observed now. */
  function Seeded(m: Model, now: nat, observed: map<Id, int>): Model {
    m.(consumers := map id | id in m.consumers :: Restarted(now, if id in observed then observed[id] else -1),
       entries := if m.terminal.Some? then m.entries else m.entries + [Seed(now, observed)])
  }

  function Start(cfg: Config, m: Model, now: nat, observed: map<Id, int>): (r: Model)
    requires Tracks(cfg, m)
    ensures Tracks(cfg, r)
  {
    Seeded(m, now, observed).(lastCheckAt := now)
  }

  /** The calls made on the state: blocked checks, and the startup that seeds it. */
  datatype Call =
    | Blocked(now: nat, producer: int, observed: map<Id, int>)
    | Started(now: nat, observed: map<Id, int>)

  function Apply(cfg: Config, m: Model, call: Call): (r: Model)
    requires Tracks(cfg, m)
    ensures Tracks(cfg, r)
  {
    match call
    case Blocked(now, producer, observed) => Evaluate(cfg, m, now, producer, observed)
    case Started(now, observed) => Start(cfg, m, now, observed)
  }

  /** The state after a history of calls. */
  function After(cfg: Config, t0: nat, calls: seq<Call>): (m: Model)
    ensures Tracks(cfg, m)
    decreases |calls|
  {
    if calls == [] then New(cfg, t0)
    else Apply(cfg, After(cfg, t0, calls[..|calls| - 1]), calls[|calls| - 1])
  }

  /** Clock readings never go back. */
  predicate Timely(t0: nat, calls: seq<Call>) {
    && (forall i :: 0 <= i < |calls| ==> t0 <= calls[i].now)
    && (forall i, j :: 0 <= i < j < |calls| ==> calls[i].now <= calls[j].now)
  }

  // ---- What the entries say about one consumer, independently of the automaton ----

  /** The highest sequence seen since the last seeding. */
  function Peak(entries: seq<Entry>, id: Id): int
    decreases |entries|
  {
    if entries == [] then -1
    else
      var last := entries[|entries| - 1];
      if last.Seed? then (if id in last.observed then last.observed[id] else -1)
      else
        var before := Peak(entries[..|entries| - 1], id);
        if id in last.observed && last.observed[id] > before then last.observed[id] else before
  }

  /** Entry `j` seeded the consumer, saw it advance, or saw it at the producer. */
  predicate Moved(entries: seq<Entry>, j: int, id: Id)
    requires 0 <= j < |entries|
  {
    entries[j].Seed?
    || (id in entries[j].observed
        && (entries[j].observed[id] > Peak(entries[..j], id) || entries[j].observed[id] >= entries[j].producer))
  }

  /** When the consumer last moved. */
  function LastMove(t0: nat, entries: seq<Entry>, id: Id): nat
    decreases |entries|
  {
    if entries == [] then t0
    else if Moved(entries, |entries| - 1, id) then entries[|entries| - 1].now
    else LastMove(t0, entries[..|entries| - 1], id)
  }

  /** The first check since then that found the timeout exceeded. */
  function StallStart(cfg: Config, t0: nat, entries: seq<Entry>, id: Id): Option<nat>
    decreases |entries|
  {
    if entries == [] || Moved(entries, |entries| - 1, id) then None
    else
      var before := StallStart(cfg, t0, entries[..|entries| - 1], id);
      var now := entries[|entries| - 1].now;
      if before.Some? then before
      else if Since(now, LastMove(t0, entries, id)) >= cfg.progressTimeout then Some(now)
      else None
  }

  /** The automaton's record, read off the history. */
  function Track(cfg: Config, t0: nat, entries: seq<Entry>, id: Id): Progress {
    var stall := StallStart(cfg, t0, entries, id);
    Progress(Peak(entries, id), LastMove(t0, entries, id), stall, stall.Some?)
  }
}
