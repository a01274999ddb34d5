/** A required consumer that stops moving is detected in bounded time. */
module LivenessDetection {
  import opened LivenessModel
  import opened LivenessTheorems

  /** From `start` on, when `from` calls had been made, calls come at most `d` apart. */
  predicate Cadence(start: nat, calls: seq<Call>, from: nat, d: nat) {
    forall i :: from <= i < |calls| ==> CallInTime(start, calls, from, i, d)
  }

  predicate CallInTime(start: nat, calls: seq<Call>, from: nat, i: int, d: nat)
    requires from <= i < |calls|
  {
    calls[i].now <= (if i == from then start else calls[i - 1].now) + d
  }

  lemma EarlierCalls(start: nat, calls: seq<Call>, from: nat, n: nat, d: nat)
    requires n <= |calls| && Cadence(start, calls, from, d)
    ensures Cadence(start, calls[..n], from, d)
  {
    forall i | from <= i < n ensures CallInTime(start, calls[..n], from, i, d) {
      assert CallInTime(start, calls, from, i, d);
    }
  }

  /** No stall means a recent move. */
  lemma NoStallNoDelay(cfg: Config, t0: nat, entries: seq<Entry>, id: Id)
    requires cfg.progressTimeout > 0 && Ordered(t0, entries) && StallStart(cfg, t0, entries, id).None?
    ensures LastTime(t0, entries) < LastMove(t0, entries, id) + cfg.progressTimeout
  {
  }

  /** A stall starts soon after the timeout, and the last call was soon after the last entry. */
  ghost predicate Prompt(cfg: Config, t0: nat, entries: seq<Entry>, id: Id, start: nat, d: nat, p: nat, last: nat) {
    var v := StallStart(cfg, t0, entries, id);
    && (v.Some? ==> v.value < p + cfg.progressTimeout + cfg.progressCheckInterval + d)
    && (last <= start || last < LastTime(t0, entries) + cfg.progressCheckInterval)
  }

  /** One more call, at most `d` after the one at `previous`. */
  lemma StaysPrompt(cfg: Config, t0: nat, entries: seq<Entry>, call: Call, id: Id, start: nat, d: nat, p: nat,
                    previous: nat)
    requires ValidConfig(cfg) && Ordered(t0, entries) && t0 <= call.now
    requires LastTime(t0, entries) <= call.now <= previous + d
    requires Prompt(cfg, t0, entries, id, start, d, p, previous) && start <= p
    requires LastMove(t0, entries + EntryOf(cfg, LastTime(t0, entries), call), id) <= p
    ensures Prompt(cfg, t0, entries + EntryOf(cfg, LastTime(t0, entries), call), id, start, d, p, call.now)
  {
    var added := EntryOf(cfg, LastTime(t0, entries), call);
    if added != [] {
      PrefixOf(entries, added[0]);
      assert added == [added[0]];
      if StallStart(cfg, t0, entries, id).None? {
        NoStallNoDelay(cfg, t0, entries, id);
      }
    } else {
      assert entries + added == entries;
    }
  }

  /** While there is no error, the last call adds its own entry. */
  lemma EntriesOfLast(cfg: Config, t0: nat, calls: seq<Call>)
    requires ValidConfig(cfg) && Timely(t0, calls) && calls != []
    requires After(cfg, t0, calls[..|calls| - 1]).terminal.None?
    ensures var entries := After(cfg, t0, calls[..|calls| - 1]).entries;
            && Ordered(t0, entries) && LastTime(t0, entries) <= calls[|calls| - 1].now
            && LastTime(t0, entries) <= LastCall(t0, calls[..|calls| - 1])
            && After(cfg, t0, calls).entries == entries + EntryOf(cfg, LastTime(t0, entries), calls[|calls| - 1])
  {
    var earlier := calls[..|calls| - 1];
    TimingFacts(cfg, t0, earlier, "");
    EntriesOfCall(cfg, After(cfg, t0, earlier), calls[|calls| - 1]);
  }

  /** A later call cannot make the last move earlier. */
  lemma LastMoveGrows(cfg: Config, t0: nat, calls: seq<Call>, id: Id)
    requires ValidConfig(cfg) && Timely(t0, calls) && calls != []
    ensures LastMove(t0, After(cfg, t0, calls[..|calls| - 1]).entries, id)
            <= LastMove(t0, After(cfg, t0, calls).entries, id)
  {
    var (earlier, call) := (calls[..|calls| - 1], calls[|calls| - 1]);
    var m := After(cfg, t0, earlier);
    EntriesOfCall(cfg, m, call);
    if m.terminal.Some? {
      assert m.entries + [] == m.entries;
    } else {
      EntriesOfLast(cfg, t0, calls);
      EntryMovesOn(cfg, t0, m.entries, call, id);
    }
  }

  lemma EntryMovesOn(cfg: Config, t0: nat, entries: seq<Entry>, call: Call, id: Id)
    requires Ordered(t0, entries) && LastTime(t0, entries) <= call.now
    ensures LastMove(t0, entries, id)
            <= LastMove(t0, entries + EntryOf(cfg, LastTime(t0, entries), call), id)
  {
    var added := EntryOf(cfg, LastTime(t0, entries), call);
    LastMoveBounds(t0, entries, id);
    if added != [] {
      PrefixOf(entries, added[0]);
      assert added == [added[0]];
    } else {
      assert entries + added == entries;
    }
  }

  lemma {:induction false} LastMoveOfPrefix(cfg: Config, t0: nat, calls: seq<Call>, n: nat, id: Id)
    requires ValidConfig(cfg) && Timely(t0, calls) && n <= |calls|
    ensures LastMove(t0, After(cfg, t0, calls[..n]).entries, id) <= LastMove(t0, After(cfg, t0, calls).entries, id)
    decreases |calls|
  {
    if n < |calls| {
      var earlier := calls[..|calls| - 1];
      assert earlier[..n] == calls[..n];
      LastMoveOfPrefix(cfg, t0, earlier, n, id);
      LastMoveGrows(cfg, t0, calls, id);
    } else {
      assert calls[..n] == calls;
    }
  }

  lemma {:induction false} CallsArePrompt(cfg: Config, t0: nat, calls: seq<Call>, from: nat, start: nat, d: nat, id: Id,
                                          p: nat)
    requires ValidConfig(cfg) && Timely(t0, calls) && from <= |calls| && Cadence(start, calls, from, d)
    requires LastCall(t0, calls[..from]) <= start <= p
    requires After(cfg, t0, calls).terminal.None? && LastMove(t0, After(cfg, t0, calls).entries, id) <= p
    ensures Prompt(cfg, t0, After(cfg, t0, calls).entries, id, start, d, p, LastCall(t0, calls))
    decreases |calls|
  {
    if |calls| == from {
      TimingFacts(cfg, t0, calls, id);
      assert calls[..from] == calls;
      StallBounds(cfg, t0, After(cfg, t0, calls).entries, id);
    } else {
      var earlier := calls[..|calls| - 1];
      assert earlier[..from] == calls[..from];
      EarlierCalls(start, calls, from, |calls| - 1, d);
      LastMoveGrows(cfg, t0, calls, id);
      NoErrorBefore(cfg, t0, calls);
      CallsArePrompt(cfg, t0, earlier, from, start, d, id, p);
      LastCallIsPrompt(cfg, t0, calls, from, start, d, id, p);
    }
  }

  lemma LastCallIsPrompt(cfg: Config, t0: nat, calls: seq<Call>, from: nat, start: nat, d: nat, id: Id, p: nat)
    requires ValidConfig(cfg) && Timely(t0, calls) && from < |calls| && Cadence(start, calls, from, d) && start <= p
    requires LastCall(t0, calls[..from]) <= start
    requires After(cfg, t0, calls[..|calls| - 1]).terminal.None?
    requires LastMove(t0, After(cfg, t0, calls).entries, id) <= p
    requires var earlier := calls[..|calls| - 1];
             Prompt(cfg, t0, After(cfg, t0, earlier).entries, id, start, d, p, LastCall(t0, earlier))
    ensures Prompt(cfg, t0, After(cfg, t0, calls).entries, id, start, d, p, LastCall(t0, calls))
  {
    var (earlier, call) := (calls[..|calls| - 1], calls[|calls| - 1]);
    EntriesOfLast(cfg, t0, calls);
    assert CallInTime(start, calls, from, |calls| - 1, d);
    if |calls| - 1 == from {
      assert earlier == calls[..from];
      StaysPrompt(cfg, t0, After(cfg, t0, earlier).entries, call, id, start, d, p, start);
    } else {
      assert LastCall(t0, earlier) == calls[|calls| - 2].now;
      StaysPrompt(cfg, t0, After(cfg, t0, earlier).entries, call, id, start, d, p, LastCall(t0, earlier));
    }
  }

  /** When a stall that began at `p` is certainly over its time, checks being at most `d` apart. */
  function DetectionLimit(cfg: Config, d: nat, p: nat): nat {
    p + cfg.progressTimeout + cfg.shutdownGracePeriod + 2 * cfg.progressCheckInterval + d
  }

  /** While no error was raised, the clock has not run far past a required consumer's last move. */
  lemma StillInTime(cfg: Config, t0: nat, calls: seq<Call>, from: nat, start: nat, d: nat, id: Id, p: nat)
    requires ValidConfig(cfg) && Timely(t0, calls) && from <= |calls| && Cadence(start, calls, from, d) && id in cfg.ids
    requires LastCall(t0, calls[..from]) <= start <= p
    requires After(cfg, t0, calls).terminal.None? && LastMove(t0, After(cfg, t0, calls).entries, id) <= p
    ensures LastCall(t0, calls) < DetectionLimit(cfg, d, p)
  {
    CallsArePrompt(cfg, t0, calls, from, start, d, id, p);
    TimingFacts(cfg, t0, calls, id);
    var entries := After(cfg, t0, calls).entries;
    if StallStart(cfg, t0, entries, id).None? {
      NoStallNoDelay(cfg, t0, entries, id);
    }
  }

  /** Bounded stall detection: when from `start` on checks come at most `d` apart, whatever happened before,
      and a required consumer does not move after time `p`, some shutdown error has been returned by
      `p + progress_timeout + shutdown_grace_period + 2 * (progress_check_interval + d)`. */
  lemma BoundedDetection(cfg: Config, t0: nat, calls: seq<Call>, from: nat, start: nat, d: nat, id: Id, p: nat)
    returns (n: nat)
    requires ValidConfig(cfg) && Timely(t0, calls) && from <= |calls| && Cadence(start, calls, from, d) && id in cfg.ids
    requires LastCall(t0, calls[..from]) <= start <= p && LastMove(t0, After(cfg, t0, calls).entries, id) <= p
    requires LastCall(t0, calls) >= DetectionLimit(cfg, d, p)
    ensures from < n <= |calls|
    ensures calls[n - 1].now < p + cfg.progressTimeout + cfg.shutdownGracePeriod + 2 * (cfg.progressCheckInterval + d)
    ensures After(cfg, t0, calls[..n]).terminal.Some?
  {
    assert calls[..|calls|] == calls;
    n := FirstCallAt(start, calls, from, DetectionLimit(cfg, d, p), d);
    FirstCallsDetect(cfg, t0, calls, from, start, d, id, p, n);
  }

  lemma FirstCallsDetect(cfg: Config, t0: nat, calls: seq<Call>, from: nat, start: nat, d: nat, id: Id, p: nat, n: nat)
    requires ValidConfig(cfg) && Timely(t0, calls) && from < n <= |calls| && Cadence(start, calls, from, d)
    requires id in cfg.ids
    requires LastCall(t0, calls[..from]) <= start <= p && LastMove(t0, After(cfg, t0, calls).entries, id) <= p
    requires calls[n - 1].now >= DetectionLimit(cfg, d, p)
    ensures After(cfg, t0, calls[..n]).terminal.Some?
  {
    EarlierCalls(start, calls, from, n, d);
    FirstCalls(t0, calls, from, n);
    LastMoveOfPrefix(cfg, t0, calls, n, id);
    DetectedByNow(cfg, t0, calls[..n], from, start, d, id, p);
  }

  lemma FirstCalls(t0: nat, calls: seq<Call>, from: nat, n: nat)
    requires from < n <= |calls| && Timely(t0, calls)
    ensures Timely(t0, calls[..n]) && calls[..n][..from] == calls[..from]
    ensures LastCall(t0, calls[..n]) == calls[n - 1].now
  {
  }

  /** A call that late comes with an error. */
  lemma DetectedByNow(cfg: Config, t0: nat, calls: seq<Call>, from: nat, start: nat, d: nat, id: Id, p: nat)
    requires ValidConfig(cfg) && Timely(t0, calls) && from <= |calls| && Cadence(start, calls, from, d) && id in cfg.ids
    requires LastCall(t0, calls[..from]) <= start <= p && LastMove(t0, After(cfg, t0, calls).entries, id) <= p
    requires LastCall(t0, calls) >= DetectionLimit(cfg, d, p)
    ensures After(cfg, t0, calls).terminal.Some?
  {
    if After(cfg, t0, calls).terminal.None? {
      StillInTime(cfg, t0, calls, from, start, d, id, p);
    }
  }

  /** The number of calls up to the first one at `limit` or later. */
  lemma FirstCallAt(start: nat, calls: seq<Call>, from: nat, limit: nat, d: nat) returns (n: nat)
    requires from < |calls| && start < limit <= calls[|calls| - 1].now && Cadence(start, calls, from, d)
    ensures from < n <= |calls| && limit <= calls[n - 1].now < limit + d
  {
    n := from + 1;
    assert CallInTime(start, calls, from, from, d);
    while calls[n - 1].now < limit
      invariant from < n <= |calls| && calls[n - 1].now < limit + d
      decreases |calls| - n
    {
      assert CallInTime(start, calls, from, n, d);
      n := n + 1;
    }
  }

  // ---- A consumer that stands still behind a blocked producer ----

  /** The check sees the consumer at `c`, behind the producer. */
  predicate SeesStanding(call: Call, id: Id, c: int) {
    call.Blocked? && id in call.observed && call.observed[id] == c < call.producer
  }

  /** Since `start`, at most the first effective check took the consumer for moving. */
  ghost predicate Standing(cfg: Config, t0: nat, entries: seq<Entry>, id: Id, c: int, start: nat, d: nat, last: nat) {
    && (last <= start || last < LastTime(t0, entries) + cfg.progressCheckInterval)
    && LastMove(t0, entries, id) <= start + cfg.progressCheckInterval + d
    && (LastTime(t0, entries) <= start || Peak(entries, id) >= c)
  }

  lemma KeepsStanding(cfg: Config, t0: nat, entries: seq<Entry>, call: Call, id: Id, c: int, start: nat, d: nat,
                      previous: nat)
    requires ValidConfig(cfg) && Ordered(t0, entries) && call.now <= previous + d && SeesStanding(call, id, c)
    requires Standing(cfg, t0, entries, id, c, start, d, previous)
    ensures Standing(cfg, t0, entries + EntryOf(cfg, LastTime(t0, entries), call), id, c, start, d, call.now)
  {
    var added := EntryOf(cfg, LastTime(t0, entries), call);
    if added != [] {
      PrefixOf(entries, added[0]);
      assert added == [added[0]];
    } else {
      assert entries + added == entries;
    }
  }

  lemma {:induction false} StandsStill(cfg: Config, t0: nat, calls: seq<Call>, from: nat, start: nat, d: nat, id: Id,
                                       c: int)
    requires ValidConfig(cfg) && Timely(t0, calls) && from <= |calls| && Cadence(start, calls, from, d)
    requires LastCall(t0, calls[..from]) <= start && After(cfg, t0, calls).terminal.None?
    requires forall i :: from <= i < |calls| ==> SeesStanding(calls[i], id, c)
    ensures Standing(cfg, t0, After(cfg, t0, calls).entries, id, c, start, d, LastCall(t0, calls))
    decreases |calls|
  {
    if |calls| == from {
      TimingFacts(cfg, t0, calls, id);
      assert calls[..from] == calls;
      LastMoveBounds(t0, After(cfg, t0, calls).entries, id);
    } else {
      var earlier := calls[..|calls| - 1];
      assert earlier[..from] == calls[..from];
      EarlierCalls(start, calls, from, |calls| - 1, d);
      NoErrorBefore(cfg, t0, calls);
      StandsStill(cfg, t0, earlier, from, start, d, id, c);
      OneMoreSight(cfg, t0, calls, from, start, d, id, c);
    }
  }

  lemma OneMoreSight(cfg: Config, t0: nat, calls: seq<Call>, from: nat, start: nat, d: nat, id: Id, c: int)
    requires ValidConfig(cfg) && Timely(t0, calls) && from < |calls| && Cadence(start, calls, from, d)
    requires LastCall(t0, calls[..from]) <= start && After(cfg, t0, calls[..|calls| - 1]).terminal.None?
    requires SeesStanding(calls[|calls| - 1], id, c)
    requires var earlier := calls[..|calls| - 1];
             Standing(cfg, t0, After(cfg, t0, earlier).entries, id, c, start, d, LastCall(t0, earlier))
    ensures Standing(cfg, t0, After(cfg, t0, calls).entries, id, c, start, d, LastCall(t0, calls))
  {
    var (earlier, call) := (calls[..|calls| - 1], calls[|calls| - 1]);
    EntriesOfLast(cfg, t0, calls);
    assert CallInTime(start, calls, from, |calls| - 1, d);
    if |calls| - 1 == from {
      assert earlier == calls[..from];
      KeepsStanding(cfg, t0, After(cfg, t0, earlier).entries, call, id, c, start, d, start);
    } else {
      assert LastCall(t0, earlier) == calls[|calls| - 2].now;
      KeepsStanding(cfg, t0, After(cfg, t0, earlier).entries, call, id, c, start, d, LastCall(t0, earlier));
    }
  }

  /** When a producer that is blocked from `start` on has certainly given up on a consumer that stands still. */
  function BlockedLimit(cfg: Config, d: nat, start: nat): nat {
    DetectionLimit(cfg, d, start + cfg.progressCheckInterval + d)
  }

  /** Whatever happened before, checks that see a required consumer stand still behind the producer do not
      go on past that limit without an error. */
  lemma StandingIsDetected(cfg: Config, t0: nat, calls: seq<Call>, from: nat, start: nat, d: nat, id: Id, c: int)
    requires ValidConfig(cfg) && Timely(t0, calls) && from <= |calls| && Cadence(start, calls, from, d) && id in cfg.ids
    requires LastCall(t0, calls[..from]) <= start && After(cfg, t0, calls).terminal.None?
    requires forall i :: from <= i < |calls| ==> SeesStanding(calls[i], id, c)
    ensures LastCall(t0, calls) < BlockedLimit(cfg, d, start)
  {
    StandsStill(cfg, t0, calls, from, start, d, id, c);
    StillInTime(cfg, t0, calls, from, start, d, id, start + cfg.progressCheckInterval + d);
  }
}
