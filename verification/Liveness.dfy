/** The producer's liveness state for its required consumers. */
module Liveness {
  import opened Wrappers
  import opened LivenessModel

  class RequiredConsumerLivenessState {
    const config: Config
    var consumers: map<Id, Progress>
    var startupCompleted: bool
    var lastCheckAt: nat
    var terminalError: Option<LivenessError>
    ghost var alerts: seq<Alert>    // every call of the alert hook so far
    ghost var entries: seq<Entry>   // every effective check and seeding so far
    ghost var alertAt: seq<nat>

    ghost function Model(): Model
      reads this
    {
      LivenessModel.Model(consumers, lastCheckAt, terminalError, alerts, entries, alertAt)
    }

    ghost predicate Valid()
      reads this
    {
      Tracks(config, Model())
    }

    constructor (config: Config, now: nat)
      ensures Valid() && this.config == config && Model() == New(config, now) && !startupCompleted
    {
      this.config := config;
      consumers := map id | id in config.ids :: Restarted(now, -1);
      startupCompleted, lastCheckAt, terminalError := false, now, None;
      alerts, entries, alertAt := [], [], [];
    }

    method MarkStartupCompleted(now: nat)
      requires Valid()
      modifies `startupCompleted, `lastCheckAt
      ensures Valid() && startupCompleted && Model() == old(Model()).(lastCheckAt := now)
    {
      startupCompleted, lastCheckAt := true, now;
    }

    predicate ShouldCheck(now: nat)
      reads this
    {
      Since(now, lastCheckAt) >= config.progressCheckInterval
    }

    /** The records of all required consumers start over. */
    method SeedProgress(now: nat, observed: map<Id, int>)
      requires Valid()
      modifies `consumers, `entries
      ensures Valid() && Model() == Seeded(old(Model()), now, observed)
    {
      var k := 0;
      while k < |config.ids|
        invariant k <= |config.ids| && entries == old(entries) && consumers.Keys == old(consumers).Keys
        invariant forall id :: id in consumers ==>
                    consumers[id] == (if id in config.ids[..k]
                                      then Restarted(now, if id in observed then observed[id] else -1)
                                      else old(consumers)[id])
      {
        var id := config.ids[k];
        var sequence := if id in observed then observed[id] else -1;
        consumers := consumers[id := Progress(sequence, now, None, false)];
        assert config.ids[..k + 1] == config.ids[..k] + [id];
        k := k + 1;
      }
      assert config.ids[..k] == config.ids;
      if terminalError.None? {
        entries := entries + [LivenessModel.Seed(now, observed)];
      }
    }

    /** One consumer's part of a check; true when the topology has to shut down. */
    method CheckConsumer(id: Id, now: nat, producerSequence: int, observed: map<Id, int>) returns (failed: bool)
      requires Valid() && id in config.ids && entries != [] && terminalError.None?
      modifies `consumers, `alerts, `alertAt, `terminalError
      ensures Valid() && Model() == ScanOne(config, old(Model()), id, now, producerSequence, observed)
      ensures failed <==> terminalError.Some?
    {
      var progress := consumers[id];
      if id in observed {
        if observed[id] > progress.lastObserved {
          consumers := consumers[id := Progress(observed[id], now, None, false)];
          return false;
        }
        if observed[id] >= producerSequence {
          consumers := consumers[id := Progress(progress.lastObserved, now, None, false)];
          return false;
        }
      }
      var stalledFor := Since(now, progress.lastProgressAt);
      if stalledFor < config.progressTimeout {
        assert consumers == consumers[id := progress];
        return false;
      }
      failed := RecordStall(id, now, producerSequence, observed);
    }

    /** The consumer is behind and has not moved for the whole timeout. */
    method RecordStall(id: Id, now: nat, ghost producerSequence: int, ghost observed: map<Id, int>)
      returns (failed: bool)
      requires Valid() && id in config.ids && entries != [] && terminalError.None?
      requires id in observed ==> observed[id] <= consumers[id].lastObserved && observed[id] < producerSequence
      requires Since(now, consumers[id].lastProgressAt) >= config.progressTimeout
      modifies `consumers, `alerts, `alertAt, `terminalError
      ensures Valid() && Model() == ScanOne(config, old(Model()), id, now, producerSequence, observed)
      ensures failed <==> terminalError.Some?
    {
      var progress := consumers[id];
      var stalledFor := Since(now, progress.lastProgressAt);
      var stallStartedAt := if progress.stallStartedAt.Some? then progress.stallStartedAt.value else now;
      progress := progress.(stallStartedAt := Some(stallStartedAt));
      if !progress.alertEmitted {
        alerts := alerts + [Alert(id, progress.lastObserved, stalledFor)];
        alertAt := alertAt + [|entries| - 1];
        progress := progress.(alertEmitted := true);
      }
      consumers := consumers[id := progress];
      failed := Since(now, stallStartedAt) >= config.shutdownGracePeriod;
      if failed {
        terminalError := Some(GracefulShutdownTriggered(id, progress.lastObserved, stalledFor));
      }
    }

    /** A check made while the producer is blocked: the error that ends the run, if there is one. */
    method EvaluateBlocked(now: nat, producerSequence: int, observed: map<Id, int>)
      returns (error: Option<LivenessError>)
      requires Valid()
      modifies this
      ensures Valid() && startupCompleted == old(startupCompleted) && error == terminalError
      ensures Model() == Evaluate(config, old(Model()), now, producerSequence, observed)
    {
      if terminalError.Some? {
        return terminalError;
      }
      if !ShouldCheck(now) {
        return None;
      }
      lastCheckAt := now;
      entries := entries + [Check(now, producerSequence, observed)];
      ghost var start := Model();
      var k := 0;
      while k < |config.ids|
        invariant k <= |config.ids| && Valid() && terminalError.None? && entries == start.entries
        invariant startupCompleted == old(startupCompleted) && lastCheckAt == now
        invariant Scan(config, start, 0, now, producerSequence, observed)
                  == Scan(config, Model(), k, now, producerSequence, observed)
      {
        var failed := CheckConsumer(config.ids[k], now, producerSequence, observed);
        if failed {
          return terminalError;
        }
        k := k + 1;
      }
      error := None;
    }
  }
}
