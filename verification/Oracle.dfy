/** The message oracle: it knows what was published and judges what a consumer reports. */
module Oracle {
  import opened Wrappers

  type U64 = x: int | 0 <= x < 0x1_0000_0000_0000_0000

  datatype OracleMessage = OracleMessage(sequence: nat, payloadHash: U64, payloadLen: nat, timestampNs: nat)

  datatype OracleViolation =
    | SequenceGap(consumer: nat, expected: nat, got: nat)
    | SequenceReorder(consumer: nat, prev: nat, got: nat)
    | PayloadMismatch(consumer: nat, sequence: nat, expectedHash: U64, gotHash: U64)
    | PayloadSizeMismatch(consumer: nat, sequence: nat, expectedLen: nat, gotLen: nat)
    | MissingMessages(consumer: nat, expected: nat, consumed: nat)
    | ExtraMessages(consumer: nat, expected: nat, consumed: nat)

  // ---- What a correct report is ----

  /** Sequence, hash and length agree; the timestamp is not compared. */
  predicate Agree(a: OracleMessage, b: OracleMessage) {
    a.sequence == b.sequence && a.payloadHash == b.payloadHash && a.payloadLen == b.payloadLen
  }

  predicate Matches(expected: seq<OracleMessage>, actual: seq<OracleMessage>) {
    |expected| == |actual| && forall i :: 0 <= i < |actual| ==> Agree(expected[i], actual[i])
  }

  predicate Increasing(messages: seq<OracleMessage>) {
    forall i, j :: 0 <= i < j < |messages| ==> messages[i].sequence < messages[j].sequence
  }

  // ---- The violations a check finds ----

  function Reorder(consumer: nat, actual: seq<OracleMessage>, i: nat): seq<OracleViolation>
    requires i < |actual|
  {
    if i > 0 && actual[i].sequence <= actual[i - 1].sequence
    then [SequenceReorder(consumer, actual[i - 1].sequence, actual[i].sequence)]
    else []
  }

  function Content(consumer: nat, e: OracleMessage, a: OracleMessage): seq<OracleViolation> {
    if a.sequence != e.sequence then [SequenceGap(consumer, e.sequence, a.sequence)]
    else
      (if a.payloadHash != e.payloadHash
       then [PayloadMismatch(consumer, a.sequence, e.payloadHash, a.payloadHash)] else [])
      + (if a.payloadLen != e.payloadLen
         then [PayloadSizeMismatch(consumer, a.sequence, e.payloadLen, a.payloadLen)] else [])
  }

  function ViolationsFrom(consumer: nat, expected: seq<OracleMessage>, actual: seq<OracleMessage>,
                          i: nat): seq<OracleViolation>
    requires i <= |actual|
    decreases |actual| - i
  {
    if i == |actual| then []
    else if i >= |expected| then Reorder(consumer, actual, i) + [ExtraMessages(consumer, |expected|, |actual|)]
    else Reorder(consumer, actual, i) + Content(consumer, expected[i], actual[i])
         + ViolationsFrom(consumer, expected, actual, i + 1)
  }

  function Violations(consumer: nat, expected: seq<OracleMessage>, actual: seq<OracleMessage>): seq<OracleViolation> {
    ViolationsFrom(consumer, expected, actual, 0)
    + (if |actual| < |expected| then [MissingMessages(consumer, |expected|, |actual|)] else [])
  }

  predicate StepsUp(messages: seq<OracleMessage>, i: nat)
    requires i < |messages|
  {
    i > 0 ==> messages[i - 1].sequence < messages[i].sequence
  }

  /** Nothing is found from `i` on exactly when everything from there agrees and steps up. */
  lemma {:induction false} CleanFrom(consumer: nat, expected: seq<OracleMessage>, actual: seq<OracleMessage>, i: nat)
    requires i <= |actual|
    ensures ViolationsFrom(consumer, expected, actual, i) == [] <==>
              (i == |actual| || |actual| <= |expected|)
              && forall j :: i <= j < |actual| && j < |expected| ==> Agree(expected[j], actual[j]) && StepsUp(actual, j)
    decreases |actual| - i
  {
    if i < |actual| && i < |expected| {
      CleanFrom(consumer, expected, actual, i + 1);
      var here := Reorder(consumer, actual, i) + Content(consumer, expected[i], actual[i]);
      assert here == [] <==> Agree(expected[i], actual[i]) && StepsUp(actual, i);
      assert ViolationsFrom(consumer, expected, actual, i) == here + ViolationsFrom(consumer, expected, actual, i + 1);
    }
  }

  lemma {:induction false} StepsToIncreasing(messages: seq<OracleMessage>, n: nat)
    requires n <= |messages| && forall j :: 0 <= j < n ==> StepsUp(messages, j)
    ensures Increasing(messages[..n])
    decreases n
  {
    if n > 0 {
      StepsToIncreasing(messages, n - 1);
      var front := messages[..n - 1];
      forall i, j | 0 <= i < j < n ensures messages[i].sequence < messages[j].sequence {
        assert StepsUp(messages, j);
        if j < n - 1 {
          assert front[i].sequence < front[j].sequence;
        } else if i < j - 1 {
          assert front[i].sequence < front[j - 1].sequence;
        }
      }
    }
  }

  /** The check passes exactly the reports that agree message by message and strictly increase. */
  lemma OracleExact(consumer: nat, expected: seq<OracleMessage>, actual: seq<OracleMessage>)
    ensures Violations(consumer, expected, actual) == [] <==> Matches(expected, actual) && Increasing(actual)
  {
    CleanFrom(consumer, expected, actual, 0);
    if Violations(consumer, expected, actual) == [] {
      StepsToIncreasing(actual, |actual|);
      assert actual[..|actual|] == actual;
    }
    if Matches(expected, actual) && Increasing(actual) {
      assert forall j :: 0 <= j < |actual| ==> StepsUp(actual, j);
    }
  }

  /** The fact a violation reports, about the message at `i`. */
  predicate TrueAt(v: OracleViolation, consumer: nat, expected: seq<OracleMessage>, actual: seq<OracleMessage>,
                   i: nat) {
    i < |actual| && v.consumer == consumer
    && match v
       case SequenceGap(_, e, g) => i < |expected| && e == expected[i].sequence && g == actual[i].sequence && e != g
       case SequenceReorder(_, p, g) => i > 0 && p == actual[i - 1].sequence && g == actual[i].sequence && g <= p
       case PayloadMismatch(_, s, e, g) =>
         i < |expected| && s == actual[i].sequence == expected[i].sequence
         && e == expected[i].payloadHash && g == actual[i].payloadHash && e != g
       case PayloadSizeMismatch(_, s, e, g) =>
         i < |expected| && s == actual[i].sequence == expected[i].sequence
         && e == expected[i].payloadLen && g == actual[i].payloadLen && e != g
       case ExtraMessages(_, e, g) => i == |expected| == e && g == |actual| > e
       case MissingMessages(_, _, _) => false
  }

  lemma {:induction false} FoundAreTrue(consumer: nat, expected: seq<OracleMessage>, actual: seq<OracleMessage>, i: nat)
    requires i <= |actual| && i <= |expected|
    ensures forall v :: v in ViolationsFrom(consumer, expected, actual, i) ==>
              exists j: nat :: i <= j && TrueAt(v, consumer, expected, actual, j)
    decreases |actual| - i
  {
    if i < |actual| && i < |expected| {
      FoundAreTrue(consumer, expected, actual, i + 1);
    }
    forall v | v in ViolationsFrom(consumer, expected, actual, i)
      ensures exists j: nat :: i <= j && TrueAt(v, consumer, expected, actual, j)
    {
      var rest := if i < |expected| then ViolationsFrom(consumer, expected, actual, i + 1) else [];
      if v !in rest {
        assert v in Reorder(consumer, actual, i) || i == |expected| || v in Content(consumer, expected[i], actual[i]);
        assert TrueAt(v, consumer, expected, actual, i);
      }
    }
  }

  /** Every violation in the list tells a true fact about some message, or about the lengths. */
  lemma ViolationsAreTrue(consumer: nat, expected: seq<OracleMessage>, actual: seq<OracleMessage>, v: OracleViolation)
    requires v in Violations(consumer, expected, actual)
    ensures (v == MissingMessages(consumer, |expected|, |actual|) && |actual| < |expected|)
            || exists j: nat :: TrueAt(v, consumer, expected, actual, j)
  {
    FoundAreTrue(consumer, expected, actual, 0);
  }

  /** Some message from `i` on, up to the first extra one, shows the violation. */
  ghost predicate ShownFrom(consumer: nat, expected: seq<OracleMessage>, actual: seq<OracleMessage>, i: nat,
                            v: OracleViolation) {
    exists j: nat :: i <= j <= |expected| && TrueAt(v, consumer, expected, actual, j)
  }

  /** And every true fact up to the first extra message is in the list: it holds exactly these. */
  lemma ViolationsAreAll(consumer: nat, expected: seq<OracleMessage>, actual: seq<OracleMessage>, v: OracleViolation)
    ensures v in Violations(consumer, expected, actual) <==>
              || (v == MissingMessages(consumer, |expected|, |actual|) && |actual| < |expected|)
              || ShownFrom(consumer, expected, actual, 0, v)
  {
    FoundUpTo(consumer, expected, actual, 0, v);
  }

  lemma {:induction false} FoundUpTo(consumer: nat, expected: seq<OracleMessage>, actual: seq<OracleMessage>, i: nat,
                                     v: OracleViolation)
    requires i <= |actual| && i <= |expected|
    ensures v in ViolationsFrom(consumer, expected, actual, i) <==> ShownFrom(consumer, expected, actual, i, v)
    decreases |actual| - i
  {
    ShownHereOrLater(consumer, expected, actual, i, v);
    if i < |actual| {
      FoundIsTrue(consumer, expected, actual, i, v);
      FoundHereOrLater(consumer, expected, actual, i, v);
      if i < |expected| {
        FoundUpTo(consumer, expected, actual, i + 1, v);
      }
    }
  }

  lemma ShownHereOrLater(consumer: nat, expected: seq<OracleMessage>, actual: seq<OracleMessage>, i: nat,
                         v: OracleViolation)
    requires i <= |expected|
    ensures ShownFrom(consumer, expected, actual, i, v) <==>
              TrueAt(v, consumer, expected, actual, i) || ShownFrom(consumer, expected, actual, i + 1, v)
    ensures i >= |expected| || i >= |actual| ==> !ShownFrom(consumer, expected, actual, i + 1, v)
  {
  }

  lemma FoundIsTrue(consumer: nat, expected: seq<OracleMessage>, actual: seq<OracleMessage>, i: nat, v: OracleViolation)
    requires i < |actual| && i <= |expected|
    ensures v in Found(consumer, expected, actual, i) <==> TrueAt(v, consumer, expected, actual, i)
  {
  }

  lemma FoundHereOrLater(consumer: nat, expected: seq<OracleMessage>, actual: seq<OracleMessage>, i: nat,
                         v: OracleViolation)
    requires i < |actual| && i <= |expected|
    ensures v in ViolationsFrom(consumer, expected, actual, i) <==>
              || v in Found(consumer, expected, actual, i)
              || (i < |expected| && v in ViolationsFrom(consumer, expected, actual, i + 1))
  {
    OneMore(consumer, expected, actual, i, []);
    var (here, later) := (Found(consumer, expected, actual, i),
                          if i >= |expected| then [] else ViolationsFrom(consumer, expected, actual, i + 1));
    assert [] + ViolationsFrom(consumer, expected, actual, i) == ViolationsFrom(consumer, expected, actual, i);
    assert ViolationsFrom(consumer, expected, actual, i) == here + later;
  }

  /** What a check finds about one message. */
  function Found(consumer: nat, expected: seq<OracleMessage>, actual: seq<OracleMessage>, i: nat): seq<OracleViolation>
    requires i < |actual|
  {
    Reorder(consumer, actual, i)
    + (if i >= |expected| then [ExtraMessages(consumer, |expected|, |actual|)]
       else Content(consumer, expected[i], actual[i]))
  }

  lemma OneMore(consumer: nat, expected: seq<OracleMessage>, actual: seq<OracleMessage>, i: nat,
                before: seq<OracleViolation>)
    requires i < |actual|
    ensures before + Found(consumer, expected, actual, i)
            + (if i >= |expected| then [] else ViolationsFrom(consumer, expected, actual, i + 1))
            == before + ViolationsFrom(consumer, expected, actual, i)
  {
  }

  /** The violations found in the first `n` reports, consumer by consumer. */
  function AllViolations(expected: seq<seq<OracleMessage>>, reports: seq<seq<OracleMessage>>,
                         n: nat): seq<OracleViolation>
    requires n <= |reports| <= |expected|
  {
    if n == 0 then []
    else AllViolations(expected, reports, n - 1) + Violations(n - 1, expected[n - 1], reports[n - 1])
  }

  lemma {:induction false} AllCleanIff(expected: seq<seq<OracleMessage>>, reports: seq<seq<OracleMessage>>, n: nat)
    requires n <= |reports| <= |expected|
    ensures AllViolations(expected, reports, n) == []
            <==> forall c :: 0 <= c < n ==> Matches(expected[c], reports[c]) && Increasing(reports[c])
    decreases n
  {
    if n > 0 {
      AllCleanIff(expected, reports, n - 1);
      OracleExact(n - 1, expected[n - 1], reports[n - 1]);
    }
  }

  class MessageOracle {
    var published: seq<OracleMessage>
    var expectedPerConsumer: seq<seq<OracleMessage>>

    /** Every consumer of a broadcast is expected to see everything. */
    ghost predicate Valid()
      reads this
    {
      forall c :: 0 <= c < |expectedPerConsumer| ==> expectedPerConsumer[c] == published
    }

    constructor (consumers: nat)
      ensures Valid() && published == [] && |expectedPerConsumer| == consumers
    {
      published := [];
      expectedPerConsumer := seq(consumers, _ => []);
    }

    method RecordPublish(msg: OracleMessage)
      requires Valid()
      modifies this
      ensures Valid() && published == old(published) + [msg]
      ensures |expectedPerConsumer| == |old(expectedPerConsumer)|
    {
      published := published + [msg];
      var c := 0;
      while c < |expectedPerConsumer|
        invariant c <= |expectedPerConsumer| == |old(expectedPerConsumer)| && published == old(published) + [msg]
        invariant forall d :: 0 <= d < |expectedPerConsumer| ==>
                    expectedPerConsumer[d] == if d < c then published else old(published)
      {
        expectedPerConsumer := expectedPerConsumer[c := expectedPerConsumer[c] + [msg]];
        c := c + 1;
      }
    }

    method ExtendPublished(messages: seq<OracleMessage>)
      requires Valid()
      modifies this
      ensures Valid() && published == old(published) + messages
      ensures |expectedPerConsumer| == |old(expectedPerConsumer)|
    {
      for i := 0 to |messages|
        invariant Valid() && published == old(published) + messages[..i]
        invariant |expectedPerConsumer| == |old(expectedPerConsumer)|
      {
        RecordPublish(messages[i]);
      }
    }

    /** One message: against the one before it, and against the one expected in its place. */
    method CheckMessage(consumer: nat, expected: seq<OracleMessage>, actual: seq<OracleMessage>, index: nat,
                        previous: Option<nat>) returns (found: seq<OracleViolation>)
      requires index < |actual| && previous == if index == 0 then None else Some(actual[index - 1].sequence)
      ensures found == Found(consumer, expected, actual, index)
    {
      var message := actual[index];
      found := [];
      if previous.Some? && message.sequence <= previous.value {
        found := found + [SequenceReorder(consumer, previous.value, message.sequence)];
      }
      if index >= |expected| {
        return found + [ExtraMessages(consumer, |expected|, |actual|)];
      }
      var wanted := expected[index];
      if message.sequence != wanted.sequence {
        return found + [SequenceGap(consumer, wanted.sequence, message.sequence)];
      }
      if message.payloadHash != wanted.payloadHash {
        found := found + [PayloadMismatch(consumer, message.sequence, wanted.payloadHash, message.payloadHash)];
      }
      if message.payloadLen != wanted.payloadLen {
        found := found + [PayloadSizeMismatch(consumer, message.sequence, wanted.payloadLen, message.payloadLen)];
      }
    }

    method AddFound(consumer: nat, expected: seq<OracleMessage>, actual: seq<OracleMessage>, index: nat,
                    previous: Option<nat>, before: seq<OracleViolation>) returns (violations: seq<OracleViolation>)
      requires index < |actual| && previous == if index == 0 then None else Some(actual[index - 1].sequence)
      ensures violations + (if index >= |expected| then [] else ViolationsFrom(consumer, expected, actual, index + 1))
              == before + ViolationsFrom(consumer, expected, actual, index)
    {
      var found := CheckMessage(consumer, expected, actual, index, previous);
      violations := before + found;
      OneMore(consumer, expected, actual, index, before);
    }

    /** Walks through the report, collecting what it finds. */
    method CollectViolations(consumer: nat, expected: seq<OracleMessage>, actual: seq<OracleMessage>)
      returns (violations: seq<OracleViolation>)
      ensures violations == Violations(consumer, expected, actual)
    {
      violations := [];
      var previous: Option<nat> := None;
      ghost var all := ViolationsFrom(consumer, expected, actual, 0);
      var index := 0;
      while index < |actual|
        invariant index <= |actual| && previous == if index == 0 then None else Some(actual[index - 1].sequence)
        invariant violations + ViolationsFrom(consumer, expected, actual, index) == all
      {
        violations := AddFound(consumer, expected, actual, index, previous, violations);
        previous := Some(actual[index].sequence);
        if index >= |expected| {
          break;
        }
        index := index + 1;
      }
      if |actual| < |expected| {
        violations := violations + [MissingMessages(consumer, |expected|, |actual|)];
      }
    }

    method VerifyConsumerMessages(consumer: nat, actual: seq<OracleMessage>)
      returns (r: Result<(), seq<OracleViolation>>)
      requires consumer < |expectedPerConsumer|
      ensures r.Ok? <==> Matches(expectedPerConsumer[consumer], actual) && Increasing(actual)
      ensures r.Err? ==> r.error == Violations(consumer, expectedPerConsumer[consumer], actual) != []
      ensures r.Ok? ==> Violations(consumer, expectedPerConsumer[consumer], actual) == []
    {
      var violations := CollectViolations(consumer, expectedPerConsumer[consumer], actual);
      OracleExact(consumer, expectedPerConsumer[consumer], actual);
      r := if violations == [] then Ok(()) else Err(violations);
    }

    /** Judges one report per consumer. It passes exactly when all the given reports are correct, and
        otherwise returns all their violations in order; a consumer without a report is not judged. */
    method VerifyComplete(reports: seq<seq<OracleMessage>>) returns (r: Result<(), seq<OracleViolation>>)
      requires |reports| <= |expectedPerConsumer|
      ensures r.Ok? <==> forall c :: 0 <= c < |reports| ==>
                           Matches(expectedPerConsumer[c], reports[c]) && Increasing(reports[c])
      ensures r.Err? ==> r.error == AllViolations(expectedPerConsumer, reports, |reports|) != []
    {
      var violations: seq<OracleViolation> := [];
      for c := 0 to |reports|
        invariant violations == AllViolations(expectedPerConsumer, reports, c)
      {
        var verdict := VerifyConsumerMessages(c, reports[c]);
        if verdict.Err? {
          violations := violations + verdict.error;
        }
      }
      AllCleanIff(expectedPerConsumer, reports, |reports|);
      r := if violations == [] then Ok(()) else Err(violations);
    }
  }
}
