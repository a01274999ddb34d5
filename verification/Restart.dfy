/** Rebuilding reports after a kill and restart: what a report lost at the end is recovered from the
    other processes' reports. */
module Restart {
  import opened Wrappers
  import opened Oracle
  import Bits

  datatype Role = ProducerRole | ConsumerRole(index: nat)

  datatype ChildReport = ChildReport(
    role: Role,
    messages: seq<OracleMessage>,
    checksumTotal: U64,
    backpressureEvents: U64,
    attachedAfterMs: U64)

  function WrappingAdd(a: U64, b: U64): U64 {
    (a + b) % 0x1_0000_0000_0000_0000
  }

  function ChecksumTotal(messages: seq<OracleMessage>): U64
    decreases |messages|
  {
    if messages == [] then 0
    else WrappingAdd(ChecksumTotal(messages[..|messages| - 1]), messages[|messages| - 1].payloadHash)
  }

  /** One past the last sequence reported. */
  function Next(messages: seq<OracleMessage>): Option<nat> {
    if messages == [] then None else Some(messages[|messages| - 1].sequence + 1)
  }

  function OrZero(n: Option<nat>): nat {
    if n.Some? then n.value else 0
  }

  function ReportNextSequence(report: ChildReport): Option<nat> {
    Next(report.messages)
  }

  /** The messages of sequences `lo` and up, below `hi` if there is such a bound, in order. */
  function Within(messages: seq<OracleMessage>, lo: nat, hi: Option<nat>): seq<OracleMessage>
    decreases |messages|
  {
    if messages == [] then []
    else
      var (front, last) := (messages[..|messages| - 1], messages[|messages| - 1]);
      Within(front, lo, hi) + (if lo <= last.sequence && (hi.None? || last.sequence < hi.value) then [last] else [])
  }

  function MessagesOf(report: Option<ChildReport>): seq<OracleMessage> {
    if report.Some? then report.value.messages else []
  }

  /** The prefix, then what the suffix adds behind it. */
  function Appended(prefix: seq<OracleMessage>, suffix: seq<OracleMessage>): seq<OracleMessage> {
    prefix + Within(suffix, OrZero(Next(prefix)), None)
  }

  function Merged(producer: seq<OracleMessage>, prefix: seq<OracleMessage>,
                  suffix: seq<OracleMessage>): seq<OracleMessage> {
    var firstSuffix := if suffix == [] then |producer| else suffix[0].sequence;
    var gapStart := OrZero(Next(prefix));
    Appended(prefix + (if gapStart < firstSuffix then Within(producer, gapStart, Some(firstSuffix)) else []), suffix)
  }

  function Min(a: U64, b: U64): U64 {
    if a <= b then a else b
  }

  function Empty(suffix: ChildReport): ChildReport {
    ChildReport(suffix.role, [], 0, 0, suffix.attachedAfterMs)
  }

  function SumOfHashes(messages: seq<OracleMessage>): nat
    decreases |messages|
  {
    if messages == [] then 0 else messages[0].payloadHash + SumOfHashes(messages[1..])
  }

  lemma {:induction false} SumOfFront(messages: seq<OracleMessage>)
    requires messages != []
    ensures SumOfHashes(messages)
            == SumOfHashes(messages[..|messages| - 1]) + messages[|messages| - 1].payloadHash
    decreases |messages|
  {
    if |messages| > 1 {
      SumOfFront(messages[1..]);
      assert messages[1..][..|messages| - 2] == messages[..|messages| - 1][1..];
    }
  }

  lemma AddsUp(a: U64, b: U64, sum: nat)
    requires a == sum % 0x1_0000_0000_0000_0000
    ensures WrappingAdd(a, b) == (sum + b) % 0x1_0000_0000_0000_0000
  {
    var m := 0x1_0000_0000_0000_0000;
    var (q, carry) := (sum / m, if a + b < m then 0 else 1);
    Bits.ModUnique(a + b, m, carry, a + b - carry * m);
    Bits.ModUnique(sum + b, m, q + carry, a + b - carry * m);
  }

  /** The checksum total is the sum of all payload hashes, modulo two to the power 64. */
  lemma {:induction false} TotalIsSum(messages: seq<OracleMessage>)
    ensures ChecksumTotal(messages) == SumOfHashes(messages) % 0x1_0000_0000_0000_0000
    decreases |messages|
  {
    if messages != [] {
      var front := messages[..|messages| - 1];
      TotalIsSum(front);
      SumOfFront(messages);
      AddsUp(ChecksumTotal(front), messages[|messages| - 1].payloadHash, SumOfHashes(front));
    }
  }

  /** Counters wrap around at two to the power 64. */
  lemma AddWraps(a: U64, b: U64)
    ensures WrappingAdd(a, b) == if a + b < 0x1_0000_0000_0000_0000 then a + b else a + b - 0x1_0000_0000_0000_0000
  {
  }

  method MergeChildReports(producer: ChildReport, prefix: Option<ChildReport>, suffix: ChildReport)
    returns (merged: ChildReport)
    ensures merged.messages == Merged(producer.messages, MessagesOf(prefix), suffix.messages)
    ensures merged.checksumTotal == ChecksumTotal(merged.messages)
    ensures merged.role == if prefix.Some? then prefix.value.role else suffix.role
    ensures merged.backpressureEvents ==
              if prefix.Some? then WrappingAdd(prefix.value.backpressureEvents, suffix.backpressureEvents)
              else suffix.backpressureEvents
    ensures merged.attachedAfterMs ==
              if prefix.Some? && prefix.value.attachedAfterMs < suffix.attachedAfterMs then prefix.value.attachedAfterMs
              else suffix.attachedAfterMs
  {
    merged := if prefix.Some? then prefix.value else Empty(suffix);
    var firstSuffixSeq := if suffix.messages == [] then |producer.messages| else suffix.messages[0].sequence;
    var gapStart := OrZero(Next(merged.messages));
    if gapStart < firstSuffixSeq {
      merged := merged.(messages := merged.messages + Within(producer.messages, gapStart, Some(firstSuffixSeq)));
    }
    merged := AbsorbSuffix(merged, suffix);
  }

  /** What both joins end with: the rest of the suffix, and the totals. */
  method AbsorbSuffix(start: ChildReport, suffix: ChildReport) returns (merged: ChildReport)
    ensures merged.messages == Appended(start.messages, suffix.messages)
    ensures merged.checksumTotal == ChecksumTotal(merged.messages) && merged.role == start.role
    ensures merged.backpressureEvents == WrappingAdd(start.backpressureEvents, suffix.backpressureEvents)
    ensures merged.attachedAfterMs == Min(start.attachedAfterMs, suffix.attachedAfterMs)
  {
    merged := start;
    var overlapCutoff := Next(merged.messages);
    merged := merged.(messages := merged.messages + Within(suffix.messages, OrZero(overlapCutoff), None));
    var checksum: U64 := 0;
    for i := 0 to |merged.messages|
      invariant checksum == ChecksumTotal(merged.messages[..i])
    {
      assert merged.messages[..i + 1][..i] == merged.messages[..i];
      checksum := WrappingAdd(checksum, merged.messages[i].payloadHash);
    }
    assert merged.messages[..|merged.messages|] == merged.messages;
    merged := merged.(checksumTotal := checksum,
                      backpressureEvents := WrappingAdd(merged.backpressureEvents, suffix.backpressureEvents),
                      attachedAfterMs := Min(merged.attachedAfterMs, suffix.attachedAfterMs));
  }

  method ConcatChildReports(prefix: Option<ChildReport>, suffix: ChildReport) returns (merged: ChildReport)
    ensures merged.messages == Appended(MessagesOf(prefix), suffix.messages)
    ensures merged.checksumTotal == ChecksumTotal(merged.messages)
    ensures merged.role == if prefix.Some? then prefix.value.role else suffix.role
    ensures merged.backpressureEvents ==
              if prefix.Some? then WrappingAdd(prefix.value.backpressureEvents, suffix.backpressureEvents)
              else suffix.backpressureEvents
    ensures merged.attachedAfterMs ==
              if prefix.Some? && prefix.value.attachedAfterMs < suffix.attachedAfterMs then prefix.value.attachedAfterMs
              else suffix.attachedAfterMs
  {
    merged := AbsorbSuffix(if prefix.Some? then prefix.value else Empty(suffix), suffix);
  }

  // ---- Backfilling from the consumers ----

  function MaxNext(partials: seq<Option<ChildReport>>): nat
    decreases |partials|
  {
    if partials == [] then 0
    else
      var (before, here) := (MaxNext(partials[..|partials| - 1]), OrZero(Next(MessagesOf(partials[|partials| - 1]))));
      if here > before then here else before
  }

  function RestartSequenceStart(producer: Option<ChildReport>, partials: seq<Option<ChildReport>>): nat {
    var producerNext := OrZero(Next(MessagesOf(producer)));
    if producerNext >= MaxNext(partials) then producerNext else MaxNext(partials)
  }

  function Collected(partials: seq<Option<ChildReport>>): seq<OracleMessage>
    decreases |partials|
  {
    if partials == [] then [] else Collected(partials[..|partials| - 1]) + MessagesOf(partials[|partials| - 1])
  }

  /** Stable insertion: behind everything with the same or a smaller key. */
  function InsertByKey(sorted: seq<OracleMessage>, m: OracleMessage): seq<OracleMessage>
    decreases |sorted|
  {
    if sorted == [] || sorted[|sorted| - 1].sequence <= m.sequence then sorted + [m]
    else InsertByKey(sorted[..|sorted| - 1], m) + [sorted[|sorted| - 1]]
  }

  function SortByKey(messages: seq<OracleMessage>): seq<OracleMessage>
    decreases |messages|
  {
    if messages == [] then [] else InsertByKey(SortByKey(messages[..|messages| - 1]), messages[|messages| - 1])
  }

  /** Of consecutive messages with one key, the first stays. */
  function DedupByKey(messages: seq<OracleMessage>): seq<OracleMessage>
    decreases |messages|
  {
    if messages == [] then []
    else
      var (front, last) := (DedupByKey(messages[..|messages| - 1]), messages[|messages| - 1]);
      if front != [] && front[|front| - 1].sequence == last.sequence then front else front + [last]
  }

  function Recovered(partials: seq<Option<ChildReport>>, lo: nat, hi: nat): seq<OracleMessage> {
    DedupByKey(SortByKey(Within(Collected(partials), lo, Some(hi))))
  }

  function Backfilled(producer: seq<OracleMessage>, partials: seq<Option<ChildReport>>,
                      published: nat): seq<OracleMessage> {
    var nextMissing := OrZero(Next(producer));
    if nextMissing >= published then producer else producer + Recovered(partials, nextMissing, published)
  }

  method BackfillReportFromConsumers(producer: ChildReport, partials: seq<Option<ChildReport>>, published: nat)
    returns (filled: ChildReport)
    ensures filled == producer.(messages := filled.messages, checksumTotal := filled.checksumTotal)
    ensures filled.messages == Backfilled(producer.messages, partials, published)
    ensures filled == producer || published > OrZero(Next(producer.messages))
    ensures published > OrZero(Next(producer.messages)) ==> filled.checksumTotal == ChecksumTotal(filled.messages)
  {
    filled := producer;
    var nextMissing := OrZero(ReportNextSequence(filled));
    if nextMissing >= published {
      return;
    }
    var recovered := [];
    for i := 0 to |partials|
      invariant recovered == Within(Collected(partials[..i]), nextMissing, Some(published))
    {
      assert partials[..i + 1][..i] == partials[..i];
      WithinAppend(Collected(partials[..i]), MessagesOf(partials[i]), nextMissing, Some(published));
      recovered := recovered + Within(MessagesOf(partials[i]), nextMissing, Some(published));
    }
    assert partials[..|partials|] == partials;
    recovered := SortByKey(recovered);
    recovered := DedupByKey(recovered);
    filled := filled.(messages := filled.messages + recovered);
    filled := filled.(checksumTotal := ChecksumTotal(filled.messages));
  }

  lemma {:induction false} WithinAppend(a: seq<OracleMessage>, b: seq<OracleMessage>, lo: nat, hi: Option<nat>)
    ensures Within(a + b, lo, hi) == Within(a, lo, hi) + Within(b, lo, hi)
    decreases |b|
  {
    if b == [] {
      assert a + b == a;
    } else {
      assert (a + b)[..|a + b| - 1] == a + b[..|b| - 1];
      WithinAppend(a, b[..|b| - 1], lo, hi);
    }
  }

  // ---- The true stream ----

  predicate Numbered(stream: seq<OracleMessage>) {
    forall i :: 0 <= i < |stream| ==> stream[i].sequence == i
  }

  /** The messages report exactly `stream[a..b]`, up to their timestamps. */
  predicate Reports(messages: seq<OracleMessage>, stream: seq<OracleMessage>, a: nat, b: nat) {
    a <= b <= |stream| && Matches(stream[a..b], messages)
  }

  lemma ReportAt(messages: seq<OracleMessage>, stream: seq<OracleMessage>, a: nat, b: nat, i: nat)
    requires Reports(messages, stream, a, b) && i < |messages|
    ensures |messages| == b - a && Agree(stream[a + i], messages[i])
  {
    assert Agree(stream[a..b][i], messages[i]);
  }

  lemma ReportFront(messages: seq<OracleMessage>, stream: seq<OracleMessage>, a: nat, b: nat)
    requires Reports(messages, stream, a, b) && messages != []
    ensures b > a && Reports(messages[..|messages| - 1], stream, a, b - 1)
    ensures Agree(stream[b - 1], messages[|messages| - 1])
  {
    ReportAt(messages, stream, a, b, |messages| - 1);
    var front := messages[..|messages| - 1];
    forall i | 0 <= i < |front| ensures Agree(stream[a..b - 1][i], front[i]) {
      ReportAt(messages, stream, a, b, i);
    }
  }

  lemma ReportNext(messages: seq<OracleMessage>, stream: seq<OracleMessage>, b: nat)
    requires Numbered(stream) && Reports(messages, stream, 0, b)
    ensures OrZero(Next(messages)) == b
  {
    if messages != [] {
      ReportAt(messages, stream, 0, b, |messages| - 1);
    }
  }

  lemma ReportsJoin(x: seq<OracleMessage>, y: seq<OracleMessage>, stream: seq<OracleMessage>, a: nat, b: nat, c: nat)
    requires Reports(x, stream, a, b) && Reports(y, stream, b, c)
    ensures Reports(x + y, stream, a, c)
  {
    assert stream[a..c] == stream[a..b] + stream[b..c];
  }

  /** Selecting by sequence from a stretch of the stream gives a stretch again. */
  lemma {:induction false} WithinStretch(messages: seq<OracleMessage>, stream: seq<OracleMessage>, a: nat, b: nat,
                                         lo: nat, hi: Option<nat>)
    requires Numbered(stream) && Reports(messages, stream, a, b) && a <= lo && (hi.None? || lo <= hi.value)
    ensures var top := if hi.Some? && hi.value < b then hi.value else b;
            if lo <= top then Reports(Within(messages, lo, hi), stream, lo, top) else Within(messages, lo, hi) == []
    decreases |messages|
  {
    if messages != [] {
      var front, last := messages[..|messages| - 1], messages[|messages| - 1];
      ReportFront(messages, stream, a, b);
      WithinStretch(front, stream, a, b - 1, lo, hi);
      if lo <= b - 1 && (hi.None? || b - 1 < hi.value) {
        assert stream[b - 1..b] == [stream[b - 1]];
        ReportsJoin(Within(front, lo, hi), [last], stream, lo, b - 1, b);
      }
    }
  }

  /** Appending a later stretch: it continues the prefix unless there is a gap between them. */
  lemma AppendedStretch(prefix: seq<OracleMessage>, suffix: seq<OracleMessage>, stream: seq<OracleMessage>, a: nat,
                        b: nat, c: nat)
    requires Numbered(stream) && Reports(prefix, stream, 0, a) && Reports(suffix, stream, b, c) && (b <= a || b == c)
    ensures Reports(Appended(prefix, suffix), stream, 0, if a >= c || b == c then a else c)
  {
    ReportNext(prefix, stream, a);
    if b <= a {
      WithinStretch(suffix, stream, b, c, a, None);
      if a <= c {
        ReportsJoin(prefix, Within(suffix, a, None), stream, 0, a, c);
      }
    } else {
      assert suffix == [];
    }
    assert prefix + [] == prefix;
  }

  /** Concatenating reports yields a stretch from 0 on exactly when there is no gap between the prefix
      and a nonempty suffix. */
  lemma ConcatContiguousIff(prefix: seq<OracleMessage>, suffix: seq<OracleMessage>, stream: seq<OracleMessage>,
                            a: nat, b: nat, c: nat)
    requires Numbered(stream) && Reports(prefix, stream, 0, a) && Reports(suffix, stream, b, c)
    ensures (exists n :: Reports(Appended(prefix, suffix), stream, 0, n)) <==> b <= a || b == c
  {
    if b <= a || b == c {
      AppendedStretch(prefix, suffix, stream, a, b, c);
    } else {
      ReportNext(prefix, stream, a);
      KeepsAll(suffix, stream, b, c, a);
      ReportAt(suffix, stream, b, c, 0);
      forall n ensures !Reports(Appended(prefix, suffix), stream, 0, n) {
        if Reports(Appended(prefix, suffix), stream, 0, n) {
          ReportAt(Appended(prefix, suffix), stream, 0, n, a);
        }
      }
    }
  }

  lemma {:induction false} KeepsAll(messages: seq<OracleMessage>, stream: seq<OracleMessage>, b: nat, c: nat, lo: nat)
    requires Numbered(stream) && Reports(messages, stream, b, c) && lo <= b
    ensures Within(messages, lo, None) == messages
    decreases |messages|
  {
    if messages != [] {
      var front, last := messages[..|messages| - 1], messages[|messages| - 1];
      ReportFront(messages, stream, b, c);
      KeepsAll(front, stream, b, c - 1, lo);
      assert Within(messages, lo, None) == Within(front, lo, None) + [last];
      assert front + [last] == messages;
    }
  }

  /** Merging any prefix with any suffix, overlapping, adjacent, gapped or empty, rebuilds the stream up
      to where either ends; an empty suffix rebuilds all of it. */
  lemma MergeRebuilds(producer: seq<OracleMessage>, prefix: seq<OracleMessage>, suffix: seq<OracleMessage>,
                      stream: seq<OracleMessage>, a: nat, b: nat, c: nat)
    requires Numbered(stream) && Reports(producer, stream, 0, |stream|)
    requires Reports(prefix, stream, 0, a) && Reports(suffix, stream, b, c)
    ensures Reports(Merged(producer, prefix, suffix), stream, 0, if b == c then |stream| else if a >= c then a else c)
  {
    ReportNext(prefix, stream, a);
    if suffix != [] {
      ReportAt(suffix, stream, b, c, 0);
    }
    var first := if suffix == [] then |stream| else b;
    if a < first {
      WithinStretch(producer, stream, 0, |stream|, a, Some(first));
      ReportsJoin(prefix, Within(producer, a, Some(first)), stream, 0, a, first);
      AppendedStretch(prefix + Within(producer, a, Some(first)), suffix, stream, first, b, c);
    } else {
      assert prefix + [] == prefix;
      AppendedStretch(prefix, suffix, stream, a, b, c);
    }
  }

  // ---- Sorting and deduplication ----

  predicate Sorted(messages: seq<OracleMessage>) {
    forall i, j :: 0 <= i < j < |messages| ==> messages[i].sequence <= messages[j].sequence
  }

  lemma {:induction false} InsertKeepsAll(sorted: seq<OracleMessage>, m: OracleMessage)
    ensures multiset(InsertByKey(sorted, m)) == multiset(sorted) + multiset{m}
    decreases |sorted|
  {
    if sorted != [] && sorted[|sorted| - 1].sequence > m.sequence {
      InsertKeepsAll(sorted[..|sorted| - 1], m);
      assert sorted == sorted[..|sorted| - 1] + [sorted[|sorted| - 1]];
    }
  }

  lemma {:induction false} InsertSorts(sorted: seq<OracleMessage>, m: OracleMessage)
    requires Sorted(sorted)
    ensures Sorted(InsertByKey(sorted, m))
    ensures forall i :: 0 <= i < |InsertByKey(sorted, m)| ==>
                          InsertByKey(sorted, m)[i] == m || InsertByKey(sorted, m)[i] in sorted
    decreases |sorted|
  {
    if sorted != [] && sorted[|sorted| - 1].sequence > m.sequence {
      var front, last := sorted[..|sorted| - 1], sorted[|sorted| - 1];
      InsertSorts(front, m);
      var inserted := InsertByKey(front, m);
      forall i | 0 <= i < |inserted| ensures inserted[i].sequence <= last.sequence {
        assert inserted[i] == m || inserted[i] in front;
      }
    }
  }

  lemma {:induction false} SortSorts(messages: seq<OracleMessage>)
    ensures Sorted(SortByKey(messages)) && multiset(SortByKey(messages)) == multiset(messages)
    decreases |messages|
  {
    if messages != [] {
      var front, last := messages[..|messages| - 1], messages[|messages| - 1];
      SortSorts(front);
      InsertSorts(SortByKey(front), last);
      InsertKeepsAll(SortByKey(front), last);
      assert messages == front + [last];
    }
  }

  ghost predicate HasKey(messages: seq<OracleMessage>, q: nat) {
    exists i :: 0 <= i < |messages| && messages[i].sequence == q
  }

  lemma {:induction false} DedupIncreases(messages: seq<OracleMessage>)
    requires Sorted(messages)
    ensures Increasing(DedupByKey(messages))
    ensures forall m :: m in DedupByKey(messages) ==> m in messages
    ensures messages != [] ==>
              DedupByKey(messages) != []
              && DedupByKey(messages)[|DedupByKey(messages)| - 1].sequence == messages[|messages| - 1].sequence
    decreases |messages|
  {
    if messages != [] {
      var (front, last) := (messages[..|messages| - 1], messages[|messages| - 1]);
      DedupIncreases(front);
      var kept := DedupByKey(front);
      assert kept != [] ==> kept[|kept| - 1].sequence == front[|front| - 1].sequence <= last.sequence;
    }
  }

  lemma KeyKept(messages: seq<OracleMessage>, more: seq<OracleMessage>, q: nat)
    requires HasKey(messages, q)
    ensures HasKey(messages + more, q)
  {
    var i :| 0 <= i < |messages| && messages[i].sequence == q;
    assert (messages + more)[i] == messages[i];
  }

  lemma {:induction false} DedupKeepsKeys(messages: seq<OracleMessage>, m: OracleMessage)
    requires m in messages
    ensures HasKey(DedupByKey(messages), m.sequence)
    decreases |messages|
  {
    var front, last := messages[..|messages| - 1], messages[|messages| - 1];
    var kept, all := DedupByKey(front), DedupByKey(messages);
    assert all == kept || all == kept + [last];
    if m == last {
      assert all[|all| - 1].sequence == last.sequence;
    } else {
      assert m in front;
      DedupKeepsKeys(front, m);
      if all != kept {
        KeyKept(kept, [last], m.sequence);
      }
    }
  }

  /** Sorting and deduplicating: increasing keys, the same ones, and no message made up. */
  lemma SortedOnce(messages: seq<OracleMessage>)
    ensures var kept := DedupByKey(SortByKey(messages));
            && Increasing(kept)
            && (forall m :: m in kept ==> m in messages)
            && (forall m :: m in messages ==> HasKey(kept, m.sequence))
  {
    var sorted := SortByKey(messages);
    SortSorts(messages);
    DedupIncreases(sorted);
    forall m ensures m in sorted <==> m in messages {
      assert m in sorted <==> m in multiset(sorted);
      assert m in messages <==> m in multiset(messages);
    }
    forall m | m in messages ensures HasKey(DedupByKey(sorted), m.sequence) {
      DedupKeepsKeys(sorted, m);
    }
  }

  /** Strictly increasing keys that fill a range are that range. */
  /** The first message that carries a key. */
  function FirstOfKey(messages: seq<OracleMessage>, q: nat): Option<OracleMessage>
    decreases |messages|
  {
    if messages == [] then None
    else
      var (before, last) := (FirstOfKey(messages[..|messages| - 1], q), messages[|messages| - 1]);
      if before.Some? then before else if last.sequence == q then Some(last) else None
  }

  lemma {:induction false} InsertKeepsFirst(sorted: seq<OracleMessage>, m: OracleMessage, q: nat)
    ensures FirstOfKey(InsertByKey(sorted, m), q) == FirstOfKey(sorted + [m], q)
    decreases |sorted|
  {
    assert (sorted + [m])[..|sorted|] == sorted;
    if sorted != [] && sorted[|sorted| - 1].sequence > m.sequence {
      var front := sorted[..|sorted| - 1];
      assert (front + [m])[..|front|] == front;
      InsertKeepsFirst(front, m, q);
      assert InsertByKey(sorted, m)[..|InsertByKey(sorted, m)| - 1] == InsertByKey(front, m);
    }
  }

  lemma {:induction false} SortKeepsFirst(messages: seq<OracleMessage>, q: nat)
    ensures FirstOfKey(SortByKey(messages), q) == FirstOfKey(messages, q)
    decreases |messages|
  {
    if messages != [] {
      var (front, last) := (messages[..|messages| - 1], messages[|messages| - 1]);
      SortKeepsFirst(front, q);
      InsertKeepsFirst(SortByKey(front), last, q);
      assert (SortByKey(front) + [last])[..|SortByKey(front)|] == SortByKey(front);
    }
  }

  lemma {:induction false} DedupKeepsFirst(messages: seq<OracleMessage>, q: nat)
    requires Sorted(messages)
    ensures FirstOfKey(DedupByKey(messages), q) == FirstOfKey(messages, q)
    decreases |messages|
  {
    if messages != [] {
      var (front, last) := (messages[..|messages| - 1], messages[|messages| - 1]);
      DedupKeepsFirst(front, q);
      var kept := DedupByKey(front);
      assert (kept + [last])[..|kept|] == kept;
      if kept != [] && kept[|kept| - 1].sequence == last.sequence == q {
        assert FirstOfKey(kept, q).Some?;
      }
    }
  }

  /** Of several messages with one key, the one collected first is the one kept. */
  lemma FirstStays(messages: seq<OracleMessage>, m: OracleMessage)
    requires m in DedupByKey(SortByKey(messages))
    ensures FirstOfKey(messages, m.sequence) == Some(m)
  {
    var sorted := SortByKey(messages);
    SortSorts(messages);
    SortKeepsFirst(messages, m.sequence);
    DedupKeepsFirst(sorted, m.sequence);
    DedupIncreases(sorted);
    OnlyOfKey(DedupByKey(sorted), m);
  }

  lemma {:induction false} OnlyOfKey(messages: seq<OracleMessage>, m: OracleMessage)
    requires Increasing(messages) && m in messages
    ensures FirstOfKey(messages, m.sequence) == Some(m)
    decreases |messages|
  {
    var (front, last) := (messages[..|messages| - 1], messages[|messages| - 1]);
    if m in front {
      OnlyOfKey(front, m);
    } else {
      NoneOfKey(front, m.sequence);
    }
  }

  lemma {:induction false} NoneOfKey(messages: seq<OracleMessage>, q: nat)
    requires forall m :: m in messages ==> m.sequence != q
    ensures FirstOfKey(messages, q).None?
    decreases |messages|
  {
    if messages != [] {
      NoneOfKey(messages[..|messages| - 1], q);
    }
  }

  /** The last message carries the highest key, and those before it the others. */
  lemma FrontKeys(messages: seq<OracleMessage>, lo: nat, hi: nat)
    requires Increasing(messages) && lo < hi
    requires forall m :: m in messages ==> lo <= m.sequence < hi
    requires forall q :: lo <= q < hi ==> HasKey(messages, q)
    ensures messages != [] && messages[|messages| - 1].sequence == hi - 1
    ensures var front := messages[..|messages| - 1];
            && (forall m :: m in front ==> lo <= m.sequence < hi - 1)
            && (forall q :: lo <= q < hi - 1 ==> HasKey(front, q))
  {
    assert HasKey(messages, hi - 1);
    var k :| 0 <= k < |messages| && messages[k].sequence == hi - 1;
    var front, last := messages[..|messages| - 1], messages[|messages| - 1];
    assert last in messages;
    assert k == |messages| - 1;
    forall m | m in front ensures lo <= m.sequence < hi - 1 {
      var i :| 0 <= i < |front| && front[i] == m;
      assert messages[i] == m;
    }
    forall q | lo <= q < hi - 1 ensures HasKey(front, q) {
      assert HasKey(messages, q);
      var i :| 0 <= i < |messages| && messages[i].sequence == q;
      assert front[i] == messages[i];
    }
  }

  lemma {:induction false} KeysFill(messages: seq<OracleMessage>, lo: nat, hi: nat)
    requires Increasing(messages) && lo <= hi
    requires forall m :: m in messages ==> lo <= m.sequence < hi
    requires forall q :: lo <= q < hi ==> HasKey(messages, q)
    ensures |messages| == hi - lo && forall i :: 0 <= i < |messages| ==> messages[i].sequence == lo + i
    decreases hi - lo
  {
    assert messages == [] || messages[0] in messages;
    if lo < hi {
      FrontKeys(messages, lo, hi);
      KeysFill(messages[..|messages| - 1], lo, hi - 1);
    }
  }

  // ---- Backfilling yields the stream ----

  /** Every partial report is a beginning of the stream, `counts[i]` messages long. */
  ghost predicate Beginnings(partials: seq<Option<ChildReport>>, stream: seq<OracleMessage>, counts: seq<nat>) {
    |counts| == |partials| && forall i :: 0 <= i < |partials| ==> Reports(MessagesOf(partials[i]), stream, 0, counts[i])
  }

  /** A message that is what the stream says it is. */
  predicate Genuine(m: OracleMessage, stream: seq<OracleMessage>) {
    m.sequence < |stream| && Agree(stream[m.sequence], m)
  }

  lemma {:induction false} WithinMembers(messages: seq<OracleMessage>, lo: nat, hi: Option<nat>)
    ensures forall m :: m in Within(messages, lo, hi) <==>
              m in messages && lo <= m.sequence && (hi.None? || m.sequence < hi.value)
    decreases |messages|
  {
    if messages != [] {
      WithinMembers(messages[..|messages| - 1], lo, hi);
      assert messages == messages[..|messages| - 1] + [messages[|messages| - 1]];
    }
  }

  /** The collected messages are genuine, and together they reach as far as the longest report. */
  lemma {:induction false} CollectedCovers(partials: seq<Option<ChildReport>>, stream: seq<OracleMessage>,
                                           counts: seq<nat>)
    requires Numbered(stream) && Beginnings(partials, stream, counts)
    ensures MaxNext(partials) <= |stream|
    ensures forall m :: m in Collected(partials) ==> Genuine(m, stream) && m.sequence < MaxNext(partials)
    ensures forall q :: 0 <= q < MaxNext(partials) ==> HasKey(Collected(partials), q)
    decreases |partials|
  {
    if partials != [] {
      var n := |partials| - 1;
      var front, here := partials[..n], MessagesOf(partials[n]);
      assert Beginnings(front, stream, counts[..n]);
      CollectedCovers(front, stream, counts[..n]);
      ReportNext(here, stream, counts[n]);
      forall i | 0 <= i < |here| ensures Genuine(here[i], stream) && here[i].sequence == i {
        ReportAt(here, stream, 0, counts[n], i);
      }
      var earlier := Collected(front);
      assert Collected(partials) == earlier + here;
      forall q | 0 <= q < MaxNext(partials) ensures HasKey(earlier + here, q) {
        if q < MaxNext(front) {
          assert HasKey(earlier, q);
          var i :| 0 <= i < |earlier| && earlier[i].sequence == q;
          assert (earlier + here)[i].sequence == q;
        } else {
          assert (earlier + here)[|earlier| + q].sequence == q;
        }
      }
    }
  }

  lemma RecoveredStretch(partials: seq<Option<ChildReport>>, stream: seq<OracleMessage>, counts: seq<nat>, lo: nat,
                         hi: nat)
    requires Numbered(stream) && Beginnings(partials, stream, counts) && lo <= hi <= MaxNext(partials)
    ensures hi <= |stream| && Reports(Recovered(partials, lo, hi), stream, lo, hi)
  {
    CollectedCovers(partials, stream, counts);
    var all := Collected(partials);
    var chosen := Within(all, lo, Some(hi));
    var kept := DedupByKey(SortByKey(chosen));
    WithinMembers(all, lo, Some(hi));
    KeysAreKept(all, lo, hi);
    SortedOnce(chosen);
    KeysFill(kept, lo, hi);
    GenuineStretch(kept, stream, lo, hi);
  }

  /** Sorting out a stretch of keys keeps all of them. */
  lemma KeysAreKept(all: seq<OracleMessage>, lo: nat, hi: nat)
    requires forall q :: lo <= q < hi ==> HasKey(all, q)
    ensures forall q :: lo <= q < hi ==> HasKey(DedupByKey(SortByKey(Within(all, lo, Some(hi)))), q)
  {
    var chosen := Within(all, lo, Some(hi));
    WithinMembers(all, lo, Some(hi));
    SortedOnce(chosen);
    forall q | lo <= q < hi ensures HasKey(DedupByKey(SortByKey(chosen)), q) {
      var m := WithKey(all, q);
      assert m in chosen;
    }
  }

  lemma WithKey(messages: seq<OracleMessage>, q: nat) returns (m: OracleMessage)
    requires HasKey(messages, q)
    ensures m in messages && m.sequence == q
  {
    var i :| 0 <= i < |messages| && messages[i].sequence == q;
    m := messages[i];
  }

  lemma GenuineStretch(messages: seq<OracleMessage>, stream: seq<OracleMessage>, lo: nat, hi: nat)
    requires lo <= hi <= |stream| && |messages| == hi - lo
    requires forall i :: 0 <= i < |messages| ==> messages[i].sequence == lo + i
    requires forall m :: m in messages ==> Genuine(m, stream)
    ensures Reports(messages, stream, lo, hi)
  {
    forall i | 0 <= i < |messages| ensures Agree(stream[lo..hi][i], messages[i]) {
      assert messages[i] in messages;
    }
  }

  /** Backfilling a producer's beginning of the stream from the consumers' beginnings gives exactly the
      beginning of that length, for any length some consumer has seen. */
  lemma BackfillYieldsStream(producer: seq<OracleMessage>, partials: seq<Option<ChildReport>>,
                             stream: seq<OracleMessage>,
                             counts: seq<nat>, p: nat, published: nat)
    requires Numbered(stream) && Reports(producer, stream, 0, p) && Beginnings(partials, stream, counts)
    requires published <= p || published <= MaxNext(partials)
    ensures var n := if p >= published then p else published;
            n <= |stream| && Reports(Backfilled(producer, partials, published), stream, 0, n)
  {
    ReportNext(producer, stream, p);
    if p < published {
      RecoveredStretch(partials, stream, counts, p, published);
      ReportsJoin(producer, Recovered(partials, p, published), stream, 0, p, published);
    }
  }

  // ---- The restarted run ----

  /** Two reports of one whole stream pass each other's check. */
  lemma ReportsPassOracle(consumer: nat, expected: seq<OracleMessage>, actual: seq<OracleMessage>,
                          stream: seq<OracleMessage>)
    requires Numbered(stream) && Reports(expected, stream, 0, |stream|) && Reports(actual, stream, 0, |stream|)
    ensures Violations(consumer, expected, actual) == []
  {
    forall i | 0 <= i < |actual| ensures Agree(expected[i], actual[i]) && actual[i].sequence == i {
      ReportAt(expected, stream, 0, |stream|, i);
      ReportAt(actual, stream, 0, |stream|, i);
    }
    OracleExact(consumer, expected, actual);
  }

  /** The producer was killed and restarted, with `known` the consumers' reports at hand at that moment:
      its partial report is backfilled from them and continued by what it published afterwards. A
      consumer's own partial report, whenever it was collected, is merged with what it reported after the
      restart. The producer's report is then the whole stream, and the consumer's passes the oracle. */
  lemma RestartedRunPassesOracle(producer: ChildReport, known: seq<Option<ChildReport>>, stream: seq<OracleMessage>,
                                 counts: seq<nat>, p: nat, resumed: seq<OracleMessage>,
                                 consumer: nat, prefix: seq<OracleMessage>, a: nat, suffix: seq<OracleMessage>, b: nat)
    requires Numbered(stream) && Reports(producer.messages, stream, 0, p) && Beginnings(known, stream, counts)
    requires Reports(resumed, stream, RestartSequenceStart(Some(producer), known), |stream|)
    requires Reports(prefix, stream, 0, a) && Reports(suffix, stream, b, |stream|)
    ensures var start := RestartSequenceStart(Some(producer), known);
            var published := Appended(Backfilled(producer.messages, known, start), resumed);
            && Reports(published, stream, 0, |stream|)
            && Violations(consumer, published, Merged(published, prefix, suffix)) == []
  {
    var start := RestartSequenceStart(Some(producer), known);
    ReportNext(producer.messages, stream, p);
    BackfillYieldsStream(producer.messages, known, stream, counts, p, start);
    var filled := Backfilled(producer.messages, known, start);
    AppendedStretch(filled, resumed, stream, start, start, |stream|);
    MergedPassesOracle(Appended(filled, resumed), stream, consumer, prefix, a, suffix, b);
  }

  /** A consumer was killed and restarted under a producer that reports the whole stream. */
  lemma MergedPassesOracle(published: seq<OracleMessage>, stream: seq<OracleMessage>,
                           consumer: nat, prefix: seq<OracleMessage>, a: nat, suffix: seq<OracleMessage>, b: nat)
    requires Numbered(stream) && Reports(published, stream, 0, |stream|)
    requires Reports(prefix, stream, 0, a) && Reports(suffix, stream, b, |stream|)
    ensures Violations(consumer, published, Merged(published, prefix, suffix)) == []
  {
    MergeRebuilds(published, prefix, suffix, stream, a, b, |stream|);
    ReportsPassOracle(consumer, published, Merged(published, prefix, suffix), stream);
  }

  // ---- What the runner does: it restarts the producer before it has collected any consumer report ----

  predicate NothingKnown(known: seq<Option<ChildReport>>) {
    forall i :: 0 <= i < |known| ==> known[i].None?
  }

  lemma {:induction false} NothingSeen(known: seq<Option<ChildReport>>)
    requires NothingKnown(known)
    ensures MaxNext(known) == 0
    decreases |known|
  {
    if known != [] {
      NothingSeen(known[..|known| - 1]);
    }
  }

  /** What is left of the producer's report before the restart: nothing if none was written. */
  function Salvaged(producer: Option<ChildReport>, known: seq<Option<ChildReport>>): seq<OracleMessage> {
    if producer.Some?
    then Backfilled(producer.value.messages, known, RestartSequenceStart(producer, known))
    else []
  }

  /** With nothing known of the consumers the producer restarts right behind its own partial report, at 0
      if there is none; so whether or not one was written, and however much the consumers turn out to have
      seen, its report is the whole stream and every merged consumer report passes the oracle. */
  lemma RunnerRestartPassesOracle(producer: Option<ChildReport>, known: seq<Option<ChildReport>>,
                                  stream: seq<OracleMessage>, p: nat, resumed: seq<OracleMessage>,
                                  consumer: nat, prefix: seq<OracleMessage>, a: nat, suffix: seq<OracleMessage>, b: nat)
    requires Numbered(stream) && NothingKnown(known) && Reports(MessagesOf(producer), stream, 0, p)
    requires Reports(resumed, stream, RestartSequenceStart(producer, known), |stream|)
    requires Reports(prefix, stream, 0, a) && Reports(suffix, stream, b, |stream|)
    ensures RestartSequenceStart(producer, known) == p
    ensures var published := Appended(Salvaged(producer, known), resumed);
            && Reports(published, stream, 0, |stream|)
            && Violations(consumer, published, Merged(published, prefix, suffix)) == []
  {
    NothingSeen(known);
    ReportNext(MessagesOf(producer), stream, p);
    assert Salvaged(producer, known) == MessagesOf(producer);
    AppendedStretch(MessagesOf(producer), resumed, stream, p, p, |stream|);
    MergedPassesOracle(Appended(MessagesOf(producer), resumed), stream, consumer, prefix, a, suffix, b);
  }
}
