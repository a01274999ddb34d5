/** The framed transport as it runs: frame slots written in place, the word-granular reassembly
    buffer, and the batch receive loop. */
module Transport {
  import opened Wrappers
  import opened Framing

  // ---- A frame slot ----

  /** A ring slot of fixed payload capacity. Writing a shorter payload leaves old bytes behind. */
  class FixedFrame {
    var len: nat
    var kind: Byte
    var flags: bv8
    var msgId: nat
    const data: array<Byte>

    constructor (dataBytes: nat)
      ensures fresh(data) && data.Length == dataBytes && Valid() && Meta() == Frame(0, 0, 0, [])
    {
      len, kind, flags, msgId := 0, 0, 0, 0;
      data := new Byte[dataBytes](_ => 0);
    }

    predicate Valid()
      reads this
    {
      len <= data.Length
    }

    /** What a reader of the slot sees. */
    function Meta(): Frame
      requires Valid()
      reads this, data
    {
      Frame(kind, flags, msgId, data[..len])
    }

    method WriteFrame(payload: seq<Byte>, kind: Byte, msgId: nat, flags: bv8)
      requires |payload| <= data.Length
      modifies this, data
      ensures Valid() && Meta() == Frame(kind, flags, msgId, payload)
      ensures data[|payload|..] == old(data[|payload|..])
    {
      this.len, this.kind, this.flags, this.msgId := |payload|, kind, flags, msgId;
      forall i | 0 <= i < |payload| {
        data[i] := payload[i];
      }
    }
  }

  // ---- Reassembly storage ----

  const WORD: nat := 16

  function WordCapacity(bytes: nat): (words: nat)
    ensures words * WORD >= bytes && (bytes > 0 ==> (words - 1) * WORD < bytes)
  {
    (bytes + WORD - 1) / WORD
  }

  /** Whole 16-byte words of storage, of which the first `len` bytes are the message so far. */
  class ReassemblyBuffer {
    var buf: array<Byte>
    var len: nat
    var msgId: nat
    var kind: Byte
    var sentTimestamp: Option<nat>

    ghost predicate Valid()
      reads this
    {
      buf.Length % WORD == 0 && len <= buf.Length
    }

    /** The bytes the handler is given. */
    function Bytes(): seq<Byte>
      requires Valid()
      reads this, buf
    {
      buf[..len]
    }

    /** The decoder state this buffer stores. */
    ghost function State(): Assembly
      requires Valid()
      reads this, buf
    {
      Assembly(msgId, kind, Bytes())
    }

    constructor ()
      ensures Valid() && fresh(buf) && State() == Assembly(0, 0, []) && sentTimestamp == None
    {
      buf := new Byte[0];
      len, msgId, kind, sentTimestamp := 0, 0, 0, None;
    }

    /** Grows to whole words, zero-filled, keeping what is there; never shrinks. */
    method EnsureCapacity(needed: nat)
      requires Valid()
      modifies `buf
      ensures Valid() && buf.Length >= needed && buf.Length >= old(buf.Length)
      ensures buf.Length == old(buf.Length) || buf.Length < needed + WORD
      ensures buf[..old(buf.Length)] == old(buf[..])
      ensures forall i :: old(buf.Length) <= i < buf.Length ==> buf[i] == 0
      ensures buf == old(buf) || fresh(buf)
    {
      var words := WordCapacity(needed);
      if buf.Length / WORD < words {
        var prior := buf;
        var grown := new Byte[words * WORD](i requires 0 <= i reads prior => if i < prior.Length then prior[i] else 0);
        buf := grown;
        assert buf[..prior.Length] == prior[..];
      }
    }

    method CopyIn(start: nat, bytes: seq<Byte>)
      requires Valid() && start + |bytes| <= buf.Length
      modifies buf
      ensures Valid() && buf[..start] == old(buf[..start]) && buf[start..start + |bytes|] == bytes
    {
      forall i | 0 <= i < |bytes| {
        buf[start + i] := bytes[i];
      }
    }

    /** Begins a new message, whatever the buffer held before. */
    method Start(msgId: nat, kind: Byte, firstData: seq<Byte>, totalLen: nat, sent: Option<nat>)
      requires Valid()
      modifies this, buf
      ensures Valid() && State() == Assembly(msgId, kind, firstData) && sentTimestamp == sent
      ensures buf.Length >= totalLen && buf.Length >= old(buf.Length)
      ensures buf == old(buf) || fresh(buf)
    {
      EnsureCapacity(if totalLen > |firstData| then totalLen else |firstData|);
      CopyIn(0, firstData);
      assert buf[0..|firstData|] == buf[..|firstData|];
      this.len, this.msgId, this.kind, this.sentTimestamp := |firstData|, msgId, kind, sent;
    }

    method Append(bytes: seq<Byte>)
      requires Valid()
      modifies this, buf
      ensures Valid() && State() == old(State()).(bytes := old(Bytes()) + bytes) && sentTimestamp == old(sentTimestamp)
      ensures buf == old(buf) || fresh(buf)
    {
      var start := len;
      var end := start + |bytes|;
      EnsureCapacity(end);
      assert buf[..start] == old(Bytes());
      CopyIn(start, bytes);
      len := end;
      assert buf[..end] == buf[..start] + buf[start..end];
    }

    method Reset()
      requires Valid()
      modifies `len, `msgId, `sentTimestamp
      ensures Valid() && State() == Assembly(0, kind, []) && sentTimestamp == None
    {
      len, msgId, sentTimestamp := 0, 0, None;
    }
  }

  /** A call on the buffer, for histories of calls. */
  datatype BufferCall =
    | CallStart(msgId: nat, kind: Byte, firstData: seq<Byte>, totalLen: nat)
    | CallAppend(bytes: seq<Byte>)
    | CallReset

  /** The bytes appended since the last start (or reset), over a history. */
  function SinceLastStart(calls: seq<BufferCall>): seq<Byte>
    decreases |calls|
  {
    if calls == [] then []
    else match calls[|calls| - 1]
      case CallStart(_, _, firstData, _) => firstData
      case CallAppend(bytes) => SinceLastStart(calls[..|calls| - 1]) + bytes
      case CallReset => []
  }

  /** Storage refines concatenation over every history, however long the earlier messages were. */
  method RunHistory(calls: seq<BufferCall>) returns (bytes: seq<Byte>)
    ensures bytes == SinceLastStart(calls)
  {
    var b := new ReassemblyBuffer();
    var k := 0;
    while k < |calls|
      invariant k <= |calls| && b.Valid() && fresh(b) && fresh(b.buf)
      invariant b.Bytes() == SinceLastStart(calls[..k])
    {
      assert calls[..k + 1][..k] == calls[..k];
      match calls[k] {
        case CallStart(id, kind, first, total) => b.Start(id, kind, first, total, None);
        case CallAppend(data) => b.Append(data);
        case CallReset => b.Reset();
      }
      k := k + 1;
    }
    assert calls[..k] == calls;
    bytes := b.Bytes();
  }

  // ---- Receiving ----

  /** What the batch receiver does with one frame: the message it completes, if any, goes to the handler. */
  method HandleFrame(frame: Frame, buffer: ReassemblyBuffer) returns (messages: seq<Message>)
    requires buffer.Valid()
    modifies buffer, buffer.buf
    ensures buffer.Valid() && (buffer.buf == old(buffer.buf) || fresh(buffer.buf))
    ensures (buffer.State(), messages) == Step(old(buffer.State()), frame)
  {
    if IsSingleFrame(frame.flags) {
      return [Message(frame.kind, frame.data)];
    }
    messages := [];
    if IsFirstFrame(frame.flags) {
      buffer.Start(frame.msgId, frame.kind, frame.data, |frame.data|, None);
    } else if buffer.msgId == frame.msgId {
      buffer.Append(frame.data);
    }
    if IsLastFrame(frame.flags) && buffer.msgId == frame.msgId {
      messages := [Message(buffer.kind, buffer.Bytes())];
      buffer.Reset();
    }
  }

  /** Batch receive: every frame at hand, with partial messages kept in the buffer. */
  method ProcessAvailableMessages(batch: seq<Frame>, buffer: ReassemblyBuffer)
    returns (delivered: nat, messages: seq<Message>)
    requires buffer.Valid()
    modifies buffer, buffer.buf
    ensures buffer.Valid() && (buffer.buf == old(buffer.buf) || fresh(buffer.buf))
    ensures (buffer.State(), messages) == Decode(old(buffer.State()), batch) && delivered == |messages|
  {
    delivered, messages := 0, [];
    ghost var first := buffer.State();
    var k := 0;
    assert batch[..0] == [];
    while k < |batch|
      invariant k <= |batch| && buffer.Valid() && (buffer.buf == old(buffer.buf) || fresh(buffer.buf))
      invariant (buffer.State(), messages) == Decode(first, batch[..k]) && delivered == |messages|
    {
      DecodeOneMore(first, batch, k);
      var completed := HandleFrame(batch[k], buffer);
      messages, delivered := messages + completed, delivered + |completed|;
      k := k + 1;
    }
    assert batch[..k] == batch;
  }

  lemma DecodeOneMore(a: Assembly, batch: seq<Frame>, k: nat)
    requires k < |batch|
    ensures var (b, messages) := Decode(a, batch[..k]);
            Decode(a, batch[..k + 1]) == (Step(b, batch[k]).0, messages + Step(b, batch[k]).1)
  {
    var b := Decode(a, batch[..k]).0;
    assert batch[..k + 1] == batch[..k] + [batch[k]];
    DecodeAppend(a, batch[..k], [batch[k]]);
    assert Decode(b, [batch[k]]).1 == Step(b, batch[k]).1;
  }
}
