/** The versioned header at the start of every shared segment: its byte encoding, and the checks made
    before the payload behind it may be touched. */
module Layout {
  import opened Wrappers
  import Bits

  datatype SegmentKind = RingBuffer | Cursor

  datatype LayoutError =
    | NotPowerOfTwo
    | SizeOverflow
    | AlignmentTooLarge
    | RegionTooSmall
    | MagicMismatch
    | VersionMismatch
    | ChecksumFailed
    | HeaderSizeMismatch
    | InvalidAlignment
    | UnknownKind
    | KindMismatch
    | PayloadSizeMismatch
    | ElementSizeMismatch
    | CapacityMismatch

  datatype Header = Header(
    magic: seq<Byte>,
    version: nat,
    kind: nat,
    headerSize: nat,
    alignment: nat,
    payloadSize: nat,
    elementSize: nat,
    capacity: nat,
    reserved: nat,
    checksum: nat,
    reserved2: nat)

  const HEADER_SIZE: nat := 56
  const VERSION: nat := 1
  const HEADER_ALIGNMENT_MIN: nat := 8

  /** "DSMPTV01". */
  function Magic(): (m: seq<Byte>)
    ensures |m| == 8
  {
    [0x44, 0x53, 0x4D, 0x50, 0x54, 0x56, 0x30, 0x31]
  }

  // ---- Little-endian fields ----

  function LittleEndian(v: nat, width: nat): (bytes: seq<Byte>)
    ensures |bytes| == width
  {
    if width == 0 then [] else [v % 256] + LittleEndian(v / 256, width - 1)
  }

  /** The first number that does not fit in `width` bytes. */
  function Limit(width: nat): nat {
    if width == 0 then 1 else 256 * Limit(width - 1)
  }

  function Value(bytes: seq<Byte>): nat
    decreases |bytes|
  {
    if bytes == [] then 0 else bytes[0] + 256 * Value(bytes[1..])
  }

  lemma {:induction false} ValueOfBytes(v: nat, width: nat)
    requires v < Limit(width)
    ensures Value(LittleEndian(v, width)) == v
    decreases width
  {
    if width > 0 {
      ValueOfBytes(v / 256, width - 1);
    }
  }

  lemma {:induction false} BytesOfValue(bytes: seq<Byte>)
    ensures Value(bytes) < Limit(|bytes|) && LittleEndian(Value(bytes), |bytes|) == bytes
    decreases |bytes|
  {
    if bytes != [] {
      BytesOfValue(bytes[1..]);
      assert Value(bytes) % 256 == bytes[0] && Value(bytes) / 256 == Value(bytes[1..]);
    }
  }

  /** Different bytes, different value. */
  lemma ValueInjective(a: seq<Byte>, b: seq<Byte>)
    requires |a| == |b| && Value(a) == Value(b)
    ensures a == b
  {
    BytesOfValue(a);
    BytesOfValue(b);
  }

  predicate Fits(h: Header) {
    && |h.magic| == 8 && h.version < Limit(2) && h.kind < Limit(2) && h.headerSize < Limit(2)
    && h.alignment < Limit(2) && h.payloadSize < Limit(8) && h.elementSize < Limit(8)
    && h.capacity < Limit(8) && h.reserved < Limit(8) && h.checksum < Limit(4)
    && h.reserved2 < Limit(4)
  }

  /** The header's bytes, in declaration order. */
  function Encode(h: Header): (bytes: seq<Byte>)
    requires |h.magic| == 8
    ensures |bytes| == HEADER_SIZE
  {
    h.magic + LittleEndian(h.version, 2) + LittleEndian(h.kind, 2) + LittleEndian(h.headerSize, 2)
    + LittleEndian(h.alignment, 2) + LittleEndian(h.payloadSize, 8) + LittleEndian(h.elementSize, 8)
    + LittleEndian(h.capacity, 8) + LittleEndian(h.reserved, 8) + LittleEndian(h.checksum, 4)
    + LittleEndian(h.reserved2, 4)
  }

  function Decode(bytes: seq<Byte>): (h: Header)
    requires |bytes| >= HEADER_SIZE
  {
    Header(bytes[..8], Value(bytes[8..10]), Value(bytes[10..12]), Value(bytes[12..14]), Value(bytes[14..16]),
           Value(bytes[16..24]), Value(bytes[24..32]), Value(bytes[32..40]), Value(bytes[40..48]),
           Value(bytes[48..52]), Value(bytes[52..56]))
  }

  lemma EncodedSlices(h: Header)
    requires |h.magic| == 8
    ensures var b := Encode(h);
            && b[..8] == h.magic && b[8..10] == LittleEndian(h.version, 2) && b[10..12] == LittleEndian(h.kind, 2)
            && b[12..14] == LittleEndian(h.headerSize, 2) && b[14..16] == LittleEndian(h.alignment, 2)
            && b[16..24] == LittleEndian(h.payloadSize, 8) && b[24..32] == LittleEndian(h.elementSize, 8)
            && b[32..40] == LittleEndian(h.capacity, 8) && b[40..48] == LittleEndian(h.reserved, 8)
            && b[48..52] == LittleEndian(h.checksum, 4) && b[52..56] == LittleEndian(h.reserved2, 4)
  {
  }

  lemma DividedTwice(v: nat, b: nat)
    requires b > 0
    ensures v / 256 / b == v / (256 * b)
  {
    var (q, r) := (v / 256, v % 256);
    var (p, t) := (q / b, q % b);
    assert q == p * b + t && p * (256 * b) == 256 * (p * b);
    Bits.ModUnique(v, 256 * b, p, 256 * t + r);
  }

  lemma {:induction false} LimitsPositive(width: nat)
    ensures Limit(width) > 0
  {
    if width > 0 {
      LimitsPositive(width - 1);
    }
  }

  /** Byte `i` of a little-endian field has the weight 256 to the power `i`. */
  lemma {:induction false} ByteOfField(v: nat, width: nat, i: nat)
    requires i < width
    ensures Limit(i) > 0 && LittleEndian(v, width)[i] == v / Limit(i) % 256
    decreases width
  {
    LimitsPositive(i);
    if i > 0 {
      ByteOfField(v / 256, width - 1, i - 1);
      LimitsPositive(i - 1);
      DividedTwice(v, Limit(i - 1));
    }
  }

  /** The bytes at `from` are that number, least significant byte first. */
  ghost predicate FieldAt(bytes: seq<Byte>, from: nat, width: nat, v: nat) {
    && from + width <= |bytes|
    && forall i: nat :: i < width ==> Limit(i) > 0 && bytes[from + i] == v / Limit(i) % 256
  }

  lemma FieldIsAt(bytes: seq<Byte>, from: nat, width: nat, v: nat)
    requires from + width <= |bytes| && bytes[from..from + width] == LittleEndian(v, width)
    ensures FieldAt(bytes, from, width, v)
  {
    forall i: nat | i < width ensures Limit(i) > 0 && bytes[from + i] == v / Limit(i) % 256 {
      ByteOfField(v, width, i);
      assert bytes[from..from + width][i] == bytes[from + i];
    }
  }

  lemma FieldKept(bytes: seq<Byte>, more: seq<Byte>, from: nat, width: nat, v: nat)
    requires FieldAt(bytes, from, width, v) && bytes <= more
    ensures FieldAt(more, from, width, v)
  {
    forall i: nat | i < width ensures Limit(i) > 0 && more[from + i] == v / Limit(i) % 256 {
      assert more[from + i] == bytes[from + i];
    }
  }

  /** Where every field of a header lies, byte by byte. */
  lemma HeaderBytes(h: Header)
    requires |h.magic| == 8
    ensures var b := Encode(h);
            && b[..8] == h.magic && FieldAt(b, 8, 2, h.version) && FieldAt(b, 10, 2, h.kind)
            && FieldAt(b, 12, 2, h.headerSize) && FieldAt(b, 14, 2, h.alignment)
            && FieldAt(b, 16, 8, h.payloadSize) && FieldAt(b, 24, 8, h.elementSize) && FieldAt(b, 32, 8, h.capacity)
            && FieldAt(b, 40, 8, h.reserved) && FieldAt(b, 48, 4, h.checksum) && FieldAt(b, 52, 4, h.reserved2)
  {
    var b := Encode(h);
    EncodedSlices(h);
    FieldIsAt(b, 8, 2, h.version);
    FieldIsAt(b, 10, 2, h.kind);
    FieldIsAt(b, 12, 2, h.headerSize);
    FieldIsAt(b, 14, 2, h.alignment);
    FieldIsAt(b, 16, 8, h.payloadSize);
    FieldIsAt(b, 24, 8, h.elementSize);
    FieldIsAt(b, 32, 8, h.capacity);
    FieldIsAt(b, 40, 8, h.reserved);
    FieldIsAt(b, 48, 4, h.checksum);
    FieldIsAt(b, 52, 4, h.reserved2);
  }

  /** Reading back a written header, in whatever region it lies, gives the header. */
  lemma DecodeEncode(h: Header, rest: seq<Byte>)
    requires Fits(h)
    ensures Decode(Encode(h) + rest) == h
  {
    var b := Encode(h);
    assert Decode(b + rest) == Decode(b) by {
      assert forall i, j :: 0 <= i <= j <= HEADER_SIZE ==> (b + rest)[i..j] == b[i..j];
    }
    EncodedSlices(h);
    ValueOfBytes(h.version, 2);
    ValueOfBytes(h.kind, 2);
    ValueOfBytes(h.headerSize, 2);
    ValueOfBytes(h.alignment, 2);
    ValueOfBytes(h.payloadSize, 8);
    ValueOfBytes(h.elementSize, 8);
    ValueOfBytes(h.capacity, 8);
    ValueOfBytes(h.reserved, 8);
    ValueOfBytes(h.checksum, 4);
    ValueOfBytes(h.reserved2, 4);
  }

  lemma Field(bytes: seq<Byte>, from: nat, width: nat)
    requires from + width <= |bytes|
    ensures Value(bytes[from..from + width]) < Limit(width)
    ensures LittleEndian(Value(bytes[from..from + width]), width) == bytes[from..from + width]
  {
    BytesOfValue(bytes[from..from + width]);
  }

  lemma Pieces(b: seq<Byte>)
    requires |b| >= HEADER_SIZE
    ensures b[..HEADER_SIZE] == b[..8] + b[8..10] + b[10..12] + b[12..14] + b[14..16] + b[16..24] + b[24..32]
                                + b[32..40] + b[40..48] + b[48..52] + b[52..56]
  {
  }

  /** Every 56 bytes are the encoding of the header they decode to. */
  lemma EncodeDecode(bytes: seq<Byte>)
    requires |bytes| >= HEADER_SIZE
    ensures Fits(Decode(bytes)) && Encode(Decode(bytes)) == bytes[..HEADER_SIZE]
  {
    Field(bytes, 8, 2);
    Field(bytes, 10, 2);
    Field(bytes, 12, 2);
    Field(bytes, 14, 2);
    Field(bytes, 16, 8);
    Field(bytes, 24, 8);
    Field(bytes, 32, 8);
    Field(bytes, 40, 8);
    Field(bytes, 48, 4);
    Field(bytes, 52, 4);
    Pieces(bytes);
  }
}
