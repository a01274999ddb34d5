/** Writing a segment's header, and validating it before the payload behind it is used. */
module LayoutChecks {
  import opened Wrappers
  import Bits
  import opened Checksum
  import opened Layout

  const USIZE: nat := 0x1_0000_0000_0000_0000

  /** Machine words, 64 bits wide. */
  type Usize = x: int | 0 <= x < 0x1_0000_0000_0000_0000

  datatype Contract = Contract(payloadOffset: nat, totalSize: nat)

  /** What a caller expects to find behind the header. */
  datatype Shape = Shape(payloadSize: Usize, elementSize: Usize, capacity: Usize, alignment: Usize, kind: SegmentKind)

  function Max(a: Usize, b: Usize): Usize {
    if a >= b then a else b
  }

  function Not(x: Usize): Usize {
    USIZE - 1 - x
  }

  /** Rounds up by masking; the sum wraps around as machine words do. */
  function AlignUp(value: Usize, align: Usize): Result<nat, LayoutError> {
    if align == 0 || !Bits.IsPowOf2(align) then Err(NotPowerOfTwo)
    else Ok(Bits.And((value + align - 1) % USIZE, Not(align - 1)))
  }

  function KindCode(kind: SegmentKind): nat {
    match kind case RingBuffer => 1 case Cursor => 2
  }

  function KindOf(code: nat): Result<SegmentKind, LayoutError> {
    if code == 1 then Ok(RingBuffer) else if code == 2 then Ok(Cursor) else Err(UnknownKind)
  }

  function ValidateKind(code: nat, expected: SegmentKind): (r: Option<LayoutError>)
    ensures r.None? <==> code == KindCode(expected)
  {
    var observed := KindOf(code);
    if observed.Err? then Some(observed.error)
    else if observed.value != expected then Some(KindMismatch)
    else None
  }

  /** The alignment the payload really gets. */
  function PayloadAlignment(alignment: Usize): Usize {
    Max(alignment, HEADER_ALIGNMENT_MIN)
  }

  function PayloadOffset(alignment: Usize): Result<nat, LayoutError> {
    AlignUp(HEADER_SIZE, PayloadAlignment(alignment))
  }

  function MakeContract(payloadSize: Usize, alignment: Usize): Result<Contract, LayoutError> {
    var offset := PayloadOffset(alignment);
    if offset.Err? then Err(offset.error)
    else if payloadSize + offset.value >= USIZE then Err(SizeOverflow)
    else Ok(Contract(offset.value, payloadSize + offset.value))
  }

  function ChecksumOf(h: Header): U32
    requires |h.magic| == 8
  {
    Hash(OFFSET_BASIS, Encode(h.(checksum := 0)))
  }

  function MakeLayoutHeader(shape: Shape): Result<Header, LayoutError> {
    if PayloadAlignment(shape.alignment) >= 0x1_0000 then Err(AlignmentTooLarge)
    else
      var h := Header(Magic(), VERSION, KindCode(shape.kind), HEADER_SIZE, PayloadAlignment(shape.alignment),
                      shape.payloadSize, shape.elementSize, shape.capacity, 0, 0, 0);
      Ok(h.(checksum := ChecksumOf(h)))
  }

  function ReadHeader(region: seq<Byte>): (r: Result<Header, LayoutError>)
    ensures r.Ok? ==> |region| >= HEADER_SIZE && r.value == Decode(region) && r.value.alignment < 0x1_0000
  {
    if |region| < HEADER_SIZE then Err(RegionTooSmall)
    else
      var h := Decode(region);
      if h.magic != Magic() then Err(MagicMismatch)
      else if h.version != VERSION then Err(VersionMismatch)
      else if ChecksumOf(h) != h.checksum then Err(ChecksumFailed)
      else if h.headerSize != HEADER_SIZE then Err(HeaderSizeMismatch)
      else if h.alignment == 0 || !Bits.IsPowOf2(h.alignment) then Err(InvalidAlignment)
      else
        EncodeDecode(region);
        assert Limit(2) == 0x1_0000;
        Ok(h)
  }

  /** What is checked once the header was read from a region of that length. */
  function CheckHeader(h: Header, length: nat, shape: Shape): Result<Contract, LayoutError>
    requires h.alignment < 0x1_0000
  {
    var kind := ValidateKind(h.kind, shape.kind);
    if kind.Some? then Err(kind.value)
    else if h.payloadSize != shape.payloadSize then Err(PayloadSizeMismatch)
    else if h.elementSize != shape.elementSize then Err(ElementSizeMismatch)
    else if h.capacity != shape.capacity then Err(CapacityMismatch)
    else
      var contract := MakeContract(shape.payloadSize, Max(shape.alignment, h.alignment));
      if contract.Err? then contract
      else if length < contract.value.totalSize then Err(RegionTooSmall)
      else contract
  }

  function ValidateLayoutBytes(region: seq<Byte>, shape: Shape): Result<Contract, LayoutError> {
    var header := ReadHeader(region);
    if header.Err? then Err(header.error) else CheckHeader(header.value, |region|, shape)
  }

  /** The contract and header a write puts in place, or why it does not. */
  function PlanWrite(length: nat, shape: Shape): Result<(Contract, Header), LayoutError> {
    var contract := MakeContract(shape.payloadSize, shape.alignment);
    if contract.Err? then Err(contract.error)
    else if length < contract.value.totalSize then Err(RegionTooSmall)
    else
      var header := MakeLayoutHeader(shape);
      if header.Err? then Err(header.error) else Ok((contract.value, header.value))
  }

  /** The region once the header is written over its beginning. */
  function Overwritten(region: seq<Byte>, h: Header): (written: seq<Byte>)
    requires |region| >= HEADER_SIZE && |h.magic| == 8
    ensures |written| == |region|
  {
    Encode(h) + region[HEADER_SIZE..]
  }

  // ---- Alignment ----

  lemma SmallExponent(k: nat)
    ensures Bits.Pow2(k) < USIZE <==> k < 64
    ensures k < 64 ==> 2 * Bits.Pow2(k) <= USIZE
  {
    Bits.WordPowers();
    if k >= 64 {
      Bits.PowersGrow(64, k);
    } else {
      Bits.PowersGrow(k + 1, 64);
    }
  }

  lemma RoundedDown(x: nat, m: nat)
    requires m > 0
    ensures (x - x % m) % m == 0 && x - x % m <= x < x - x % m + m
  {
    Bits.ModUnique(x - x % m, m, x / m, 0);
  }

  /** On powers of two `AlignUp` rounds the wrapped sum down to a multiple; it fails elsewhere. */
  lemma AlignUpMasks(value: Usize, align: Usize)
    ensures AlignUp(value, align).Ok? <==> Bits.IsPowerOfTwo(align)
    ensures AlignUp(value, align).Ok? ==>
              var sum := (value + align - 1) % USIZE; AlignUp(value, align).value == sum - sum % align
  {
    Bits.PowOf2Trick(align);
    if Bits.IsPowerOfTwo(align) {
      MaskedDown((value + align - 1) % USIZE, align);
    }
  }

  lemma MaskedDown(sum: Usize, align: Usize)
    requires Bits.IsPowerOfTwo(align)
    ensures Bits.And(sum, Not(align - 1)) == sum - sum % align
  {
    var k: nat :| align == Bits.Pow2(k);
    SmallExponent(k);
    Bits.WordPowers();
    Bits.MaskRoundsDown(sum, k, 64);
  }

  /** `AlignUp` gives the least multiple not below the value as long as the sum fits a word, and 0
      when it wraps around. */
  lemma AlignUpIsLeast(value: Usize, align: Usize)
    ensures AlignUp(value, align).Ok? <==> Bits.IsPowerOfTwo(align)
    ensures var r := AlignUp(value, align);
            r.Ok? ==>
              && (value + align - 1 < USIZE ==> r.value % align == 0 && value <= r.value < value + align)
              && (value + align - 1 >= USIZE ==> r.value == 0)
  {
    AlignUpMasks(value, align);
    if AlignUp(value, align).Ok? {
      RoundedUp(value, align, AlignUp(value, align).value);
    }
  }

  lemma RoundedUp(value: Usize, align: Usize, r: nat)
    requires align > 0 && var sum := (value + align - 1) % USIZE; r == sum - sum % align
    ensures value + align - 1 < USIZE ==> r % align == 0 && value <= r < value + align
    ensures value + align - 1 >= USIZE ==> r == 0
  {
    var sum := WrappedSum(value, align);
    if value + align - 1 < USIZE {
      RoundedDown(sum, align);
    } else {
      Bits.ModUnique(sum, align, 0, sum);
    }
  }

  lemma WrappedSum(value: Usize, align: Usize) returns (sum: nat)
    requires align > 0
    ensures sum == (value + align - 1) % USIZE
    ensures value + align - 1 < USIZE ==> sum == value + align - 1
    ensures value + align - 1 >= USIZE ==> sum == value + align - 1 - USIZE < align
  {
    var carry := if value + align - 1 < USIZE then 0 else 1;
    sum := value + align - 1 - carry * USIZE;
    Bits.ModUnique(value + align - 1, USIZE, carry, sum);
  }

  /** The payload starts at the first aligned place behind the header. */
  lemma OffsetIsLeast(alignment: Usize)
    ensures PayloadOffset(alignment).Ok? <==> Bits.IsPowerOfTwo(PayloadAlignment(alignment))
    ensures var a, r := PayloadAlignment(alignment), PayloadOffset(alignment);
            r.Ok? ==> r.value % a == 0 && HEADER_SIZE <= r.value < HEADER_SIZE + a
  {
    AlignUpIsLeast(HEADER_SIZE, PayloadAlignment(alignment));
    if Bits.IsPowerOfTwo(PayloadAlignment(alignment)) {
      var k: nat :| PayloadAlignment(alignment) == Bits.Pow2(k);
      SmallExponent(k);
    }
  }

  // ---- Writing, then validating ----

  method CopyToFront(region: array<Byte>, bytes: seq<Byte>)
    requires |bytes| <= region.Length
    modifies region
    ensures region[..] == bytes + old(region[..])[|bytes|..]
  {
    forall i | 0 <= i < |bytes| {
      region[i] := bytes[i];
    }
  }

  method WriteLayoutBytes(region: array<Byte>, shape: Shape) returns (r: Result<Contract, LayoutError>)
    modifies region
    ensures var plan := PlanWrite(region.Length, shape);
            && (plan.Err? ==> r == Err(plan.error) && region[..] == old(region[..]))
            && (plan.Ok? ==> r == Ok(plan.value.0) && region.Length >= HEADER_SIZE
                             && region[..] == Overwritten(old(region[..]), plan.value.1))
  {
    var contract := MakeContract(shape.payloadSize, shape.alignment);
    OffsetIsLeast(shape.alignment);
    if contract.Err? {
      return contract;
    }
    if region.Length < contract.value.totalSize {
      return Err(RegionTooSmall);
    }
    var header := MakeLayoutHeader(shape);
    if header.Err? {
      return Err(header.error);
    }
    CopyToFront(region, Encode(header.value));
    r := contract;
  }

  /** What a write needs: an alignment that is a power of two and fits its field, and room. */
  lemma PlanSucceeds(length: nat, shape: Shape)
    ensures PlanWrite(length, shape).Ok? <==>
              && PayloadOffset(shape.alignment).Ok? && PayloadAlignment(shape.alignment) < 0x1_0000
              && PayloadOffset(shape.alignment).value + shape.payloadSize < USIZE
              && PayloadOffset(shape.alignment).value + shape.payloadSize <= length
    ensures var plan := PlanWrite(length, shape);
            plan.Ok? ==>
              && MakeContract(shape.payloadSize, shape.alignment) == Ok(plan.value.0)
              && MakeLayoutHeader(shape) == Ok(plan.value.1) && HEADER_SIZE <= plan.value.0.totalSize <= length
  {
    OffsetIsLeast(shape.alignment);
  }

  /** Why a write fails: the first of these that applies, in this order. */
  lemma PlanFails(length: nat, shape: Shape)
    ensures var plan := PlanWrite(length, shape);
            var offset := PayloadOffset(shape.alignment);
            && (plan == Err(NotPowerOfTwo) <==> !Bits.IsPowerOfTwo(PayloadAlignment(shape.alignment)))
            && (plan == Err(SizeOverflow) <==> offset.Ok? && offset.value + shape.payloadSize >= USIZE)
            && (plan == Err(LayoutError.RegionTooSmall) <==>
                  offset.Ok? && length < offset.value + shape.payloadSize < USIZE)
            && (plan == Err(AlignmentTooLarge) <==>
                  && offset.Ok? && offset.value + shape.payloadSize < USIZE
                  && offset.value + shape.payloadSize <= length
                  && PayloadAlignment(shape.alignment) >= 0x1_0000)
  {
    OffsetIsLeast(shape.alignment);
  }

  lemma HeaderFits(shape: Shape)
    requires MakeLayoutHeader(shape).Ok?
    ensures Fits(MakeLayoutHeader(shape).value)
  {
    assert Limit(2) == 0x1_0000 && Limit(4) == 0x1_0000_0000 && Limit(8) == USIZE;
  }

  /** A written header is read back as it was made. */
  lemma WrittenHeaderReads(region: seq<Byte>, h: Header, shape: Shape)
    requires |region| >= HEADER_SIZE && MakeLayoutHeader(shape) == Ok(h)
    requires Bits.IsPowerOfTwo(PayloadAlignment(shape.alignment))
    ensures ReadHeader(Overwritten(region, h)) == Ok(h)
  {
    HeaderFits(shape);
    Bits.PowOf2Trick(PayloadAlignment(shape.alignment));
    DecodeEncode(h, region[HEADER_SIZE..]);
    assert h.(checksum := 0).(checksum := 0) == h.(checksum := 0);
  }

  /** When a header made for one caller passes another one's checks: the kind and all three sizes must
      agree exactly, and the payload must still fit under the larger of both alignments. */
  lemma CheckExactly(h: Header, length: nat, shape: Shape, other: Shape)
    requires MakeLayoutHeader(shape) == Ok(h)
    ensures var contract := MakeContract(other.payloadSize, Max(other.alignment, PayloadAlignment(shape.alignment)));
            var v := CheckHeader(h, length, other);
            && (v.Ok? ==> v == contract)
            && (v.Ok? <==>
                  && other.kind == shape.kind && other.payloadSize == shape.payloadSize
                  && other.elementSize == shape.elementSize && other.capacity == shape.capacity
                  && contract.Ok? && contract.value.totalSize <= length)
  {
  }

  /** Whether a segment written with `shape` validates for a caller that expects `other`. */
  lemma ValidateWritten(region: seq<Byte>, plan: (Contract, Header), shape: Shape, other: Shape)
    requires PlanWrite(|region|, shape) == Ok(plan)
    ensures |region| >= HEADER_SIZE && |plan.1.magic| == 8
    ensures var contract := MakeContract(other.payloadSize, Max(other.alignment, PayloadAlignment(shape.alignment)));
            var v := ValidateLayoutBytes(Overwritten(region, plan.1), other);
            && (v.Ok? ==> v == contract)
            && (v.Ok? <==>
                  && other.kind == shape.kind && other.payloadSize == shape.payloadSize
                  && other.elementSize == shape.elementSize && other.capacity == shape.capacity
                  && contract.Ok? && contract.value.totalSize <= |region|)
  {
    PlanSucceeds(|region|, shape);
    OffsetIsLeast(shape.alignment);
    WrittenHeaderReads(region, plan.1, shape);
    CheckExactly(plan.1, |region|, shape, other);
  }

  /** What every byte of a written header is. */
  lemma WrittenBytes(region: seq<Byte>, plan: (Contract, Header), shape: Shape)
    requires PlanWrite(|region|, shape) == Ok(plan)
    ensures |region| >= HEADER_SIZE && |plan.1.magic| == 8
    ensures var w := Overwritten(region, plan.1);
            && w[..8] == [0x44, 0x53, 0x4D, 0x50, 0x54, 0x56, 0x30, 0x31]
            && FieldAt(w, 8, 2, 1) && FieldAt(w, 10, 2, if shape.kind.RingBuffer? then 1 else 2)
            && FieldAt(w, 12, 2, 56) && FieldAt(w, 14, 2, if shape.alignment >= 8 then shape.alignment else 8)
            && FieldAt(w, 16, 8, shape.payloadSize) && FieldAt(w, 24, 8, shape.elementSize)
            && FieldAt(w, 32, 8, shape.capacity) && FieldAt(w, 40, 8, 0) && FieldAt(w, 52, 4, 0)
            && FieldAt(w, 48, 4, Hash(OFFSET_BASIS, w[..48] + [0, 0, 0, 0] + w[52..56]))
            && w[56..] == region[56..]
  {
    PlanSucceeds(|region|, shape);
    OffsetIsLeast(shape.alignment);
    var (h, b, w) := (plan.1, Encode(plan.1), Overwritten(region, plan.1));
    HeaderBytes(h);
    WrittenHeaderReads(region, h, shape);
    HeaderFields(w);
    assert w[..HEADER_SIZE] == b && b[..48] == w[..48] && b[52..] == w[52..56];
    assert h.checksum == Hash(OFFSET_BASIS, w[..48] + [0, 0, 0, 0] + w[52..56]);
    forall from: nat, width: nat, v: nat | FieldAt(b, from, width, v) ensures FieldAt(w, from, width, v) {
      FieldKept(b, w, from, width, v);
    }
  }

  /** Why a written segment does not validate for another caller: the first of these that applies. */
  lemma ValidationFails(region: seq<Byte>, plan: (Contract, Header), shape: Shape, other: Shape)
    requires PlanWrite(|region|, shape) == Ok(plan)
    ensures |region| >= HEADER_SIZE && |plan.1.magic| == 8
    ensures var v := ValidateLayoutBytes(Overwritten(region, plan.1), other);
            var contract := MakeContract(other.payloadSize, Max(other.alignment, PayloadAlignment(shape.alignment)));
            && (v == Err(KindMismatch) <==> other.kind != shape.kind)
            && (v == Err(PayloadSizeMismatch) <==> other.kind == shape.kind && other.payloadSize != shape.payloadSize)
            && (v == Err(ElementSizeMismatch) <==>
                  other.kind == shape.kind && other.payloadSize == shape.payloadSize
                  && other.elementSize != shape.elementSize)
            && (v == Err(CapacityMismatch) <==>
                  other.kind == shape.kind && other.payloadSize == shape.payloadSize
                  && other.elementSize == shape.elementSize && other.capacity != shape.capacity)
            && (other == shape.(alignment := other.alignment) ==>
                  v == if contract.Ok? && |region| < contract.value.totalSize then Err(LayoutError.RegionTooSmall)
                       else contract)
  {
    PlanSucceeds(|region|, shape);
    OffsetIsLeast(shape.alignment);
    WrittenHeaderReads(region, plan.1, shape);
    CheckFails(plan.1, |region|, shape, other);
  }

  lemma CheckFails(h: Header, length: nat, shape: Shape, other: Shape)
    requires MakeLayoutHeader(shape) == Ok(h)
    ensures var v := CheckHeader(h, length, other);
            var contract := MakeContract(other.payloadSize, Max(other.alignment, PayloadAlignment(shape.alignment)));
            && (v == Err(KindMismatch) <==> other.kind != shape.kind)
            && (v == Err(PayloadSizeMismatch) <==> other.kind == shape.kind && other.payloadSize != shape.payloadSize)
            && (v == Err(ElementSizeMismatch) <==>
                  other.kind == shape.kind && other.payloadSize == shape.payloadSize
                  && other.elementSize != shape.elementSize)
            && (v == Err(CapacityMismatch) <==>
                  other.kind == shape.kind && other.payloadSize == shape.payloadSize
                  && other.elementSize == shape.elementSize && other.capacity != shape.capacity)
            && (other == shape.(alignment := other.alignment) ==>
                  v == if contract.Ok? && length < contract.value.totalSize then Err(LayoutError.RegionTooSmall)
                       else contract)
  {
    ContractErrors(other.payloadSize, Max(other.alignment, PayloadAlignment(shape.alignment)));
  }

  lemma ContractErrors(payloadSize: Usize, alignment: Usize)
    ensures var contract := MakeContract(payloadSize, alignment);
            contract.Err? ==> contract.error == NotPowerOfTwo || contract.error == SizeOverflow
  {
  }

  lemma PlannedOffset(length: nat, shape: Shape, contract: Contract)
    requires PlanWrite(length, shape).Ok? && contract == PlanWrite(length, shape).value.0
    ensures HEADER_SIZE <= contract.payloadOffset && contract.payloadOffset % PayloadAlignment(shape.alignment) == 0
    ensures contract.payloadOffset + shape.payloadSize == contract.totalSize <= length
    ensures contract.payloadOffset < HEADER_SIZE + PayloadAlignment(shape.alignment)
  {
    OffsetIsLeast(shape.alignment);
  }

  lemma SameContract(payloadSize: Usize, alignment: Usize)
    ensures MakeContract(payloadSize, Max(alignment, PayloadAlignment(alignment)))
            == MakeContract(payloadSize, alignment)
  {
    assert PayloadAlignment(Max(alignment, PayloadAlignment(alignment))) == PayloadAlignment(alignment);
  }

  lemma ValidateSame(region: seq<Byte>, plan: (Contract, Header), shape: Shape)
    requires PlanWrite(|region|, shape) == Ok(plan)
    ensures |region| >= HEADER_SIZE && |plan.1.magic| == 8
    ensures ValidateLayoutBytes(Overwritten(region, plan.1), shape) == Ok(plan.0)
  {
    ValidateWritten(region, plan, shape, shape);
    SameContract(shape.payloadSize, shape.alignment);
  }

  /** Validating with the same parameters succeeds, with the same payload offset, aligned and inside
      the region. */
  lemma WriteThenValidate(region: seq<Byte>, plan: (Contract, Header), shape: Shape)
    requires PlanWrite(|region|, shape) == Ok(plan)
    ensures |region| >= HEADER_SIZE && |plan.1.magic| == 8
    ensures ValidateLayoutBytes(Overwritten(region, plan.1), shape) == Ok(plan.0)
    ensures HEADER_SIZE <= plan.0.payloadOffset && plan.0.payloadOffset % PayloadAlignment(shape.alignment) == 0
    ensures plan.0.payloadOffset + shape.payloadSize <= |region|
  {
    PlanSucceeds(|region|, shape);
    ValidateSame(region, plan, shape);
    PlannedOffset(|region|, shape, plan.0);
  }

  /** Two multiples of `m` less than `m` apart are equal. */
  lemma SameMultiple(x: nat, y: nat, m: nat)
    requires m > 0 && x % m == 0 && y % m == 0 && x < y + m && y < x + m
    ensures x == y
  {
    assert x == x / m * m && y == y / m * m;
    var d := x / m - y / m;
    assert d * m == x - y;
    if d != 0 {
      Bits.Multiples(m, d);
    }
  }

  /** Writer and reader may name different alignments. The reader then looks for the payload where it
      was written exactly when that place is aligned for both; validation does not tell the difference
      where the region is long enough for both. */
  lemma OffsetsAgree(region: seq<Byte>, plan: (Contract, Header), shape: Shape, other: Shape)
    requires PlanWrite(|region|, shape) == Ok(plan)
    ensures |region| >= HEADER_SIZE && |plan.1.magic| == 8
    ensures var found := ValidateLayoutBytes(Overwritten(region, plan.1), other);
            found.Ok? ==>
              (found.value.payloadOffset == plan.0.payloadOffset
               <==> plan.0.payloadOffset % PayloadAlignment(Max(other.alignment, shape.alignment)) == 0)
  {
    ValidateWritten(region, plan, shape, other);
    if ValidateLayoutBytes(Overwritten(region, plan.1), other).Err? {
      return;
    }
    var large := PayloadAlignment(Max(other.alignment, shape.alignment));
    PlannedOffset(|region|, shape, plan.0);
    assert PayloadAlignment(Max(other.alignment, PayloadAlignment(shape.alignment))) == large;
    assert PayloadAlignment(large) == large;
    OffsetIsLeast(large);
    if plan.0.payloadOffset % large == 0 {
      SameMultiple(plan.0.payloadOffset, PayloadOffset(large).value, large);
    }
  }

  /** Every larger power of two is a multiple of a smaller one. */
  lemma PowersDivide(small: nat, large: nat) returns (ratio: nat)
    requires Bits.IsPowerOfTwo(small) && Bits.IsPowerOfTwo(large) && small <= large
    ensures large == ratio * small
  {
    var a: nat :| small == Bits.Pow2(a);
    var b: nat :| large == Bits.Pow2(b);
    if a <= b {
      Bits.PowerSum(b - a, a);
      ratio := Bits.Pow2(b - a);
    } else {
      Bits.PowersGrow(b, a);
      ratio := 1;
    }
  }

  lemma MultipleOfMultiple(x: nat, small: nat, ratio: nat)
    requires small > 0 && ratio > 0 && x % (ratio * small) == 0
    ensures x % small == 0
  {
    var q := x / (ratio * small);
    assert x == q * (ratio * small) == (q * ratio) * small;
    Bits.ModUnique(x, small, q * ratio, 0);
  }

  lemma AlignedForLess(x: nat, small: nat, large: nat)
    requires Bits.IsPowerOfTwo(small) && Bits.IsPowerOfTwo(large) && 0 < small <= large && x % large == 0
    ensures x % small == 0
  {
    var ratio := PowersDivide(small, large);
    assert ratio != 0;
    MultipleOfMultiple(x, small, ratio);
  }

  /** A region that is less than the writer's alignment longer than the writer's contract leaves no room
      to disagree: a region of exactly the required size never does. */
  lemma TightRegionAgrees(region: seq<Byte>, plan: (Contract, Header), shape: Shape, other: Shape)
    requires PlanWrite(|region|, shape) == Ok(plan)
    requires |region| < plan.0.totalSize + PayloadAlignment(shape.alignment)
    ensures |region| >= HEADER_SIZE && |plan.1.magic| == 8
    ensures var found := ValidateLayoutBytes(Overwritten(region, plan.1), other);
            found.Ok? ==> found.value.payloadOffset == plan.0.payloadOffset
  {
    ValidateWritten(region, plan, shape, other);
    if ValidateLayoutBytes(Overwritten(region, plan.1), other).Err? {
      return;
    }
    var small, large := PayloadAlignment(shape.alignment), PayloadAlignment(Max(other.alignment, shape.alignment));
    PlannedOffset(|region|, shape, plan.0);
    assert PayloadAlignment(Max(other.alignment, small)) == large == PayloadAlignment(large);
    OffsetIsLeast(shape.alignment);
    OffsetIsLeast(large);
    AlignedForLess(PayloadOffset(large).value, small, large);
    SameMultiple(plan.0.payloadOffset, PayloadOffset(large).value, small);
  }

  /** Where the payload is: at the one multiple of the alignment within reach of the header. */
  lemma ContractAt(payloadSize: Usize, alignment: Usize, offset: nat)
    requires Bits.IsPowerOfTwo(alignment) && alignment >= HEADER_ALIGNMENT_MIN
    requires offset % alignment == 0 && HEADER_SIZE <= offset < HEADER_SIZE + alignment && payloadSize + offset < USIZE
    ensures MakeContract(payloadSize, alignment) == Ok(Contract(offset, payloadSize + offset))
  {
    OffsetIsLeast(alignment);
    SameMultiple(PayloadOffset(alignment).value, offset, alignment);
  }

  /** A reader that differs only in a larger alignment accepts every region with room for its own contract. */
  lemma FoundAt(region: seq<Byte>, plan: (Contract, Header), shape: Shape, other: Shape, far: nat)
    requires PlanWrite(|region|, shape) == Ok(plan) && other == shape.(alignment := other.alignment)
    requires Bits.IsPowerOfTwo(other.alignment) && HEADER_ALIGNMENT_MIN <= shape.alignment <= other.alignment
    requires far % other.alignment == 0 && HEADER_SIZE <= far < HEADER_SIZE + other.alignment
    requires far + shape.payloadSize <= |region| && far + shape.payloadSize < USIZE
    ensures |region| >= HEADER_SIZE && |plan.1.magic| == 8
    ensures ValidateLayoutBytes(Overwritten(region, plan.1), other) == Ok(Contract(far, far + shape.payloadSize))
  {
    ContractAt(shape.payloadSize, other.alignment, far);
    var wider := Max(other.alignment, PayloadAlignment(shape.alignment));
    assert wider == other.alignment;
    ValidateWritten(region, plan, shape, other);
  }

  lemma WrittenAt(length: nat, shape: Shape, contract: Contract, near: nat)
    requires PlanWrite(length, shape).Ok? && contract == PlanWrite(length, shape).value.0
    requires shape.alignment >= HEADER_ALIGNMENT_MIN
    requires near % shape.alignment == 0 && HEADER_SIZE <= near < HEADER_SIZE + shape.alignment
    ensures contract.payloadOffset == near
  {
    PlannedOffset(length, shape, contract);
    SameMultiple(contract.payloadOffset, near, shape.alignment);
  }

  /** On a region with slack, as rounding up to whole pages leaves it, such readers exist: one that asks
      for a larger alignment accepts the segment, and looks for the payload at its own aligned place. */
  lemma ReaderMissesPayload(region: seq<Byte>, plan: (Contract, Header), shape: Shape, other: Shape,
                            near: nat, far: nat)
    requires PlanWrite(|region|, shape) == Ok(plan)
    requires other == shape.(alignment := other.alignment) && Bits.IsPowerOfTwo(other.alignment)
    requires HEADER_ALIGNMENT_MIN <= shape.alignment <= other.alignment
    requires near % shape.alignment == 0 && HEADER_SIZE <= near < HEADER_SIZE + shape.alignment
    requires far % other.alignment == 0 && HEADER_SIZE <= far < HEADER_SIZE + other.alignment
    requires far + shape.payloadSize <= |region| && far + shape.payloadSize < USIZE
    ensures |region| >= HEADER_SIZE && |plan.1.magic| == 8 && plan.0.payloadOffset == near
    ensures ValidateLayoutBytes(Overwritten(region, plan.1), other) == Ok(Contract(far, far + shape.payloadSize))
  {
    WrittenAt(|region|, shape, plan.0, near);
    FoundAt(region, plan, shape, other, far);
  }

  /** For one, a reader with 64-byte alignment looks 8 bytes behind what was written with 8-byte alignment. */
  lemma EightBytesTooFar(region: seq<Byte>, plan: (Contract, Header), shape: Shape, other: Shape)
    requires PlanWrite(|region|, shape) == Ok(plan) && other == shape.(alignment := other.alignment)
    requires shape.alignment == 8 && other.alignment == 64
    requires 64 + shape.payloadSize <= |region| && 64 + shape.payloadSize < USIZE
    ensures |region| >= HEADER_SIZE && |plan.1.magic| == 8 && plan.0.payloadOffset == 56
    ensures ValidateLayoutBytes(Overwritten(region, plan.1), other) == Ok(Contract(64, 64 + shape.payloadSize))
  {
    assert Bits.Pow2(6) == 64;
    ReaderMissesPayload(region, plan, shape, other, 56, 64);
  }

  // ---- Every single changed byte is noticed ----

  /** The bytes the checksum is taken over. */
  function Zeroed(b: seq<Byte>): (z: seq<Byte>)
    requires |b| == HEADER_SIZE
    ensures |z| == HEADER_SIZE
  {
    b[..48] + [0, 0, 0, 0] + b[52..]
  }

  lemma ChecksumBytes(b: seq<Byte>)
    requires |b| == HEADER_SIZE
    ensures Encode(Decode(b).(checksum := 0)) == Zeroed(b)
  {
    var z := Zeroed(b);
    assert LittleEndian(0, 4) == [0, 0, 0, 0];
    assert Value([0, 0, 0, 0]) == 0 by {
      ValueOfBytes(0, 4);
    }
    ZeroedSlices(b);
    assert Decode(z) == Decode(b).(checksum := 0);
    EncodeDecode(z);
  }

  lemma ZeroedSlices(b: seq<Byte>)
    requires |b| == HEADER_SIZE
    ensures var z := Zeroed(b);
            && z[..8] == b[..8] && z[8..10] == b[8..10] && z[10..12] == b[10..12] && z[12..14] == b[12..14]
            && z[14..16] == b[14..16] && z[16..24] == b[16..24] && z[24..32] == b[24..32] && z[32..40] == b[32..40]
            && z[40..48] == b[40..48] && z[48..52] == [0, 0, 0, 0] && z[52..56] == b[52..56]
            && z[..HEADER_SIZE] == z
  {
  }

  /** What `ReadHeader` looks at first, in terms of the region's bytes. */
  lemma HeaderFields(region: seq<Byte>)
    requires |region| >= HEADER_SIZE
    ensures var h := Decode(region);
            h.magic == region[..8] && h.version == Value(region[8..10]) && h.checksum == Value(region[48..52])
    ensures ChecksumOf(Decode(region)) == Hash(OFFSET_BASIS, Zeroed(region[..HEADER_SIZE]))
  {
    var b := region[..HEADER_SIZE];
    assert region == b + region[HEADER_SIZE..];
    EncodeDecode(region);
    DecodeEncode(Decode(region), []);
    assert Encode(Decode(region)) + [] == b;
    ChecksumBytes(b);
  }

  lemma FieldChanges(b: seq<Byte>, i: nat, v: Byte, from: nat, to: nat)
    requires from <= i < to <= |b| && v != b[i]
    ensures Value(b[i := v][from..to]) != Value(b[from..to])
  {
    var c := b[i := v];
    assert c[from..to][i - from] != b[from..to][i - from];
    if Value(c[from..to]) == Value(b[from..to]) {
      ValueInjective(c[from..to], b[from..to]);
    }
  }

  /** The checksum taken over a header, and the one stored in it. */
  lemma ChangedChecksum(b: seq<Byte>, i: nat, v: Byte)
    requires |b| == HEADER_SIZE && 10 <= i < HEADER_SIZE && v != b[i]
    requires Hash(OFFSET_BASIS, Zeroed(b)) == Value(b[48..52])
    ensures Hash(OFFSET_BASIS, Zeroed(b[i := v])) != Value(b[i := v][48..52])
  {
    var c := b[i := v];
    if 48 <= i < 52 {
      assert Zeroed(c) == Zeroed(b);
      FieldChanges(b, i, v, 48, 52);
    } else {
      assert Zeroed(c) == Zeroed(b)[i := v] && Zeroed(b)[i] == b[i];
      assert c[48..52] == b[48..52];
      OneByteChangesHash(OFFSET_BASIS, Zeroed(b), i, v);
    }
  }

  function TamperError(i: nat): LayoutError {
    if i < 8 then MagicMismatch else if i < 10 then VersionMismatch else ChecksumFailed
  }

  lemma TamperedHead(region: seq<Byte>, i: nat, v: Byte)
    requires |region| >= HEADER_SIZE && i < 10 && v != region[i]
    requires region[..8] == Magic() && Value(region[8..10]) == VERSION
    ensures ReadHeader(region[i := v]) == Err(TamperError(i))
  {
    var c := region[i := v];
    HeaderFields(c);
    if i < 8 {
      assert c[..8][i] != region[..8][i];
    } else {
      assert c[..8] == region[..8];
      FieldChanges(region, i, v, 8, 10);
    }
  }

  /** Changing any single byte of a header that reads back makes it fail, and the byte's place decides
      which check notices. */
  lemma TamperedHeaderFails(region: seq<Byte>, i: nat, v: Byte)
    requires ReadHeader(region).Ok? && i < HEADER_SIZE
    ensures ReadHeader(region[i := v]).Ok? <==> v == region[i]
    ensures v != region[i] ==> ReadHeader(region[i := v]) == Err(TamperError(i))
  {
    var c := region[i := v];
    if v == region[i] {
      assert c == region;
    } else if i < 10 {
      HeaderFields(region);
      TamperedHead(region, i, v);
    } else {
      TamperedBody(region, i, v);
    }
  }

  lemma TamperedBody(region: seq<Byte>, i: nat, v: Byte)
    requires ReadHeader(region).Ok? && 10 <= i < HEADER_SIZE && v != region[i]
    ensures ReadHeader(region[i := v]) == Err(ChecksumFailed)
  {
    var c := region[i := v];
    HeaderFields(region);
    HeaderFields(c);
    SlicesOfUpdate(region, i, v);
    ChangedChecksum(region[..HEADER_SIZE], i, v);
  }

  lemma SlicesOfUpdate(region: seq<Byte>, i: nat, v: Byte)
    requires |region| >= HEADER_SIZE && 10 <= i < HEADER_SIZE
    ensures var (b, c) := (region[..HEADER_SIZE], region[i := v]);
            && c[..8] == region[..8] && c[8..10] == region[8..10] && c[..HEADER_SIZE] == b[i := v]
            && c[48..52] == b[i := v][48..52] && region[48..52] == b[48..52]
  {
  }
}
