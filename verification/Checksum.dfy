/** The header checksum, and why it notices every single changed byte. */
module Checksum {
  import opened Wrappers
  import opened Bits

  const OFFSET_BASIS: nat := 0x811C_9DC5
  const PRIME: nat := 0x0100_0193
  const MODULUS: nat := 0x1_0000_0000

  type U32 = x: int | 0 <= x < 0x1_0000_0000

  function WrappingMul(x: nat, y: nat): (r: U32) {
    x * y % MODULUS
  }

  function Mix(hash: U32, byte: Byte): U32 {
    WrappingMul(Xor(hash, byte), PRIME)
  }

  function Hash(hash: U32, bytes: seq<Byte>): U32
    decreases |bytes|
  {
    if bytes == [] then hash else Hash(Mix(hash, bytes[0]), bytes[1..])
  }

  method Checksum32(bytes: seq<Byte>) returns (hash: U32)
    ensures hash == Hash(OFFSET_BASIS, bytes)
  {
    hash := OFFSET_BASIS;
    for i := 0 to |bytes|
      invariant Hash(hash, bytes[i..]) == Hash(OFFSET_BASIS, bytes)
    {
      var mixed := Xor(hash, bytes[i]);
      hash := WrappingMul(mixed, PRIME);
      assert bytes[i..][1..] == bytes[i + 1..];
    }
  }

  lemma {:induction false} XorZero(x: nat)
    ensures Xor(x, 0) == x
    decreases x
  {
    if x != 0 {
      XorZero(x / 2);
    }
  }

  /** The hash is FNV-1a's: of the empty text its offset basis, and a zero byte multiplies by its prime. */
  lemma KnownHashes(hash: U32)
    ensures Hash(OFFSET_BASIS, []) == 0x811C_9DC5
    ensures Hash(hash, [0]) == hash * 0x0100_0193 % 0x1_0000_0000
  {
    var bytes: seq<Byte> := [0];
    XorZero(hash);
    assert bytes[1..] == [];
    assert Hash(hash, bytes) == Mix(hash, bytes[0]);
  }

  // ---- Each step is injective ----

  lemma {:induction false} XorLeft(x: nat, y: nat, z: nat)
    requires Xor(x, y) == Xor(x, z)
    ensures y == z
    decreases x + y + z
  {
    if x != 0 || y != 0 || z != 0 {
      XorLeft(x / 2, y / 2, z / 2);
    }
  }

  lemma {:induction false} XorCommutes(x: nat, y: nat)
    ensures Xor(x, y) == Xor(y, x)
    decreases x + y
  {
    if x != 0 || y != 0 {
      XorCommutes(x / 2, y / 2);
    }
  }

  lemma {:induction false} XorFits(x: nat, y: nat, k: nat)
    requires x < Pow2(k) && y < Pow2(k)
    ensures Xor(x, y) < Pow2(k)
    decreases k
  {
    if k > 0 && (x != 0 || y != 0) {
      XorFits(x / 2, y / 2, k - 1);
    }
  }

  /** The multiplier is odd, so multiplying by it loses nothing: it has an inverse. */
  lemma MulInjective(x: U32, y: U32)
    requires WrappingMul(x, PRIME) == WrappingMul(y, PRIME)
    ensures x == y
  {
    Unmultiply(x);
    Unmultiply(y);
  }

  // PRIME * INVERSE == 1 + MODULUS * COFACTOR
  const INVERSE: nat := 0x359C_449B
  const COFACTOR: nat := 0x35_9C99

  lemma Unmultiply(x: U32)
    ensures WrappingMul(WrappingMul(x, PRIME), INVERSE) == x
  {
    var r, k := x * PRIME % MODULUS, x * PRIME / MODULUS;
    assert x * PRIME == MODULUS * k + r;
    ModUnique(r * INVERSE, MODULUS, COFACTOR * x - INVERSE * k, x);
  }

  lemma MixInjective(g: U32, h: U32, a: Byte, b: Byte)
    requires Mix(g, a) == Mix(h, b)
    ensures a == b ==> g == h
    ensures g == h ==> a == b
  {
    WordPowers();
    XorFits(g, a, 32);
    XorFits(h, b, 32);
    MulInjective(Xor(g, a), Xor(h, b));
    if a == b {
      XorCommutes(g, a);
      XorCommutes(h, b);
      XorLeft(a, g, h);
    }
    if g == h {
      XorLeft(g, a, b);
    }
  }

  lemma {:induction false} HashInjective(g: U32, h: U32, bytes: seq<Byte>)
    requires Hash(g, bytes) == Hash(h, bytes)
    ensures g == h
    decreases |bytes|
  {
    if bytes != [] {
      HashInjective(Mix(g, bytes[0]), Mix(h, bytes[0]), bytes[1..]);
      MixInjective(g, h, bytes[0], bytes[0]);
    }
  }

  /** Changing one byte always changes the checksum. */
  lemma {:induction false} OneByteChangesHash(hash: U32, bytes: seq<Byte>, i: nat, b: Byte)
    requires i < |bytes|
    ensures Hash(hash, bytes[i := b]) == Hash(hash, bytes) <==> b == bytes[i]
    decreases |bytes|
  {
    var changed := bytes[i := b];
    if b == bytes[i] {
      assert changed == bytes;
    } else if Hash(hash, changed) == Hash(hash, bytes) {
      if i == 0 {
        assert changed[1..] == bytes[1..];
        HashInjective(Mix(hash, b), Mix(hash, bytes[0]), bytes[1..]);
        MixInjective(hash, hash, b, bytes[0]);
      } else {
        assert changed[1..] == bytes[1..][i - 1 := b];
        OneByteChangesHash(Mix(hash, bytes[0]), bytes[1..], i - 1, b);
      }
    }
  }
}
