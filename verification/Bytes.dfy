/** Bytes and the little-endian integers the serializer copies into the stream. */
module Bytes {

  newtype byte = i: int | 0 <= i < 256

  const U32_SIZE: nat := 4
  const U64_SIZE: nat := 8
  const U32_LIMIT: nat := 0x1_0000_0000
  const U64_LIMIT: nat := 0x1_0000_0000_0000_0000

  type u32 = n: nat | n < U32_LIMIT
  type u64 = n: nat | n < U64_LIMIT

  function EncodeU32(n: u32): (r: seq<byte>)
    ensures |r| == U32_SIZE
  {
    [(n % 256) as byte, (n / 256 % 256) as byte, (n / 65536 % 256) as byte, (n / 16777216) as byte]
  }

  function DecodeU32(b: seq<byte>): u32
    requires |b| == U32_SIZE
  {
    b[0] as nat + 256 * (b[1] as nat) + 65536 * (b[2] as nat) + 16777216 * (b[3] as nat)
  }

  function EncodeU64(n: u64): (r: seq<byte>)
    ensures |r| == U64_SIZE
  {
    EncodeU32(n % U32_LIMIT) + EncodeU32(n / U32_LIMIT)
  }

  function DecodeU64(b: seq<byte>): u64
    requires |b| == U64_SIZE
  {
    DecodeU32(b[..4]) + U32_LIMIT * DecodeU32(b[4..])
  }

  lemma U32RoundTrip(n: u32)
    ensures DecodeU32(EncodeU32(n)) == n
  {
    assert n / 65536 == n / 256 / 256;
    assert n / 16777216 == n / 65536 / 256;
  }

  lemma U64RoundTrip(n: u64)
    ensures DecodeU64(EncodeU64(n)) == n
  {
    U32RoundTrip(n % U32_LIMIT);
    U32RoundTrip(n / U32_LIMIT);
    assert EncodeU64(n)[..4] == EncodeU32(n % U32_LIMIT);
    assert EncodeU64(n)[4..] == EncodeU32(n / U32_LIMIT);
  }

  /** The bytes are the digits of the word, the lowest first. */
  lemma U32IsLittleEndian(n: u32)
    ensures var b := EncodeU32(n);
            n == b[0] as nat + 0x100 * (b[1] as nat) + 0x1_0000 * (b[2] as nat) + 0x100_0000 * (b[3] as nat)
  {
    U32RoundTrip(n);
  }

  lemma U64IsLittleEndian(n: u64)
    ensures var b := EncodeU64(n);
            n == b[0] as nat + 0x100 * (b[1] as nat) + 0x1_0000 * (b[2] as nat) + 0x100_0000 * (b[3] as nat)
                 + 0x1_0000_0000 * (b[4] as nat) + 0x100_0000_0000 * (b[5] as nat)
                 + 0x1_0000_0000_0000 * (b[6] as nat) + 0x100_0000_0000_0000 * (b[7] as nat)
  {
    hide EncodeU32;
    U32IsLittleEndian(n % U32_LIMIT);
    U32IsLittleEndian(n / U32_LIMIT);
    assert n == n % U32_LIMIT + 0x1_0000_0000 * (n / U32_LIMIT);
  }

  /** Two words with the same four bytes are the same word. */
  lemma U32Injective(a: u32, b: u32)
    requires EncodeU32(a) == EncodeU32(b)
    ensures a == b
  {
    U32RoundTrip(a);
    U32RoundTrip(b);
  }

  lemma LowDigit(d: byte, rest: nat)
    ensures (d as nat + 256 * rest) / 256 == rest && (d as nat + 256 * rest) % 256 == d as nat
  {
  }

  /** Any four bytes are a word. */
  lemma U32OfBytes(b: seq<byte>)
    requires |b| == U32_SIZE
    ensures EncodeU32(DecodeU32(b)) == b
  {
    var n3 := b[3] as nat;
    var n2 := b[2] as nat + 256 * n3;
    var n1 := b[1] as nat + 256 * n2;
    var n := DecodeU32(b);
    LowDigit(b[2], n3);
    LowDigit(b[1], n2);
    LowDigit(b[0], n1);
    assert n == b[0] as nat + 256 * n1;
    assert n / 65536 == n / 256 / 256 == n2 && n / 16777216 == n / 65536 / 256 == n3;
  }

  lemma U64OfBytes(b: seq<byte>)
    requires |b| == U64_SIZE
    ensures EncodeU64(DecodeU64(b)) == b
  {
    hide EncodeU32, DecodeU32;
    U32OfBytes(b[..4]);
    U32OfBytes(b[4..]);
    assert DecodeU64(b) % U32_LIMIT == DecodeU32(b[..4]) && DecodeU64(b) / U32_LIMIT == DecodeU32(b[4..]);
  }

  /** A signed 32-bit integer in two's complement. */
  type i32 = n: int | -0x8000_0000 <= n < 0x8000_0000

  function Unsigned(n: i32): u32 {
    if n >= 0 then n else n + U32_LIMIT
  }

  function Signed(n: u32): i32 {
    if n < 0x8000_0000 then n else n - U32_LIMIT
  }

  /** The word is the integer but for multiples of 2^32. */
  lemma TwosComplement(n: i32)
    ensures (Unsigned(n) - n) % 0x1_0000_0000 == 0 && Signed(Unsigned(n)) == n
  {
  }

  /** The concatenation of a sequence of byte strings. */
  function Flat(parts: seq<seq<byte>>): seq<byte> {
    if parts == [] then [] else parts[0] + Flat(parts[1..])
  }

  lemma {:induction false} FlatAppend(a: seq<seq<byte>>, b: seq<seq<byte>>)
    ensures Flat(a + b) == Flat(a) + Flat(b)
  {
    if a == [] {
      assert a + b == b;
    } else {
      var rest := a[1..] + b;
      FlatAppend(a[1..], b);
      assert (a + b)[1..] == rest && (a + b)[0] == a[0];
      assert Flat(a + b) == a[0] + Flat(rest);
    }
  }

  lemma Assoc<T>(a: seq<T>, b: seq<T>, c: seq<T>)
    ensures (a + b) + c == a + (b + c)
  {
  }
}
