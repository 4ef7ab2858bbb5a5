/** Byte strings as the wire and the disk carry them. */
module ByteStrings {

  type byte = x: int | 0 <= x < 256
  type Bytes = seq<byte>

  const TWO16 := 0x1_0000
  const TWO31 := 0x8000_0000
  const TWO32 := 0x1_0000_0000
  const TWO63 := 0x8000_0000_0000_0000
  const TWO64 := 0x1_0000_0000_0000_0000

  type u16 = x: int | 0 <= x < 0x1_0000
  type u32 = x: int | 0 <= x < 0x1_0000_0000
  type u64 = x: int | 0 <= x < 0x1_0000_0000_0000_0000

  datatype Option<+T> = None | Some(value: T)

  /** The cast (int) applied to an unsigned value: the low 32 bits, read as two's complement. */
  function ToInt32(x: nat): int {
    var low := x % TWO32;
    if low < TWO31 then low else low - TWO32
  }

  /** The cast (qint64) applied to a quint64. */
  function ToInt64(x: u64): int {
    if x < TWO63 then x else x - TWO64
  }

  lemma ToInt64Injective(x: u64, y: u64)
    requires ToInt64(x) == ToInt64(y)
    ensures x == y
  {
  }

  /** Big-endian 16-bit and 32-bit words. */
  function Word16(x: u16): (r: Bytes)
    ensures |r| == 2
  {
    [x / 256, x % 256]
  }

  function Word32(x: u32): (r: Bytes)
    ensures |r| == 4
  {
    Word16(x / TWO16) + Word16(x % TWO16)
  }

  function FromWord16(b: Bytes): u16
    requires |b| == 2
  {
    b[0] as int * 256 + b[1] as int
  }

  function FromWord32(b: Bytes): u32
    requires |b| == 4
  {
    FromWord16(b[..2]) as int * TWO16 + FromWord16(b[2..]) as int
  }

  lemma Word32RoundTrip(x: u32)
    ensures FromWord32(Word32(x)) == x
  {
    var w := Word32(x);
    assert w[..2] == Word16(x / TWO16) && w[2..] == Word16(x % TWO16);
  }

  /** The concatenation of a list of byte strings. */
  function Concat(parts: seq<Bytes>): (r: Bytes) {
    if parts == [] then [] else parts[0] + Concat(parts[1..])
  }

  lemma {:induction false} ConcatAppend(a: seq<Bytes>, b: seq<Bytes>)
    ensures Concat(a + b) == Concat(a) + Concat(b)
  {
    if a == [] {
      assert a + b == b;
    } else {
      assert (a + b)[1..] == a[1..] + b;
      ConcatAppend(a[1..], b);
    }
  }

  lemma ConcatOne(b: Bytes)
    ensures Concat([b]) == b
  {
  }

  lemma SliceOfSlice(b: Bytes, lo: nat, hi: nat, i: nat, j: nat)
    requires lo <= hi <= |b| && i <= j <= hi - lo
    ensures b[lo..hi][i..j] == b[lo + i..lo + j]
  {
    var inner, outer := b[lo..hi][i..j], b[lo + i..lo + j];
    assert |inner| == |outer|;
    assert forall k :: 0 <= k < |inner| ==> inner[k] == outer[k];
  }

  /** The bytes of an ASCII literal. */
  function Ascii(s: string): (r: Bytes)
    ensures |r| == |s|
  {
    seq(|s|, i requires 0 <= i < |s| => s[i] as int % 256)
  }

  function Zeros(n: nat): (r: Bytes)
    ensures |r| == n
    ensures forall i :: 0 <= i < n ==> r[i] == 0
  {
    seq(n, i => 0)
  }
}
