/** The message padding of section 5.1.1 of FIPS 180-3 and the two-word length counter. */
module Sha1Padding {
  import opened Octets

  /** The low 64 bits of the bit length of n octets, big-endian. */
  function LengthField(n: nat): (r: seq<Octet>)
    ensures |r| == 8
  {
    PutU32(8 * n / 0x1_0000_0000) + PutU32(8 * n)
  }

  function Zeros(n: nat): (z: seq<Octet>)
    ensures |z| == n
  {
    seq(n, _ => 0)
  }

  function Padding(n: nat): seq<Octet> {
    [0x80] + Zeros((119 - n % 64) % 64) + LengthField(n)
  }

  /** FIPS 180-3 asks for the least number of zero octets that reaches 56 modulo 64. */
  lemma PaddingIsLeast(n: nat, k: nat)
    requires (n + 1 + k) % 64 == 56
    ensures |Padding(n)| <= 1 + k + 8
    ensures (n + |Padding(n)|) % 64 == 0
  {
    LeastZeros(n, k);
  }

  lemma LeastZeros(n: nat, k: nat)
    requires (n + 1 + k) % 64 == 56
    ensures (119 - n % 64) % 64 <= k
    ensures (n + 1 + (119 - n % 64) % 64 + 8) % 64 == 0
  {
  }

  /** The length field is the bit length exactly when the standard admits the message. */
  lemma LengthFieldValue(n: nat)
    ensures Value(LengthField(n)) == 8 * n <==> n < 0x2000_0000_0000_0000
  {
    ValueOfU32(8 * n / 0x1_0000_0000);
    ValueAfterU32(PutU32(8 * n / 0x1_0000_0000), 8 * n);
  }

  /** total1 and total0 are the words of n after the counter has wrapped round wraps times. */
  ghost predicate Counts(total0: int, total1: int, wraps: nat, n: nat) {
    && 0 <= total0 < 0x1_0000_0000 && 0 <= total1 < 0x1_0000_0000
    && n == 0x1_0000_0000_0000_0000 * wraps + 0x1_0000_0000 * total1 + total0
  }

  lemma LowBits(total0: nat, total1: nat, wraps: nat, n: nat, blocks: nat)
    requires Counts(total0, total1, wraps, n) && 64 * blocks <= n < 64 * blocks + 64
    ensures total0 % 64 == n - 64 * blocks
  {
    var high := 0x400_0000_0000_0000 * wraps + 0x400_0000 * total1;
    assert total0 == 64 * (blocks - high) + (n - 64 * blocks);
  }

  /** PutU32 sees the low 32 bits only. */
  lemma PutLow(x: nat, q: nat, low: nat)
    requires x == 0x1_0000_0000 * q + low
    ensures PutU32(x) == PutU32(low)
  {
    assert x / 0x100_0000 == 256 * q + low / 0x100_0000;
    assert x / 0x1_0000 == 256 * (256 * q) + low / 0x1_0000;
    assert x / 0x100 == 256 * (0x1_0000 * q) + low / 0x100;
    DropHigh(q, low / 0x100_0000);
    DropHigh(256 * q, low / 0x1_0000);
    DropHigh(0x1_0000 * q, low / 0x100);
    DropHigh(0x100_0000 * q, low);
  }

  /** The words high and low of the source's finish are the 64-bit length field.
      The operands of its | share no bit, so it adds. */
  lemma LengthAgrees(total0: nat, total1: nat, wraps: nat, n: nat)
    requires Counts(total0, total1, wraps, n)
    ensures total0 / 0x2000_0000 < 8 && (total1 * 8) % 0x1_0000_0000 % 8 == 0
    ensures PutU32(total0 / 0x2000_0000 + (total1 * 8) % 0x1_0000_0000)
         + PutU32((total0 * 8) % 0x1_0000_0000) == LengthField(n)
  {
    var high := total0 / 0x2000_0000 + (total1 * 8) % 0x1_0000_0000;
    var q := 8 * wraps + (total1 * 8) / 0x1_0000_0000;
    var upper := 0x1_0000_0000 * q + high;
    EightTimes(total0, total1, wraps, n);
    PutLow(upper, q, high);
    PutLow(8 * n, upper, (total0 * 8) % 0x1_0000_0000);
  }

  lemma EightTimes(total0: nat, total1: nat, wraps: nat, n: nat)
    requires Counts(total0, total1, wraps, n)
    ensures var upper := 0x1_0000_0000 * (8 * wraps + (total1 * 8) / 0x1_0000_0000)
                         + (total0 / 0x2000_0000 + (total1 * 8) % 0x1_0000_0000);
            8 * n == 0x1_0000_0000 * upper + (total0 * 8) % 0x1_0000_0000 && 8 * n / 0x1_0000_0000 == upper
    ensures total0 / 0x2000_0000 < 8 && (total1 * 8) % 0x1_0000_0000 % 8 == 0
  {
    assert total1 * 8 == 0x1_0000_0000 * ((total1 * 8) / 0x1_0000_0000) + (total1 * 8) % 0x1_0000_0000;
    assert total0 * 8 == 0x1_0000_0000 * (total0 / 0x2000_0000) + (total0 * 8) % 0x1_0000_0000;
  }

  const PADDING: seq<Octet> := [0x80] + Zeros(63)

  /** Whatever the tail length, the two appends of the source's finish add the padding. */
  lemma PaddingParts(n: nat, last: nat, blocks: nat, padn: nat)
    requires n == 64 * blocks + last && last < 64
    requires padn == if last < 56 then 56 - last else 120 - last
    ensures padn <= 64 && PADDING[..padn] + LengthField(n) == Padding(n)
    ensures n + |Padding(n)| == 64 * blocks + (if last < 56 then 64 else 128)
  {
    assert n % 64 == last;
    assert PADDING[..padn] == [0x80] + Zeros((119 - n % 64) % 64);
  }
}
