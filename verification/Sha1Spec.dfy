/** SHA-1 as FIPS 180-3 states it: the 80-word message schedule and the
    round functions of sections 4.1.1 and 6.1.2, the padding of section 5.1.1. */
module Sha1Spec {
  import opened Octets
  import opened BlockFold
  import opened Sha1Padding

  type Word = bv32

  // The working variables a to e, or the hash value H0 to H4.
  type Hash = s: seq<Word> | |s| == 5 witness [0, 0, 0, 0, 0]

  // Section 5.3.1.
  const INITIAL: Hash := [0x67452301, 0xEFCDAB89, 0x98BADCFE, 0x10325476, 0xC3D2E1F0]

  // Section 3.2, operation 5.
  function Rotl(x: Word, n: Word): Word
    requires 0 < n < 32
  {
    (x << n) | (x >> (32 - n))
  }

  // Section 4.1.1.
  function Ch(x: Word, y: Word, z: Word): Word { (x & y) ^ (!x & z) }

  function Parity(x: Word, y: Word, z: Word): Word { x ^ y ^ z }

  function Maj(x: Word, y: Word, z: Word): Word { (x & y) ^ (x & z) ^ (y & z) }

  function ToWord(n: nat): Word
    requires n < 0x1_0000_0000
  {
    n as Word
  }

  /** Word t of a block, most significant octet first. */
  function BlockWord(block: Block, t: nat): Word
    requires t < 16
  {
    ToWord(Number(block[4 * t], block[4 * t + 1], block[4 * t + 2], block[4 * t + 3]))
  }

  /** The message schedule of section 6.1.2, step 1. */
  function Schedule(block: Block, t: nat): Word {
    if t < 16 then BlockWord(block, t)
    else Rotl(Schedule(block, t - 3) ^ Schedule(block, t - 8)
              ^ Schedule(block, t - 14) ^ Schedule(block, t - 16), 1)
  }

  function Words(block: Block): (w: seq<Word>)
    ensures |w| == 80
  {
    seq(80, t requires 0 <= t < 80 => Schedule(block, t))
  }

  /** Step 3 of section 6.1.2 with function value f and constant k. */
  function Mix(s: Hash, f: Word, k: Word, w: Word): Hash {
    [Rotl(s[0], 5) + f + s[4] + k + w, s[0], Rotl(s[1], 30), s[2], s[3]]
  }

  /** The constants of section 4.2.1. */
  function K(t: nat): Word {
    if t < 20 then 0x5A827999 else if t < 40 then 0x6ED9EBA1 else if t < 60 then 0x8F1BBCDC else 0xCA62C1D6
  }

  /** Step 3 for one t, with the functions of section 4.1.1. */
  function Round(s: Hash, t: nat, w: Word): Hash {
    if t < 20 then Mix(s, Ch(s[1], s[2], s[3]), K(t), w)
    else if t < 40 then Mix(s, Parity(s[1], s[2], s[3]), K(t), w)
    else if t < 60 then Mix(s, Maj(s[1], s[2], s[3]), K(t), w)
    else Mix(s, Parity(s[1], s[2], s[3]), K(t), w)
  }

  /** Step 3 for t = 0 to |w| - 1. */
  function Rounds(s: Hash, w: seq<Word>): Hash {
    if w == [] then s else Round(Rounds(s, w[..|w| - 1]), |w| - 1, w[|w| - 1])
  }

  /** Step 4: the five additions that close a block. */
  function Plus(h: Hash, r: Hash): Hash {
    [h[0] + r[0], h[1] + r[1], h[2] + r[2], h[3] + r[3], h[4] + r[4]]
  }

  /** Section 6.1.2: one block folded into the hash value. */
  function Compress(h: Hash, block: Block): Hash {
    Plus(h, Rounds(h, Words(block)))
  }

  function Digest(h: Hash): seq<Octet> {
    Written(h[0] as nat, h[1] as nat, h[2] as nat, h[3] as nat, h[4] as nat)
  }

  function Written(a: nat, b: nat, c: nat, d: nat, e: nat): seq<Octet> {
    PutU32(a) + PutU32(b) + PutU32(c) + PutU32(d) + PutU32(e)
  }

  /** The SHA-1 digest of section 6.1. */
  function Sha1(m: seq<Octet>): seq<Octet> {
    Digest(Fold(Compress, INITIAL, m + Padding(|m|)))
  }
}
