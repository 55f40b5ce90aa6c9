/** The streaming SHA-1 of selib.c, refining Sha1Spec. */
module Sha1 {
  import opened Octets
  import opened BlockFold
  import opened Sha1Padding
  import opened Sha1Spec

  // The round functions and constants as the source's macros write them.
  function Ft1(x: Word, y: Word, z: Word): Word { (x & (y ^ z)) ^ z }
  function Ft2(x: Word, y: Word, z: Word): Word { x ^ y ^ z }
  function Ft3(x: Word, y: Word, z: Word): Word { (x & y) | ((x | y) & z) }
  function Ft4(x: Word, y: Word, z: Word): Word { x ^ y ^ z }

  lemma SelectBits(x: Word, y: Word, z: Word)
    ensures (x & (y ^ z)) ^ z == (x & y) ^ (!x & z)
  {
  }

  lemma MajorityBits(x: Word, y: Word, z: Word)
    ensures (x & y) | ((x | y) & z) == (x & y) ^ (x & z) ^ (y & z)
  {
  }

  lemma SumReordered(w: Word, e: Word, r: Word, f: Word, k: Word)
    ensures (w + (e + r)) + (f + k) == r + f + e + k + w
  {
  }

  lemma Ft1IsCh(x: Word, y: Word, z: Word)
    ensures Ft1(x, y, z) == Ch(x, y, z)
  {
    SelectBits(x, y, z);
  }

  lemma Ft3IsMaj(x: Word, y: Word, z: Word)
    ensures Ft3(x, y, z) == Maj(x, y, z)
  {
    MajorityBits(x, y, z);
  }

  /** The three additions of the source's loop give the sum of section 6.1.2. */
  lemma MixAgrees(s: Hash, f: Word, k: Word, w: Word)
    ensures [w + (s[4] + Rotl(s[0], 5)) + (f + k), s[0], Rotl(s[1], 30), s[2], s[3]] == Mix(s, f, k, w)
  {
    SumReordered(w, s[4], Rotl(s[0], 5), f, k);
  }

  /** W holds the 16 schedule words before word i, each at its index modulo 16. */
  ghost predicate Circular(W: seq<Word>, block: Block, i: nat) {
    && |W| == 16
    && forall j: nat {:trigger Schedule(block, j)} :: i - 16 <= j < i ==> W[j % 16] == Schedule(block, j)
  }

  ghost predicate FirstWords(W: seq<Word>, block: Block, i: nat) {
    |W| == 16 && i <= 16 && forall j :: 0 <= j < i ==> W[j] == BlockWord(block, j)
  }

  lemma FirstWord(W: seq<Word>, block: Block, i: nat)
    requires FirstWords(W, block, i) && i < 16
    ensures FirstWords(W[i := BlockWord(block, i)], block, i + 1)
  {
  }

  lemma SixteenWords(W: seq<Word>, block: Block)
    requires FirstWords(W, block, 16)
    ensures Circular(W, block, 16)
  {
    forall j: nat | j < 16 ensures W[j % 16] == Schedule(block, j) {
      Index(0, j);
      assert W[j] == BlockWord(block, j);
    }
  }

  lemma Index(q: nat, r: nat)
    requires r < 16
    ensures (16 * q + r) % 16 == r
  {
    ModUnique(16, q, r);
  }

  /** The index of the word d before word i is also that of the word 16 - d behind it. */
  lemma SameIndex(i: nat, d: nat)
    requires d <= 16 <= i
    ensures (i - d) % 16 == (i + (16 - d)) % 16
  {
    var q, r := (i - d) / 16, (i - d) % 16;
    assert i + (16 - d) == 16 * (q + 1) + r;
    Index(q + 1, r);
  }

  lemma OtherIndex(i: nat, j: nat)
    requires j < i < j + 16
    ensures j % 16 != i % 16
  {
    var q, r := j / 16, j % 16;
    var s := r + (i - j);
    if s < 16 {
      Index(q, s);
    } else {
      Index(q + 1, s - 16);
    }
  }

  lemma CircularIndices(W: seq<Word>, block: Block, i: nat)
    requires Circular(W, block, i) && i >= 16
    ensures W[i % 16] == Schedule(block, i - 16)
    ensures W[(i + 2) % 16] == Schedule(block, i - 14)
    ensures W[(i + 8) % 16] == Schedule(block, i - 8)
    ensures W[(i + 13) % 16] == Schedule(block, i - 3)
  {
    SameIndex(i, 16);
    SameIndex(i, 14);
    SameIndex(i, 8);
    SameIndex(i, 3);
  }

  lemma XorReversed(p: Word, q: Word, r: Word, s: Word)
    ensures Rotl(p ^ q ^ r ^ s, 1) == Rotl(s ^ r ^ q ^ p, 1)
  {
  }

  lemma ScheduleReversed(block: Block, i: nat, p: Word, q: Word, r: Word, s: Word)
    requires i >= 16
    requires p == Schedule(block, i - 16) && q == Schedule(block, i - 14)
    requires r == Schedule(block, i - 8) && s == Schedule(block, i - 3)
    ensures Rotl(p ^ q ^ r ^ s, 1) == Schedule(block, i)
  {
    XorReversed(p, q, r, s);
  }

  lemma CircularNext(W: seq<Word>, block: Block, i: nat)
    requires Circular(W, block, i) && i >= 16
    ensures Circular(W[i % 16 := Schedule(block, i)], block, i + 1)
  {
    var next := W[i % 16 := Schedule(block, i)];
    forall j: nat | i - 15 <= j < i + 1 ensures next[j % 16] == Schedule(block, j) {
      if j < i {
        OtherIndex(i, j);
      }
    }
  }

  lemma RoundsStep(s: Hash, block: Block, i: nat)
    requires i < 80
    ensures Rounds(s, Words(block)[..i + 1]) == Round(Rounds(s, Words(block)[..i]), i, Schedule(block, i))
  {
    var w := Words(block)[..i + 1];
    assert w[..i] == Words(block)[..i];
  }

  type BlockFunction = (Hash, Block) -> Hash

  /** f is the block function. The trigger keeps Compress closed where only f is used. */
  ghost predicate IsCompress(f: BlockFunction) {
    forall h: Hash, b: Block {:trigger Compress(h, b)} :: f(h, b) == Compress(h, b)
  }

  class Sha1Ctx {
    var total0: int
    var total1: int
    var state: Hash
    const buffer: array<Octet>
    ghost var wraps: nat
    ghost var blocks: nat

    /** The context after the octets m, for block function f and first hash value h0: state is the
        fold of the complete blocks, buffer starts with the rest, the counters hold the length. */
    ghost predicate Holds(m: seq<Octet>, f: BlockFunction, h0: Hash)
      reads this, buffer
    {
      && Counts(total0, total1, wraps, |m|)
      && Folded(m, f, h0)
      && |m| < 64 * blocks + 64
      && buffer[..|m| - 64 * blocks] == m[64 * blocks..]
    }

    ghost predicate Folded(m: seq<Octet>, f: BlockFunction, h0: Hash)
      reads this, buffer
    {
      && buffer.Length == 64 && 64 * blocks <= |m|
      && state == Fold(f, h0, m[..64 * blocks])
    }

    constructor (ghost f: BlockFunction)
      ensures state == INITIAL && Holds([], f, state) && fresh(buffer)
    {
      total0, total1 := 0, 0;
      state := INITIAL;
      buffer := new Octet[64];
      wraps, blocks := 0, 0;
    }

    /** The source's a to e are v[0] to v[4], its temp the first element of the new v. */
    method Process(data: Block, ghost f: BlockFunction)
      requires IsCompress(f)
      modifies this`state
      ensures state == f(old(state), data)
    {
      var W := Load(data);
      var v: Hash := state;
      for i := 0 to 80
        invariant state == old(state)
        invariant v == Rounds(state, Words(data)[..i])
        invariant Circular(W[..], data, if i < 16 then 16 else i)
      {
        if i >= 16 {
          Expand(W, i, data);
        }
        v := NextRound(i, W[i % 16], v, state, data);
      }
      assert Words(data)[..80] == Words(data);
      state := Plus(state, v);
      assert state == Compress(old(state), data);
    }

    static method Load(data: Block) returns (W: array<Word>)
      ensures fresh(W) && Circular(W[..], data, 16)
    {
      W := new Word[16];
      for i := 0 to 16
        invariant FirstWords(W[..], data, i)
      {
        ghost var before := W[..];
        W[i] := BlockWord(data, i);
        FirstWord(before, data, i);
        assert W[..] == before[i := BlockWord(data, i)];
      }
      SixteenWords(W[..], data);
    }

    /** Section 6.1.3: schedule word i overwrites word i - 16. */
    static method Expand(W: array<Word>, i: nat, ghost data: Block)
      requires Circular(W[..], data, i) && i >= 16
      modifies W
      ensures Circular(W[..], data, i + 1)
    {
      ghost var before := W[..];
      CircularIndices(before, data, i);
      var p, q, r, s := W[i % 16], W[(i + 2) % 16], W[(i + 8) % 16], W[(i + 13) % 16];
      ScheduleReversed(data, i, p, q, r, s);
      CircularNext(before, data, i);
      W[i % 16] := Rotl(p ^ q ^ r ^ s, 1);
      assert W[..] == before[i % 16 := Schedule(data, i)];
    }

    static method NextRound(i: nat, w: Word, v: Hash, ghost s: Hash, ghost data: Block) returns (r: Hash)
      requires i < 80 && v == Rounds(s, Words(data)[..i]) && w == Schedule(data, i)
      ensures r == Rounds(s, Words(data)[..i + 1])
    {
      RoundsStep(s, data, i);
      r := Turn(i, w, v);
    }

    /** The loop body after the schedule word is known. */
    static method Turn(i: nat, w: Word, v: Hash) returns (r: Hash)
      ensures r == Round(v, i, w)
    {
      Ft1IsCh(v[1], v[2], v[3]);
      Ft3IsMaj(v[1], v[2], v[3]);
      if i < 20 {
        r := Rotate(w, Ft1(v[1], v[2], v[3]), 0x5A827999, v);
      } else if i < 40 {
        r := Rotate(w, Ft2(v[1], v[2], v[3]), 0x6ED9EBA1, v);
      } else if i < 60 {
        r := Rotate(w, Ft3(v[1], v[2], v[3]), 0x8F1BBCDC, v);
      } else {
        r := Rotate(w, Ft4(v[1], v[2], v[3]), 0xCA62C1D6, v);
      }
    }

    static method Rotate(w: Word, f: Word, k: Word, v: Hash) returns (r: Hash)
      ensures r == Mix(v, f, k, w)
    {
      MixAgrees(v, f, k, w);
      r := [w + (v[4] + Rotl(v[0], 5)) + (f + k), v[0], Rotl(v[1], 30), v[2], v[3]];
    }

    /** memcpy into the block buffer. */
    method Copy(start: nat, data: seq<Octet>)
      requires start + |data| <= buffer.Length
      modifies buffer
      ensures buffer[..] == old(buffer[..start]) + data + old(buffer[start + |data|..])
    {
      forall i | 0 <= i < |data| {
        buffer[start + i] := data[i];
      }
    }

    /** The two-word length counter with its carry. */
    method Count(len: nat, ghost n: nat)
      requires len < 0x1_0000_0000 && Counts(total0, total1, wraps, n)
      modifies this`total0, this`total1, this`wraps
      ensures Counts(total0, total1, wraps, n + len)
    {
      total0 := (total0 + len) % 0x1_0000_0000;
      if total0 < len {
        if total1 == 0xFFFF_FFFF {
          wraps := wraps + 1;
        }
        total1 := (total1 + 1) % 0x1_0000_0000;
      }
    }

    /** Process for the next block of all. */
    method Absorb(data: Block, ghost all: seq<Octet>, ghost f: BlockFunction, ghost h0: Hash)
      requires IsCompress(f) && Folded(all, f, h0)
      requires 64 * blocks + 64 <= |all| && data == all[64 * blocks..64 * blocks + 64]
      modifies this`state, this`blocks
      ensures Folded(all, f, h0) && blocks == old(blocks) + 1
    {
      FoldStep(f, h0, all, blocks);
      Process(data, f);
      blocks := blocks + 1;
    }

    method Append(data: seq<Octet>, ghost m: seq<Octet>, ghost f: BlockFunction, ghost h0: Hash)
      requires Holds(m, f, h0) && IsCompress(f)
      requires |data| < 0x1_0000_0000
      modifies this, buffer
      ensures Holds(m + data, f, h0)
    {
      ghost var all := m + data;
      LowBits(total0, total1, wraps, |m|, blocks);
      var left := total0 % 64;
      var fill := 64 - left;
      Count(|data|, |m|);
      assert all[..64 * blocks] == m[..64 * blocks];
      var len, at := |data|, 0;
      if left != 0 && len >= fill {
        JoinTail(buffer[..left], data, fill, m, blocks);
        Copy(left, data[..fill]);
        assert buffer[..] == all[64 * blocks..64 * blocks + 64];
        Absorb(buffer[..], all, f, h0);
        len, at, left := len - fill, fill, 0;
      }
      left, len, at := WholeBlocks(data, left, len, at, m, f, h0);
      TailSoFar(buffer[..left], data, at, m, blocks);
      if len != 0 {
        Copy(left, data[at..]);
      }
      assert buffer[..left + len] == all[64 * blocks..];
    }

    /** The loop over whole blocks of the input. */
    method WholeBlocks(data: seq<Octet>, left0: nat, len0: nat, at0: nat,
                       ghost m: seq<Octet>, ghost f: BlockFunction, ghost h0: Hash)
      returns (left: nat, len: nat, at: nat)
      requires IsCompress(f) && Folded(m + data, f, h0)
      requires at0 + len0 == |data| && |m| + at0 == 64 * blocks + left0
      requires left0 != 0 ==> left0 + len0 < 64
      modifies this`state, this`blocks
      ensures left == left0 && len < 64 && at + len == |data| && |m| + at == 64 * blocks + left
      ensures Folded(m + data, f, h0)
      ensures left0 != 0 ==> at == at0 && blocks == old(blocks)
    {
      left, len, at := left0, len0, at0;
      while len >= 64
        invariant at + len == |data| && |m| + at == 64 * blocks + left
        invariant Folded(m + data, f, h0)
        invariant left0 != 0 ==> len == len0 && blocks == old(blocks)
      {
        SliceRight(m, data, at, 64);
        Absorb(data[at..at + 64], m + data, f, h0);
        len, at := len - 64, at + 64;
      }
    }

    /** The two appends of finish. */
    method AppendTwo(first: seq<Octet>, second: seq<Octet>, ghost m: seq<Octet>, ghost f: BlockFunction, ghost h0: Hash,
                     ghost count: nat)
      requires Holds(m, f, h0) && IsCompress(f)
      requires |first| <= 64 && |second| <= 64 && |m| + |first| + |second| == 64 * count
      modifies this, buffer
      ensures state == Fold(f, h0, m + (first + second))
    {
      Append(first, m, f, h0);
      Append(second, m + first, f, h0);
      WholeMessage(m, first, second, blocks, count);
    }

    method Finish(ghost m: seq<Octet>, ghost f: BlockFunction, ghost h0: Hash)
      requires Holds(m, f, h0) && IsCompress(f)
      modifies this, buffer
      ensures state == Fold(f, h0, m + Padding(|m|))
    {
      LengthAgrees(total0, total1, wraps, |m|);
      LowBits(total0, total1, wraps, |m|, blocks);
      var high := total0 / 0x2000_0000 + (total1 * 8) % 0x1_0000_0000;
      var low := (total0 * 8) % 0x1_0000_0000;
      var last := total0 % 64;
      var padn := if last < 56 then 56 - last else 120 - last;
      PaddingParts(|m|, last, blocks, padn);
      AppendTwo(PADDING[..padn], PutU32(high) + PutU32(low), m, f, h0, blocks + (if last < 56 then 1 else 2));
    }

    /** The digest of everything appended; the source writes it out at the end of finish. */
    method Output(ghost m: seq<Octet>) returns (digest: seq<Octet>)
      requires Holds(m, Compress, INITIAL)
      modifies this, buffer
      ensures digest == Sha1(m)
    {
      Finish(m, Compress, INITIAL);
      digest := Digest(state);
    }
  }

  lemma JoinTail(tail: seq<Octet>, data: seq<Octet>, fill: nat, m: seq<Octet>, blocks: nat)
    requires 64 * blocks + |tail| == |m| && tail == m[64 * blocks..]
    requires |tail| + fill == 64 && fill <= |data|
    ensures tail + data[..fill] == (m + data)[64 * blocks..64 * blocks + 64]
  {
  }

  lemma WholeMessage(m: seq<Octet>, first: seq<Octet>, second: seq<Octet>, blocks: nat, count: nat)
    requires |m| + |first| + |second| == 64 * count
    requires 64 * blocks <= |m + first + second| < 64 * blocks + 64
    ensures (m + first + second)[..64 * blocks] == m + (first + second)
  {
    assert blocks == count;
  }

  lemma TailSoFar(tail: seq<Octet>, data: seq<Octet>, at: nat, m: seq<Octet>, blocks: nat)
    requires |m| + at == 64 * blocks + |tail| && at <= |data|
    requires tail == [] || (at == 0 && tail == m[64 * blocks..])
    ensures tail + data[at..] == (m + data)[64 * blocks..]
  {
  }

  lemma SliceRight(m: seq<Octet>, data: seq<Octet>, at: nat, n: nat)
    requires at + n <= |data|
    ensures (m + data)[|m| + at..|m| + at + n] == data[at..at + n]
    ensures at + n == |data| ==> (m + data)[|m| + at..] == data[at..]
  {
  }

  lemma FirstPieces(pieces: seq<seq<Octet>>, i: nat)
    requires i < |pieces|
    ensures Flat(pieces[..i + 1]) == Flat(pieces[..i]) + pieces[i]
  {
    FlatPush(pieces[..i], pieces[i]);
    assert pieces[..i + 1] == pieces[..i] + [pieces[i]];
  }

  method AppendAll(ctx: Sha1Ctx, pieces: seq<seq<Octet>>, ghost f: BlockFunction, ghost h0: Hash)
    requires forall i :: 0 <= i < |pieces| ==> |pieces[i]| < 0x1_0000_0000
    requires IsCompress(f) && ctx.Holds([], f, h0)
    modifies ctx, ctx.buffer
    ensures ctx.Holds(Flat(pieces), f, h0)
  {
    ghost var m := [];
    for i := 0 to |pieces|
      invariant m == Flat(pieces[..i]) && ctx.Holds(m, f, h0)
    {
      ctx.Append(pieces[i], m, f, h0);
      FirstPieces(pieces, i);
      m := m + pieces[i];
    }
    assert pieces[..|pieces|] == pieces;
  }

  /** Any way of splitting a message into appended pieces gives its SHA-1 digest. */
  method HashPieces(pieces: seq<seq<Octet>>) returns (digest: seq<Octet>)
    requires forall i :: 0 <= i < |pieces| ==> |pieces[i]| < 0x1_0000_0000
    ensures digest == Sha1(Flat(pieces))
  {
    var ctx := new Sha1Ctx(Compress);
    AppendAll(ctx, pieces, Compress, INITIAL);
    digest := ctx.Output(Flat(pieces));
  }
}
