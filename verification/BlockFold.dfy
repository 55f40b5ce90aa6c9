/** A message as a sequence of 64-octet blocks folded through a block function. */
module BlockFold {
  import opened Octets

  type Block = b: seq<Octet> | |b| == 64 witness seq(64, _ => 0)

  /** A block function iterated over the complete blocks of m. */
  function Fold<S>(f: (S, Block) -> S, h: S, m: seq<Octet>): S
    decreases |m|
  {
    if |m| < 64 then h else Fold(f, f(h, m[..64]), m[64..])
  }

  /** Whole blocks fold first, whatever follows them. */
  lemma {:induction false} FoldAppend<S>(f: (S, Block) -> S, h: S, m: seq<Octet>, x: seq<Octet>, blocks: nat)
    requires |m| == 64 * blocks
    ensures Fold(f, h, m + x) == Fold(f, Fold(f, h, m), x)
    decreases blocks
  {
    if blocks == 0 {
      assert m + x == x;
    } else {
      assert (m + x)[..64] == m[..64] && (m + x)[64..] == m[64..] + x;
      FoldAppend(f, f(h, m[..64]), m[64..], x, blocks - 1);
    }
  }

  lemma FoldStep<S>(f: (S, Block) -> S, h: S, m: seq<Octet>, blocks: nat)
    requires 64 * blocks + 64 <= |m|
    ensures Fold(f, h, m[..64 * blocks + 64]) == f(Fold(f, h, m[..64 * blocks]), m[64 * blocks..64 * blocks + 64])
  {
    var block := m[64 * blocks..64 * blocks + 64];
    assert m[..64 * blocks + 64] == m[..64 * blocks] + block;
    FoldAppend(f, h, m[..64 * blocks], block, blocks);
    assert block[..64] == block && block[64..] == [];
  }
}
