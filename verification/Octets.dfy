/** Octets and big-endian words, as both the hash and the wire format use them. */
module Octets {
  type Octet = x: int | 0 <= x < 256

  /** The source's cast to U8: the low eight bits. */
  function ToOctet(x: nat): Octet { x % 256 }

  /** The number that four octets write, most significant first. */
  function Number(a: nat, b: nat, c: nat, d: nat): nat {
    0x100_0000 * a + 0x1_0000 * b + 0x100 * c + d
  }

  function GetU16(s: seq<Octet>): nat
    requires |s| >= 2
  {
    Number(0, 0, s[0], s[1])
  }

  function GetU32(s: seq<Octet>): nat
    requires |s| >= 4
  {
    Number(s[0], s[1], s[2], s[3])
  }

  /** Two octets, most significant first. */
  function PutU16(x: nat): (r: seq<Octet>)
    ensures |r| == 2
  {
    [ToOctet(x / 0x100), ToOctet(x)]
  }

  /** Four octets, most significant first. */
  function PutU32(x: nat): (r: seq<Octet>)
    ensures |r| == 4
  {
    [ToOctet(x / 0x100_0000), ToOctet(x / 0x1_0000), ToOctet(x / 0x100), ToOctet(x)]
  }

  lemma PutU16Wraps(x: nat)
    ensures PutU16(x % 0x1_0000) == PutU16(x)
  {
    var q, r := x / 0x1_0000, x % 0x1_0000;
    assert x / 0x100 == 256 * q + r / 0x100;
    DropHigh(q, r / 0x100);
    DropHigh(256 * q, r);
  }

  lemma LowPlus(n: nat, k: nat)
    ensures (n % 0x1_0000 + k) % 0x1_0000 == (n + k) % 0x1_0000
  {
    var q := n / 0x1_0000;
    assert n + k == 0x1_0000 * q + (n % 0x1_0000 + k);
  }

  lemma DropHigh(a: nat, b: nat)
    ensures (256 * a + b) % 256 == b % 256
  {
  }

  /** The number that a string of octets writes, most significant octet first. */
  function Value(s: seq<Octet>): nat {
    if s == [] then 0 else 256 * Value(s[..|s| - 1]) + s[|s| - 1]
  }

  lemma ValuePush(s: seq<Octet>, x: nat)
    ensures Value(s + [ToOctet(x)]) == 256 * Value(s) + x % 256
  {
    assert (s + [ToOctet(x)])[..|s|] == s;
  }

  lemma AtLeastOnce(d: nat, k: int)
    requires k > 0
    ensures d * k >= d
  {
  }

  lemma ModUnique(d: nat, k: nat, r: nat)
    requires r < d
    ensures (d * k + r) % d == r
  {
    var x := d * k + r;
    var q := x / d;
    assert d * k - d * q == x % d - r;
    assert d * (k - q) == d * k - d * q;
    assert d * (q - k) == d * q - d * k;
    if k > q {
      AtLeastOnce(d, k - q);
    } else if q > k {
      AtLeastOnce(d, q - k);
    }
  }

  lemma Horner(x: nat, m: nat)
    requires m > 0
    ensures 256 * ((x / 256) % m) + x % 256 == x % (256 * m)
  {
    var q := x / 256;
    var r := 256 * (q % m) + x % 256;
    assert q == m * (q / m) + q % m;
    assert x == (256 * m) * (q / m) + r;
    ModUnique(256 * m, q / m, r);
  }

  /** One more octet of a number already written down to x / 256. */
  lemma ValueStep(s: seq<Octet>, x: nat, m: nat) returns (t: seq<Octet>)
    requires m > 0 && Value(s) == (x / 256) % m
    ensures t == s + [ToOctet(x)] && Value(t) == x % (256 * m)
  {
    t := s + [ToOctet(x)];
    ValuePush(s, x);
    Horner(x, m);
  }

  lemma ValueOfU16(x: nat)
    ensures Value(PutU16(x)) == x % 0x1_0000
  {
    var s := ValueStep([], x / 0x100, 1);
    s := ValueStep(s, x, 0x100);
    assert s == PutU16(x);
  }

  lemma ValueOfU32(x: nat)
    ensures Value(PutU32(x)) == x % 0x1_0000_0000
  {
    var s := ValueStep([], x / 0x100_0000, 1);
    s := ValueStep(s, x / 0x1_0000, 0x100);
    s := ValueStep(s, x / 0x100, 0x1_0000);
    s := ValueStep(s, x, 0x100_0000);
    assert s == PutU32(x);
  }

  lemma ValueAfterU32(s: seq<Octet>, x: nat)
    ensures Value(s + PutU32(x)) == 0x1_0000_0000 * Value(s) + x % 0x1_0000_0000
  {
    var o := PutU32(x);
    ValueOfU32(x);
    ValueOfFour(s, o[0], o[1], o[2], o[3]);
    ValueOfFour([], o[0], o[1], o[2], o[3]);
    assert s + o == s + [o[0], o[1], o[2], o[3]];
    assert o == [] + [o[0], o[1], o[2], o[3]];
  }

  lemma ValueOfFour(s: seq<Octet>, a: Octet, b: Octet, c: Octet, d: Octet)
    ensures Value(s + [a, b, c, d]) == 0x1_0000_0000 * Value(s) + 0x100_0000 * a + 0x1_0000 * b + 0x100 * c + d
  {
    ValuePush(s, a);
    ValuePush(s + [a], b);
    ValuePush(s + [a] + [b], c);
    ValuePush(s + [a] + [b] + [c], d);
    assert s + [a, b, c, d] == s + [a] + [b] + [c] + [d];
  }

  lemma ReadsValue(o: seq<Octet>)
    ensures |o| == 2 ==> GetU16(o) == Value(o)
    ensures |o| == 4 ==> GetU32(o) == Value(o)
  {
    if |o| == 2 {
      ValuePush([], o[0]);
      ValuePush([o[0]], o[1]);
      assert o == [o[0]] + [o[1]];
    } else if |o| == 4 {
      ValueOfFour([], o[0], o[1], o[2], o[3]);
      assert o == [] + [o[0], o[1], o[2], o[3]];
    }
  }

  lemma SixteenBits(x: nat)
    ensures x / 0x1_0000 == x / 0x100 / 0x100
  {
  }

  lemma TwentyFourBits(x: nat)
    ensures x / 0x100_0000 == x / 0x1_0000 / 0x100
  {
  }

  lemma FourDigits(x: nat, y: nat, z: nat, a: nat)
    requires x < 0x1_0000_0000 && y == x / 0x100 && z == y / 0x100 && a == z / 0x100
    ensures a < 0x100 && Number(a % 0x100, z % 0x100, y % 0x100, x % 0x100) == x
  {
    assert x == 0x100 * y + x % 0x100 && y < 0x100_0000;
    assert y == 0x100 * z + y % 0x100 && z < 0x1_0000;
    assert z == 0x100 * a + z % 0x100 && a < 0x100;
  }

  /** Reading back what was written. */
  lemma U32RoundTrip(x: nat)
    requires x < 0x1_0000_0000
    ensures GetU32(PutU32(x)) == x
  {
    SixteenBits(x);
    TwentyFourBits(x);
    FourDigits(x, x / 0x100, x / 0x1_0000, x / 0x100_0000);
  }

  lemma U16RoundTrip(x: nat)
    ensures GetU16(PutU16(x)) == x % 0x1_0000
  {
    ValueOfU16(x);
    ReadsValue(PutU16(x));
  }

  lemma ReadU32(s: seq<Octet>, at: nat, a: seq<Octet>)
    requires |a| == 4 && at + 4 <= |s| && s[at..at + 4] == a
    ensures GetU32(s[at..]) == GetU32(a)
  {
    assert s[at] == a[0] && s[at + 1] == a[1] && s[at + 2] == a[2] && s[at + 3] == a[3];
  }

  lemma JoinThree(a: seq<Octet>, b: seq<Octet>, c: seq<Octet>)
    ensures a + (b + c) == (a + b) + c
  {
  }

  lemma CutAt(s: seq<Octet>, p: nat, q: nat)
    requires p <= q <= |s|
    ensures s[..q] == s[..p] + s[p..q] && s[p..] == s[p..q] + s[q..]
  {
  }

  function Min(a: nat, b: nat): nat { if a <= b then a else b }

  /** Pieces joined to one string. */
  function Flat(pieces: seq<seq<Octet>>): seq<Octet> {
    if |pieces| == 0 then [] else pieces[0] + Flat(pieces[1..])
  }

  lemma {:induction false} FlatAppend(a: seq<seq<Octet>>, b: seq<seq<Octet>>)
    ensures Flat(a + b) == Flat(a) + Flat(b)
  {
    if a == [] {
      assert a + b == b;
    } else {
      assert (a + b)[1..] == a[1..] + b;
      FlatAppend(a[1..], b);
      JoinThree(a[0], Flat(a[1..]), Flat(b));
    }
  }

  lemma FlatPush(pieces: seq<seq<Octet>>, last: seq<Octet>)
    ensures Flat(pieces + [last]) == Flat(pieces) + last
  {
    FlatAppend(pieces, [last]);
    assert [last][1..] == [] && last + [] == last;
  }

  /** memcpy. */
  method Copy(buf: array<Octet>, at: nat, src: seq<Octet>)
    requires at + |src| <= buf.Length
    modifies buf
    ensures buf[..at + |src|] == old(buf[..at]) + src && buf[at..at + |src|] == src
    ensures forall i :: 0 <= i < buf.Length && !(at <= i < at + |src|) ==> buf[i] == old(buf[i])
  {
    ghost var was := buf[..];
    forall i | 0 <= i < |src| {
      buf[at + i] := src[i];
    }
    Stored(was, buf[..], at, src);
  }

  lemma Stored(was: seq<Octet>, now: seq<Octet>, at: nat, src: seq<Octet>)
    requires |was| == |now| && at + |src| <= |was|
    requires forall i :: 0 <= i < at ==> now[i] == was[i]
    requires forall i :: at <= i < at + |src| ==> now[i] == src[i - at]
    ensures now[..at + |src|] == was[..at] + src && now[at..at + |src|] == src
  {
  }
}
