/** The protocol octet by octet, with the numbers of SMQClient.c and SMQClient.h. Nothing here refers to the
    definitions of SmqWire; the lemmas about this module are what ties those down. */
module SmqOctets {
  import opened Octets

  /** The length that a header announces. */
  function Announced(f: seq<Octet>): nat
    requires |f| >= 3
  {
    256 * (f[0] as nat) + f[1]
  }

  /** Four octets from i on. */
  function Field(f: seq<Octet>, i: nat): nat
    requires i + 4 <= |f|
  {
    256 * (256 * (256 * (f[i] as nat) + f[i + 1]) + f[i + 2]) + f[i + 3]
  }

  /** What SMQ_getMessage returns for a frame that it does not skip: the payload's length for a PUBLISH (8), -20000,
      -20001 and -20002 for the acknowledgements 5, 7 and 18, -20003 for a change (16), -10004 for a
      disconnect (11), and the errors -10000, -10003 and -10100. */
  predicate Returned(f: seq<Octet>, bufLen: nat, x: int)
    requires |f| >= 3
  {
    var len := Announced(f);
    if f[2] == 8 then x == (if len < 15 then -10003 else if len < bufLen then len - 15 else bufLen - 15)
    else if f[2] == 5 || f[2] == 7 || f[2] == 18 then
      x == (if len < 3 || len > bufLen then -10000
            else if len == 3 then -10100
            else if len < 9 then -10003
            else if f[2] == 5 then -20000
            else if f[2] == 7 then -20001
            else -20002)
    else if f[2] == 16 then x == (if len == 11 then -20003 else -10003)
    else x == (if f[2] == 11 then -10004 else -10003)
  }

  /** Fields of four octets behind a header. */
  lemma FieldAt(f: seq<Octet>, i: nat, x: nat)
    requires x < 0x1_0000_0000 && i + 4 <= |f| && f[i..i + 4] == PutU32(x)
    ensures Field(f, i) == x
  {
    U32RoundTrip(x);
    ReadU32(f, i, PutU32(x));
  }

  /** A header, a number of fields, and the rest. */
  lemma ThreeFields(f: seq<Octet>, h: seq<Octet>, a: nat, b: nat, c: nat, rest: seq<Octet>)
    requires |h| == 3 && a < 0x1_0000_0000 && b < 0x1_0000_0000 && c < 0x1_0000_0000
    requires f == h + PutU32(a) + PutU32(b) + PutU32(c) + rest
    ensures |f| == 15 + |rest| && f[..3] == h && f[15..] == rest
    ensures Field(f, 3) == a && Field(f, 7) == b && Field(f, 11) == c
  {
    assert f[3..7] == PutU32(a) && f[7..11] == PutU32(b) && f[11..15] == PutU32(c);
    FieldAt(f, 3, a);
    FieldAt(f, 7, b);
    FieldAt(f, 11, c);
  }

  /** A PING or a PONG. */
  predicate Skips(f: seq<Octet>) {
    |f| >= 3 && f[0] == 0 && f[1] == 3 && (f[2] == 12 || f[2] == 13)
  }
}
