/** How SMQ_readFrameHeader fills the first three octets of the buffer. Its loop asks for the octets that
    are missing, but stores every piece at the start of the buffer. */
module SmqHeader {
  import opened Octets
  import opened SmqWire

  /** The start of the buffer after each piece was stored over it. */
  function Overwritten(before: seq<Octet>, pieces: seq<seq<Octet>>): (r: seq<Octet>)
    ensures |r| == |before|
  {
    if |pieces| == 0 then before
    else
      var past, last := Overwritten(before, pieces[..|pieces| - 1]), pieces[|pieces| - 1];
      if |last| <= |past| then last + past[|last|..] else past
  }

  lemma OneMorePiece(before: seq<Octet>, pieces: seq<seq<Octet>>, last: seq<Octet>)
    requires |last| <= |before|
    ensures Overwritten(before, pieces + [last]) == last + Overwritten(before, pieces)[|last|..]
  {
    assert (pieces + [last])[..|pieces|] == pieces;
  }

  /** A header that comes in pieces, none of them empty. */
  ghost predicate Arrives(header: seq<Octet>, pieces: seq<seq<Octet>>) {
    |header| == 3 && Flat(pieces) == header && forall i :: 0 <= i < |pieces| ==> |pieces[i]| > 0
  }

  /** The pieces are one, or the octets that miss their place are those that should be there. */
  predicate Coincide(s: seq<Octet>, before: seq<Octet>, pieces: seq<seq<Octet>>)
    requires |s| == |before| == 3
  {
    || |pieces| == 1
    || (|pieces| == 2 && |pieces[0]| == 1 && s[0] == s[1] == s[2] == before[2])
    || (|pieces| == 2 && |pieces[0]| == 2 && s[0] == s[2] == before[2])
    || (|pieces| == 3 && s[0] == s[2] == before[2] && s[1] == before[1])
  }

  lemma {:induction false} NoneEmpty(pieces: seq<seq<Octet>>)
    requires forall i :: 0 <= i < |pieces| ==> |pieces[i]| > 0
    ensures |Flat(pieces)| >= |pieces|
  {
    if |pieces| > 0 {
      NoneEmpty(pieces[1..]);
    }
  }

  lemma OnePiece(a: seq<Octet>, before: seq<Octet>)
    requires |a| <= |before|
    ensures Flat([a]) == a && Overwritten(before, [a]) == a + before[|a|..]
  {
    FlatPush([], a);
    assert [] + [a] == [a] && [] + a == a;
    OneMorePiece(before, [], a);
  }

  lemma TwoPieces(a: seq<Octet>, b: seq<Octet>, before: seq<Octet>)
    requires |a| <= |before| && |b| <= |before|
    ensures Flat([a, b]) == a + b && Overwritten(before, [a, b]) == b + (a + before[|a|..])[|b|..]
  {
    OnePiece(a, before);
    FlatPush([a], b);
    assert [a] + [b] == [a, b];
    OneMorePiece(before, [a], b);
  }

  lemma ThreePieces(a: seq<Octet>, b: seq<Octet>, c: seq<Octet>, before: seq<Octet>)
    requires |a| == |b| == |c| == 1 && |before| == 3
    ensures Flat([a, b, c]) == [a[0], b[0], c[0]] && Overwritten(before, [a, b, c]) == [c[0], before[1], before[2]]
  {
    TwoPieces(a, b, before);
    FlatPush([a, b], c);
    assert [a, b] + [c] == [a, b, c];
    OneMorePiece(before, [a, b], c);
    ThreeStored(a, b, c, before);
  }

  lemma ThreeStored(a: seq<Octet>, b: seq<Octet>, c: seq<Octet>, before: seq<Octet>)
    requires |a| == |b| == |c| == 1 && |before| == 3
    ensures c + (b + (a + before[1..])[1..])[1..] == [c[0], before[1], before[2]]
    ensures a + b + c == [a[0], b[0], c[0]]
  {
  }

  lemma TwoRead(s: seq<Octet>, a: seq<Octet>, b: seq<Octet>, before: seq<Octet>)
    requires |before| == |s| == 3 && s == a + b && |a| > 0 && |b| > 0
    ensures |a| == 1 ==> b + (a + before[|a|..])[|b|..] == [s[1], s[2], before[2]]
    ensures |a| == 2 ==> b + (a + before[|a|..])[|b|..] == [s[2], s[1], before[2]]
  {
  }

  /** What the buffer holds after each of the four ways in which a header can come. */
  lemma InPieces(s: seq<Octet>, before: seq<Octet>, pieces: seq<seq<Octet>>)
    requires |before| == 3 && Arrives(s, pieces)
    ensures 1 <= |pieces| <= 3
    ensures |pieces| == 1 ==> Overwritten(before, pieces) == s
    ensures |pieces| == 2 ==> 1 <= |pieces[0]| <= 2
    ensures |pieces| == 2 && |pieces[0]| == 1 ==> Overwritten(before, pieces) == [s[1], s[2], before[2]]
    ensures |pieces| == 2 && |pieces[0]| == 2 ==> Overwritten(before, pieces) == [s[2], s[1], before[2]]
    ensures |pieces| == 3 ==> Overwritten(before, pieces) == [s[2], before[1], before[2]]
  {
    NoneEmpty(pieces);
    var a := pieces[0];
    if |pieces| == 1 {
      assert pieces == [a];
      OnePiece(a, before);
    } else if |pieces| == 2 {
      var b := pieces[1];
      assert pieces == [a, b];
      assert |Flat([a, b])| == 3;
      Lengths(a, b);
      TwoPieces(a, b, before);
      TwoRead(s, a, b, before);
    } else {
      var b, c := pieces[1], pieces[2];
      assert pieces == [a, b, c];
      assert |Flat([a, b, c])| == 3;
      FlatPush([a, b], c);
      assert [a, b] + [c] == [a, b, c];
      Lengths(a, b);
      ThreePieces(a, b, c, before);
    }
  }

  lemma Lengths(a: seq<Octet>, b: seq<Octet>)
    ensures |Flat([a, b])| == |a| + |b|
  {
    FlatPush([a], b);
    FlatPush([], a);
    assert [a] + [b] == [a, b] && [] + [a] == [a];
  }

  /** The header in the buffer is the header that came if and only if it came in one piece or its octets
      happen to coincide with each other and with what the buffer held. */
  lemma ReadsRight(s: seq<Octet>, before: seq<Octet>, pieces: seq<seq<Octet>>)
    requires |before| == 3 && Arrives(s, pieces)
    ensures Overwritten(before, pieces) == s <==> Coincide(s, before, pieces)
  {
    InPieces(s, before, pieces);
  }

  /** A PING that comes as one octet and then two, over a buffer with a PUBLISH in it, reads as the header
      of a PUBLISH frame of 780 octets. */
  lemma SplitPing(before: seq<Octet>, rest: seq<Octet>, bufLen: nat)
    requires |before| == 3 && before[2] == MSG_PUBLISH && bufLen >= 780
    ensures var ping, pieces := [0, 3, MSG_PING], [[0], [3, MSG_PING]];
            var read := Overwritten(before, pieces);
      && Arrives(ping, pieces) && read == [3, MSG_PING, MSG_PUBLISH]
      && SkipLen(ping + rest) == 3 + SkipLen(rest)
      && (|rest| < 777 ==> Next(read + rest, 0, bufLen) == NeedMore)
      && (|rest| >= 777 ==> Next(read + rest, 0, bufLen).Got? && Next(read + rest, 0, bufLen).used == 780)
  {
    var a: seq<Octet>, b: seq<Octet> := [0], [3, MSG_PING];
    TwoPieces(a, b, before);
    TwoRead(a + b, a, b, before);
    assert a + b == [0, 3, MSG_PING];
    PingSkipped(rest);
    ReadAsPublish(rest, bufLen);
  }

  lemma PingSkipped(rest: seq<Octet>)
    ensures var s: seq<Octet> := [0, 3, MSG_PING] + rest; SkipLen(s) == 3 + SkipLen(rest)
  {
    var s: seq<Octet> := [0, 3, MSG_PING] + rest;
    assert s[3..] == rest;
  }

  lemma ReadAsPublish(rest: seq<Octet>, bufLen: nat)
    requires bufLen >= 780
    ensures var s: seq<Octet> := [3, MSG_PING, MSG_PUBLISH] + rest;
      && (|rest| < 777 ==> Next(s, 0, bufLen) == NeedMore)
      && (|rest| >= 777 ==> Next(s, 0, bufLen).Got? && Next(s, 0, bufLen).used == 780)
  {
    var s: seq<Octet> := [3, MSG_PING, MSG_PUBLISH] + rest;
    assert GetU16(s) == 780 && s[0..] == s;
  }
}
