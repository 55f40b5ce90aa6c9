/** The SMQ client of SMQClient.c. */
module SmqClient {
  import opened Octets
  import opened SmqWire
  import opened SmqOctets
  import opened PingTimer
  import opened Transport
  import opened SmqFrames
  import opened SmqHeader
  import opened Fragments

  const SMQE_PONGTIMEOUT := -10005

  /** The source's cast to U16. */
  function U16(x: int): (r: nat)
    ensures r < 0x1_0000 && (0 <= x < 0x1_0000 ==> r == x)
  {
    x % 0x1_0000
  }

  /** What a call returns when the transport has failed during it. */
  predicate IsFailure(x: int) {
    STACK_ERRORS < x < 0 || x == SMQE_DISCONNECT
  }

  /** How a call of GetMessage ended. */
  datatype Outcome =
    | Delivered(ev: Event)         // the next event of the stream
    | Idled(skipped: nat, waited: Action) // no event: only keep-alive frames were consumed
    | LostSlice                    // the wait for the next slice of a PUBLISH timed out
    | Failed                       // the transport failed during the call

  class Smq {
    const sock: Sock
    const buf: array<Octet>
    const bufLen: nat
    var timeout: nat
    var pingTmoCounter: int
    var pingTmo: int
    var clientTid: nat
    var tid: nat
    var ptid: nat
    var subtid: nat
    var status: int
    var bufIx: nat
    var frameLen: nat
    var bytesRead: nat
    var inRecv: bool
    // the stream as the client has seen it: each header as the buffer held it when it was read; whether a
    // header has come in pieces, and whether it was then read wrong
    ghost var seen: seq<Octet>
    ghost var split: bool
    ghost var garbled: bool

    /** What is unread is as it was sent, and so is all the rest unless a header was read wrong. */
    ghost predicate Seen()
      reads this`seen, this`split, this`garbled, sock`pos
    {
      && SameFrom(seen, sock.stream, sock.pos)
      && (garbled <==> seen != sock.stream) && (garbled ==> split)
    }

    ghost predicate Valid()
      reads this`frameLen, this`bytesRead, this`bufIx, this`seen, this`split, this`garbled, sock`pos
    {
      && Seen()
      && buf.Length == bufLen && 127 <= bufLen < 0x1_0000
      && sock.Valid()
      && frameLen < 0x1_0000 && bytesRead <= frameLen && bufIx < 0x1_0000
    }

    /** The octets of the current PUBLISH frame that are still unread. */
    ghost function Left(): nat
      requires Valid()
      reads this`frameLen, this`bytesRead, this`bufIx, this`seen, this`split, this`garbled, sock`pos
    {
      if bytesRead == 0 then 0 else frameLen - bytesRead
    }

    constructor (sock: Sock, buf: array<Octet>)
      requires sock.Valid() && 127 <= buf.Length < 0x1_0000
      ensures Valid() && this.sock == sock && this.buf == buf
      ensures Left() == 0 && bufIx == 0 && pingTmoCounter == 0 && !inRecv && !split
      ensures timeout == 60_000 && pingTmo == 1_200_000 && clientTid == 0 && status == 0
    {
      this.sock, this.buf, bufLen := sock, buf, buf.Length;
      timeout, pingTmoCounter, pingTmo := 60 * 1000, 0, 20 * 60 * 1000;
      clientTid, tid, ptid, subtid, status := 0, 0, 0, 0, 0;
      bufIx, frameLen, bytesRead, inRecv := 0, 0, 0, false;
      seen, split, garbled := sock.stream, false, false;
    }

    /** SMQ_recv, storing at buf[off..]. */
    method Recv(off: nat, len: nat) returns (x: int)
      requires Valid() && off + len <= bufLen
      modifies this`inRecv, buf, sock`pos, sock`failed
      ensures Valid() && inRecv == false
      ensures x <= len && sock.pos == old(sock.pos) + (if x > 0 then x else 0)
      ensures x > 0 ==> buf[..off + x] == old(buf[..off]) + sock.stream[old(sock.pos)..sock.pos]
      ensures x > 0 ==> sock.stream[old(sock.pos)..sock.pos] == seen[old(sock.pos)..sock.pos]
      ensures x >= 0 ==> forall i :: 0 <= i < bufLen && !(off <= i < off + x) ==> buf[i] == old(buf[i])
      ensures sock.failed == (old(sock.failed) || x < 0)
      ensures (bufIx > 0 || timeout == INFINITE_TMO) && len > 0 ==> x != 0
      ensures x > STACK_ERRORS
    {
      inRecv := true;
      ghost var p := sock.pos;
      x := sock.Recv(buf, off, len, if bufIx != 0 then INFINITE_TMO else timeout);
      Advanced(seen, sock.stream, p, sock.pos);
      inRecv := false;
    }

    /** The buffer holds start and then the octets read since stream position p. */
    ghost predicate Filling(p: nat, start: seq<Octet>)
      reads this, sock, buf
    {
      && Valid() && |start| <= bufIx <= bufLen && p <= sock.pos
      && sock.pos - p == bufIx - |start| && buf[..bufIx] == start + seen[p..sock.pos]
    }

    method FillSome(size: nat, ghost p: nat, ghost start: seq<Octet>) returns (x: int)
      requires Filling(p, start) && bufIx <= size <= bufLen && !sock.failed
      modifies this`bufIx, this`inRecv, buf, sock`pos, sock`failed
      ensures Valid() && !inRecv && (sock.failed <==> x < 0) && x > STACK_ERRORS
      ensures x > 0 ==> Filling(p, start) && old(bufIx) < bufIx <= size
      ensures x == 0 ==> buf[..] == old(buf[..]) && bufIx == old(bufIx) && sock.pos == old(sock.pos)
      ensures x == 0 ==> old(bufIx) == 0 || old(bufIx) == size
      ensures old(bufIx) == size ==> x <= 0
      ensures timeout == INFINITE_TMO && old(bufIx) < size ==> x != 0
    {
      x := Recv(bufIx, size - bufIx);
      bufIx := U16(bufIx + x);
      assert x > 0 ==> seen[p..old(sock.pos)] + seen[old(sock.pos)..sock.pos] == seen[p..sock.pos];
    }

    /** The read loop that the control frames and the PUBLISH data share: each piece behind the last, until
        bufIx is size. */
    method Fill(size: nat) returns (x: int)
      requires Valid() && bufIx <= size <= bufLen && !sock.failed
      modifies this`bufIx, this`inRecv, buf, sock`pos, sock`failed
      ensures Valid() && !inRecv && (sock.failed <==> x < 0) && x > STACK_ERRORS
      ensures x > 0 ==> bufIx == size && sock.pos == old(sock.pos) + size - old(bufIx)
      ensures x > 0 ==> buf[..size] == old(buf[..bufIx]) + seen[old(sock.pos)..sock.pos]
      ensures x == 0 ==> sock.pos == old(sock.pos) && buf[..] == old(buf[..]) && bufIx == old(bufIx)
      ensures x == 0 ==> old(bufIx) == 0 || old(bufIx) == size
      ensures old(bufIx) == size ==> x <= 0
      ensures timeout == INFINITE_TMO && old(bufIx) < size ==> x != 0
    {
      ghost var p, start := sock.pos, buf[..bufIx];
      x := FillSome(size, p, start);
      while x > 0 && bufIx < size
        invariant Valid() && !inRecv && (sock.failed <==> x < 0) && x > STACK_ERRORS
        invariant x > 0 ==> Filling(p, start) && bufIx <= size && old(bufIx) < size
        invariant x == 0 ==> sock.pos == old(sock.pos) && buf[..] == old(buf[..]) && bufIx == old(bufIx)
        invariant x == 0 ==> old(bufIx) == 0 || old(bufIx) == size
        invariant timeout == INFINITE_TMO && old(bufIx) < size ==> x != 0
        decreases if x > 0 then size - bufIx else -1
      {
        x := FillSome(size, p, start);
      }
    }

    /** The wire value of four octets of the buffer, as netConvU32 reads it. */
    function U32At(i: nat): nat
      requires i + 4 <= buf.Length
      reads buf
    {
      Number(buf[i], buf[i + 1], buf[i + 2], buf[i + 3])
    }

    /** A header has been read from stream[p..] and nothing after it. */
    ghost predicate AtHeader(p: nat)
      reads this, sock, buf
    {
      && Valid() && !sock.failed && !inRecv && bytesRead == 0 && bufIx == 3
      && sock.pos == p + 3 && buf[..3] == seen[p..p + 3]
      && frameLen == GetU16(seen[p..])
    }

    lemma SeenHeader(p: nat)
      requires AtHeader(p)
      ensures seen[p..][2] == buf[2]
    {
      assert buf[2] == buf[..3][2] == seen[p..p + 3][2];
    }

    /** What the application sees of an event: the value returned, the fields, and the buffer at msg. */
    ghost predicate Reports(x: int, msg: nat, ev: Event)
      reads this, buf
    {
      match ev
      case Publish(t, p, s, size, head) =>
        && x == |head| && msg == 15 && msg + x <= buf.Length && buf[msg..msg + x] == head
        && tid == t && ptid == p && subtid == s && frameLen == size && bytesRead == 15 + x
      case Slice(data) =>
        x == |data| && msg == 0 && x <= buf.Length && buf[..x] == data
      case Ack(code, st, p, topic) =>
        && x == code && status == st && ptid == p
        && msg == 0 && |topic| < buf.Length && buf[..|topic|] == topic && buf[|topic|] == 0
      case Change(p, st) => x == SMQ_SUBCHANGE && ptid == p && status == st
      case Disconnect(reason) =>
        x == SMQE_DISCONNECT && |reason| < buf.Length && buf[..|reason|] == reason && buf[|reason|] == 0
      case Fault(code) => x == code
    }

    /** The same for a whole frame f, octet by octet: the value returned, each field and the text at msg. */
    ghost predicate Says(f: seq<Octet>, x: int, msg: nat)
      requires |f| >= 3
      reads this, buf
    {
      var len := Announced(f);
      && Returned(f, bufLen, x)
      && (f[2] == 8 && len >= 15 ==>
            && 0 <= x && 15 + x <= |f| && 15 + x <= buf.Length && msg == 15 && buf[15..15 + x] == f[15..15 + x]
            && tid == Field(f, 3) && ptid == Field(f, 7) && subtid == Field(f, 11)
            && frameLen == len && bytesRead == 15 + x)
      && ((f[2] == 5 || f[2] == 7 || f[2] == 18) && 9 <= len <= bufLen ==>
            && len <= |f| && len - 8 < buf.Length && msg == 0 && buf[..len - 8] == f[8..len] && buf[len - 8] == 0
            && (if f[3] == 0 then status == 0 && ptid == Field(f, 4) else status == -1 && ptid == 0))
      && (f[2] == 16 && len == 11 ==>
            && 11 <= |f| && ptid == Field(f, 3)
            && status == Field(f, 7) - if f[7] < 128 then 0 else 0x1_0000_0000)
      && (f[2] == 11 ==>
            var n := if 3 < len <= bufLen then len - 3 else 0;
            3 + n <= |f| && n < buf.Length && buf[..n] == f[3..3 + n] && buf[n] == 0)
    }

    /** The definitions of SmqWire say the same. */
    lemma ReportsSay(f: seq<Octet>, x: int, msg: nat)
      requires Valid() && AtFrame(f, bufLen).Got? && Reports(x, msg, AtFrame(f, bufLen).ev)
      ensures Says(f, x, msg)
    {
      match AtFrame(f, bufLen).ev
      case Publish(_, _, _, _, _) => PublishSays(f, x, msg);
      case Ack(_, _, _, _) => AckSays(f, x, msg);
      case Change(_, _) => ChangeSays(f, x, msg);
      case Disconnect(_) => DisconnectSays(f, x, msg);
      case Fault(_) => FaultSays(f, x, msg);
      case Slice(_) =>
    }

    lemma ChangeSays(f: seq<Octet>, x: int, msg: nat)
      requires Valid() && AtFrame(f, bufLen).Got? && AtFrame(f, bufLen).ev.Change?
      requires Reports(x, msg, AtFrame(f, bufLen).ev)
      ensures Says(f, x, msg)
    {
    }

    lemma DisconnectSays(f: seq<Octet>, x: int, msg: nat)
      requires Valid() && AtFrame(f, bufLen).Got? && AtFrame(f, bufLen).ev.Disconnect?
      requires Reports(x, msg, AtFrame(f, bufLen).ev)
      ensures Says(f, x, msg)
    {
    }

    lemma FaultSays(f: seq<Octet>, x: int, msg: nat)
      requires Valid() && AtFrame(f, bufLen).Got? && AtFrame(f, bufLen).ev.Fault?
      requires Reports(x, msg, AtFrame(f, bufLen).ev)
      ensures Says(f, x, msg)
    {
    }

    lemma PublishSays(f: seq<Octet>, x: int, msg: nat)
      requires Valid() && AtFrame(f, bufLen).Got? && AtFrame(f, bufLen).ev.Publish?
      requires Reports(x, msg, AtFrame(f, bufLen).ev)
      ensures Says(f, x, msg)
    {
    }

    lemma AckSays(f: seq<Octet>, x: int, msg: nat)
      requires Valid() && AtFrame(f, bufLen).Got? && AtFrame(f, bufLen).ev.Ack?
      requires Reports(x, msg, AtFrame(f, bufLen).ev)
      ensures Says(f, x, msg)
    {
    }

    /** The call has reported the frame at stream[p..], whole or up to the buffer size. */
    ghost predicate Done(p: nat, x: int, msg: nat)
      reads this, sock, buf
    {
      && Valid() && p <= |seen| && (Left() > 0 ==> bufIx == 0)
      && match AtFrame(seen[p..], bufLen)
         case NeedMore => false
         case Got(ev, used, left) =>
           && Reports(x, msg, ev)
           && (!ev.Final() ==> sock.pos == p + used && Left() == left && bufIx == 0)
    }

    lemma DoneSays(p: nat, x: int, msg: nat)
      requires Done(p, x, msg)
      ensures p + 3 <= |seen| && Says(seen[p..], x, msg)
    {
      ReportsSay(seen[p..], x, msg);
    }

    /** The read loop of the header: each piece at the start of the buffer. */
    method ReadHeader() returns (x: int, ghost pieces: seq<seq<Octet>>)
      requires Valid() && !sock.failed
      modifies this`bufIx, this`inRecv, buf, sock`pos, sock`failed
      ensures Valid() && !inRecv && (sock.failed <==> x < 0) && x > STACK_ERRORS
      ensures x > 0 ==> bufIx == 3 && sock.pos == old(sock.pos) + 3
      ensures x > 0 ==> Arrives(sock.stream[old(sock.pos)..sock.pos], pieces)
      ensures x > 0 ==> buf[..3] == Overwritten(old(buf[..3]), pieces)
      ensures x == 0 ==> sock.pos == old(sock.pos) && buf[..] == old(buf[..]) && bufIx == 0
    {
      bufIx, pieces := 0, [];
      ghost var p, before := sock.pos, buf[..3];
      x, pieces := ReadPiece(p, before, pieces);
      while x > 0 && bufIx < 3
        invariant Valid() && !inRecv && (sock.failed <==> x < 0) && x > STACK_ERRORS
        invariant x > 0 ==> InHeader(p, before, pieces) && bufIx > 0
        invariant x == 0 ==> sock.pos == p && buf[..] == old(buf[..]) && bufIx == 0
        decreases if x > 0 then 3 - bufIx else -1
      {
        x, pieces := ReadPiece(p, before, pieces);
      }
    }

    /** The pieces have come, and each was stored over the start of the buffer. */
    ghost predicate InHeader(p: nat, before: seq<Octet>, pieces: seq<seq<Octet>>)
      reads this, sock, buf
    {
      && Valid() && bufIx <= 3 && p + bufIx == sock.pos && |before| == 3
      && Flat(pieces) == sock.stream[p..sock.pos] && (forall i :: 0 <= i < |pieces| ==> |pieces[i]| > 0)
      && buf[..3] == Overwritten(before, pieces)
    }

    method ReadPiece(ghost p: nat, ghost before: seq<Octet>, ghost pieces: seq<seq<Octet>>)
      returns (x: int, ghost more: seq<seq<Octet>>)
      requires InHeader(p, before, pieces) && bufIx < 3 && !sock.failed
      modifies this`bufIx, this`inRecv, buf, sock`pos, sock`failed
      ensures Valid() && !inRecv && (sock.failed <==> x < 0) && x > STACK_ERRORS
      ensures x > 0 ==> InHeader(p, before, more) && old(bufIx) < bufIx
      ensures x == 0 ==> sock.pos == old(sock.pos) && buf[..] == old(buf[..]) && old(bufIx) == 0 && bufIx == 0
    {
      ghost var was := buf[..];
      assert |buf[..0]| == 0;
      x := Recv(0, 3 - bufIx);
      bufIx := U16(bufIx + x);
      more := pieces;
      if x > 0 {
        ghost var piece := sock.stream[old(sock.pos)..sock.pos];
        more := pieces + [piece];
        OneMorePiece(before, pieces, piece);
        FlatPush(pieces, piece);
        AtFront(was, buf[..], x, piece);
        Pieces(sock.stream, p, old(sock.pos), sock.pos);
      }
    }

    /** The header, as the buffer holds it. */
    method ReadFrameHeader() returns (x: int, ghost pieces: seq<seq<Octet>>)
      requires Valid() && !sock.failed && bytesRead == 0
      modifies this`bufIx, this`inRecv, this`frameLen, this`status, buf, sock`pos, sock`failed
      modifies this`seen, this`split, this`garbled
      ensures Valid() && !inRecv
      ensures x == 0 ==> AtHeader(old(sock.pos)) && seen[..old(sock.pos)] == old(seen[..sock.pos])
      ensures x == 0 ==>
        && var sent := sock.stream[old(sock.pos)..sock.pos];
        && Arrives(sent, pieces) && buf[..3] == Overwritten(old(buf[..3]), pieces)
        && split == (old(split) || |pieces| > 1)
        && garbled == (old(garbled) || !Coincide(sent, old(buf[..3]), pieces))
      ensures x != 0 ==> x == status && seen == old(seen) && split == old(split) && garbled == old(garbled)
      ensures sock.failed ==> IsFailure(x)
      ensures x != 0 && !sock.failed ==> x == SMQE_TIMEOUT && sock.pos == old(sock.pos)
    {
      ghost var p, before := sock.pos, buf[..3];
      x, pieces := ReadHeader();
      if x > 0 {
        NoteHeader(p, before, pieces);
        frameLen := Number(0, 0, buf[0], buf[1]);
        LengthSeen(seen, p, buf[..3]);
        return 0, pieces;
      }
      status := if x == 0 then SMQE_TIMEOUT else x;
      x := status;
    }

    /** The client has seen the header that is in the buffer. */
    ghost method NoteHeader(p: nat, before: seq<Octet>, pieces: seq<seq<Octet>>)
      requires Valid() && |before| == 3 && sock.pos == p + 3 && seen[p..] == sock.stream[p..]
      requires Arrives(sock.stream[p..p + 3], pieces) && buf[..3] == Overwritten(before, pieces)
      modifies this`seen, this`split, this`garbled
      ensures Valid() && seen[..p] == old(seen[..p]) && seen[p..p + 3] == buf[..3]
      ensures split == (old(split) || |pieces| > 1)
      ensures garbled == (old(garbled) || !Coincide(sock.stream[p..p + 3], before, pieces))
    {
      ReadsRight(sock.stream[p..p + 3], before, pieces);
      Replaced(seen, sock.stream, p, buf[..3]);
      seen := seen[..p] + buf[..3] + seen[p + 3..];
      split := split || |pieces| > 1;
      garbled := garbled || !Coincide(sock.stream[p..p + 3], before, pieces);
    }

    /** SMQ_readFrame for a caller that has not read the header. */
    method ReadWholeFrame() returns (x: int)
      requires Valid() && !sock.failed && bytesRead == 0
      modifies this`bufIx, this`inRecv, this`frameLen, this`status, buf, sock`pos, sock`failed
      modifies this`seen, this`split, this`garbled
      ensures Valid() && !inRecv && (x != 0 ==> x < 0 && status == x)
      ensures x == 0 ==> !sock.failed && 3 < frameLen <= bufLen && bufIx == 0
      ensures x == 0 ==> sock.pos == old(sock.pos) + frameLen && frameLen == GetU16(seen[old(sock.pos)..])
      ensures x == 0 ==> buf[..frameLen] == seen[old(sock.pos)..sock.pos]
      ensures x == SMQE_TIMEOUT && !sock.failed ==>
        sock.pos == old(sock.pos) || (sock.pos == old(sock.pos) + 3 && frameLen == 3)
    {
      ghost var p, pieces := sock.pos, [];
      x, pieces := ReadFrameHeader();
      if x == 0 {
        x := ReadFrame(p);
      }
    }

    /** The rest of a control frame whose header is in the buffer. */
    method ReadFrame(ghost p: nat) returns (x: int)
      requires AtHeader(p)
      modifies this`bufIx, this`inRecv, this`status, buf, sock`pos, sock`failed
      ensures Valid() && !inRecv
      ensures x == 0 ==> !sock.failed && 3 < frameLen <= bufLen && bufIx == 0
      ensures x == 0 ==> sock.pos == p + frameLen && buf[..frameLen] == seen[p..p + frameLen]
      ensures sock.failed ==> IsFailure(x)
      ensures x != 0 ==> x < 0 && status == x
      ensures x != 0 && !sock.failed && (frameLen < 3 || frameLen > bufLen) ==> x == SMQE_BUF_OVERFLOW
      ensures x != 0 && !sock.failed && 3 <= frameLen <= bufLen ==> x == SMQE_TIMEOUT && frameLen == 3
      ensures !sock.failed && (frameLen <= 3 || frameLen > bufLen) ==> x != 0 && sock.pos == p + 3
    {
      if frameLen > bufLen || frameLen < 3 {
        status := SMQE_BUF_OVERFLOW;
        return status;
      }
      x := Fill(frameLen);
      bufIx := 0;
      if x > 0 {
        Pieces(seen, p, p + 3, p + frameLen);
        return 0;
      }
      status := if x == 0 then SMQE_TIMEOUT else x;
      x := status;
    }

    /** Octets of a PUBLISH frame into the buffer, up to index size. */
    method ReadData(size: nat) returns (x: int)
      requires Valid() && !sock.failed && bufIx < size <= bufLen
      modifies this`bufIx, this`inRecv, this`status, buf, sock`pos, sock`failed
      ensures Valid() && !inRecv
      ensures x > 0 ==> !sock.failed && x == size && sock.pos == old(sock.pos) + size - old(bufIx)
      ensures x > 0 ==> buf[..size] == old(buf[..bufIx]) + seen[old(sock.pos)..sock.pos]
      ensures sock.failed ==> IsFailure(x)
      ensures x <= 0 && !sock.failed ==> x == SMQE_TIMEOUT && old(bufIx) == 0 && sock.pos == old(sock.pos)
      ensures x <= 0 && !sock.failed ==> timeout != INFINITE_TMO
    {
      x := Fill(size);
      if x > 0 {
        return bufIx;
      }
      status := if x == 0 then SMQE_TIMEOUT else x;
      x := status;
    }

    /** memmove to the start of the buffer, and the terminating zero. */
    method Shift(from: nat, n: nat)
      requires from + n <= buf.Length && n < buf.Length
      modifies buf
      ensures buf[..n] == old(buf[from..from + n]) && buf[n] == 0
    {
      forall i | 0 <= i < n {
        buf[i] := buf[i + from];
      }
      buf[n] := 0;
    }

    method OnDisconnect(ghost p: nat) returns (x: int)
      requires AtHeader(p) && buf[2] == MSG_DISCONNECT
      modifies this`bufIx, this`inRecv, this`status, buf, sock`pos, sock`failed
      ensures Valid() && !inRecv
      ensures if sock.failed then IsFailure(x) else Done(p, x, 0)
      ensures !sock.failed ==> Says(seen[p..], x, 0)
    {
      ghost var s := seen[p..];
      SeenHeader(p);
      x := ReadFrame(p);
      if x != 0 {
        buf[0] := 0;
      } else {
        Shifted(seen, p, frameLen);
        assert buf[3..frameLen] == buf[..frameLen][3..] == s[..frameLen][3..] == s[3..frameLen];
        Shift(3, frameLen - 3);
      }
      x := SMQE_DISCONNECT;
      if !sock.failed {
        DoneSays(p, x, 0);
      }
    }

    method OnAck(ghost p: nat) returns (x: int, msg: nat)
      requires AtHeader(p) && IsAck(buf[2])
      modifies this`bufIx, this`inRecv, this`status, this`ptid, buf, sock`pos, sock`failed
      ensures Valid() && !inRecv
      ensures if sock.failed then IsFailure(x) else Done(p, x, msg)
      ensures !sock.failed ==> Says(seen[p..], x, msg)
    {
      SeenHeader(p);
      msg := 0;
      x := ReadFrame(p);
      if x == 0 {
        x := AckRead(p);
      }
      if !sock.failed {
        DoneSays(p, x, msg);
      }
    }

    method AckRead(ghost p: nat) returns (x: int)
      requires Valid() && !sock.failed && bufIx == 0 && bytesRead == 0 && sock.pos == p + frameLen
      requires 3 < frameLen <= bufLen && buf[..frameLen] == seen[p..p + frameLen]
      requires GetU16(seen[p..]) == frameLen && IsAck(seen[p..][2])
      modifies this`status, this`ptid, buf
      ensures Done(p, x, 0)
    {
      Shifted(seen, p, frameLen);
      if frameLen < 9 {
        return SMQE_PROTOCOL_ERROR;
      }
      x := TakeAck(p);
    }

    /** The fields of an acknowledgement that is in the buffer. */
    method TakeAck(ghost p: nat) returns (x: int)
      requires Valid() && !sock.failed && bufIx == 0 && bytesRead == 0 && sock.pos == p + frameLen
      requires 9 <= frameLen <= bufLen && buf[..frameLen] == seen[p..][..frameLen]
      requires GetU16(seen[p..]) == frameLen && IsAck(seen[p..][2])
      modifies this`status, this`ptid, buf
      ensures Done(p, x, 0)
    {
      ghost var s := seen[p..];
      AckAt(s, frameLen);
      if buf[3] != 0 {
        ptid, status := 0, -1;
      } else {
        ptid, status := U32At(4), 0;
      }
      x := AckReturn(buf[2]);
      AckFrameEvent(s, frameLen, bufLen);
      Shift(8, frameLen - 8);
    }

    lemma AckAt(s: seq<Octet>, n: nat)
      requires 9 <= n <= buf.Length && n <= |s| && buf[..n] == s[..n]
      ensures var f := s[..n];
        s[2] == f[2] == buf[2] && f[3] == buf[3] && U32At(4) == GetU32(f[4..]) && buf[8..n] == f[8..]
    {
      assert forall i :: 0 <= i < n ==> buf[i] == buf[..n][i] == s[i];
    }

    method AckReturn(msg: Octet) returns (x: int)
      ensures x == AckCode(msg)
    {
      if msg == MSG_CREATEACK {
        x := SMQ_CREATEACK;
      } else if msg == MSG_CREATESUBACK {
        x := SMQ_CREATESUBACK;
      } else {
        x := SMQ_SUBACK;
      }
    }

    method OnPublish(ghost p: nat) returns (x: int, msg: nat)
      requires AtHeader(p) && buf[2] == MSG_PUBLISH
      modifies this`bufIx, this`inRecv, this`status, this`bytesRead, this`tid, this`ptid, this`subtid
      modifies buf, sock`pos, sock`failed
      ensures Valid() && !inRecv
      ensures if sock.failed then IsFailure(x) else Done(p, x, msg)
      ensures !sock.failed ==> Says(seen[p..], x, msg)
    {
      SeenHeader(p);
      if frameLen < 15 {
        x, msg := SMQE_PROTOCOL_ERROR, 0;
      } else {
        x, msg := ReadPublish(p);
      }
      if !sock.failed {
        DoneSays(p, x, msg);
      }
    }

    method ReadPublish(ghost p: nat) returns (x: int, msg: nat)
      requires AtHeader(p) && seen[p..][2] == MSG_PUBLISH && frameLen >= 15
      modifies this`bufIx, this`inRecv, this`status, this`bytesRead, this`tid, this`ptid, this`subtid
      modifies buf, sock`pos, sock`failed
      ensures Valid() && !inRecv
      ensures if sock.failed then IsFailure(x) else Done(p, x, msg)
    {
      bytesRead := if frameLen <= bufLen then frameLen else bufLen;
      x := ReadBehindHeader(p, bytesRead);
      if x > 0 {
        TakePublish(p);
        return bytesRead - 15, 15;
      }
      bytesRead := 0;
      x, msg := if x < 0 then x else -1, 0;
    }

    method ReadBehindHeader(ghost p: nat, n: nat) returns (x: int)
      requires Valid() && !sock.failed && bufIx == 3 < n <= bufLen && sock.pos == p + 3 && buf[..3] == seen[p..p + 3]
      modifies this`bufIx, this`inRecv, this`status, buf, sock`pos, sock`failed
      ensures Valid() && !inRecv && bufIx == 0 && (sock.failed <==> x <= 0)
      ensures x > 0 ==> sock.pos == p + n && buf[..n] == seen[p..][..n]
      ensures x <= 0 ==> IsFailure(x)
    {
      x := ReadData(n);
      bufIx := 0;
      if x > 0 {
        Pieces(seen, p, p + 3, p + n);
        Shifted(seen, p, n);
      }
    }

    /** The three fields of a PUBLISH frame whose first octets are in the buffer. */
    method TakePublish(ghost p: nat)
      requires Valid() && p + bytesRead == sock.pos && bufIx == 0
      requires 15 <= bytesRead == Min(frameLen, bufLen) && buf[..bytesRead] == seen[p..][..bytesRead]
      requires GetU16(seen[p..]) == frameLen && seen[p..][2] == MSG_PUBLISH
      modifies this`tid, this`ptid, this`subtid
      ensures Done(p, bytesRead - 15, 15)
    {
      ghost var s := seen[p..];
      FieldsAt(s, bytesRead);
      PublishEvent(s, bytesRead, bufLen);
      tid := U32At(3);
      ptid := U32At(7);
      subtid := U32At(11);
    }

    lemma FieldsAt(s: seq<Octet>, n: nat)
      requires 15 <= n <= buf.Length && n <= |s| && buf[..n] == s[..n]
      ensures U32At(3) == GetU32(s[3..]) && U32At(7) == GetU32(s[7..]) && U32At(11) == GetU32(s[11..])
      ensures buf[15..n] == s[15..n]
    {
      assert forall i :: 0 <= i < n ==> buf[i] == buf[..n][i] == s[i];
    }

    method OnChange(ghost p: nat) returns (x: int)
      requires AtHeader(p) && buf[2] == MSG_CHANGE
      modifies this`bufIx, this`inRecv, this`status, this`ptid, buf, sock`pos, sock`failed
      ensures Valid() && !inRecv
      ensures if sock.failed then IsFailure(x) else Done(p, x, 0)
      ensures !sock.failed ==> Says(seen[p..], x, 0)
    {
      x := ChangeRead(p);
      if !sock.failed {
        DoneSays(p, x, 0);
      }
    }

    method ChangeRead(ghost p: nat) returns (x: int)
      requires AtHeader(p) && buf[2] == MSG_CHANGE
      modifies this`bufIx, this`inRecv, this`status, this`ptid, buf, sock`pos, sock`failed
      ensures Valid() && !inRecv
      ensures if sock.failed then IsFailure(x) else Done(p, x, 0)
    {
      ghost var s := seen[p..];
      SeenHeader(p);
      if frameLen != 11 {
        return SMQE_PROTOCOL_ERROR;
      }
      x := ReadFrame(p);
      if x != 0 {
        return;
      }
      assert buf[..11] == s[..11];
      assert forall i :: 0 <= i < 11 ==> buf[i] == buf[..11][i] == s[i];
      ptid := U32At(7);
      status := ToS32(ptid);
      ptid := U32At(3);
      x := SMQ_SUBCHANGE;
    }

    /** No header came in time: the keep-alive counter, and perhaps a PING. */
    method OnTimeout() returns (x: int, ghost action: Action)
      requires Valid()
      modifies this`pingTmoCounter, this`bufIx, this`status, buf, sock`sent, sock`failed
      ensures Valid()
      ensures (pingTmoCounter, action) == Tick(old(pingTmoCounter), timeout, pingTmo)
      ensures old(sock.failed) ==> sock.failed
      ensures sock.failed && !old(sock.failed) ==> IsFailure(x)
      ensures !sock.failed ==> x == if action == Dead then -10005 else 0
      ensures !sock.failed ==> sock.sent == old(sock.sent) + if action == SendPing then [0, 3, 12] else []
    {
      action := Tick(pingTmoCounter, timeout, pingTmo).1;
      if pingTmoCounter >= 0 {
        pingTmoCounter := ToS32Wrap(pingTmoCounter + timeout);
        if pingTmoCounter >= pingTmo {
          pingTmoCounter := -10000;
          bufIx := 3;
          buf[0], buf[1] := ToOctet(bufIx / 0x100), ToOctet(bufIx);
          buf[2] := MSG_PING;
          assert buf[..bufIx] == PING_FRAME;
          status := sock.Send(buf[..bufIx]);
          bufIx := 0;
          if status < 0 {
            return status, action;
          }
        }
      } else {
        pingTmoCounter := ToS32Wrap(pingTmoCounter + timeout);
        if pingTmoCounter >= 0 {
          return SMQE_PONGTIMEOUT, action;
        }
      }
      return 0, action;
    }

    /** SMQ_flushb. */
    method Flush() returns (x: int)
      requires Valid() && bufIx <= bufLen
      modifies this`bufIx, this`status, sock`sent, sock`failed
      ensures Valid() && bufIx == 0
      ensures x == 0 ==> sock.failed == old(sock.failed) && sock.sent == old(sock.sent) + old(buf[..bufIx])
      ensures x != 0 ==> IsFailure(x) && sock.failed && status == x && sock.sent == old(sock.sent)
    {
      if bufIx != 0 {
        x := sock.Send(buf[..bufIx]);
        bufIx := 0;
        if x < 0 {
          status := x;
          return;
        }
      }
      return 0;
    }

    /** The next slice of a PUBLISH frame that outgrew the buffer. */
    method NextSlice() returns (x: int, ghost outcome: Outcome)
      requires Valid() && !sock.failed && !inRecv && bufIx == 0 && Left() > 0
      modifies this`bufIx, this`inRecv, this`status, this`bytesRead, buf, sock`pos, sock`failed
      ensures Valid() && !inRecv && bufIx == 0
      ensures !sock.failed ==> After(old(sock.pos), old(Left()), x, 0, outcome)
      ensures sock.failed ==> outcome == Failed && IsFailure(x)
      ensures timeout == INFINITE_TMO ==> !outcome.LostSlice?
    {
      var size := frameLen - bytesRead;
      x := ReadData(if size <= bufLen then size else bufLen);
      bufIx := 0;
      if x > 0 {
        bytesRead := bytesRead + x;
        assert buf[..x] == seen[old(sock.pos)..][..x];
        outcome := Delivered(Slice(buf[..x]));
      } else {
        bytesRead := 0;
        outcome := if sock.failed then Failed else LostSlice;
      }
    }

    /** What a call that started at stream position p with left octets of a PUBLISH unread has done. */
    ghost predicate After(p: nat, left: nat, x: int, msg: nat, outcome: Outcome)
      reads this, sock, buf
    {
      && Valid() && p <= |seen|
      && var s := seen[p..];
      match outcome
      case Delivered(ev) =>
        && Reports(x, msg, ev)
        && Next(s, left, bufLen).Got? && ev == Next(s, left, bufLen).ev
        && (!ev.Final() ==> sock.pos == p + Next(s, left, bufLen).used && Left() == Next(s, left, bufLen).left)
      case Idled(skipped, waited) =>
        && left == 0 && skipped % 3 == 0 && skipped <= SkipLen(s) && bytesRead == 0
        && sock.pos == p + skipped && x == if waited == Dead then SMQE_PONGTIMEOUT else 0
      case LostSlice =>
        left > 0 && sock.pos == p && bytesRead == 0 && x == SMQE_TIMEOUT
      case Failed => false
    }

    /** SMQ_getMessage. */
    method GetMessage() returns (x: int, msg: nat, ghost outcome: Outcome)
      requires Valid() && !sock.failed && !inRecv && (Left() > 0 ==> bufIx == 0)
      modifies this`bufIx, this`inRecv, this`status, this`bytesRead, this`frameLen, this`pingTmoCounter
      modifies this`tid, this`ptid, this`subtid, this`seen, this`split, this`garbled
      modifies buf, sock`pos, sock`failed, sock`sent
      ensures Valid() && !inRecv
      ensures sock.failed <==> outcome == Failed
      ensures sock.failed ==> IsFailure(x)
      ensures seen[..old(sock.pos)] == old(seen[..sock.pos]) && (old(garbled) ==> garbled) && (old(split) ==> split)
      ensures !sock.failed ==> After(old(sock.pos), old(Left()), x, msg, outcome)
      ensures !sock.failed && old(Left()) == 0 && outcome.Delivered? ==> Heard(old(sock.pos), x)
      ensures !sock.failed && Left() > 0 ==> bufIx == 0
      ensures timeout == INFINITE_TMO || old(Left()) == 0 ==> !outcome.LostSlice?
      ensures !sock.failed ==> Answered(old(sock.pos), old(Left()), old(sock.sent), old(pingTmoCounter), outcome)
    {
      msg := 0;
      if bytesRead != 0 {
        if bytesRead < frameLen {
          x, outcome := NextSlice();
          return;
        }
        bytesRead := 0;
      }
      x, msg, outcome := ReadFrames();
    }

    /** The frame behind the keep-alive frames at p. */
    ghost function FrameAt(p: nat): seq<Octet>
      requires p <= |seen|
      reads this`seen
    {
      seen[p..][SkipLen(seen[p..])..]
    }

    /** The value returned is the one for that frame. */
    ghost predicate Heard(p: nat, x: int)
      reads this`seen
    {
      p <= |seen| && |FrameAt(p)| >= 3 && Returned(FrameAt(p), bufLen, x)
    }

    /** All that the call says of that frame. */
    lemma AfterSays(p: nat, x: int, msg: nat, outcome: Outcome)
      requires outcome.Delivered? && After(p, 0, x, msg, outcome)
      ensures p <= |seen| && |FrameAt(p)| >= 3 && Says(FrameAt(p), x, msg)
    {
      ReportsSay(FrameAt(p), x, msg);
    }

    /** The rest of SMQ_getMessage: frame by frame until there is something to report. */
    method ReadFrames() returns (x: int, msg: nat, ghost outcome: Outcome)
      requires Valid() && !sock.failed && !inRecv && bytesRead == 0
      modifies this`bufIx, this`inRecv, this`status, this`bytesRead, this`frameLen, this`pingTmoCounter
      modifies this`tid, this`ptid, this`subtid, this`seen, this`split, this`garbled
      modifies buf, sock`pos, sock`failed, sock`sent
      ensures |seen| == |old(seen)| && old(sock.pos) <= |seen| && seen[..old(sock.pos)] == old(seen[..sock.pos])
      ensures (old(garbled) ==> garbled) && (old(split) ==> split)
      ensures Ended(old(sock.pos), old(sock.sent), old(pingTmoCounter), x, msg, outcome)
    {
      ghost var p, k, sent, counter := sock.pos, 0, sock.sent, pingTmoCounter;
      msg := 0;
      var again := true;
      x, outcome := 0, Failed;
      while again
        invariant p == old(sock.pos) && |seen| == |old(seen)| && seen[..p] == old(seen[..sock.pos])
        invariant (old(garbled) ==> garbled) && (old(split) ==> split)
        invariant again ==> Skipped(p, k, sent, counter)
        invariant !again ==> Ended(p, sent, counter, x, msg, outcome)
        decreases again, |seen| - sock.pos
      {
        again, x, msg, outcome := ReadMore(p, k, sent, counter);
        k := k + 3;
      }
    }

    /** What holds when a call that started at a frame boundary returns. */
    ghost predicate Ended(p: nat, sent: seq<Octet>, counter: int, x: int, msg: nat, outcome: Outcome)
      reads this, sock, buf
    {
      && Valid() && !inRecv && (sock.failed <==> outcome == Failed)
      && (sock.failed ==> IsFailure(x))
      && (!sock.failed ==> (outcome.Delivered? ==> Heard(p, x)))
      && (!sock.failed ==> After(p, 0, x, msg, outcome) && Answered(p, 0, sent, counter, outcome)
                           && (Left() > 0 ==> bufIx == 0))
    }

    /** The source from its label L_readMore on; again is its jump back to it. */
    method ReadMore(ghost p: nat, ghost k: nat, ghost sent: seq<Octet>, ghost counter: int)
      returns (again: bool, x: int, msg: nat, ghost outcome: Outcome)
      requires Skipped(p, k, sent, counter)
      modifies this`bufIx, this`inRecv, this`status, this`bytesRead, this`frameLen, this`pingTmoCounter
      modifies this`tid, this`ptid, this`subtid, this`seen, this`split, this`garbled
      modifies buf, sock`pos, sock`failed, sock`sent
      ensures p + k <= |seen| == |old(seen)| && seen[..p] == old(seen[..p])
      ensures (old(garbled) ==> garbled) && (old(split) ==> split)
      ensures again ==> Skipped(p, k + 3, sent, counter) && sock.pos > old(sock.pos)
      ensures !again ==> Ended(p, sent, counter, x, msg, outcome)
    {
      again, msg := false, 0;
      x := NextHeader(p, k, sent, counter);
      if x != 0 {
        x, outcome := OnNoHeader(p, k, sent, counter, x);
        return;
      }
      again, x, msg, outcome := OnHeader(p, k, sent, counter);
    }

    /** A header has come. */
    method OnHeader(ghost p: nat, ghost k: nat, ghost sent: seq<Octet>, ghost counter: int)
      returns (again: bool, x: int, msg: nat, ghost outcome: Outcome)
      requires AtHeader(p + k) && k % 3 == 0 && k <= SkipLen(seen[p..])
      requires sock.sent == sent + Replies(seen[p..][..k])
      modifies this`bufIx, this`inRecv, this`status, this`bytesRead, this`pingTmoCounter
      modifies this`tid, this`ptid, this`subtid, buf, sock`pos, sock`failed, sock`sent
      ensures again ==> Skipped(p, k + 3, sent, counter) && sock.pos == old(sock.pos)
      ensures !again ==> Ended(p, sent, counter, x, msg, outcome)
    {
      HeaderKind(p, k);
      pingTmoCounter := 0;
      if (buf[2] == MSG_PING || buf[2] == MSG_PONG) && frameLen == 3 {
        again, x := OnKeepAliveFrame(p, k, sent, counter);
        msg, outcome := 0, Failed;
      } else {
        again := false;
        x, msg, outcome := OnFrame(p, k);
      }
    }

    lemma HeaderKind(p: nat, k: nat)
      requires AtHeader(p + k) && k % 3 == 0 && k <= SkipLen(seen[p..])
      ensures seen[p + k..] == seen[p..][k..] && seen[p + k..][2] == buf[2]
      ensures if (buf[2] == MSG_PING || buf[2] == MSG_PONG) && frameLen == 3
              then k + 3 <= SkipLen(seen[p..])
              else k == SkipLen(seen[p..]) && !KeepAlive(seen[p + k..])
    {
      SeenHeader(p + k);
      Dropped(seen, p, k);
      SkipFurther(seen[p..], k, bufLen);
    }

    /** The keep-alive half of the switch. */
    method OnKeepAliveFrame(ghost p: nat, ghost k: nat, ghost sent: seq<Octet>, ghost counter: int)
      returns (again: bool, x: int)
      requires AtHeader(p + k) && frameLen == 3 && pingTmoCounter == 0
      requires k % 3 == 0 && k + 3 <= SkipLen(seen[p..]) && sock.sent == sent + Replies(seen[p..][..k])
      modifies this`bufIx, this`status, buf, sock`sent, sock`failed
      ensures again ==> Skipped(p, k + 3, sent, counter)
      ensures !again ==> Valid() && !inRecv && sock.failed && IsFailure(x)
    {
      ghost var before := sock.sent;
      RepliesStep(seen[p..], k);
      x := OnKeepAlive(p + k);
      again := x == 0;
      ghost var pong := if seen[p + k + 2] == MSG_PING then [0, 3, MSG_PONG] else [];
      JoinThree(sent, Replies(seen[p..][..k]), pong);
    }

    /** No header: a timeout between frames, or a transport error. */
    method OnNoHeader(ghost p: nat, ghost k: nat, ghost sent: seq<Octet>, ghost counter: int, x0: int)
      returns (x: int, ghost outcome: Outcome)
      requires sock.failed ==> Valid() && !inRecv && IsFailure(x0)
      requires !sock.failed ==> x0 == SMQE_TIMEOUT && Skipped(p, k, sent, counter)
      modifies this`pingTmoCounter, this`bufIx, this`status, buf, sock`sent, sock`failed
      ensures Ended(p, sent, counter, x, 0, outcome)
    {
      x, outcome := x0, Failed;
      if x == SMQE_TIMEOUT {
        ghost var action;
        x, action := OnTimeout();
        outcome := if sock.failed then Failed else Idled(k, action);
      }
    }

    lemma DoneIsAfter(p: nat, k: nat, x: int, msg: nat)
      requires Valid() && p + k <= |seen| && k == SkipLen(seen[p..]) && Done(p + k, x, msg)
      ensures After(p, 0, x, msg, Delivered(AtFrame(seen[p + k..], bufLen).ev))
    {
      assert seen[p + k..] == seen[p..][k..];
    }

    /** The call that started at p has consumed k octets of keep-alive frames so far. */
    ghost predicate Skipped(p: nat, k: nat, sent: seq<Octet>, counter: int)
      reads this, sock
    {
      && Valid() && !sock.failed && !inRecv && bytesRead == 0
      && sock.pos == p + k && k % 3 == 0 && k <= SkipLen(seen[p..])
      && sock.sent == sent + Replies(seen[p..][..k])
      && pingTmoCounter == if k == 0 then counter else 0
    }

    /** The next header, behind the keep-alive frames skipped. */
    method NextHeader(ghost p: nat, ghost k: nat, ghost sent: seq<Octet>, ghost counter: int) returns (x: int)
      requires Skipped(p, k, sent, counter)
      modifies this`bufIx, this`inRecv, this`frameLen, this`status, buf, sock`pos, sock`failed
      modifies this`seen, this`split, this`garbled
      ensures p + k <= |seen| == |old(seen)| && seen[..p] == old(seen[..p])
      ensures (old(garbled) ==> garbled) && (old(split) ==> split)
      ensures x == 0 ==> AtHeader(p + k) && k <= SkipLen(seen[p..]) && sock.pos > old(sock.pos)
      ensures x == 0 ==> sock.sent == sent + Replies(seen[p..][..k])
      ensures x != 0 && sock.failed ==> Valid() && !inRecv && IsFailure(x)
      ensures x != 0 && !sock.failed ==> x == SMQE_TIMEOUT && Skipped(p, k, sent, counter)
    {
      ghost var was, pieces := seen, [];
      x, pieces := ReadFrameHeader();
      if x == 0 {
        SkippedStill(was, seen, p, k);
      }
    }

    /** A PING is answered, a PONG only noted. */
    method OnKeepAlive(ghost p: nat) returns (x: int)
      requires AtHeader(p) && frameLen == 3
      modifies this`bufIx, this`status, buf, sock`sent, sock`failed
      ensures Valid()
      ensures x == 0 ==> !sock.failed
      ensures x == 0 ==> sock.sent == old(sock.sent) + if seen[p + 2] == 12 then [0, 3, 13] else []
      ensures x != 0 ==> sock.failed && IsFailure(x)
    {
      assert buf[2] == buf[..3][2] == seen[p + 2];
      if buf[2] == MSG_PING {
        assert buf[..3][..2] == seen[p..][..2];
        buf[2] := MSG_PONG;
        assert buf[..3] == [0, 3, MSG_PONG];
        x := Flush();
        return;
      }
      return 0;
    }

    /** The switch of SMQ_getMessage, without the keep-alive frames that it answers and skips. */
    method OnFrame(ghost p: nat, ghost k: nat) returns (x: int, msg: nat, ghost outcome: Outcome)
      requires AtHeader(p + k) && k == SkipLen(seen[p..])
      requires seen[p + k..] == seen[p..][k..] && !KeepAlive(seen[p + k..])
      modifies this`bufIx, this`inRecv, this`status, this`bytesRead, this`tid, this`ptid, this`subtid
      modifies buf, sock`pos, sock`failed
      ensures Valid() && !inRecv && (sock.failed <==> outcome == Failed)
      ensures sock.failed ==> IsFailure(x)
      ensures !sock.failed ==> outcome.Delivered? && After(p, 0, x, msg, outcome) && (Left() > 0 ==> bufIx == 0)
      ensures !sock.failed ==> Heard(p, x)
    {
      ghost var at := p + k;
      x, msg := Dispatch(at);
      if !sock.failed {
        DoneIsAfter(p, k, x, msg);
        outcome := Delivered(AtFrame(seen[at..], bufLen).ev);
        AfterSays(p, x, msg, outcome);
      } else {
        outcome := Failed;
      }
    }

    method Dispatch(ghost at: nat) returns (x: int, msg: nat)
      requires AtHeader(at) && !KeepAlive(seen[at..])
      modifies this`bufIx, this`inRecv, this`status, this`bytesRead, this`tid, this`ptid, this`subtid
      modifies buf, sock`pos, sock`failed
      ensures Valid() && !inRecv
      ensures if sock.failed then IsFailure(x) else Done(at, x, msg)
    {
      SeenHeader(at);
      msg := 0;
      if buf[2] == MSG_DISCONNECT {
        x := OnDisconnect(at);
      } else if IsAck(buf[2]) {
        x, msg := OnAck(at);
      } else if buf[2] == MSG_PUBLISH {
        x, msg := OnPublish(at);
      } else if buf[2] == MSG_CHANGE {
        x := OnChange(at);
      } else {
        x := SMQE_PROTOCOL_ERROR;
      }
    }

    /** What the call has sent, and where it leaves the keep-alive counter. */
    ghost predicate Answered(p: nat, left: nat, sent: seq<Octet>, counter: int, outcome: Outcome)
      reads this, sock
    {
      && p <= |seen|
      && var s := seen[p..];
      match outcome
      case Idled(skipped, waited) =>
        && skipped <= |s|
        && (pingTmoCounter, waited) == Tick(if skipped == 0 then counter else 0, timeout, pingTmo)
        && sock.sent == sent + Replies(s[..skipped]) + if waited == SendPing then PING_FRAME else []
      case Delivered(_) =>
        if left > 0 then sock.sent == sent && pingTmoCounter == counter
        else sock.sent == sent + Replies(s[..SkipLen(s)]) && pingTmoCounter == 0
      case LostSlice => sock.sent == sent && pingTmoCounter == counter
      case Failed => true
    }

    // Sending ------------------------------------------------------------------------------------

    /** memcpy into the buffer. */
    method Store(at: nat, data: seq<Octet>)
      requires at + |data| <= buf.Length
      modifies buf
      ensures buf[..] == old(buf[..at]) + data + old(buf[at + |data|..])
    {
      forall i | 0 <= i < |data| {
        buf[at + i] := data[i];
      }
    }

    /** The fifteen header octets of PUBLISH and PUBFRAG. */
    function PublishHeader(len: nat, msg: Octet, t: nat, sub: nat): (h: seq<Octet>)
      reads this`clientTid
      ensures |h| == 15
    {
      PutU16(len) + [msg] + PutU32(t) + PutU32(clientTid) + PutU32(sub)
    }

    /** The octets sent and those held in the buffer, as one string. */
    ghost function Emitted(): seq<Octet>
      requires Valid() && bufIx <= bufLen
      reads this, buf, sock
    {
      sock.sent + buf[..bufIx]
    }

    /** SMQ_writeb: whatever the lengths, it appends. */
    method Writeb(data: seq<Octet>) returns (x: int)
      requires Valid() && bufIx <= bufLen && !sock.failed
      modifies this`bufIx, this`status, buf, sock`sent, sock`failed
      ensures Valid() && bufIx <= bufLen
      ensures x == 0 ==> !sock.failed && Emitted() == old(Emitted()) + data
      ensures x != 0 ==> x < 0 && sock.failed && status == x
    {
      if bufLen <= bufIx + |data| {
        x := Flush();
        if x != 0 {
          return status;
        }
        if |data| + 20 >= bufLen {
          x := sock.Send(data);
          if x < 0 {
            status := x;
            return;
          }
          return 0;
        }
      }
      Store(bufIx, data);
      assert buf[..bufIx + |data|] == old(Emitted())[|sock.sent|..] + data;
      bufIx := U16(bufIx + |data|);
      return 0;
    }

    /** SMQ_publish. Both paths emit the same octets, whatever the length. */
    method Publish(data: seq<Octet>, t: nat, sub: nat) returns (x: int)
      requires Valid() && !sock.failed
      modifies this`bufIx, this`status, buf, sock`sent, sock`failed
      ensures Valid()
      ensures x == 0 ==> !sock.failed && sock.sent == old(sock.sent) + Encode(PublishFrame(t, clientTid, sub, data))
      ensures x == 0 ==> bufIx == 0 || bufIx == old(bufIx)
      ensures x != 0 ==> x < 0 && sock.failed && status == x
    {
      var tlen := U16(U16(|data|) + 15);
      var header := PublishHeader(tlen, MSG_PUBLISH, t, sub);
      if tlen <= bufLen && !inRecv {
        x := PublishBuffered(header, data);
      } else {
        x := PublishDirect(header, data);
      }
      HeaderEncodes(tlen, t, clientTid, sub, data);
    }

    method PublishBuffered(header: seq<Octet>, data: seq<Octet>) returns (x: int)
      requires Valid() && !sock.failed && |header| == 15
      modifies this`bufIx, this`status, buf, sock`sent, sock`failed
      ensures Valid()
      ensures x == 0 ==> bufIx == 0 && !sock.failed && sock.sent == old(sock.sent) + (header + data)
      ensures x != 0 ==> x < 0 && sock.failed && status == x
    {
      Store(0, header);
      bufIx := 15;
      assert buf[..15] == header;
      x := Writeb(data);
      if x == 0 {
        x := Flush();
      }
      assert old(sock.sent) + header + data == old(sock.sent) + (header + data);
    }

    method PublishDirect(header: seq<Octet>, data: seq<Octet>) returns (x: int)
      requires Valid() && !sock.failed
      modifies this`status, sock`sent, sock`failed
      ensures Valid()
      ensures x == 0 ==> !sock.failed && sock.sent == old(sock.sent) + (header + data)
      ensures x != 0 ==> x < 0 && sock.failed && status == x
    {
      status := sock.Send(header);
      if status < 0 {
        return status;
      }
      status := sock.Send(data);
      if status < 0 {
        return status;
      }
      assert old(sock.sent) + header + data == old(sock.sent) + (header + data);
      status := 0;
      return 0;
    }

    // SMQ_write and SMQ_pubflush ------------------------------------------------------------------

    /** The octets of pending have been written since base was sent, and not yet flushed to a topic. */
    ghost predicate Writing(base: seq<Octet>, pending: seq<Octet>)
      reads this, buf, sock
    {
      && Valid() && !sock.failed
      && var held := Remainder(pending, bufLen - 15);
      && (if bufIx == 0 then held == [] else 15 <= bufIx < bufLen && buf[15..bufIx] == held)
      && sock.sent == base + Wire(Filled(pending, bufLen - 15), clientTid)
    }

    /** SMQ_pubflush. */
    method PubFlush(t: nat, sub: nat) returns (x: int)
      requires Valid() && !sock.failed && (bufIx == 0 || 15 <= bufIx <= bufLen)
      modifies this`bufIx, this`status, buf, sock`sent, sock`failed
      ensures Valid() && bufIx == 0
      ensures x == 0 ==> !sock.failed
      ensures var data := if old(bufIx) == 0 then [] else old(buf[15..bufIx]);
        x == 0 ==> sock.sent == old(sock.sent) + Fragment(t, clientTid, sub, data)
      ensures x != 0 ==> x < 0 && sock.failed && status == x
    {
      if bufIx == 0 {
        bufIx := 15;
      }
      ghost var data := buf[15..bufIx];
      StoreHeader(t, sub);
      status := sock.Send(buf[..bufIx]);
      bufIx := 0;
      if status < 0 {
        return status;
      }
      status := 0;
      return 0;
    }

    /** The header of a fragment, in front of its data. */
    method StoreHeader(t: nat, sub: nat)
      requires Valid() && 15 <= bufIx <= bufLen
      modifies buf
      ensures buf[..bufIx] == Fragment(t, clientTid, sub, old(buf[15..bufIx]))
    {
      ghost var before := buf[..];
      var header := PublishHeader(bufIx, MSG_PUBFRAG, t, sub);
      Store(0, header);
      InFront(header, before, bufIx, buf[..]);
    }

    /** SMQ_write. */
    method Write(data: seq<Octet>, ghost base: seq<Octet>, ghost pending: seq<Octet>) returns (x: int)
      requires Writing(base, pending)
      modifies this`bufIx, this`status, buf, sock`sent, sock`failed
      ensures Valid()
      ensures inRecv ==> x == SMQE_PROTOCOL_ERROR && Writing(base, pending)
      ensures !inRecv && x == 0 ==> Writing(base, pending + data)
      ensures !inRecv && x != 0 ==> x < 0 && sock.failed && status == x
    {
      if inRecv {
        return SMQE_PROTOCOL_ERROR;
      }
      var at, len := 0, |data|;
      assert pending + data[..0] == pending;
      while len > 0
        invariant 0 <= len && at + len == |data| && Writing(base, pending + data[..at])
      {
        var chunk;
        chunk, x := WriteChunk(data[at..], base, pending + data[..at]);
        if x != 0 {
          return status;
        }
        NextPart(pending, data, at, chunk);
        at, len := at + chunk, len - chunk;
      }
      assert data[..at] == data;
      return 0;
    }

    /** One turn of the loop: as much as fits, and a fragment when the buffer is full. */
    method WriteChunk(data: seq<Octet>, ghost base: seq<Octet>, ghost pending: seq<Octet>) returns (chunk: nat, x: int)
      requires Writing(base, pending) && data != []
      modifies this`bufIx, this`status, buf, sock`sent, sock`failed
      ensures Valid() && 0 < chunk <= |data|
      ensures x == 0 ==> Writing(base, pending + data[..chunk])
      ensures x != 0 ==> x < 0 && sock.failed && status == x
    {
      ghost var cap, held := bufLen - 15, Remainder(pending, bufLen - 15);
      if bufIx == 0 {
        bufIx := 15;
      }
      var left := bufLen - bufIx;
      chunk := if |data| > left then left else |data|;
      Grow(pending, data[..chunk], cap);
      Fit(data[..chunk]);
      x := 0;
      if bufIx >= bufLen {
        x := FlushFull(base, Filled(pending, cap), held + data[..chunk]);
      }
    }

    method Fit(chunk: seq<Octet>)
      requires Valid() && 15 <= bufIx && bufIx + |chunk| <= bufLen
      modifies this`bufIx, buf
      ensures Valid() && bufIx == old(bufIx) + |chunk| && buf[15..bufIx] == old(buf[15..bufIx]) + chunk
    {
      Store(bufIx, chunk);
      bufIx := U16(bufIx + |chunk|);
    }

    method FlushFull(ghost base: seq<Octet>, ghost chunks: seq<seq<Octet>>, ghost payload: seq<Octet>) returns (x: int)
      requires Valid() && !sock.failed && bufIx == bufLen && buf[15..bufIx] == payload
      requires sock.sent == base + Wire(chunks, clientTid)
      modifies this`bufIx, this`status, buf, sock`sent, sock`failed
      ensures Valid() && bufIx == 0
      ensures x == 0 ==> !sock.failed && sock.sent == base + Wire(chunks + [payload], clientTid)
      ensures x != 0 ==> x < 0 && sock.failed && status == x
    {
      x := PubFlush(0, 0);
      WireAppend(chunks, payload, clientTid);
      JoinThree(base, Wire(chunks, clientTid), Fragment(0, clientTid, 0, payload));
    }

    // SMQ_subOrCreate -----------------------------------------------------------------------------

    /** SMQ_putb: octets that would reach the end of the buffer are dropped. */
    method Putb(data: seq<Octet>) returns (x: int)
      requires Valid() && bufIx <= bufLen
      modifies this`bufIx, buf
      ensures Valid()
      ensures if old(bufIx) + |data| < bufLen
              then x == 0 && bufIx == old(bufIx) + |data| && buf[..bufIx] == old(buf[..bufIx]) + data
              else x == -1 && bufIx == old(bufIx) && buf[..] == old(buf[..])
    {
      if bufLen <= bufIx + |data| {
        return -1;
      }
      Store(bufIx, data);
      bufIx := U16(bufIx + |data|);
      return 0;
    }

    /** SMQ_subscribe, SMQ_create and SMQ_createsub: the frame carries the topic if and only if
        header and topic are shorter than the buffer; at exactly its length the topic is lost. */
    method SubOrCreate(topic: seq<Octet>, msg: Octet) returns (x: int)
      requires Valid() && !sock.failed
      modifies this`bufIx, this`status, buf, sock`sent, sock`failed
      ensures Valid()
      ensures topic == [] ==> x == SMQE_PROTOCOL_ERROR && sock.sent == old(sock.sent)
      ensures topic != [] && 3 + |topic| > bufLen ==> x == SMQE_BUF_OVERFLOW && sock.sent == old(sock.sent)
      ensures topic != [] && 3 + |topic| <= bufLen && x == 0 ==>
        sock.sent == old(sock.sent) + if 3 + |topic| < bufLen then Header(3 + |topic|, msg) + topic else Header(3, msg)
      ensures topic != [] && 3 + |topic| <= bufLen && x != 0 ==> x < 0 && sock.failed && sock.sent == old(sock.sent)
    {
      if topic == [] {
        return SMQE_PROTOCOL_ERROR;
      }
      if 3 + |topic| > bufLen {
        return SMQE_BUF_OVERFLOW;
      }
      buf[2], bufIx := msg, 3;
      ghost var head := buf[..3];
      var _ := Putb(topic);
      ghost var before := buf[..];
      assert buf[..bufIx] == head + if 3 + |topic| < bufLen then topic else [];
      Store(0, PutU16(bufIx));
      HeaderStored(before, bufIx, head, if 3 + |topic| < bufLen then topic else [], buf[..]);
      x := Flush();
    }
  }

  ghost predicate SameFrom(a: seq<Octet>, b: seq<Octet>, q: nat) {
    q <= |a| == |b| && a[q..] == b[q..]
  }

  /** A piece of a header stored over the start of the buffer. */
  lemma AtFront(was: seq<Octet>, now: seq<Octet>, x: nat, piece: seq<Octet>)
    requires |was| == |now| >= 3 >= x && now[..x] == [] + piece
    requires forall i :: x <= i < |now| ==> now[i] == was[i]
    ensures now[..3] == piece + was[..3][x..]
  {
    CutAt(now, x, 3);
    assert now[x..3] == was[..3][x..];
  }

  lemma Pieces(s: seq<Octet>, p: nat, q: nat, r: nat)
    requires p <= q <= r <= |s|
    ensures s[p..q] + s[q..r] == s[p..r]
  {
  }

  lemma LengthSeen(s: seq<Octet>, p: nat, h: seq<Octet>)
    requires p + 3 <= |s| && s[p..p + 3] == h
    ensures GetU16(s[p..]) == Number(0, 0, h[0], h[1])
  {
    assert s[p..][0] == s[p..p + 3][0] && s[p..][1] == s[p..p + 3][1];
  }

  lemma KeptFront(was: seq<Octet>, seen: seq<Octet>, p: nat, q: nat)
    requires p <= q <= |was| == |seen| && was[..q] == seen[..q]
    ensures was[..p] == seen[..p]
  {
    assert was[..p] == was[..q][..p] && seen[..p] == seen[..q][..p];
  }

  lemma Shifted(s: seq<Octet>, p: nat, n: nat)
    requires p + n <= |s|
    ensures s[p..][..n] == s[p..p + n]
  {
  }

  lemma Dropped(s: seq<Octet>, p: nat, k: nat)
    requires p + k <= |s|
    ensures s[p + k..] == s[p..][k..]
  {
  }

  lemma InFront(header: seq<Octet>, before: seq<Octet>, n: nat, after: seq<Octet>)
    requires |header| <= n <= |before| && after == header + before[|header|..]
    ensures after[..n] == header + before[|header|..n]
  {
  }

  /** Reading on leaves the unread octets as they were sent. */
  lemma Advanced(seen: seq<Octet>, stream: seq<Octet>, p: nat, q: nat)
    requires p <= q <= |seen| == |stream| && seen[p..] == stream[p..]
    ensures SameFrom(seen, stream, q) && seen[p..q] == stream[p..q]
  {
    assert seen[q..] == seen[p..][q - p..] && stream[q..] == stream[p..][q - p..];
    assert seen[p..q] == seen[p..][..q - p] && stream[p..q] == stream[p..][..q - p];
  }

  /** Three octets of a stream replaced where it has just been read. */
  lemma Replaced(seen: seq<Octet>, stream: seq<Octet>, p: nat, h: seq<Octet>)
    requires |seen| == |stream| && p + 3 <= |seen| && |h| == 3 && seen[p..] == stream[p..]
    ensures var t := seen[..p] + h + seen[p + 3..];
      && |t| == |seen| && t[..p] == seen[..p] && t[p..p + 3] == h && SameFrom(t, stream, p + 3)
      && (t == stream <==> seen == stream && h == stream[p..p + 3])
  {
    var t := seen[..p] + h + seen[p + 3..];
    Advanced(seen, stream, p, p + 3);
    assert seen == seen[..p] + seen[p..p + 3] + seen[p + 3..];
    assert stream == stream[..p] + stream[p..p + 3] + stream[p + 3..];
    assert t[..p] == seen[..p];
    if t == stream {
      assert seen[..p] == stream[..p];
    }
  }

  /** What was skipped before a header is not changed by reading it. */
  lemma SkippedStill(was: seq<Octet>, seen: seq<Octet>, p: nat, k: nat)
    requires p + k <= |was| == |seen| && was[..p + k] == seen[..p + k]
    requires k % 3 == 0 && k <= SkipLen(was[p..])
    ensures k <= SkipLen(seen[p..]) && seen[p..][..k] == was[p..][..k] && was[..p] == seen[..p]
  {
    KeptFront(was, seen, p, p + k);
    assert was[p..][..k] == was[..p + k][p..] && seen[p..][..k] == seen[..p + k][p..];
    SameSkip(was[p..], seen[p..], k);
  }

  /** The length goes in front of a frame type that is there already. */
  lemma HeaderStored(before: seq<Octet>, n: nat, head: seq<Octet>, topic: seq<Octet>, after: seq<Octet>)
    requires |head| == 3 && n == 3 + |topic| <= |before| && before[..n] == head + topic
    requires after == PutU16(n) + before[2..]
    ensures after[..n] == Header(n, head[2]) + topic
  {
    assert before[2] == before[..n][2] == head[2];
    assert before[3..n] == before[..n][3..] == topic;
    assert after[..n] == PutU16(n) + before[2..n];
    assert before[2..n] == [before[2]] + before[3..n];
  }

  lemma NextPart(pending: seq<Octet>, data: seq<Octet>, at: nat, chunk: nat)
    requires at + chunk <= |data|
    ensures pending + data[..at] + data[at..][..chunk] == pending + data[..at + chunk]
  {
    assert data[..at] + data[at..][..chunk] == data[..at + chunk];
  }

  /** The U16 length wraps exactly as the two octets of the frame drop its higher bits. */
  lemma LengthWraps(n: nat)
    ensures PutU16(U16(U16(n) + 15)) == PutU16(15 + n)
  {
    PutU16Wraps(U16(n) + 15);
    PutU16Wraps(15 + n);
    LowPlus(n, 15);
  }

  lemma HeaderEncodes(tlen: nat, t: nat, p: nat, sub: nat, data: seq<Octet>)
    requires tlen == U16(U16(|data|) + 15)
    ensures PutU16(tlen) + [MSG_PUBLISH] + PutU32(t) + PutU32(p) + PutU32(sub) + data
         == Encode(PublishFrame(t, p, sub, data))
  {
    LengthWraps(|data|);
  }

  /** The length field of a published frame is its length if and only if the payload is not too long. */
  lemma PublishLength(t: nat, p: nat, sub: nat, data: seq<Octet>)
    ensures var f := Encode(PublishFrame(t, p, sub, data)); GetU16(f) == |f| <==> |data| <= 65520
  {
    ReadHeader15(t, p, sub, data);
  }

  lemma ReadHeader15(t: nat, p: nat, sub: nat, data: seq<Octet>)
    ensures var f := Encode(PublishFrame(t, p, sub, data));
      |f| == 15 + |data| && GetU16(f) == (15 + |data|) % 0x1_0000
  {
    U16RoundTrip(15 + |data|);
  }
}
