/** The byte-stream contract of selib.h: what se_recv and se_send may do. */
module Transport {
  import opened Octets

  const INFINITE_TMO := 0xFFFF_FFFF
  const STACK_ERRORS := -10000

  /** One se_recv call: before and after are the octets the peer has yet to hand over, x the value
      returned, got the octets delivered. */
  ghost predicate Received(before: seq<Octet>, after: seq<Octet>, len: nat, x: int, got: seq<Octet>) {
    if x > 0 then x <= len && |got| == x && before == got + after
    else got == [] && before == after
  }

  /** What the call may have done to the buffer: nothing outside the octets that it returns, unless it fails. */
  ghost predicate Framed(before: seq<Octet>, after: seq<Octet>, off: nat, x: int) {
    |before| == |after| && (x >= 0 ==> forall i :: 0 <= i < |after| && !(off <= i < off + x) ==> after[i] == before[i])
  }

  /** A connected socket. Which octets come when, and which call times out or fails, is left open. */
  class Sock {
    const stream: seq<Octet>
    var pos: nat
    ghost var failed: bool
    var sent: seq<Octet>

    constructor (stream: seq<Octet>)
      ensures this.stream == stream && pos == 0 && !failed && sent == []
    {
      this.stream := stream;
      pos, failed, sent := 0, false, [];
    }

    ghost predicate Valid()
      reads this`pos
    {
      pos <= |stream|
    }

    ghost function Rest(): seq<Octet>
      requires Valid()
      reads this`pos
    {
      stream[pos..]
    }

    /** Returns the number of octets stored at buf[off..], 0 on timeout, a negative error otherwise.
        Stack errors are small numbers, apart from the codes of SMQClient.h.
        A wait without end never times out; a call that asks for nothing gets nothing. */
    method Recv(buf: array<Octet>, off: nat, len: nat, timeout: nat) returns (x: int)
      requires Valid() && off + len <= buf.Length
      modifies this`pos, this`failed, buf
      ensures Valid()
      ensures x <= len && pos == old(pos) + (if x > 0 then x else 0)
      ensures Received(old(Rest()), Rest(), len, x, buf[off..off + if x > 0 then x else 0])
      ensures x > 0 ==> buf[..off + x] == old(buf[..off]) + stream[old(pos)..pos]
      ensures Framed(old(buf[..]), buf[..], off, x)
      ensures failed == (old(failed) || x < 0)
      ensures timeout == INFINITE_TMO && len > 0 ==> x != 0
      ensures x > STACK_ERRORS
    {
      x := *;
      if x <= STACK_ERRORS {
        x := -1;
      }
      if len == 0 && x > 0 {
        x := 0;
      } else if x > len {
        x := len;
      }
      if pos + x > |stream| {
        x := |stream| - pos;
      }
      if x == 0 && len > 0 && timeout == INFINITE_TMO {
        x := -1;
      }
      if x < 0 {
        failed := true;
      } else {
        Copy(buf, off, stream[pos..pos + x]);
        CutAt(stream, pos, pos + x);
        pos := pos + x;
      }
    }

    /** All of data is sent, or the call fails. */
    method Send(data: seq<Octet>) returns (x: int)
      modifies this`sent, this`failed
      ensures x >= 0 ==> sent == old(sent) + data && failed == old(failed)
      ensures x < 0 ==> sent == old(sent) && failed
      ensures x > STACK_ERRORS
    {
      x := *;
      if x <= STACK_ERRORS {
        x := -1;
      }
      if x < 0 {
        failed := true;
      } else {
        sent := sent + data;
      }
    }
  }
}
