/** Receiving on the socket port for NetX: a packet chain with a cursor. */
module NetxSocket {
  import opened Octets
  import opened Transport
  import opened Chains

  /** What NetX answers: a chain of packets, no packet in time, or an error. */
  datatype Answer = Packets(chain: seq<seq<Octet>>) | NoPacket | Failure

  /** No packet is empty, and a wait without end ends with packets or an error. */
  predicate Possible(answer: Answer, forever: bool) {
    match answer
    case Packets(chain) => |chain| > 0 && forall i :: 0 <= i < |chain| ==> |chain[i]| > 0
    case NoPacket => !forever
    case Failure => true
  }

  class Socket {
    // nxFirstPacket, nxPacket and nxPktOffs: the chain, the current packet, the octets of it delivered
    var chain: seq<seq<Octet>>
    var cur: nat
    var off: nat
    var taken: nat
    var released: nat
    // the octets of the chain that are not delivered yet
    ghost var unread: seq<Octet>
    // all octets the network layer has handed over, and all octets given to callers of se_recv
    ghost var received: seq<Octet>
    ghost var returned: seq<Octet>

    /** The cursor stands inside a packet that has octets left. */
    ghost predicate Reading()
      reads this
    {
      && cur < |chain| && off < |chain[cur]|
      && unread == Behind(chain, cur, off) && taken == released + 1
      && (forall i :: 0 <= i < |chain| ==> |chain[i]| > 0)
    }

    /** Every chain taken from NetX is released, but for the one that is read in part. */
    ghost predicate Held()
      reads this
    {
      && (|chain| > 0 ==> Reading())
      && (|chain| == 0 ==> |unread| == 0 && taken == released)
    }

    /** No octet is lost or given twice. */
    ghost predicate Valid()
      reads this
    {
      Held() && received == returned + unread
    }

    constructor ()
      ensures Valid() && received == [] && returned == [] && taken == 0
    {
      chain, cur, off, taken, released := [], 0, 0, 0, 0;
      unread, received, returned := [], [], [];
    }

    /** se_recv, when NetX has this answer for nx_tcp_socket_receive: min(len, octets left) octets in stream order,
        across packets. NetX is asked only if nothing is left of the last chain. */
    method Recv(into: array<Octet>, len: nat, timeout: nat, answer: Answer) returns (x: int)
      requires Valid() && len <= into.Length && Possible(answer, timeout == INFINITE_TMO)
      modifies this, into
      ensures Valid() && Framed(old(into[..]), into[..], 0, x)
      ensures old(|chain|) > 0 ==>
        && received == old(received) && taken == old(taken)
        && x == Min(len, |old(unread)|) && returned == old(returned) + into[..x]
      ensures old(|chain|) == 0 && answer.Packets? ==>
        && received == old(received) + Flat(answer.chain) && taken == old(taken) + 1
        && x == Min(len, |Flat(answer.chain)|) && returned == old(returned) + into[..x]
      ensures old(|chain|) == 0 && !answer.Packets? ==>
        && x == (if answer.NoPacket? then 0 else -1)
        && received == old(received) && returned == old(returned) && taken == old(taken)
      ensures taken == released + if unread == [] then 0 else 1
      ensures timeout == INFINITE_TMO && len > 0 ==> x != 0
    {
      if |chain| == 0 {
        if !answer.Packets? {
          return if answer.NoPacket? then 0 else -1;
        }
        Begin(answer.chain);
      }
      x := TakeOut(into, len);
      JoinThree(returned, into[..x], unread);
      returned := returned + into[..x];
    }

    method Begin(packets: seq<seq<Octet>>)
      requires Valid() && |chain| == 0 && |packets| > 0 && forall i :: 0 <= i < |packets| ==> |packets[i]| > 0
      modifies this`chain, this`cur, this`off, this`taken, this`unread, this`received
      ensures Valid() && |chain| > 0 && unread == Flat(packets) && taken == old(taken) + 1
      ensures received == old(received) + Flat(packets)
    {
      chain, cur, off, taken := packets, 0, 0, taken + 1;
      unread := Behind(chain, 0, 0);
      assert packets[0][0..] == packets[0] && unread == Flat(packets);
      received := received + unread;
      assert returned + [] == returned;
    }

    /** The copy loop. */
    method TakeOut(into: array<Octet>, len0: nat) returns (retLen: nat)
      requires Reading() && len0 <= into.Length
      modifies this`chain, this`cur, this`off, this`released, this`unread, into
      ensures Held() && retLen == Min(len0, |old(unread)|)
      ensures old(unread) == into[..retLen] + unread
      ensures |chain| == 0 <==> |old(unread)| <= len0
      ensures forall i :: retLen <= i < into.Length ==> into[i] == old(into[i])
      ensures released == old(released) + if |chain| == 0 then 1 else 0
    {
      ghost var u := unread;
      retLen := CopyLoop(into, len0, u);
      if cur == |chain| {
        released := released + 1;
        chain := [];
      }
    }

    method CopyLoop(into: array<Octet>, len0: nat, ghost u: seq<Octet>) returns (retLen: nat)
      requires Reading() && len0 <= into.Length && u == unread
      modifies this`cur, this`off, this`unread, into
      ensures retLen == Min(len0, |u|) && Moved(into[..retLen], u)
      ensures forall i :: retLen <= i < into.Length ==> into[i] == old(into[i])
      ensures Drawn(u, len0)
    {
      var len, more := len0, true;
      retLen := 0;
      NothingMoved(into[..0], u);
      while more
        invariant 0 <= len && retLen + len == len0 <= into.Length && Gone(into, retLen, u)
        invariant if more then Reading() else Rested(len)
        invariant forall i :: retLen <= i < into.Length ==> into[i] == old(into[i])
        decreases more, |chain| - cur
      {
        var chunk;
        chunk, more := CopyTurn(into, retLen, len, u);
        retLen, len := retLen + chunk, len - chunk;
      }
      AllMoved(into[..retLen], u, len);
    }

    lemma AllMoved(got: seq<Octet>, u: seq<Octet>, len: nat)
      requires Moved(got, u) && Rested(len)
      ensures |got| == Min(|got| + len, |u|)
      ensures Drawn(u, |got| + len)
    {
      Length(got, u);
    }

    /** n octets of u are wanted: nothing is left, or the cursor stands where it goes on. */
    ghost predicate Drawn(u: seq<Octet>, n: nat)
      reads this
    {
      if |u| <= n then cur == |chain| && |unread| == 0 else Reading()
    }

    /** Nothing more is wanted, or nothing is left. */
    ghost predicate Rested(len: int)
      reads this
    {
      if cur == |chain| then |unread| == 0 else Reading() && |unread| > 0 && len == 0
    }

    /** One turn of the loop: a piece of the current packet, or the rest of it. */
    method CopyTurn(into: array<Octet>, at: nat, len: nat, ghost u: seq<Octet>) returns (chunk: nat, more: bool)
      requires Reading() && at + len <= into.Length && Gone(into, at, u)
      modifies this`cur, this`off, this`unread, into
      ensures chunk <= len && Gone(into, at + chunk, u) && old(cur) <= cur
      ensures if more then Reading() && old(cur) < cur else Rested(len - chunk)
      ensures forall i :: at + chunk <= i < into.Length ==> into[i] == old(into[i])
    {
      var pLen := |chain[cur]| - off;
      BehindAtLeast(chain, cur, off);
      if pLen > len {
        if len != 0 {
          CopySome(into, at, len, u);
          BehindAtLeast(chain, cur, off);
        }
        return len, false;
      }
      CopyPacket(into, at, pLen, u);
      return pLen, cur != |chain|;
    }

    lemma NothingMoved(got: seq<Octet>, u: seq<Octet>)
      requires |got| == 0 && unread == u
      ensures Moved(got, u)
    {
    }

    lemma Length(got: seq<Octet>, u: seq<Octet>)
      requires Moved(got, u)
      ensures |u| == |got| + |unread|
    {
    }

    ghost predicate Gone(into: array<Octet>, n: nat, u: seq<Octet>)
      reads this`unread, into
    {
      n <= into.Length && Moved(into[..n], u)
    }

    /** The octets got have gone from u to the caller. */
    ghost predicate Moved(got: seq<Octet>, u: seq<Octet>)
      reads this`unread
    {
      got + unread == u
    }

    /** A piece of the current packet, not up to its end. */
    method CopySome(into: array<Octet>, at: nat, n: nat, ghost u: seq<Octet>)
      requires Reading() && off + n < |chain[cur]| && at + n <= into.Length && Moved(into[..at], u)
      modifies this`off, this`unread, into
      ensures Reading() && Moved(into[..at + n], u)
      ensures forall i :: at + n <= i < into.Length ==> into[i] == old(into[i])
    {
      Append(into, at, n, u);
      off := off + n;
    }

    /** The rest of the current packet, then on to the next. */
    method CopyPacket(into: array<Octet>, at: nat, pLen: nat, ghost u: seq<Octet>)
      requires Reading() && off + pLen == |chain[cur]| && at + pLen <= into.Length && Moved(into[..at], u)
      modifies this`cur, this`off, this`unread, into
      ensures cur == old(cur) + 1 && Moved(into[..at + pLen], u)
      ensures cur == |chain| ==> |unread| == 0
      ensures forall i :: at + pLen <= i < into.Length ==> into[i] == old(into[i])
      ensures cur != |chain| ==> Reading()
    {
      Append(into, at, pLen, u);
      NextBehind(chain, cur);
      cur, off := cur + 1, 0;
    }

    /** memcpy. */
    method Append(into: array<Octet>, at: nat, n: nat, ghost u: seq<Octet>)
      requires Reading() && off + n <= |chain[cur]| && at + n <= into.Length && Moved(into[..at], u)
      modifies this`unread, into
      ensures unread == Behind(chain, cur, off + n) && Moved(into[..at + n], u)
      ensures forall i :: at + n <= i < into.Length ==> into[i] == old(into[i])
    {
      var piece := chain[cur][off..off + n];
      TakeBehind(chain, cur, off, n);
      ghost var got := into[..at];
      Copy(into, at, piece);
      unread := Behind(chain, cur, off + n);
      JoinThree(got, piece, unread);
    }
  }
}
