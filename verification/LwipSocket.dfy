/** Receiving on the socket port for the raw lwIP API. Callbacks come only while the task waits. */
module LwipSocket {
  import opened Octets
  import opened Transport
  import opened Chains

  const ERR_CLSD := -15

  /** pbuf_free on a chain with these reference counts: pbufs that drop to zero go back to the pool,
      and the first that does not keeps the rest of the chain alive. */
  function Freed(refs: seq<nat>): seq<nat> {
    if refs == [] then [] else if refs[0] <= 1 then Freed(refs[1..]) else [refs[0] - 1] + refs[1..]
  }

  lemma {:induction false} AllFreed(refs: seq<nat>)
    requires forall i :: 0 <= i < |refs| ==> refs[i] == 1
    ensures Freed(refs) == []
  {
    if refs != [] {
      AllFreed(refs[1..]);
    }
  }

  lemma NothingTaken(got: seq<Octet>, all: seq<Octet>, before: seq<Octet>)
    requires |got| == 0
    ensures got + all == all && before + got == before
  {
  }

  lemma Taken(got: seq<Octet>, rest: seq<Octet>, all: seq<Octet>)
    requires got + rest == all
    ensures |all| == |got| + |rest| && all[..|got|] == got
  {
  }

  /** What the stack may have for a socket: a call of se_recCb or of se_errCb. */
  datatype Event = Arrives(pbufs: seq<seq<Octet>>, err: int) | Breaks(err: int)

  predicate IsData(e: Event) { e.Arrives? && |e.pbufs| > 0 && e.err == 0 }

  /** The octets that come before the first event that clears the socket. */
  function Incoming(events: seq<Event>): seq<Octet> {
    if |events| == 0 || !IsData(events[0]) then [] else Flat(events[0].pbufs) + Incoming(events[1..])
  }

  /** The error of that event, or zero. */
  function Outcome(events: seq<Event>): int {
    if |events| == 0 then 0
    else if IsData(events[0]) then Outcome(events[1..])
    else if events[0].err != 0 then events[0].err
    else ERR_CLSD
  }

  /** The task is woken by data and by se_errCb. The end of the connection clears the flag that tells of the
      waiting task before it is looked at, and wakes nobody. */
  predicate WakesUp(events: seq<Event>) { |events| > 0 && (IsData(events[0]) || events[0].Breaks?) }

  /** No pbuf is empty, and errors are negative. */
  predicate Proper(e: Event) {
    if e.Breaks? then e.err < 0 else e.err <= 0 && forall j :: 0 <= j < |e.pbufs| ==> |e.pbufs[j]| > 0
  }

  predicate Shaped(events: seq<Event>) { forall i :: 0 <= i < |events| ==> Proper(events[i]) }

  /** What the stack may have for a socket with nothing unread: no more than the window. */
  predicate Possible(events: seq<Event>) { Shaped(events) && |Incoming(events)| <= 0xFFFF }

  lemma NothingComes(r: seq<Octet>, events: seq<Event>)
    ensures |events| == 0 || !IsData(events[0]) ==> r + Incoming(events) == r
    ensures events[0..] == events
  {
  }

  lemma Upcoming(events: seq<Event>, i: nat)
    requires i < |events|
    ensures events[i..][0] == events[i] && events[i..][1..] == events[i + 1..]
    ensures Shaped(events[i..]) ==> Shaped(events[i + 1..])
  {
    assert events[i..][1..] == events[i + 1..];
    assert Shaped(events[i..]) ==> Shaped(events[i..][1..]);
  }

  class Socket {
    var pcb: bool
    var ecode: int
    var inRecv: bool
    var ready: bool
    // u.rec: the chain with its reference counts, the cursor, and the octets before and after data
    var chain: seq<seq<Octet>>
    var refs: seq<nat>
    var cur: nat
    var data: nat
    var len: nat
    // what the peer and the stack have seen
    var received: seq<Octet>
    var returned: seq<Octet>
    var credited: nat
    var leaked: seq<nat>
    var dropped: seq<seq<Octet>>
    ghost var unread: seq<Octet>

    /** The references that se_recCb takes are dropped up to the cursor and held behind it. */
    ghost predicate References()
      reads this`chain, this`refs, this`cur, this`leaked
    {
      && |refs| == |chain| && |leaked| == 0
      && (forall i :: 0 <= i < cur && i < |refs| ==> refs[i] == 1)
      && (forall i :: cur <= i < |refs| ==> 1 <= refs[i] <= 2)
    }

    ghost predicate Cursor()
      reads this`chain, this`cur, this`data, this`len, this`unread
    {
      && (|chain| == 0 ==> |unread| == 0)
      && (|chain| > 0 ==> cur < |chain| && data + len == |chain[cur]| && unread == Behind(chain, cur, data))
    }

    /** Every octet received is returned or still in the chain, and credited or still in the chain. */
    ghost predicate Books()
      reads this`chain, this`pcb, this`received, this`returned, this`credited, this`unread
    {
      && credited + Total(chain) == |received| && Total(chain) <= 0xFFFF
      && (pcb ==> received == returned + unread) && (!pcb ==> |chain| == 0 && returned <= received)
    }

    ghost predicate Valid()
      reads this`chain, this`refs, this`cur, this`data, this`len, this`leaked, this`unread
      reads this`pcb, this`received, this`returned, this`credited
    {
      && References() && Cursor() && Books()
      && (forall i :: 0 <= i < |chain| ==> |chain[i]| > 0)
      && (|chain| > 0 ==> len > 0)
    }

    constructor ()
      ensures Valid() && pcb && ecode == 0 && !ready && !inRecv && received == [] && returned == []
    {
      pcb, ecode, inRecv, ready := true, 0, false, false;
      chain, refs, cur, data, len := [], [], 0, 0, 0;
      received, returned, credited, leaked, unread, dropped := [], [], 0, [], [], [];
      new;
      assert References();
      assert Cursor();
      assert Books();
    }

    /** se_close, as far as receiving goes. */
    method Close()
      requires Valid()
      modifies this
      ensures Valid() && !pcb && ecode == 0 && !inRecv && ready == old(ready) && dropped == old(dropped)
      ensures received == old(received) && returned == old(returned)
    {
      if pcb && |chain| > 0 {
        DropReferences();
        ReleaseChain();
      }
      Clear();
    }

    /** The socket's fields, all zero. */
    method Clear()
      modifies this`pcb, this`ecode, this`inRecv, this`chain, this`refs, this`cur, this`data, this`len, this`unread
      ensures !pcb && ecode == 0 && !inRecv && |chain| == 0 && |refs| == 0 && |unread| == 0
    {
      pcb, ecode, inRecv := false, 0, false;
      chain, refs, cur, data, len := [], [], 0, 0, 0;
      unread := [];
    }

    method DropReferences()
      requires forall i :: 0 <= i < |refs| ==> 1 <= refs[i] <= 2
      modifies this`refs
      ensures |refs| == |old(refs)| && forall i :: 0 <= i < |refs| ==> refs[i] == 1
    {
      for i := 0 to |refs|
        invariant |refs| == |old(refs)|
        invariant forall j :: 0 <= j < i ==> refs[j] == 1
        invariant forall j :: i <= j < |refs| ==> 1 <= refs[j] <= 2
      {
        if refs[i] > 1 {
          refs := refs[i := refs[i] - 1];
        }
      }
    }

    /** The window is credited once for the whole chain, by its 16-bit tot_len, and every pbuf goes back to the pool. */
    method ReleaseChain()
      requires Total(chain) <= 0xFFFF && forall i :: 0 <= i < |refs| ==> refs[i] == 1
      modifies this`credited, this`leaked
      ensures credited == old(credited) + Total(chain) && |leaked| == 0
    {
      credited := credited + Total(chain) % 0x1_0000;
      AllFreed(refs);
      leaked := Freed(refs);
    }

    /** se_recCb. The stack delivers no empty pbuf, and no more than the window it has been credited. Pbufs
        that come together with an error are neither kept nor freed. */
    method RecCb(p: seq<seq<Octet>>, err: int)
      requires Valid() && pcb && err <= 0 && forall i :: 0 <= i < |p| ==> |p[i]| > 0
      requires err == 0 ==> |received| - credited + Total(p) <= 0xFFFF
      modifies this
      ensures Valid() && returned == old(returned)
      ensures |p| > 0 && err == 0 ==> pcb && |chain| > 0 && received == old(received) + Flat(p)
      ensures |p| > 0 && err == 0 ==> ecode == old(ecode) && inRecv == old(inRecv) && credited == old(credited)
      ensures |p| > 0 && err == 0 ==> ready == (old(ready) || old(inRecv))
      ensures |p| == 0 || err != 0 ==> !pcb && !inRecv && ready == old(ready) && received == old(received)
      ensures |p| == 0 || err != 0 ==> ecode == if err != 0 then err else -15
      ensures dropped == if err != 0 then old(dropped) + p else old(dropped)
    {
      if err != 0 {
        dropped := dropped + p;
      }
      Deliver(p, err);
      if inRecv && (|chain| > 0 || ecode != 0) {
        ready := true;
      }
    }

    method Deliver(p: seq<seq<Octet>>, err: int)
      requires Valid() && pcb && err <= 0 && forall i :: 0 <= i < |p| ==> |p[i]| > 0
      requires err == 0 ==> |received| - credited + Total(p) <= 0xFFFF
      modifies this
      ensures Valid() && returned == old(returned) && ready == old(ready) && dropped == old(dropped)
      ensures |p| > 0 && err == 0 ==> pcb && |chain| > 0 && received == old(received) + Flat(p)
      ensures |p| > 0 && err == 0 ==> ecode == old(ecode) && inRecv == old(inRecv) && credited == old(credited)
      ensures |p| == 0 || err != 0 ==> !pcb && !inRecv && received == old(received)
      ensures |p| == 0 || err != 0 ==> ecode == if err != 0 then err else ERR_CLSD
    {
      if |p| == 0 || err != 0 {
        Close();
        ecode := if err != 0 then err else ERR_CLSD;
      } else {
        Chain(p);
      }
    }

    method Chain(p: seq<seq<Octet>>)
      requires Valid() && pcb && |p| > 0 && forall i :: 0 <= i < |p| ==> |p[i]| > 0
      requires Total(chain) + Total(p) <= 0xFFFF
      modifies this`chain, this`refs, this`cur, this`data, this`len, this`received, this`unread
      ensures Valid() && |chain| > 0 && received == old(received) + Flat(p)
    {
      if |chain| > 0 {
        Cat(p);
      } else {
        First(p);
      }
    }

    /** The counts of a delivery: se_recCb takes a reference on its first pbuf. */
    function CountsOf(p: seq<seq<Octet>>): (r: seq<nat>)
      ensures |r| == |p| && forall i :: 0 <= i < |r| ==> r[i] == if i == 0 then 2 else 1
    {
      seq(|p|, i => if i == 0 then 2 else 1)
    }

    /** pbuf_cat. */
    method Cat(p: seq<seq<Octet>>)
      requires Valid() && pcb && |chain| > 0 && forall i :: 0 <= i < |p| ==> |p[i]| > 0
      requires Total(chain) + Total(p) <= 0xFFFF
      modifies this`chain, this`refs, this`received, this`unread
      ensures Valid() && |chain| > 0 && received == old(received) + Flat(p)
    {
      AppendBehind(chain, cur, data, p);
      TotalAppend(chain, p);
      TotalIsLength(p);
      JoinThree(returned, unread, Flat(p));
      var counts := refs + CountsOf(p);
      assert forall i :: cur <= i < |counts| ==> 1 <= counts[i] <= 2;
      chain, refs := chain + p, counts;
      received, unread := received + Flat(p), unread + Flat(p);
      assert References();
      assert Cursor();
      assert Books();
    }

    method First(p: seq<seq<Octet>>)
      requires Valid() && pcb && |chain| == 0 && |p| > 0 && forall i :: 0 <= i < |p| ==> |p[i]| > 0
      requires Total(p) <= 0xFFFF
      modifies this`chain, this`refs, this`cur, this`data, this`len, this`received, this`unread
      ensures Valid() && |chain| > 0 && received == old(received) + Flat(p)
    {
      TotalIsLength(p);
      assert returned + [] == returned;
      chain, refs := p, CountsOf(p);
      cur, data, len := 0, 0, |p[0]|;
      received, unread := received + Flat(p), Flat(p);
    }

    /** se_errCb. */
    method ErrCb(err: int)
      requires Valid() && err < 0
      modifies this
      ensures Valid() && !pcb && ecode == err && ready
      ensures received == old(received) && returned == old(returned)
    {
      Close();
      ecode := err;
      ready := true;
    }

    /** SeCtx_save in se_recv: the main loop runs the callbacks for these events. Has one of them woken the task? */
    method Wait(events: seq<Event>) returns (woken: bool)
      requires Valid() && pcb && ecode == 0 && inRecv && !ready && |chain| == 0 && Possible(events)
      modifies this
      ensures Valid() && !ready && returned == old(returned)
      ensures received == old(received) + Incoming(events)
      ensures ecode == Outcome(events) <= 0 && (pcb <==> ecode == 0) && woken == WakesUp(events)
    {
      ghost var r := received;
      NothingComes(r, events);
      var i := 0;
      while i < |events| && pcb
        invariant i <= |events| && Valid() && returned == old(returned) && (i > 0 ==> ready == WakesUp(events))
        invariant if pcb then Waiting(r, events, i) else i > 0 && Ended(r, events)
      {
        Next(r, events, i);
        i := i + 1;
      }
      if pcb {
        NothingComes(received, []);
      }
      woken := ready;
      ready := false;
    }

    /** i events have come, all of them data. */
    ghost predicate Waiting(r: seq<Octet>, events: seq<Event>, i: nat)
      reads this
    {
      && pcb && ecode == 0 && inRecv && i <= |events| && Shaped(events[i..])
      && received + Incoming(events[i..]) == r + Incoming(events) && Outcome(events[i..]) == Outcome(events)
      && |received| - credited + |Incoming(events[i..])| <= 0xFFFF && (ready <==> i > 0)
    }

    ghost predicate Ended(r: seq<Octet>, events: seq<Event>)
      reads this
    {
      !pcb && ecode == Outcome(events) < 0 && received == r + Incoming(events)
    }

    /** The callback for the next event. */
    method Next(ghost r: seq<Octet>, events: seq<Event>, i: nat)
      requires Valid() && i < |events| && Waiting(r, events, i) && (i > 0 ==> ready == WakesUp(events))
      modifies this
      ensures Valid() && returned == old(returned) && ready == WakesUp(events)
      ensures if pcb then Waiting(r, events, i + 1) else Ended(r, events)
    {
      var e := events[i];
      Upcoming(events, i);
      if e.Breaks? {
        ErrCb(e.err);
      } else {
        TotalIsLength(e.pbufs);
        RecCb(e.pbufs, e.err);
      }
      if IsData(e) {
        JoinThree(old(received), Flat(e.pbufs), Incoming(events[i + 1..]));
      } else {
        NothingComes(received, events[i..]);
      }
    }

    /** se_recv, while the stack has these events for the socket, in this order. Without a timeout the call comes
        back only if one of them wakes it. */
    method Recv(buf: array<Octet>, size: nat, timeout: nat, events: seq<Event>) returns (x: int, back: bool)
      requires Valid() && !ready && !inRecv && size <= buf.Length && Possible(events)
      modifies this, buf
      ensures Valid() && !ready && !inRecv && (x >= 0 ==> pcb)
      ensures x > 0 ==> x <= size && returned == old(returned) + buf[..x]
      ensures x <= 0 ==> returned == old(returned)
      ensures old(received) <= received
      ensures x >= 0 ==> x == Min(size, |received| - |old(returned)|)
      ensures Framed(old(buf[..]), buf[..], 0, x)
      ensures back <==> old(!pcb || ecode != 0 || |chain| > 0) || timeout != INFINITE_TMO || WakesUp(events)
      ensures old(!pcb || ecode != 0) ==> x == -1
      ensures old(pcb && ecode == 0 && |chain| > 0) ==>
        received == old(received) && x == Min(size, |old(unread)|) && buf[..x] == old(unread)[..x]
      ensures back && old(pcb && ecode == 0 && |chain| == 0) ==>
        && received == old(received) + Incoming(events)
        && x == if Outcome(events) != 0 then Outcome(events) else Min(size, |Incoming(events)|)
      ensures timeout == INFINITE_TMO && size > 0 ==> x != 0
    {
      if !pcb || ecode != 0 {
        return -1, true;
      }
      if |chain| == 0 {
        var woken := Await(events);
        if timeout == INFINITE_TMO && !woken {
          return ERR_CLSD, false;
        }
        if |chain| == 0 {
          return ecode, true;
        }
      }
      assert |received| == |returned| + |unread|;
      x := TakeOut(buf, size);
      back := true;
    }

    method Await(events: seq<Event>) returns (woken: bool)
      requires Valid() && pcb && ecode == 0 && !inRecv && !ready && |chain| == 0 && Possible(events)
      modifies this
      ensures Valid() && !ready && !inRecv && returned == old(returned) == old(received) <= received
      ensures received == old(received) + Incoming(events) && woken == WakesUp(events)
      ensures ecode == Outcome(events) <= 0 && (pcb <==> ecode == 0)
      ensures |chain| > 0 <==> pcb && |Incoming(events)| > 0
      ensures pcb ==> |unread| == |Incoming(events)|
    {
      assert |unread| == 0 && received == returned;
      inRecv := true;
      woken := Wait(events);
      inRecv := false;
      assert pcb ==> |received| == |returned| + |unread|;
    }

    /** The octets that the copy loop has taken out. */
    method TakeOut(buf: array<Octet>, size: nat) returns (recLen: nat)
      requires Valid() && pcb && |chain| > 0 && size <= buf.Length
      modifies this`chain, this`refs, this`cur, this`data, this`len, this`returned, this`credited, this`leaked
      modifies this`unread, buf
      ensures Valid() && recLen == Min(size, |old(unread)|) && (size > 0 ==> recLen > 0)
      ensures buf[..recLen] == old(unread)[..recLen] && returned == old(returned) + buf[..recLen]
      ensures forall i :: recLen <= i < buf.Length ==> buf[i] == old(buf[i])
    {
      ghost var u, r := unread, returned;
      recLen := CopyLoop(buf, size, u, r);
      ghost var got := buf[..recLen];
      Taken(got, unread, u);
    }

    /** The copy loop of se_recv. */
    method CopyLoop(buf: array<Octet>, size: nat, ghost u: seq<Octet>, ghost r: seq<Octet>) returns (recLen: nat)
      requires Valid() && pcb && |chain| > 0 && size <= buf.Length && u == unread && r == returned
      modifies this`chain, this`refs, this`cur, this`data, this`len, this`returned, this`credited, this`leaked
      modifies this`unread, buf
      ensures Valid() && recLen <= size && (recLen == size || |unread| == 0) && (size > 0 ==> recLen > 0)
      ensures Copied(buf[..recLen], u, r)
      ensures forall i :: recLen <= i < buf.Length ==> buf[i] == old(buf[i])
    {
      var n := size;
      ghost var was := buf[..];
      recLen := 0;
      NothingTaken(buf[..0], u, r);
      while n > 0 && |chain| > 0
        invariant Valid() && recLen + n == size && (recLen > 0 || |chain| > 0)
        invariant Copied(buf[..recLen], u, r)
        invariant forall i :: recLen <= i < buf.Length ==> buf[i] == was[i]
      {
        var chunk := TakeSome(buf, recLen, n, u, r);
        recLen, n := recLen + chunk, n - chunk;
      }
    }

    /** The octets got have gone from u, the octets that were unread, to the caller. */
    ghost predicate Copied(got: seq<Octet>, u: seq<Octet>, r: seq<Octet>)
      reads this`unread, this`returned
    {
      got + unread == u && returned == r + got
    }

    /** One turn of the loop. */
    method TakeSome(buf: array<Octet>, at: nat, n: nat, ghost u: seq<Octet>, ghost r: seq<Octet>) returns (chunk: nat)
      requires Valid() && pcb && |chain| > 0 && 0 < n && at + n <= buf.Length && Copied(buf[..at], u, r)
      modifies this`chain, this`refs, this`cur, this`data, this`len, this`returned, this`credited, this`leaked
      modifies this`unread, buf
      ensures Valid() && 0 < chunk <= n
      ensures Copied(buf[..at + chunk], u, r)
      ensures forall i :: at + chunk <= i < buf.Length ==> buf[i] == old(buf[i])
    {
      ghost var got := buf[..at];
      chunk := CopyChunk(buf, at, n);
      ghost var piece := buf[at..at + chunk];
      JoinThree(got, piece, unread);
      JoinThree(r, got, piece);
      if len == 0 {
        NextBuffer();
      }
    }

    ghost predicate Reading()
      reads this
    {
      && References() && Cursor() && Books() && pcb && |chain| > 0
      && (forall i :: 0 <= i < |chain| ==> |chain[i]| > 0)
    }

    /** A piece of the cursor's pbuf. */
    method CopyChunk(buf: array<Octet>, at: nat, n: nat) returns (chunk: nat)
      requires Reading() && 0 < n && 0 < len && at + n <= buf.Length
      modifies this`data, this`len, this`returned, this`unread, buf
      ensures Reading() && 0 < chunk <= n && buf[..at + chunk] == old(buf[..at]) + buf[at..at + chunk]
      ensures old(unread) == buf[at..at + chunk] + unread && returned == old(returned) + buf[at..at + chunk]
      ensures len == 0 || chunk == n
      ensures forall i :: at + chunk <= i < buf.Length ==> buf[i] == old(buf[i])
    {
      chunk := if n > len then len else n;
      var piece := chain[cur][data..data + chunk];
      Copy(buf, at, piece);
      Give(piece, chunk);
    }

    /** The books on a piece that goes to the caller. */
    method Give(piece: seq<Octet>, chunk: nat)
      requires Reading() && 0 < chunk <= len && piece == chain[cur][data..data + chunk]
      modifies this`data, this`len, this`returned, this`unread
      ensures Reading() && len == old(len) - chunk
      ensures old(unread) == piece + unread && returned == old(returned) + piece
    {
      TakeBehind(chain, cur, data, chunk);
      returned := returned + piece;
      data, len := data + chunk, len - chunk;
      unread := Behind(chain, cur, data);
      JoinThree(old(returned), piece, unread);
      assert Cursor();
      assert Books();
    }

    /** The cursor's pbuf is used up: drop its reference, and the chain after its last pbuf. */
    method NextBuffer()
      requires Reading() && len == 0
      modifies this`chain, this`refs, this`cur, this`data, this`len, this`credited, this`leaked
      ensures Valid()
      ensures |chain| == 0 <==> old(cur) + 1 == |old(chain)|
    {
      NextBehind(chain, cur);
      if refs[cur] > 1 {
        refs := refs[cur := refs[cur] - 1];
      }
      cur := cur + 1;
      if cur == |chain| {
        EndOfChain();
      } else {
        data, len := 0, |chain[cur]|;
      }
    }

    method EndOfChain()
      requires Books() && |unread| == 0 && |refs| == |chain| && |leaked| == 0
      requires forall i :: 0 <= i < |refs| ==> refs[i] == 1
      modifies this`chain, this`refs, this`credited, this`leaked
      ensures Valid() && |chain| == 0
    {
      ReleaseChain();
      chain, refs := [], [];
    }
  }
}
