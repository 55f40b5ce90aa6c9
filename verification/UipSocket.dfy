/** The socket port for uIP. The stack calls se_appcall only while the task waits. */
module UipSocket {
  import opened Octets
  import opened Transport
  import opened Chains
  import opened StopAndWait

  /** What u.data.buf points into: the buffer of the caller of se_recv, the first queued segment,
      or the buffer given to se_send. */
  datatype Ptr = Null | Caller | Head(off: nat) | Out(off: nat)

  /** The event flags of one call of the application by uIP. */
  datatype Flags = Flags(acked: bool, rexmit: bool, poll: bool)

  const NO_FLAGS := Flags(false, false, false)

  /** What uIP may have for a connection in one call of se_appcall. The end is a close, an abort or a timeout. */
  datatype Event = Event(data: seq<Octet>, ended: bool, outOfMemory: bool, flags: Flags)

  /** The socket is closed: the connection has ended, or there was no memory for a segment. */
  predicate Closes(e: Event) { e.ended || (|e.data| > 0 && e.outOfMemory) }

  predicate Closed(events: seq<Event>) { |events| > 0 && (Closes(events[0]) || Closed(events[1..])) }

  /** The octets that are taken in, up to the first event that closes the socket. */
  function Incoming(events: seq<Event>): seq<Octet> {
    if |events| == 0 then []
    else Kept(events[0]) + if Closes(events[0]) then [] else Incoming(events[1..])
  }

  function Kept(e: Event): seq<Octet> { if |e.data| > 0 && e.outOfMemory then [] else e.data }

  /** The first segment that comes, or nothing. */
  function FirstSegment(events: seq<Event>): seq<Octet> {
    if |events| == 0 then [] else First(events[0].data, FirstSegment(events[1..]))
  }

  function First(s: seq<Octet>, later: seq<Octet>): seq<Octet> { if |s| > 0 then s else later }

  /** Something comes if and only if there is a first segment. */
  lemma {:induction false} FirstOfIncoming(events: seq<Event>)
    ensures !Closed(events) ==> (|Incoming(events)| > 0 <==> |FirstSegment(events)| > 0)
  {
    if |events| > 0 {
      FirstOfIncoming(events[1..]);
    }
  }

  /** How many segments are acknowledged: the first goes out at a poll, each other with an acknowledgement. */
  function Acks(events: seq<Event>, sent: bool): nat {
    if |events| == 0 then 0
    else
      var flags := events[0].flags;
      (if flags.acked && sent then 1 else 0) + Acks(events[1..], sent || flags.poll)
  }

  method CopyFront(buf: array<Octet>, src: seq<Octet>)
    requires |src| <= buf.Length
    modifies buf
    ensures buf[..|src|] == src && forall i :: |src| <= i < buf.Length ==> buf[i] == old(buf[i])
  {
    Copy(buf, 0, src);
    assert buf[0..|src|] == buf[..|src|];
  }

  lemma TakeFrom(s: seq<Octet>, off: nat, n: nat, rest: seq<Octet>)
    requires off + n <= |s|
    ensures s[off..] + rest == s[off..off + n] + (s[off + n..] + rest)
  {
    assert s[off..] == s[off..off + n] + s[off + n..];
  }

  class Socket {
    const mss: nat
    var conn: bool
    var inRecv: bool
    var inSend: bool
    var newdata: bool
    var startSend: bool
    var buf: Ptr
    var size: int
    var msgs: seq<seq<Octet>>
    var ready: bool
    var dst: array<Octet>
    var out: seq<Octet>
    // the stack's side: a segment sent and not yet acknowledged, and all that was delivered
    var outstanding: bool
    var delivered: seq<Octet>
    ghost var log: seq<Segment>
    // the caller's buffer as it was when se_recv began to wait
    ghost var given: seq<Octet>

    /** The octets that are queued and not yet read. */
    ghost function Queued(): seq<Octet>
      reads this`buf, this`msgs
    {
      if buf.Head? && |msgs| > 0 && buf.off <= |msgs[0]| then msgs[0][buf.off..] + Flat(msgs[1..]) else Flat(msgs)
    }

    /** The octets held: those copied directly to the waiting caller, then the queue. */
    ghost function Held(): seq<Octet>
      reads this`newdata, this`size, this`dst, dst, this`buf, this`msgs
    {
      if newdata && 0 <= size <= dst.Length then dst[..size] + Queued() else Queued()
    }

    /** The caller's buffer is as it was behind the octets copied to it. */
    ghost predicate Untouched()
      reads this`newdata, this`size, this`dst, this`given, dst
    {
      |given| == dst.Length && forall i :: 0 <= i < dst.Length && (newdata ==> size <= i) ==> dst[i] == given[i]
    }

    ghost predicate Receiving()
      reads this`msgs, this`buf, this`size, this`newdata, this`conn, this`inRecv, this`dst
    {
      && (forall i :: 0 <= i < |msgs| ==> |msgs[i]| > 0)
      && (buf.Head? ==> |msgs| > 0 && buf.off < |msgs[0]| && size == |msgs[0]| - buf.off)
      && (newdata ==> conn && inRecv && size > 0)
      && (inRecv ==> conn && buf == Caller && 0 <= size <= dst.Length)
      && (!conn ==> |msgs| == 0 && buf == Null)
    }

    ghost predicate Sending()
      reads this`buf, this`size, this`inSend, this`conn, this`inRecv, this`startSend, this`outstanding
      reads this`out, this`log
    {
      && mss > 0
      && (buf.Out? <==> inSend)
      && (inSend ==> conn && !inRecv && buf.off + size == |out| && size > 0
                     && (startSend <==> !outstanding) && Disciplined(log, out, mss))
      && (inSend && startSend ==> buf.off == 0 && |log| == 0)
      && (inSend && !startSend ==> |log| > 0 && log[|log| - 1] == Due(out, buf.off, mss))
    }

    ghost predicate Valid()
      reads this`msgs, this`buf, this`size, this`newdata, this`conn, this`inRecv, this`dst
      reads this`inSend, this`startSend, this`outstanding, this`out, this`log
    {
      Receiving() && Sending()
    }

    /** Nothing in progress, as the application sees the socket between calls. */
    ghost predicate Idle()
      reads this
    {
      Valid() && !inRecv && !inSend && !newdata && !ready && !buf.Caller? && (conn ==> !outstanding)
    }

    constructor (mss: nat)
      requires mss > 0
      ensures Idle() && conn && delivered == [] && Held() == [] && msgs == [] && fresh(dst) && this.mss == mss
    {
      this.mss := mss;
      conn, inRecv, inSend, newdata, startSend := true, false, false, false, false;
      buf, size, msgs, ready := Null, 0, [], false;
      dst := new Octet[0];
      out, outstanding, delivered, log, given := [], false, [], [], [];
    }

    /** se_close: every field is zero. */
    method Close()
      requires mss > 0
      modifies this`conn, this`inRecv, this`inSend, this`newdata, this`startSend, this`buf, this`size, this`msgs
      ensures Valid() && !conn && !inRecv && !inSend && !newdata && buf == Null
    {
      conn, inRecv, inSend, newdata, startSend := false, false, false, false, false;
      buf, size, msgs := Null, 0, [];
    }

    /** The acknowledged part of out ends at buf.off, and the peer has that part. */
    ghost predicate Transfer()
      reads this`conn, this`inSend, this`inRecv, this`buf, this`size, this`out, this`log, this`msgs, this`newdata
    {
      && mss > 0 && conn && inSend && !inRecv && buf.Out? && size >= 0 && buf.off + size == |out|
      && Disciplined(log, out, mss) && Follows(log, buf.off)
      && (forall i :: 0 <= i < |msgs| ==> |msgs[i]| > 0) && !newdata
    }

    /** se_sendChunk. */
    method SendChunk(ev: Flags)
      requires Valid() && inSend && (ev.acked || ev.rexmit ==> outstanding)
      modifies this`startSend, this`inSend, this`buf, this`size, this`ready, this`outstanding, this`log
      ensures Valid() && (inSend ==> ready == old(ready)) && Chunked(ev, old(size), old(startSend))
      ensures !inSend ==> ready && buf == Null && !outstanding && Disciplined(log, out, mss) && Assembled(log) == out
    {
      Ongoing();
      if ev.acked && buf.Out? {
        Acknowledge();
      }
      if size > 0 {
        if (startSend && ev.poll) || ev.rexmit || ev.acked {
          SendDue();
        }
      } else {
        Finish();
      }
    }

    lemma Ongoing()
      requires Valid() && inSend
      ensures Transfer() && size > 0
    {
      if |log| > 0 {
        assert Follows(log, buf.off);
      }
    }

    /** The first segment, the next, or the outstanding one again. */
    method SendDue()
      requires Transfer() && size > 0
      modifies this`startSend, this`outstanding, this`log
      ensures Valid() && !startSend
    {
      var chunk := if size > mss then mss else size;
      startSend := false;
      Transmit(chunk);
    }

    method Finish()
      requires Transfer() && size == 0 && Assembled(log) == out[..buf.off]
      modifies this`inSend, this`buf, this`ready
      ensures Valid() && !inSend && ready && buf == Null && Assembled(log) == out
    {
      assert out[..buf.off] == out;
      inSend := false;
      buf := Null;
      ready := true;
    }

    /** The outstanding segment has arrived. */
    method Acknowledge()
      requires Valid() && inSend && outstanding
      modifies this`size, this`buf, this`outstanding
      ensures Transfer() && !outstanding && Assembled(log) == out[..buf.off] && size == old(size) - Min(mss, old(size))
    {
      AcknowledgedPrefix();
      var chunk := if size > mss then mss else size;
      size := size - chunk;
      buf := Out(buf.off + chunk);
      outstanding := false;
    }

    /** The peer holds everything up to the end of the outstanding segment. */
    lemma AcknowledgedPrefix()
      requires Sending() && inSend && outstanding
      ensures var end := buf.off + Min(mss, size);
        end <= |out| && |log| > 0 && log[|log| - 1].off + |log[|log| - 1].octets| == end && Assembled(log) == out[..end]
    {
      AssembledPrefix(log, out, mss);
    }

    /** uip_send: the segment due, a repetition or the next. */
    method Transmit(chunk: nat)
      requires Disciplined(log, out, mss) && buf.Out? && buf.off + size == |out| && size > 0 && chunk == Min(mss, size)
      requires Follows(log, buf.off)
      modifies this`outstanding, this`log
      ensures outstanding && Disciplined(log, out, mss) && |log| > 0 && log[|log| - 1] == Due(out, buf.off, mss)
    {
      outstanding := true;
      ghost var s := Segment(buf.off, out[buf.off..buf.off + chunk]);
      assert s == Due(out, buf.off, mss);
      DisciplinedStep(log, out, mss, s);
      log := log + [s];
    }

    // Receiving -----------------------------------------------------------------------------------

    /** A delivered segment: straight to the waiting caller, or behind the queue. */
    method NewData(data: seq<Octet>)
      requires Valid() && conn && |data| > 0
      modifies this`newdata, this`size, this`msgs, this`delivered, this`ready, dst
      ensures Valid() && delivered == old(delivered) + data && Held() == old(Held()) + data
      ensures ready == (old(ready) || inRecv)
      ensures inRecv ==> Placed(data, old(newdata), old(size), old(msgs))
      ensures !inRecv ==> msgs == old(msgs) + [data] && size == old(size) && newdata == old(newdata)
      ensures old(Untouched()) ==> Untouched()
    {
      if inRecv {
        ready := true;
      }
      delivered := delivered + data;
      Place(data);
    }

    method Place(data: seq<Octet>)
      requires Valid() && conn && |data| > 0
      modifies this`newdata, this`size, this`msgs, dst
      ensures Valid() && Held() == old(Held()) + data && size <= old(size)
      ensures inRecv ==> Placed(data, old(newdata), old(size), old(msgs))
      ensures !inRecv ==> msgs == old(msgs) + [data] && size == old(size) && newdata == old(newdata)
      ensures old(Untouched()) ==> Untouched()
    {
      if inRecv && !newdata && |data| <= size && |msgs| == 0 {
        Direct(data);
      } else {
        Enqueue(data);
      }
    }

    method Direct(data: seq<Octet>)
      requires Valid() && inRecv && !newdata && 0 < |data| <= size && |msgs| == 0
      modifies this`newdata, this`size, dst
      ensures Valid() && newdata && Held() == old(Held()) + data && size == |data|
      ensures old(Untouched()) ==> Untouched()
    {
      newdata := true;
      size := |data|;
      forall i | 0 <= i < |data| {
        dst[i] := data[i];
      }
      assert dst[..size] == data;
    }

    method Enqueue(data: seq<Octet>)
      requires Valid() && conn && |data| > 0
      modifies this`msgs
      ensures Valid() && msgs == old(msgs) + [data] && Held() == old(Held()) + data
    {
      FlatPush(msgs, data);
      if buf.Head? {
        FlatPush(msgs[1..], data);
        assert (msgs + [data])[1..] == msgs[1..] + [data];
        JoinThree(msgs[0][buf.off..], Flat(msgs[1..]), data);
      }
      if newdata {
        JoinThree(dst[..size], Queued(), data);
      }
      msgs := msgs + [data];
    }

    /** se_appcall: a segment, the end of the connection, or an event of the sender. Memory for the
        queue may run out, which closes the socket. */
    method AppCall(data: seq<Octet>, ended: bool, outOfMemory: bool, ev: Flags)
      requires Valid() && conn && (ev.acked || ev.rexmit ==> outstanding && inSend)
      modifies this`conn, this`inRecv, this`inSend, this`newdata, this`startSend, this`buf, this`size, this`msgs
      modifies this`ready, this`outstanding, this`delivered, this`log, dst
      ensures Valid() && (conn <==> !(ended || (|data| > 0 && outOfMemory)))
      ensures delivered == old(delivered) + if |data| > 0 && outOfMemory then [] else data
      ensures conn ==> Held() == old(Held()) + data
      ensures conn ==> inRecv == old(inRecv) && (inRecv ==> Placed(data, old(newdata), old(size), old(msgs)))
      ensures conn && old(inRecv && Untouched()) ==> Untouched()
      ensures conn && !old(inSend) ==> ready == (old(ready) || (inRecv && |data| > 0))
      ensures conn && !old(inSend) ==> !inSend && outstanding == old(outstanding) && buf == old(buf) && log == old(log)
      ensures conn && old(inSend) ==> Chunked(ev, old(size), old(startSend))
      ensures conn && old(inSend) && inSend ==> ready == old(ready)
      ensures conn && old(inSend) && !inSend ==> ready && SentAll()
      ensures !conn ==> ready
    {
      Take(data, outOfMemory);
      if conn {
        AfterData(ended, ev);
      }
    }

    method Take(data: seq<Octet>, outOfMemory: bool)
      requires Valid() && conn
      modifies this`conn, this`inRecv, this`inSend, this`newdata, this`startSend, this`buf, this`size, this`msgs
      modifies this`ready, this`delivered, dst
      ensures Valid() && (conn <==> !(|data| > 0 && outOfMemory))
      ensures delivered == old(delivered) + if |data| > 0 && outOfMemory then [] else data
      ensures conn ==> Held() == old(Held()) + data
      ensures conn ==> Placed(data, old(newdata), old(size), old(msgs)) || !inRecv
      ensures conn ==> inRecv == old(inRecv) && inSend == old(inSend) && startSend == old(startSend) && buf == old(buf)
      ensures conn ==> ready == (old(ready) || (inRecv && |data| > 0)) && (!inRecv ==> size == old(size))
      ensures conn && old(inRecv && Untouched()) ==> Untouched()
      ensures !conn ==> ready
    {
      NothingNew(delivered);
      NothingNew(Held());
      if |data| > 0 {
        if outOfMemory {
          ready := true;
          Close();
          return;
        }
        NewData(data);
      }
    }

    /** Where a segment has gone, if there was one. */
    ghost predicate Placed(data: seq<Octet>, newdata0: bool, size0: int, msgs0: seq<seq<Octet>>)
      reads this`newdata, this`size, this`msgs
    {
      if |data| > 0 && !newdata0 && |data| <= size0 && |msgs0| == 0
      then newdata && size == |data| && msgs == msgs0
      else newdata == newdata0 && size == size0 && msgs == if |data| > 0 then msgs0 + [data] else msgs0
    }

    /** What the sender has made of an event: an acknowledgement is for one segment, and the last ends the call. */
    ghost predicate Chunked(ev: Flags, size0: int, startSend0: bool)
      reads this`inSend, this`size, this`startSend
    {
      && (inSend <==> !(ev.acked && size0 <= mss))
      && (inSend ==> size == size0 - (if ev.acked then mss else 0))
      && (inSend ==> (startSend <==> startSend0 && !(ev.poll || ev.rexmit || ev.acked)))
    }

    lemma NothingNew(s: seq<Octet>)
      ensures s + [] == s
    {
    }

    method AfterData(ended: bool, ev: Flags)
      requires Valid() && conn && (ev.acked || ev.rexmit ==> outstanding && inSend)
      modifies this`conn, this`inRecv, this`inSend, this`newdata, this`startSend, this`buf, this`size, this`msgs
      modifies this`ready, this`outstanding, this`log
      ensures Valid() && (!conn ==> ready) && (conn <==> !ended)
      ensures conn && old(inSend) ==> Chunked(ev, old(size), old(startSend))
      ensures conn ==> Held() == old(Held()) && inRecv == old(inRecv) && newdata == old(newdata) && msgs == old(msgs)
      ensures conn && !old(inSend) ==> size == old(size) && ready == old(ready) && !inSend
      ensures conn && old(inRecv && Untouched()) ==> Untouched()
      ensures conn && !old(inSend) ==> outstanding == old(outstanding) && buf == old(buf) && log == old(log)
      ensures conn && old(inSend) && inSend ==> ready == old(ready)
      ensures conn && old(inSend) && !inSend ==> ready && SentAll()
    {
      if ended {
        Close();
        ready := true;
      } else if inSend {
        SendEvent(ev);
      }
    }

    ghost predicate SentAll()
      reads this`inRecv, this`outstanding, this`buf, this`log, this`out
    {
      !inRecv && !outstanding && buf == Null && Disciplined(log, out, mss) && Assembled(log) == out
    }

    method SendEvent(ev: Flags)
      requires Valid() && inSend && (ev.acked || ev.rexmit ==> outstanding)
      modifies this`startSend, this`inSend, this`buf, this`size, this`ready, this`outstanding, this`log
      ensures Valid() && Held() == old(Held())
      ensures inSend ==> ready == old(ready)
      ensures !inSend ==> ready && SentAll()
      ensures Chunked(ev, old(size), old(startSend))
    {
      assert Queued() == Flat(msgs) && !newdata;
      SendChunk(ev);
    }

    /** SeCtx_save in se_send: uIP has these events for the socket before the task goes on. Has it been woken? */
    method WaitSend(events: seq<Event>, ghost k: nat, ghost sent: bool, ghost acks: nat, ghost d: seq<Octet>,
                    ghost h: seq<Octet>)
      returns (woken: bool)
      requires Underway(k, sent) && acks == k + Acks(events, sent)
      requires d == delivered + Incoming(events) && h == Held() + Incoming(events)
      modifies this`conn, this`inRecv, this`inSend, this`newdata, this`startSend, this`buf, this`size, this`msgs
      modifies this`ready, this`outstanding, this`delivered, this`log, dst
      ensures Sent(Closed(events), acks, d, h, woken)
    {
      if |events| == 0 {
        NothingNew(delivered);
        NothingNew(Held());
        woken := EndSend(k, sent);
        return;
      }
      var e := events[0];
      Joined(delivered, Kept(e), Incoming(events[1..]));
      Joined(Held(), Kept(e), Incoming(events[1..]));
      SenderEvent(e, k, sent);
      if conn {
        woken := WaitSend(events[1..], if e.flags.acked && sent then k + 1 else k, sent || e.flags.poll, acks, d, h);
      } else {
        woken := EndClosed(acks, h);
      }
    }

    method EndSend(ghost k: nat, ghost sent: bool) returns (woken: bool)
      requires Underway(k, sent)
      modifies this`ready
      ensures Sent(false, k, delivered, Held(), woken)
    {
      woken := GoOn();
    }

    method EndClosed(ghost acks: nat, ghost h: seq<Octet>) returns (woken: bool)
      requires Dropped() && ready && !newdata && !inRecv
      modifies this`ready
      ensures Sent(true, acks, delivered, h, woken)
    {
      woken := GoOn();
    }

    /** The task goes on, or it does not: d has been delivered, h is held, and so many segments were acknowledged. */
    ghost predicate Sent(closed: bool, acks: nat, d: seq<Octet>, h: seq<Octet>, woken: bool)
      reads this, dst
    {
      && !ready && (conn <==> !closed) && delivered == d
      && if conn then Rested() && Held() == h && (woken <==> mss * acks >= |out|) && (woken ==> SentAll())
         else woken && Dropped() && !newdata && !inRecv
    }

    /** Nobody receives. */
    ghost predicate Rested()
      reads this`msgs, this`buf, this`size, this`newdata, this`conn, this`inRecv, this`dst
      reads this`inSend, this`startSend, this`outstanding, this`out, this`log
    {
      Valid() && !inRecv && !newdata
    }

    /** k segments are acknowledged, and the first has been sent or not. */
    ghost predicate Underway(k: nat, sent: bool)
      reads this
    {
      && Valid() && conn && !inRecv && !newdata
      && (if inSend then !ready && buf.off == mss * k < |out| && (startSend <==> !sent)
          else ready && SentAll() && mss * k >= |out|)
    }

    /** An event while the sender waits. An acknowledgement or a retransmission is for an outstanding segment. */
    method SenderEvent(e: Event, ghost k: nat, ghost sent: bool)
      requires Underway(k, sent)
      modifies this`conn, this`inRecv, this`inSend, this`newdata, this`startSend, this`buf, this`size, this`msgs
      modifies this`ready, this`outstanding, this`delivered, this`log, dst
      ensures conn <==> !Closes(e)
      ensures conn ==> Underway(if e.flags.acked && sent then k + 1 else k, sent || e.flags.poll)
      ensures delivered == old(delivered) + Kept(e) && (conn ==> Held() == old(Held()) + Kept(e))
      ensures !conn ==> Dropped() && ready && !newdata && !inRecv
    {
      var ev := if inSend && outstanding then e.flags else e.flags.(acked := false, rexmit := false);
      OneMoreAck(mss, k);
      AppCall(e.data, e.ended, e.outOfMemory, ev);
    }

    lemma OneMoreAck(mss: nat, k: nat)
      ensures mss * (k + 1) == mss * k + mss
    {
    }

    /** An event while a receiver waits; first is the first segment that came before it. */
    method ReceiverEvent(e: Event, ghost first: seq<Octet>, ghost room: int)
      requires InWait() && Came(first, room) && ready == (|first| > 0)
      modifies this`conn, this`inRecv, this`inSend, this`newdata, this`startSend, this`buf, this`size, this`msgs
      modifies this`ready, this`outstanding, this`delivered, this`log, dst
      ensures conn <==> !Closes(e)
      ensures conn ==> InWait() && Came(First(first, e.data), room) && ready == (|First(first, e.data)| > 0)
      ensures delivered == old(delivered) + Kept(e) && (conn ==> Held() == old(Held()) + Kept(e))
      ensures !conn ==> Dropped() && ready
    {
      AppCall(e.data, e.ended, e.outOfMemory, NO_FLAGS);
    }

    ghost predicate InWait()
      reads this`msgs, this`buf, this`size, this`newdata, this`conn, this`inRecv, this`dst, this`given, dst
      reads this`inSend, this`startSend, this`outstanding, this`out, this`log
    {
      Valid() && conn && inRecv && !outstanding && Untouched()
    }

    /** The connection is over. */
    ghost predicate Dropped()
      reads this`msgs, this`buf, this`size, this`newdata, this`conn, this`inRecv, this`dst
      reads this`inSend, this`startSend, this`outstanding, this`out, this`log
    {
      Valid() && !conn && !inSend
    }

    /** Where the first segment is, if there is one: in the caller's buffer if it fits, or at the head of the queue. */
    ghost predicate Came(first: seq<Octet>, room: int)
      reads this`newdata, this`size, this`msgs
    {
      if |first| == 0 then !newdata && |msgs| == 0 && size == room
      else if |first| <= room then newdata && size == |first|
      else !newdata && |msgs| > 0 && msgs[0] == first && size == room
    }

    /** se_send, called with no event pending, while uIP has these events for the socket. While a receiver waits it is
        refused and changes nothing. Otherwise it comes back when the connection has ended or when every segment
        is acknowledged, and then the peer has all of data, each octet once.
        What is queued for the reader survives if and only if no queued segment is read in part:
        otherwise the reader gets the octets of that segment a second time. */
    method Send(data: seq<Octet>, events: seq<Event>) returns (x: int, back: bool)
      requires Idle() || (Valid() && inRecv)
      modifies this, dst
      ensures Valid()
      ensures old(!conn) ==> x == -1 && back
      ensures old(conn && inRecv) ==> x == -2 && back && Unchanged(old(Held()), old(delivered), old(log))
      ensures old(conn && !inRecv) && |data| == 0 ==> x == 0 && back && Idle() && conn && Held() == old(Held())
      ensures old(conn && !inRecv) && |data| > 0 ==>
        && (back <==> Closed(events) || mss * Acks(events, false) >= |data|)
        && (conn <==> !Closed(events)) && (back ==> Idle() && x == if Closed(events) then -1 else |data|)
      ensures old(conn && !inRecv) && |data| > 0 ==> delivered == old(delivered) + Incoming(events)
      ensures conn && old(!inRecv) && |data| > 0 ==> Held() == old(Flat(msgs)) + Incoming(events)
      ensures back && conn && old(!inRecv) && |data| > 0 ==> Disciplined(log, data, mss) && Assembled(log) == data
      ensures conn && old(!inRecv) && |data| > 0 ==>
        (Held() == old(Held()) + Incoming(events) <==> !old(buf.Head? && buf.off > 0))
    {
      if !conn {
        return -1, true;
      }
      if inRecv {
        return -2, true;
      }
      RereadLength();
      if |data| > 0 {
        back := SendOut(data, events);
        if !conn {
          return -1, true;
        }
      }
      return |data|, |data| == 0 || back;
    }

    /** The receiver still waits. */
    ghost predicate Unchanged(held: seq<Octet>, delivered: seq<Octet>, log: seq<Segment>)
      reads this, dst
    {
      Valid() && inRecv && Held() == held && this.delivered == delivered && this.log == log
    }

    method SendOut(data: seq<Octet>, events: seq<Event>) returns (back: bool)
      requires Idle() && conn && |data| > 0
      modifies this, dst
      ensures Valid() && !ready && !inRecv && !newdata && (conn <==> !Closed(events)) && (back ==> Idle())
      ensures back <==> Closed(events) || mss * Acks(events, false) >= |data|
      ensures back && conn ==> Disciplined(log, data, mss) && Assembled(log) == data
      ensures delivered == old(delivered) + Incoming(events)
      ensures conn ==> Held() == old(Flat(msgs)) + Incoming(events)
    {
      Begin(data);
      SendChunk(NO_FLAGS);
      assert Held() == old(Flat(msgs));
      back := WaitSend(events, 0, false, Acks(events, false), delivered + Incoming(events), Held() + Incoming(events));
    }

    method Begin(data: seq<Octet>)
      requires Idle() && conn && |data| > 0
      modifies this`size, this`buf, this`out, this`inSend, this`startSend, this`log
      ensures Valid() && inSend && startSend && out == data && !newdata && buf == Out(0)
    {
      size := |data|;
      buf, out := Out(0), data;
      inSend := true;
      startSend := true;
      log := [];
    }

    /** Forgetting the position in a segment that is read in part adds its first octets again. */
    lemma RereadLength()
      requires Receiving() && !newdata
      ensures |Flat(msgs)| == |Held()| + if buf.Head? then buf.off else 0
      ensures !(buf.Head? && buf.off > 0) ==> Flat(msgs) == Held()
    {
      if buf.Head? {
        assert msgs[0][0..] == msgs[0];
      }
    }

    /** SeCtx_save in se_recv: uIP has these events for the socket before the task goes on. Has it been woken? */
    method WaitRecv(events: seq<Event>, ghost first: seq<Octet>, ghost room: int, ghost d: seq<Octet>,
                    ghost h: seq<Octet>)
      returns (woken: bool)
      requires InWait() && Came(first, room) && ready == (|first| > 0)
      requires d == delivered + Incoming(events) && h == Held() + Incoming(events)
      modifies this`conn, this`inRecv, this`inSend, this`newdata, this`startSend, this`buf, this`size, this`msgs
      modifies this`ready, this`outstanding, this`delivered, this`log, dst
      ensures !ready && (conn <==> !Closed(events))
      ensures woken <==> Closed(events) || |First(first, FirstSegment(events))| > 0
      ensures if conn then InWait() && Came(First(first, FirstSegment(events)), room) else Dropped()
      ensures delivered == d && (conn ==> Held() == h)
    {
      if |events| == 0 {
        NothingNew(delivered);
        NothingNew(Held());
        woken := GoOn();
        return;
      }
      var e := events[0];
      Joined(delivered, Kept(e), Incoming(events[1..]));
      Joined(Held(), Kept(e), Incoming(events[1..]));
      ReceiverEvent(e, first, room);
      if conn {
        woken := WaitRecv(events[1..], First(first, e.data), room, d, h);
      } else {
        woken := GoOn();
      }
    }

    /** The task goes on, woken or not. */
    method GoOn() returns (woken: bool)
      modifies this`ready
      ensures woken == old(ready) && !ready
    {
      woken := ready;
      ready := false;
    }

    /** se_getMsg: octets of the first queued segment, which leaves the queue when it is used up. */
    method GetMsg(into: array<Octet>, len: nat) returns (chunk: nat)
      requires Idle() && conn && |msgs| > 0 && len <= into.Length
      modifies this`buf, this`size, this`msgs, into
      ensures Idle() && chunk <= len && (len > 0 ==> chunk > 0)
      ensures old(Queued()) == into[..chunk] + Queued()
      ensures var off := if old(buf.Head?) then old(buf.off) else 0;
        && chunk == Min(len, |old(msgs)[0]| - off)
        && (off + chunk < |old(msgs)[0]| ==> msgs == old(msgs) && buf == Head(off + chunk))
        && (off + chunk == |old(msgs)[0]| ==> msgs == old(msgs[1..]) && buf == Null)
      ensures forall i :: chunk <= i < into.Length ==> into[i] == old(into[i])
    {
      OpenHead();
      chunk := if len > size then size else len;
      CopyHead(into, chunk);
      Advance(chunk);
      assert Idle();
    }

    method CopyHead(into: array<Octet>, chunk: nat)
      requires buf.Head? && |msgs| > 0 && buf.off + chunk <= |msgs[0]| && chunk <= into.Length
      modifies into
      ensures Queued() == into[..chunk] + (msgs[0][buf.off + chunk..] + Flat(msgs[1..]))
      ensures forall i :: chunk <= i < into.Length ==> into[i] == old(into[i])
    {
      var piece := msgs[0][buf.off..buf.off + chunk];
      CopyFront(into, piece);
      TakeQueued(chunk);
    }

    method OpenHead()
      requires Idle() && conn && |msgs| > 0
      modifies this`buf, this`size
      ensures Idle() && buf.Head? && Queued() == old(Queued())
      ensures buf.off == if old(buf.Head?) then old(buf.off) else 0
    {
      if !buf.Head? {
        assert msgs[0][0..] == msgs[0];
        buf, size := Head(0), |msgs[0]|;
      }
    }

    method Advance(chunk: nat)
      requires Idle() && conn && buf.Head? && |msgs| > 0 && chunk <= size
      modifies this`buf, this`size, this`msgs
      ensures Idle() && Queued() == old(msgs[0][buf.off + chunk..] + Flat(msgs[1..]))
      ensures if chunk < old(size) then msgs == old(msgs) && buf == Head(old(buf.off) + chunk)
              else msgs == old(msgs[1..]) && buf == Null
    {
      size := size - chunk;
      if size <= 0 {
        buf, msgs := Null, msgs[1..];
        assert [] + Flat(msgs) == Flat(msgs);
      } else {
        buf := Head(buf.off + chunk);
      }
    }

    lemma TakeQueued(chunk: nat)
      requires buf.Head? && |msgs| > 0 && buf.off + chunk <= |msgs[0]|
      ensures Queued() == msgs[0][buf.off..buf.off + chunk] + (msgs[0][buf.off + chunk..] + Flat(msgs[1..]))
    {
      TakeFrom(msgs[0], buf.off, chunk, Flat(msgs[1..]));
    }

    /** se_recv, while uIP has these events for the socket: the octets returned and the octets still held are those
        held before and those that have come, in order. Without a timeout the call comes back only if something
        has come or the connection has ended. */
    method Recv(into: array<Octet>, len: nat, timeout: nat, events: seq<Event>) returns (x: int, back: bool)
      requires Idle() && len <= into.Length
      modifies this, into
      ensures x <= len && delivered == old(delivered) + if old(|msgs| > 0 || !conn) then [] else Incoming(events)
      ensures back <==> old(|msgs| > 0 || !conn) || timeout != INFINITE_TMO || Closed(events) || |Incoming(events)| > 0
      ensures back ==> Idle() && (x >= 0 <==> conn) && Framed(old(into[..]), into[..], 0, x)
      ensures back && conn ==>
        var came := if old(|msgs|) > 0 then [] else Incoming(events);
        old(conn) && old(Held()) + came == into[..if 0 < x <= len then x else 0] + Held()
      ensures back ==> x == old(
        if |msgs| > 0 then Min(len, |msgs[0]| - if buf.Head? then buf.off else 0)
        else if !conn || Closed(events) then -1
        else Min(len, |FirstSegment(events)|))
      ensures timeout == INFINITE_TMO && len > 0 ==> x != 0
    {
      NothingNew(delivered);
      NothingNew(Held());
      if |msgs| > 0 {
        x := GetMsg(into, len);
        return x, true;
      }
      if !conn {
        return -1, true;
      }
      FirstOfIncoming(events);
      x, back := Await(into, len, timeout != INFINITE_TMO, events);
    }

    /** se_recv with nothing held: the wait. */
    method Await(into: array<Octet>, len: nat, timed: bool, events: seq<Event>) returns (x: int, back: bool)
      requires Idle() && conn && |msgs| == 0 && len <= into.Length
      modifies this`conn, this`inRecv, this`inSend, this`newdata, this`startSend, this`buf, this`size, this`msgs
      modifies this`ready, this`outstanding, this`delivered, this`log, this`dst, this`given, into
      ensures delivered == old(delivered) + Incoming(events)
      ensures back <==> timed || Closed(events) || |FirstSegment(events)| > 0
      ensures back ==> Idle() && (conn <==> !Closed(events)) && Framed(old(into[..]), into[..], 0, x)
      ensures back && conn ==> old(Held()) + Incoming(events) == into[..if 0 < x <= len then x else 0] + Held()
      ensures x == if back && !Closed(events) then Min(len, |FirstSegment(events)|) else -1
    {
      ghost var h, w := Held() + Incoming(events), into[..];
      var woken := Sleep(into, len, events, h, w);
      if !timed && !woken {
        return -1, false;
      }
      x := AfterWait(into, len, h, w, FirstSegment(events));
      back := true;
    }

    /** se_recv up to the return of SeCtx_save. */
    method Sleep(into: array<Octet>, len: nat, events: seq<Event>, ghost h: seq<Octet>, ghost w: seq<Octet>)
      returns (woken: bool)
      requires Idle() && conn && |msgs| == 0 && len <= into.Length && h == Held() + Incoming(events) && w == into[..]
      modifies this`conn, this`inRecv, this`inSend, this`newdata, this`startSend, this`buf, this`size, this`msgs
      modifies this`ready, this`outstanding, this`delivered, this`log, this`dst, this`given, into
      ensures conn <==> !Closed(events)
      ensures woken <==> Closed(events) || |FirstSegment(events)| > 0
      ensures Slept(into, len, h, w, FirstSegment(events))
      ensures delivered == old(delivered) + Incoming(events)
    {
      Suspend(into, len);
      woken := WaitRecv(events, [], len, delivered + Incoming(events), h);
    }

    /** The wait is over: h is held, its first segment is where it belongs, and w was in the buffer. */
    ghost predicate Slept(into: array<Octet>, len: nat, h: seq<Octet>, w: seq<Octet>, first: seq<Octet>)
      reads this, dst, into
    {
      && !ready && dst == into && given == w && |w| == into.Length && len <= into.Length
      && if conn then InWait() && Came(first, len) && Held() == h else Dropped()
    }

    method Suspend(into: array<Octet>, len: nat)
      requires Idle() && conn && |msgs| == 0 && len <= into.Length
      modifies this`inRecv, this`dst, this`buf, this`size, this`given
      ensures InWait() && Came([], len) && Held() == old(Held()) && dst == into && given == into[..]
    {
      inRecv := true;
      dst, buf, size, given := into, Caller, len, into[..];
    }

    /** se_recv from the return of SeCtx_save on. */
    method AfterWait(into: array<Octet>, len: nat, ghost h: seq<Octet>, ghost w: seq<Octet>, ghost first: seq<Octet>)
      returns (x: int)
      requires Slept(into, len, h, w, first)
      modifies this`buf, this`inRecv, this`newdata, this`size, this`msgs, into
      ensures Idle() && x == if conn then Min(len, |first|) else -1
      ensures conn ==> h == into[..if 0 < x <= len then x else 0] + Held()
      ensures Framed(w, into[..], 0, x)
    {
      var direct := EndWait(into, len, h, w, first);
      if direct {
        return size;
      }
      if |msgs| > 0 {
        x := GetMsg(into, len);
        return;
      }
      NothingHeld(Held());
      return if conn then 0 else -1;
    }

    /** Octets that came by the direct path are in the caller's buffer. */
    method EndWait(into: array<Octet>, len: nat, ghost h: seq<Octet>, ghost w: seq<Octet>, ghost first: seq<Octet>)
      returns (direct: bool)
      requires Slept(into, len, h, w, first)
      modifies this`buf, this`inRecv, this`newdata
      ensures Idle() && buf == Null && Held() == Queued()
      ensures direct ==> conn && 0 < size == |first| <= len
      ensures direct ==> h == into[..size] + Held() && Framed(w, into[..], 0, size)
      ensures !direct && conn ==> into[..] == w && h == Held()
      ensures !direct && conn ==> if |msgs| > 0 then msgs[0] == first else |first| == 0
    {
      buf := Null;
      inRecv := false;
      direct := newdata;
      newdata := false;
    }

    lemma NothingHeld(held: seq<Octet>)
      ensures [] + held == held
    {
    }
  }

  lemma Joined(d: seq<Octet>, s: seq<Octet>, more: seq<Octet>)
    ensures d + (s + more) == (d + s) + more && d + (s + []) == d + s
  {
  }

  lemma OneSegment(data: seq<Octet>)
    ensures Flat([data]) == data && [] + [data] == [data] && [] + data == data
  {
    FlatPush([], data);
  }

  const POLL := Event([], false, false, Flags(false, false, true))
  const ACK := Event([], false, false, Flags(true, false, false))

  lemma PollAndAck()
    ensures !Closed([POLL, ACK]) && Incoming([POLL, ACK]) == [] && Acks([POLL, ACK], false) == 1
  {
    var rest := [POLL, ACK][1..];
    assert rest[0] == ACK && |rest[1..]| == 0;
    assert Acks(rest[1..], true) == 0 && Acks(rest, true) == 1;
    assert !Closed(rest[1..]) && !Closed(rest) && Incoming(rest[1..]) == [] && Incoming(rest) == [];
  }

  /** A segment of two octets of which the reader has taken the first. */
  method HalfRead(a: Octet, b: Octet, into: array<Octet>) returns (s: Socket, first: seq<Octet>)
    requires into.Length > 0
    modifies into
    ensures fresh(s) && fresh(s.dst) && s.Idle() && s.conn && s.mss == 536 && first == [a] && s.msgs == [[a, b]]
  {
    s := new Socket(536);
    s.NewData([a, b]);
    OneSegment([a, b]);
    assert s.msgs == [[a, b]] && s.Held() == [a, b];
    var n := s.GetMsg(into, 1);
    first := into[..n];
    assert n == 1 && first + s.Held() == [a, b];
    assert first[0] == (first + s.Held())[0];
  }

  /** After a send, polled out and acknowledged, the reader is given that octet again. */
  method SendWhileHalfRead(a: Octet, b: Octet, reply: seq<Octet>, into: array<Octet>)
    returns (s: Socket, first: seq<Octet>, x: int, back: bool)
    requires into.Length > 0 && 0 < |reply| <= 536
    modifies into
    ensures first == [a] && x == |reply| && back && s.Idle() && s.conn && s.Held() == [a, b]
  {
    s, first := HalfRead(a, b, into);
    PollAndAck();
    OneSegment([a, b]);
    x, back := s.Send(reply, [POLL, ACK]);
  }
}
