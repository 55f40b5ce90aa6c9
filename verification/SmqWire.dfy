/** What a stream of SMQ frames means to a client whose buffer holds bufLen octets. */
module SmqWire {
  import opened Octets
  import opened SmqOctets

  const MSG_CREATEACK := 7
  const MSG_SUBACK := 5
  const MSG_PUBLISH := 8
  const MSG_DISCONNECT := 11
  const MSG_PING := 12
  const MSG_PONG := 13
  const MSG_CHANGE := 16
  const MSG_CREATESUBACK := 18

  const SMQE_BUF_OVERFLOW := -10000
  const SMQE_PROTOCOL_ERROR := -10003
  const SMQE_DISCONNECT := -10004
  const SMQE_TIMEOUT := -10100
  const SMQ_SUBACK := -20000
  const SMQ_CREATEACK := -20001
  const SMQ_CREATESUBACK := -20002
  const SMQ_SUBCHANGE := -20003

  /** The source's cast from U32 to int. */
  function ToS32(x: nat): int {
    var y := x % 0x1_0000_0000;
    if y < 0x8000_0000 then y else y - 0x1_0000_0000
  }

  /** What one call of SMQ_getMessage can hand to the application. */
  datatype Event =
    | Publish(tid: nat, ptid: nat, subtid: nat, size: nat, head: seq<Octet>)
    | Slice(data: seq<Octet>)
    | Ack(code: int, status: int, ptid: nat, topic: seq<Octet>)
    | Change(ptid: nat, status: int)
    | Disconnect(reason: seq<Octet>)
    | Fault(code: int)
  {
    predicate Final() { Disconnect? || Fault? }
  }

  /** The first event of a stream, the octets it takes, and what is left of its PUBLISH frame. */
  datatype Step = NeedMore | Got(ev: Event, used: nat, left: nat)

  predicate KeepAlive(s: seq<Octet>) {
    |s| >= 3 && GetU16(s) == 3 && (s[2] == MSG_PING || s[2] == MSG_PONG)
  }

  /** Just these two frames of three octets are skipped, and the answer to the first is the second. */
  lemma KeepAliveOctets(s: seq<Octet>)
    ensures KeepAlive(s) <==> Skips(s)
    ensures SkipLen(s) == if Skips(s) then 3 + SkipLen(s[3..]) else 0
    ensures Skips(s) ==> Replies(s) == (if s[2] == 12 then [0, 3, 13] else []) + Replies(s[3..])
  {
  }

  /** The length of the run of PING and PONG frames that s starts with. */
  function SkipLen(s: seq<Octet>): (k: nat)
    ensures k <= |s|
  {
    if KeepAlive(s) then 3 + SkipLen(s[3..]) else 0
  }

  /** The PONG frames that answer the PING frames of k. */
  function Replies(k: seq<Octet>): seq<Octet> {
    if |k| < 3 then []
    else (if k[2] == MSG_PING then [0, 3, MSG_PONG] else []) + Replies(k[3..])
  }

  function AckCode(msg: Octet): int {
    if msg == MSG_CREATEACK then SMQ_CREATEACK
    else if msg == MSG_CREATESUBACK then SMQ_CREATESUBACK
    else SMQ_SUBACK
  }

  predicate IsAck(msg: Octet) {
    msg == MSG_CREATEACK || msg == MSG_CREATESUBACK || msg == MSG_SUBACK
  }

  /** The event of a stream that starts with a frame header. */
  function AtFrame(s: seq<Octet>, bufLen: nat): (r: Step)
    requires bufLen >= 127
    ensures r.Got? ==> 3 <= r.used <= |s| && !r.ev.Slice?
  {
    if |s| < 3 then NeedMore
    else
      var len, msg := GetU16(s), s[2];
      if msg == MSG_PUBLISH then PublishStep(s, len, bufLen)
      else if IsAck(msg) then
        if len < 3 || len > bufLen then Got(Fault(SMQE_BUF_OVERFLOW), 3, 0)
        else if len == 3 then Got(Fault(SMQE_TIMEOUT), 3, 0)
        else if |s| < len then NeedMore
        else if len < 9 then Got(Fault(SMQE_PROTOCOL_ERROR), len, 0)
        else Got(AckEvent(s[..len]), len, 0)
      else if msg == MSG_CHANGE && len == 11 then
        if |s| < 11 then NeedMore else Got(Change(GetU32(s[3..]), ToS32(GetU32(s[7..]))), 11, 0)
      else if msg == MSG_DISCONNECT then
        if len <= 3 || len > bufLen then Got(Disconnect([]), 3, 0)
        else if |s| < len then NeedMore
        else Got(Disconnect(s[3..len]), len, 0)
      else Got(Fault(SMQE_PROTOCOL_ERROR), 3, 0)
  }

  function PublishStep(s: seq<Octet>, len: nat, bufLen: nat): (r: Step)
    requires bufLen >= 127 && |s| >= 3
    ensures r.Got? ==> 3 <= r.used <= |s| && !r.ev.Slice?
  {
    if len < 15 then Got(Fault(SMQE_PROTOCOL_ERROR), 3, 0)
    else
      var n := Min(len, bufLen);
      if |s| < n then NeedMore
      else Got(Publish(GetU32(s[3..]), GetU32(s[7..]), GetU32(s[11..]), len, s[15..n]), n, len - n)
  }

  function AckEvent(f: seq<Octet>): Event
    requires |f| >= 9
  {
    if f[3] != 0 then Ack(AckCode(f[2]), -1, 0, f[8..])
    else Ack(AckCode(f[2]), 0, GetU32(f[4..]), f[8..])
  }

  /** The next event when left octets of a PUBLISH frame are still unread. */
  function Next(s: seq<Octet>, left: nat, bufLen: nat): (r: Step)
    requires bufLen >= 127
    ensures r.Got? ==> 0 < r.used <= |s| && (r.ev.Slice? <==> left > 0)
  {
    if left > 0 then
      var n := Min(left, bufLen);
      if |s| < n then NeedMore else Got(Slice(s[..n]), n, left - n)
    else
      var k := SkipLen(s);
      match AtFrame(s[k..], bufLen)
      case NeedMore => NeedMore
      case Got(ev, used, rest) => Got(ev, k + used, rest)
  }

  /** Every event of a stream, up to the first that ends the session. */
  function Messages(s: seq<Octet>, left: nat, bufLen: nat): seq<Event>
    requires bufLen >= 127
    decreases |s|
  {
    match Next(s, left, bufLen)
    case NeedMore => []
    case Got(ev, used, rest) =>
      [ev] + (if ev.Final() then [] else Messages(s[used..], rest, bufLen))
  }

  /** Dropping leading keep-alive frames changes no event. */
  lemma {:induction false} SkipKeeps(s: seq<Octet>, k: nat, bufLen: nat)
    requires bufLen >= 127 && k % 3 == 0 && k <= SkipLen(s)
    ensures SkipLen(s) == k + SkipLen(s[k..])
    ensures Messages(s[k..], 0, bufLen) == Messages(s, 0, bufLen)
    decreases k
  {
    if k == 0 {
      assert s[0..] == s;
    } else {
      SkipKeeps(s[3..], k - 3, bufLen);
      assert s[3..][k - 3..] == s[k..];
      SkipOne(s, bufLen);
    }
  }

  lemma SkipOne(s: seq<Octet>, bufLen: nat)
    requires bufLen >= 127 && KeepAlive(s)
    ensures Messages(s[3..], 0, bufLen) == Messages(s, 0, bufLen)
  {
    NextAfterKeepAlive(s, bufLen);
    match Next(s[3..], 0, bufLen)
    case NeedMore =>
    case Got(ev, used, rest) =>
      assert s[3..][used..] == s[3 + used..];
  }

  lemma NextAfterKeepAlive(s: seq<Octet>, bufLen: nat)
    requires bufLen >= 127 && KeepAlive(s)
    ensures Next(s, 0, bufLen) == match Next(s[3..], 0, bufLen)
                                  case NeedMore => NeedMore
                                  case Got(ev, used, rest) => Got(ev, 3 + used, rest)
  {
    var k := SkipLen(s[3..]);
    assert s[3..][k..] == s[3 + k..];
  }

  lemma NextAtHeader(s: seq<Octet>, bufLen: nat)
    requires bufLen >= 127 && !KeepAlive(s)
    ensures Next(s, 0, bufLen) == AtFrame(s, bufLen)
  {
    assert s[0..] == s;
  }

  /** When the wait for a slice has timed out, the client takes the rest of the PUBLISH for a frame
      header. Payload whose third octet is zero is no header, and the session ends. */
  lemma LostSlices(s: seq<Octet>, left: nat, bufLen: nat)
    requires bufLen >= 127 && 3 <= left <= |s| && s[2] == 0
    ensures Messages(s, 0, bufLen) == [Fault(SMQE_PROTOCOL_ERROR)]
    ensures |Messages(s, left, bufLen)| > 0 && Messages(s, left, bufLen)[0] == Slice(s[..Min(left, bufLen)])
  {
    NextAtHeader(s, bufLen);
    assert AtFrame(s, bufLen) == Got(Fault(SMQE_PROTOCOL_ERROR), 3, 0);
    assert Next(s, left, bufLen).ev == Slice(s[..Min(left, bufLen)]);
  }

  /** The octets that must be there before the client reports a frame with this header. */
  function Needed(header: seq<Octet>, bufLen: nat): nat
    requires |header| >= 3
  {
    var len, msg := GetU16(header), header[2];
    if msg == MSG_PUBLISH && len >= 15 then Min(len, bufLen)
    else if (IsAck(msg) || msg == MSG_DISCONNECT) && 3 < len <= bufLen then len
    else if msg == MSG_CHANGE && len == 11 then 11
    else 3
  }

  /** In general the client goes on to report something that was not due if and only if, behind any keep-alive
      frames, the octets left hold a header and the octets that it announces. */
  lemma LostAlignment(s: seq<Octet>, left: nat, bufLen: nat)
    requires bufLen >= 127 && left > 0 && |s| >= Min(left, bufLen)
    ensures var t := s[SkipLen(s)..];
      !(Messages(s, 0, bufLen) <= Messages(s, left, bufLen)) <==> |t| >= 3 && |t| >= Needed(t, bufLen)
  {
    NeedsMore(s[SkipLen(s)..], bufLen);
    if Next(s, 0, bufLen).Got? {
      assert Messages(s, 0, bufLen)[0] == Next(s, 0, bufLen).ev;
      assert Messages(s, left, bufLen)[0] == Next(s, left, bufLen).ev;
    }
  }

  lemma NeedsMore(t: seq<Octet>, bufLen: nat)
    requires bufLen >= 127
    ensures AtFrame(t, bufLen).Got? <==> |t| >= 3 && |t| >= Needed(t, bufLen)
  {
  }

  lemma {:induction false} RepliesStep(s: seq<Octet>, k: nat)
    requires k % 3 == 0 && k + 3 <= |s|
    ensures Replies(s[..k + 3]) == Replies(s[..k]) + if s[k + 2] == MSG_PING then [0, 3, MSG_PONG] else []
  {
    if k > 0 {
      RepliesStep(s[3..], k - 3);
      assert s[3..][..k] == s[..k + 3][3..] && s[3..][..k - 3] == s[..k][3..];
    } else {
      assert s[..3][3..] == [];
    }
  }

  lemma {:induction false} SkipLenThirds(s: seq<Octet>)
    ensures SkipLen(s) % 3 == 0
  {
    if KeepAlive(s) {
      SkipLenThirds(s[3..]);
    }
  }

  /** One more keep-alive frame after k octets of them. */
  lemma SkipFurther(s: seq<Octet>, k: nat, bufLen: nat)
    requires bufLen >= 127 && k % 3 == 0 && k <= SkipLen(s)
    ensures SkipLen(s) == k + SkipLen(s[k..])
    ensures KeepAlive(s[k..]) ==> k + 3 <= SkipLen(s)
    ensures !KeepAlive(s[k..]) ==> k == SkipLen(s)
  {
    SkipKeeps(s, k, bufLen);
  }

  lemma PublishEvent(s: seq<Octet>, n: nat, bufLen: nat)
    requires bufLen >= 127 && |s| >= 15 && s[2] == MSG_PUBLISH && GetU16(s) >= 15
    requires n == Min(GetU16(s), bufLen) && n <= |s|
    ensures AtFrame(s, bufLen)
         == Got(Publish(GetU32(s[3..]), GetU32(s[7..]), GetU32(s[11..]), GetU16(s), s[15..n]), n, GetU16(s) - n)
  {
  }

  lemma AckFrameEvent(s: seq<Octet>, n: nat, bufLen: nat)
    requires bufLen >= 127 && 9 <= n <= |s| && IsAck(s[2]) && n == GetU16(s) <= bufLen
    ensures AtFrame(s, bufLen) == Got(AckEvent(s[..n]), n, 0)
  {
  }

  // An event depends on its own octets only --------------------------------------------------------

  lemma {:induction false} SameSkip(s: seq<Octet>, t: seq<Octet>, k: nat)
    requires k % 3 == 0 && k <= SkipLen(s) && k <= |t| && t[..k] == s[..k]
    ensures k <= SkipLen(t)
    decreases k
  {
    if k > 0 {
      SkipFirst(s, k);
      SameKeepAlive(s, t, k);
      SameSkip(s[3..], t[3..], k - 3);
    }
  }

  lemma SkipFirst(s: seq<Octet>, k: nat)
    requires 0 < k <= SkipLen(s) && k % 3 == 0
    ensures KeepAlive(s) && 3 <= k && k - 3 <= SkipLen(s[3..]) && (k - 3) % 3 == 0
  {
  }

  lemma SameKeepAlive(s: seq<Octet>, t: seq<Octet>, k: nat)
    requires 3 <= k <= |s| && k <= |t| && t[..k] == s[..k]
    ensures KeepAlive(s) <==> KeepAlive(t)
    ensures t[3..][..k - 3] == s[3..][..k - 3]
  {
    assert s[0] == s[..k][0] && s[1] == s[..k][1] && s[2] == s[..k][2];
    assert t[0] == t[..k][0] && t[1] == t[..k][1] && t[2] == t[..k][2];
    assert t[3..][..k - 3] == t[..k][3..] && s[3..][..k - 3] == s[..k][3..];
  }

  lemma SameFields(s: seq<Octet>, t: seq<Octet>, n: nat)
    requires n <= |s| && n <= |t| && s[..n] == t[..n]
    ensures n >= 3 ==> GetU16(s) == GetU16(t) && s[2] == t[2]
    ensures n >= 11 ==> GetU32(s[3..]) == GetU32(t[3..]) && GetU32(s[7..]) == GetU32(t[7..])
    ensures n >= 15 ==> GetU32(s[11..]) == GetU32(t[11..]) && s[15..n] == t[15..n]
    ensures n >= 3 ==> s[3..n] == t[3..n]
  {
    assert forall i :: 0 <= i < n ==> s[i] == s[..n][i] == t[..n][i] == t[i];
  }

  lemma SameFrame(s: seq<Octet>, t: seq<Octet>, bufLen: nat)
    requires bufLen >= 127 && AtFrame(s, bufLen).Got?
    requires var n := AtFrame(s, bufLen).used; n <= |t| && t[..n] == s[..n]
    ensures AtFrame(t, bufLen) == AtFrame(s, bufLen)
  {
    var n := AtFrame(s, bufLen).used;
    SameFields(s, t, n);
  }

  /** The keep-alive frames before the next event end where they ended. */
  lemma SameSkipLen(s: seq<Octet>, bufLen: nat, more: seq<Octet>)
    requires bufLen >= 127 && Next(s, 0, bufLen).Got?
    ensures var n := Next(s, 0, bufLen).used;
      && SkipLen(s[..n] + more) == SkipLen(s)
      && AtFrame((s[..n] + more)[SkipLen(s)..], bufLen) == AtFrame(s[SkipLen(s)..], bufLen)
  {
    var n, k := Next(s, 0, bufLen).used, SkipLen(s);
    var t, u := s[..n] + more, n - SkipLen(s);
    SkipLenThirds(s);
    assert t[..k] == s[..k];
    SameSkip(s, t, k);
    SkipFurther(s, k, bufLen);
    assert t[k..][..u] == s[k..][..u];
    SameKeepAlive(s[k..], t[k..], u);
    SkipFurther(t, k, bufLen);
    SameFrame(s[k..], t[k..], bufLen);
  }

  /** The octets before the next event, and the event, determine it. */
  lemma SameNext(s: seq<Octet>, left: nat, bufLen: nat, more: seq<Octet>)
    requires bufLen >= 127 && Next(s, left, bufLen).Got?
    ensures Next(s[..Next(s, left, bufLen).used] + more, left, bufLen) == Next(s, left, bufLen)
  {
    var n := Next(s, left, bufLen).used;
    if left > 0 {
      assert (s[..n] + more)[..n] == s[..n];
    } else {
      SameSkipLen(s, bufLen, more);
    }
  }

  /** The octets taken, from a state with left0 octets of a PUBLISH unread to one with left1, stand for the
      events whatever comes after them. */
  ghost predicate Consumes(taken: seq<Octet>, left0: nat, events: seq<Event>, left1: nat, bufLen: nat)
    requires bufLen >= 127
  {
    forall more :: Messages(taken + more, left0, bufLen) == events + Messages(more, left1, bufLen)
  }

  lemma ConsumesEvent(s: seq<Octet>, left: nat, bufLen: nat)
    requires bufLen >= 127 && Next(s, left, bufLen).Got? && !Next(s, left, bufLen).ev.Final()
    ensures var n := Next(s, left, bufLen); Consumes(s[..n.used], left, [n.ev], n.left, bufLen)
  {
    var n := Next(s, left, bufLen);
    forall more ensures Messages(s[..n.used] + more, left, bufLen) == [n.ev] + Messages(more, n.left, bufLen) {
      SameNext(s, left, bufLen, more);
      assert (s[..n.used] + more)[n.used..] == more;
    }
  }

  lemma KeepAliveThen(s: seq<Octet>, k: nat, bufLen: nat, more: seq<Octet>)
    requires bufLen >= 127 && k % 3 == 0 && k <= SkipLen(s)
    ensures Messages(s[..k] + more, 0, bufLen) == Messages(more, 0, bufLen)
  {
    var t := s[..k] + more;
    assert t[..k] == s[..k] && t[k..] == more;
    SameSkip(s, t, k);
    SkipKeeps(t, k, bufLen);
  }

  lemma ConsumesKeepAlive(s: seq<Octet>, k: nat, bufLen: nat)
    requires bufLen >= 127 && k % 3 == 0 && k <= SkipLen(s)
    ensures Consumes(s[..k], 0, [], 0, bufLen)
  {
    forall more ensures Messages(s[..k] + more, 0, bufLen) == [] + Messages(more, 0, bufLen) {
      KeepAliveThen(s, k, bufLen, more);
      assert [] + Messages(more, 0, bufLen) == Messages(more, 0, bufLen);
    }
  }

  lemma ConsumesNothing(left: nat, bufLen: nat)
    requires bufLen >= 127
    ensures Consumes([], left, [], left, bufLen)
  {
    forall more ensures Messages([] + more, left, bufLen) == [] + Messages(more, left, bufLen) {
      assert [] + more == more;
    }
  }

  lemma ConsumesBoth(a: seq<Octet>, b: seq<Octet>, e: seq<Event>, f: seq<Event>, left0: nat, left1: nat, left2: nat,
                     bufLen: nat)
    requires bufLen >= 127 && Consumes(a, left0, e, left1, bufLen) && Consumes(b, left1, f, left2, bufLen)
    ensures Consumes(a + b, left0, e + f, left2, bufLen)
  {
    forall more ensures Messages(a + b + more, left0, bufLen) == e + f + Messages(more, left2, bufLen) {
      JoinThree(a, b, more);
      assert Messages(a + (b + more), left0, bufLen) == e + Messages(b + more, left1, bufLen);
      JoinEvents(e, f, Messages(more, left2, bufLen));
    }
  }

  lemma JoinEvents(a: seq<Event>, b: seq<Event>, c: seq<Event>)
    ensures a + (b + c) == (a + b) + c
  {
  }
}
