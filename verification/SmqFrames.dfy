/** The broker's side: frames as it writes them, and the deliveries they stand for. */
module SmqFrames {
  import opened Octets
  import opened SmqWire
  import opened SmqOctets

  datatype Frame =
    | PublishFrame(tid: nat, ptid: nat, subtid: nat, payload: seq<Octet>)
    | AckFrame(msg: Octet, denied: Octet, tid: nat, topic: seq<Octet>)
    | ChangeFrame(tid: nat, count: nat)
    | KeepAliveFrame(ping: bool)
    | DisconnectFrame(reason: seq<Octet>)
  {
    /** Field widths, and the documented rule that a control frame fits the client's buffer. */
    predicate Valid(bufLen: nat) {
      match this
      case PublishFrame(t, p, s, payload) =>
        t < 0x1_0000_0000 && p < 0x1_0000_0000 && s < 0x1_0000_0000 && 15 + |payload| < 0x1_0000
      case AckFrame(msg, denied, t, topic) =>
        IsAck(msg) && t < 0x1_0000_0000 && topic != [] && 8 + |topic| <= bufLen && 8 + |topic| < 0x1_0000
      case ChangeFrame(t, count) => t < 0x1_0000_0000 && count < 0x1_0000_0000
      case KeepAliveFrame(_) => true
      case DisconnectFrame(reason) => 3 + |reason| <= bufLen && 3 + |reason| < 0x1_0000
    }
  }

  function Header(len: nat, msg: Octet): seq<Octet> { PutU16(len) + [msg] }

  function Encode(f: Frame): seq<Octet> {
    match f
    case PublishFrame(t, p, s, payload) =>
      Header(15 + |payload|, MSG_PUBLISH) + PutU32(t) + PutU32(p) + PutU32(s) + payload
    case AckFrame(msg, denied, t, topic) => Header(8 + |topic|, msg) + [denied] + PutU32(t) + topic
    case ChangeFrame(t, count) => Header(11, MSG_CHANGE) + PutU32(t) + PutU32(count)
    case KeepAliveFrame(ping) => Header(3, if ping then MSG_PING else MSG_PONG)
    case DisconnectFrame(reason) => Header(3 + |reason|, MSG_DISCONNECT) + reason
  }

  function EncodeAll(fs: seq<Frame>): seq<Octet> {
    if fs == [] then [] else Encode(fs[0]) + EncodeAll(fs[1..])
  }

  /** A message as the publisher sent it, or a notice from the broker. */
  datatype Delivery =
    | Message(tid: nat, ptid: nat, subtid: nat, payload: seq<Octet>)
    | Notice(ev: Event)

  function NoticeOf(f: Frame): Event
    requires f.AckFrame? || f.ChangeFrame? || f.DisconnectFrame?
  {
    match f
    case AckFrame(msg, denied, t, topic) => AckEvent(msg, denied, t, topic)
    case ChangeFrame(t, count) => Change(t, ToS32(count))
    case DisconnectFrame(reason) => Disconnect(reason)
  }

  /** The broker has accepted a topic or denied it. */
  function AckEvent(msg: Octet, denied: Octet, t: nat, topic: seq<Octet>): Event {
    if denied != 0 then Ack(AckCode(msg), -1, 0, topic) else Ack(AckCode(msg), 0, t, topic)
  }

  /** What an application is owed for a list of frames. */
  function Deliveries(fs: seq<Frame>): seq<Delivery> {
    if fs == [] then []
    else match fs[0]
      case PublishFrame(t, p, s, payload) => [Message(t, p, s, payload)] + Deliveries(fs[1..])
      case KeepAliveFrame(_) => Deliveries(fs[1..])
      case DisconnectFrame(_) => [Notice(NoticeOf(fs[0]))]
      case _ => [Notice(NoticeOf(fs[0]))] + Deliveries(fs[1..])
  }

  /** The message an application has read in part: it is complete when need octets are there. */
  datatype Partial = Nothing | Part(tid: nat, ptid: nat, subtid: nat, need: int, data: seq<Octet>)

  /** The application's reading loop: collect slices until bytesRead reaches frameLen. */
  function Join(evs: seq<Event>, part: Partial): seq<Delivery>
    decreases |evs|, 0
  {
    if evs == [] then []
    else match evs[0]
      case Publish(t, p, s, size, head) => Collect(evs[1..], Part(t, p, s, size - 15, head))
      case Slice(data) =>
        if part.Part? then Collect(evs[1..], part.(data := part.data + data)) else Join(evs[1..], part)
      case ev => [Notice(ev)] + Join(evs[1..], Nothing)
  }

  function Collect(evs: seq<Event>, part: Partial): seq<Delivery>
    requires part.Part?
    decreases |evs|, 1
  {
    if |part.data| >= part.need then
      [Message(part.tid, part.ptid, part.subtid, part.data)] + Join(evs, Nothing)
    else Join(evs, part)
  }

  lemma ReadHeader(len: nat, msg: Octet, more: seq<Octet>)
    requires len < 0x1_0000
    ensures var s := Header(len, msg) + more; GetU16(s) == len && s[2] == msg && s[3..] == more
  {
    U16RoundTrip(len);
  }

  lemma HeaderFields(len: nat, msg: Octet)
    requires len < 0x1_0000
    ensures var h := Header(len, msg); |h| == 3 && GetU16(h) == len && h[2] == msg
  {
    ReadHeader(len, msg, []);
    assert Header(len, msg) + [] == Header(len, msg);
  }

  /** A frame octet by octet. */
  ghost predicate LaidOut(f: Frame, e: seq<Octet>) {
    && |e| >= 3 && Announced(e) == |e|
    && match f
       case PublishFrame(t, p, s, payload) =>
         e[2] == 8 && |e| >= 15 && Field(e, 3) == t && Field(e, 7) == p && Field(e, 11) == s && e[15..] == payload
       case AckFrame(msg, denied, t, topic) =>
         e[2] == msg && |e| >= 9 && e[3] == denied && Field(e, 4) == t && e[8..] == topic
       case ChangeFrame(t, count) => e[2] == 16 && |e| == 11 && Field(e, 3) == t && Field(e, 7) == count
       case KeepAliveFrame(ping) => |e| == 3 && e[2] == if ping then 12 else 13
       case DisconnectFrame(reason) => e[2] == 11 && e[3..] == reason
  }

  lemma Layout(f: Frame, bufLen: nat)
    requires f.Valid(bufLen)
    ensures LaidOut(f, Encode(f))
  {
    var e := Encode(f);
    match f
    case PublishFrame(t, p, s, payload) =>
      HeaderFields(15 + |payload|, 8);
      ThreeFields(e, Header(15 + |payload|, 8), t, p, s, payload);
      HeaderOf(e, 15 + |payload|, 8);
    case AckFrame(msg, denied, t, topic) =>
      assert e[4..8] == PutU32(t) && e[8..] == topic;
      FieldAt(e, 4, t);
      HeaderOf(e, 8 + |topic|, msg);
    case ChangeFrame(t, count) =>
      assert e[3..7] == PutU32(t) && e[7..11] == PutU32(count);
      FieldAt(e, 3, t);
      FieldAt(e, 7, count);
      HeaderOf(e, 11, 16);
    case KeepAliveFrame(ping) =>
      HeaderOf(e, 3, if ping then 12 else 13);
    case DisconnectFrame(reason) =>
      HeaderOf(e, 3 + |reason|, 11);
      assert e[3..] == reason;
  }

  lemma HeaderOf(e: seq<Octet>, len: nat, msg: Octet)
    requires len < 0x1_0000 && |e| >= 3 && e[..3] == Header(len, msg)
    ensures Announced(e) == len && e[2] == msg
  {
    HeaderFields(len, msg);
    assert e[0] == e[..3][0] && e[1] == e[..3][1] && e[2] == e[..3][2];
  }

  /** The acknowledgement that the application is told of. */
  lemma NoticeCodes(f: Frame, bufLen: nat)
    requires f.AckFrame? && f.Valid(bufLen)
    ensures var ev := NoticeOf(f);
      && ev.Ack? && ev.topic == f.topic && f.msg == Encode(f)[2]
      && ((f.msg == 5 && ev.code == -20000) || (f.msg == 7 && ev.code == -20001) || (f.msg == 18 && ev.code == -20002))
      && (if f.denied == 0 then ev.status == 0 && ev.ptid == f.tid else ev.status == -1 && ev.ptid == 0)
  {
    Layout(f, bufLen);
  }

  /** The event that a frame starts with, and how much of its payload that event carries. */
  function FirstEvent(f: Frame, bufLen: nat): Event
    requires bufLen >= 127 && !f.KeepAliveFrame?
  {
    if f.PublishFrame? then
      Publish(f.tid, f.ptid, f.subtid, 15 + |f.payload|, f.payload[..Min(|f.payload|, bufLen - 15)])
    else NoticeOf(f)
  }

  function Tail(f: Frame, bufLen: nat): seq<Octet>
    requires bufLen >= 127
  {
    if f.PublishFrame? then f.payload[Min(|f.payload|, bufLen - 15)..] else []
  }

  /** The client's first event of a frame, whatever follows the frame. */
  ghost predicate ParsesTo(s: seq<Octet>, ev: Event, tail: seq<Octet>, bufLen: nat)
    requires bufLen >= 127
  {
    match Next(s, 0, bufLen)
    case NeedMore => false
    case Got(e, used, left) => e == ev && s[used..] == tail && left <= |tail|
  }

  lemma PayloadBehind(front: seq<Octet>, p: seq<Octet>, m: nat, rest: seq<Octet>)
    requires m <= |p|
    ensures var s, n := front + p + rest, |front| + m; s[|front|..n] == p[..m] && s[n..] == p[m..] + rest
  {
  }

  /** A PUBLISH frame with header h and the fields a, b, c. */
  lemma PublishFields(h: seq<Octet>, a: seq<Octet>, b: seq<Octet>, c: seq<Octet>, p: seq<Octet>, rest: seq<Octet>,
                      bufLen: nat)
    requires |h| == 3 && |a| == |b| == |c| == 4 && bufLen >= 127
    requires GetU16(h) == 15 + |p| && h[2] == MSG_PUBLISH
    ensures var s, m := h + a + b + c + p + rest, Min(|p|, bufLen - 15);
      && ParsesTo(s, Publish(GetU32(a), GetU32(b), GetU32(c), 15 + |p|, p[..m]), p[m..] + rest, bufLen)
      && Next(s, 0, bufLen).left == |p[m..]|
  {
    var s, m := h + a + b + c + p + rest, Min(|p|, bufLen - 15);
    assert s[0] == h[0] && s[1] == h[1] && s[2] == h[2];
    ReadU32(s, 3, a);
    ReadU32(s, 7, b);
    ReadU32(s, 11, c);
    PayloadBehind(h + a + b + c, p, m, rest);
    NextAtHeader(s, bufLen);
  }

  lemma ParsePublish(f: Frame, rest: seq<Octet>, bufLen: nat)
    requires bufLen >= 127 && f.PublishFrame? && f.Valid(bufLen)
    ensures ParsesTo(Encode(f) + rest, FirstEvent(f, bufLen), Tail(f, bufLen) + rest, bufLen)
    ensures Next(Encode(f) + rest, 0, bufLen).left == |Tail(f, bufLen)|
  {
    var h := Header(15 + |f.payload|, MSG_PUBLISH);
    HeaderFields(15 + |f.payload|, MSG_PUBLISH);
    U32RoundTrip(f.tid);
    U32RoundTrip(f.ptid);
    U32RoundTrip(f.subtid);
    PublishFields(h, PutU32(f.tid), PutU32(f.ptid), PutU32(f.subtid), f.payload, rest, bufLen);
  }

  lemma AckFields(h: seq<Octet>, denied: Octet, a: seq<Octet>, topic: seq<Octet>, rest: seq<Octet>, bufLen: nat)
    requires |h| == 3 && |a| == 4 && bufLen >= 127 && topic != [] && 8 + |topic| <= bufLen
    requires GetU16(h) == 8 + |topic| && IsAck(h[2])
    ensures var s := h + [denied] + a + topic + rest;
      && ParsesTo(s, AckEvent(h[2], denied, GetU32(a), topic), rest, bufLen)
      && Next(s, 0, bufLen).left == 0
  {
    var s := h + [denied] + a + topic + rest;
    assert s[0] == h[0] && s[1] == h[1] && s[2] == h[2];
    var f := s[..8 + |topic|];
    assert f == h + [denied] + a + topic;
    ReadU32(f, 4, a);
    assert f[8..] == topic && s[8 + |topic|..] == rest;
    NextAtHeader(s, bufLen);
  }

  lemma ParseAck(f: Frame, rest: seq<Octet>, bufLen: nat)
    requires bufLen >= 127 && f.AckFrame? && f.Valid(bufLen)
    ensures ParsesTo(Encode(f) + rest, NoticeOf(f), rest, bufLen)
    ensures Next(Encode(f) + rest, 0, bufLen).left == 0
  {
    var h := Header(8 + |f.topic|, f.msg);
    HeaderFields(8 + |f.topic|, f.msg);
    U32RoundTrip(f.tid);
    AckFields(h, f.denied, PutU32(f.tid), f.topic, rest, bufLen);
  }

  lemma ChangeFields(h: seq<Octet>, a: seq<Octet>, b: seq<Octet>, rest: seq<Octet>, bufLen: nat)
    requires |h| == 3 && |a| == |b| == 4 && bufLen >= 127
    requires GetU16(h) == 11 && h[2] == MSG_CHANGE
    ensures var s := h + a + b + rest;
      ParsesTo(s, Change(GetU32(a), ToS32(GetU32(b))), rest, bufLen) && Next(s, 0, bufLen).left == 0
  {
    var s := h + a + b + rest;
    assert s[0] == h[0] && s[1] == h[1] && s[2] == h[2];
    ReadU32(s, 3, a);
    ReadU32(s, 7, b);
    assert s[11..] == rest;
    NextAtHeader(s, bufLen);
  }

  lemma ParseChange(f: Frame, rest: seq<Octet>, bufLen: nat)
    requires bufLen >= 127 && f.ChangeFrame? && f.Valid(bufLen)
    ensures ParsesTo(Encode(f) + rest, NoticeOf(f), rest, bufLen)
    ensures Next(Encode(f) + rest, 0, bufLen).left == 0
  {
    var h := Header(11, MSG_CHANGE);
    HeaderFields(11, MSG_CHANGE);
    U32RoundTrip(f.tid);
    U32RoundTrip(f.count);
    ChangeFields(h, PutU32(f.tid), PutU32(f.count), rest, bufLen);
  }

  lemma DisconnectFields(h: seq<Octet>, reason: seq<Octet>, rest: seq<Octet>, bufLen: nat)
    requires |h| == 3 && bufLen >= 127 && 3 + |reason| <= bufLen
    requires GetU16(h) == 3 + |reason| && h[2] == MSG_DISCONNECT
    ensures var s := h + reason + rest;
      Next(s, 0, bufLen) == Got(Disconnect(reason), 3 + |reason|, 0) && s[3 + |reason|..] == rest
  {
    var s := h + reason + rest;
    assert s[0] == h[0] && s[1] == h[1] && s[2] == h[2];
    assert s[3..3 + |reason|] == reason;
    NextAtHeader(s, bufLen);
  }

  lemma ParseDisconnect(f: Frame, rest: seq<Octet>, bufLen: nat)
    requires bufLen >= 127 && f.DisconnectFrame? && f.Valid(bufLen)
    ensures ParsesTo(Encode(f) + rest, NoticeOf(f), rest, bufLen)
  {
    var h := Header(3 + |f.reason|, MSG_DISCONNECT);
    HeaderFields(3 + |f.reason|, MSG_DISCONNECT);
    DisconnectFields(h, f.reason, rest, bufLen);
  }

  /** The slices of a PUBLISH that outgrows the buffer join up to the rest of its payload. */
  lemma {:induction false} JoinSlices(p: seq<Octet>, rest: seq<Octet>, bufLen: nat, part: Partial)
    requires bufLen >= 127 && p != [] && part.Part? && part.need == |part.data| + |p|
    ensures Join(Messages(p + rest, |p|, bufLen), part)
         == [Message(part.tid, part.ptid, part.subtid, part.data + p)] + Join(Messages(rest, 0, bufLen), Nothing)
    decreases |p|
  {
    var n := Min(|p|, bufLen);
    SliceStep(p, rest, bufLen);
    JoinSlice(p[..n], Messages(p[n..] + rest, |p| - n, bufLen), part);
    Rejoin(part.data, p, n, rest);
    if n < |p| {
      JoinSlices(p[n..], rest, bufLen, part.(data := part.data + p[..n]));
    }
  }

  lemma Rejoin(data: seq<Octet>, p: seq<Octet>, n: nat, rest: seq<Octet>)
    requires n <= |p|
    ensures data + p[..n] + p[n..] == data + p
    ensures n == |p| ==> p[n..] + rest == rest && p[..n] == p
  {
  }

  lemma SliceStep(p: seq<Octet>, rest: seq<Octet>, bufLen: nat)
    requires bufLen >= 127 && p != []
    ensures var n := Min(|p|, bufLen);
      Messages(p + rest, |p|, bufLen) == [Slice(p[..n])] + Messages(p[n..] + rest, |p| - n, bufLen)
  {
    var n := Min(|p|, bufLen);
    assert (p + rest)[..n] == p[..n] && (p + rest)[n..] == p[n..] + rest;
  }

  lemma JoinSlice(data: seq<Octet>, evs: seq<Event>, part: Partial)
    requires part.Part?
    ensures Join([Slice(data)] + evs, part) == Collect(evs, part.(data := part.data + data))
  {
    assert ([Slice(data)] + evs)[1..] == evs;
  }

  lemma MessagesStep(s: seq<Octet>, ev: Event, tail: seq<Octet>, bufLen: nat)
    requires bufLen >= 127 && ParsesTo(s, ev, tail, bufLen)
    ensures Messages(s, 0, bufLen)
         == [ev] + if ev.Final() then [] else Messages(tail, Next(s, 0, bufLen).left, bufLen)
  {
  }

  lemma JoinPublish(f: Frame, rest: seq<Octet>, bufLen: nat)
    requires bufLen >= 127 && f.PublishFrame? && f.Valid(bufLen)
    ensures Join(Messages(Encode(f) + rest, 0, bufLen), Nothing)
         == [Message(f.tid, f.ptid, f.subtid, f.payload)] + Join(Messages(rest, 0, bufLen), Nothing)
  {
    ParsePublish(f, rest, bufLen);
    var ev, tail := FirstEvent(f, bufLen), Tail(f, bufLen);
    HeadAndTail(f.payload, Min(|f.payload|, bufLen - 15));
    JoinParsed(Encode(f) + rest, ev, tail, rest, bufLen);
  }

  lemma HeadAndTail(p: seq<Octet>, m: nat)
    requires m <= |p|
    ensures p[..m] + p[m..] == p
  {
  }

  lemma JoinParsed(s: seq<Octet>, ev: Event, tail: seq<Octet>, rest: seq<Octet>, bufLen: nat)
    requires bufLen >= 127 && ParsesTo(s, ev, tail + rest, bufLen) && Next(s, 0, bufLen).left == |tail|
    requires ev.Publish? && ev.size - 15 == |ev.head| + |tail|
    ensures Join(Messages(s, 0, bufLen), Nothing)
         == [Message(ev.tid, ev.ptid, ev.subtid, ev.head + tail)] + Join(Messages(rest, 0, bufLen), Nothing)
  {
    MessagesStep(s, ev, tail + rest, bufLen);
    JoinHead(ev, tail, rest, bufLen);
  }

  lemma JoinHead(ev: Event, tail: seq<Octet>, rest: seq<Octet>, bufLen: nat)
    requires bufLen >= 127 && ev.Publish? && ev.size - 15 == |ev.head| + |tail|
    ensures Join([ev] + Messages(tail + rest, |tail|, bufLen), Nothing)
         == [Message(ev.tid, ev.ptid, ev.subtid, ev.head + tail)] + Join(Messages(rest, 0, bufLen), Nothing)
  {
    JoinFirst(ev, Messages(tail + rest, |tail|, bufLen));
    if tail == [] {
      assert tail + rest == rest && ev.head + tail == ev.head;
    } else {
      JoinSlices(tail, rest, bufLen, Part(ev.tid, ev.ptid, ev.subtid, ev.size - 15, ev.head));
    }
  }

  lemma JoinFirst(ev: Event, evs: seq<Event>)
    requires ev.Publish?
    ensures Join([ev] + evs, Nothing) == Collect(evs, Part(ev.tid, ev.ptid, ev.subtid, ev.size - 15, ev.head))
  {
    assert ([ev] + evs)[1..] == evs;
  }

  lemma JoinNotice(f: Frame, rest: seq<Octet>, bufLen: nat)
    requires bufLen >= 127 && f.Valid(bufLen) && (f.AckFrame? || f.ChangeFrame? || f.DisconnectFrame?)
    ensures Join(Messages(Encode(f) + rest, 0, bufLen), Nothing)
         == [Notice(NoticeOf(f))] + if f.DisconnectFrame? then [] else Join(Messages(rest, 0, bufLen), Nothing)
  {
    match f
    case AckFrame(_, _, _, _) => ParseAck(f, rest, bufLen);
    case ChangeFrame(_, _) => ParseChange(f, rest, bufLen);
    case DisconnectFrame(_) => ParseDisconnect(f, rest, bufLen);
    JoinParsedNotice(Encode(f) + rest, NoticeOf(f), rest, bufLen);
  }

  lemma JoinParsedNotice(s: seq<Octet>, ev: Event, rest: seq<Octet>, bufLen: nat)
    requires bufLen >= 127 && ParsesTo(s, ev, rest, bufLen) && (ev.Final() || Next(s, 0, bufLen).left == 0)
    requires !ev.Publish? && !ev.Slice?
    ensures Join(Messages(s, 0, bufLen), Nothing)
         == [Notice(ev)] + if ev.Final() then [] else Join(Messages(rest, 0, bufLen), Nothing)
  {
    MessagesStep(s, ev, rest, bufLen);
    JoinOther(ev, if ev.Final() then [] else Messages(rest, 0, bufLen));
  }

  lemma JoinOther(ev: Event, evs: seq<Event>)
    requires !ev.Publish? && !ev.Slice?
    ensures Join([ev] + evs, Nothing) == [Notice(ev)] + Join(evs, Nothing)
  {
    assert ([ev] + evs)[1..] == evs;
  }

  lemma KeepAliveFirst(ping: bool, rest: seq<Octet>, bufLen: nat)
    requires bufLen >= 127
    ensures Messages(Encode(KeepAliveFrame(ping)) + rest, 0, bufLen) == Messages(rest, 0, bufLen)
  {
    ReadHeader(3, if ping then MSG_PING else MSG_PONG, rest);
    SkipOne(Encode(KeepAliveFrame(ping)) + rest, bufLen);
  }

  /** Whatever the buffer size, joining what SMQ_getMessage reports for a stream of well-formed
      frames gives each published message once, whole and in order, and each notice. */
  lemma {:induction false} DeliversEverything(fs: seq<Frame>, bufLen: nat)
    requires bufLen >= 127 && forall i :: 0 <= i < |fs| ==> fs[i].Valid(bufLen)
    ensures Join(Messages(EncodeAll(fs), 0, bufLen), Nothing) == Deliveries(fs)
  {
    if fs != [] {
      var f, rest := fs[0], EncodeAll(fs[1..]);
      DeliversEverything(fs[1..], bufLen);
      match f
      case PublishFrame(_, _, _, _) => JoinPublish(f, rest, bufLen);
      case KeepAliveFrame(ping) => KeepAliveFirst(ping, rest, bufLen);
      case _ => JoinNotice(f, rest, bufLen);
    }
  }
}
