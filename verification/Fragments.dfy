/** Fragmented messages: what the client sends piece by piece, and how the broker joins it. */
module Fragments {
  import opened Octets
  import opened SmqOctets

  const MSG_PUBFRAG := 19

  function FragmentHeader(len: nat): (h: seq<Octet>)
    ensures |h| == 3 && h[2] == MSG_PUBFRAG && (len < 0x1_0000 ==> GetU16(h) == len)
  {
    PutU16(len) + [MSG_PUBFRAG]
  }

  function Fragment(tid: nat, ptid: nat, subtid: nat, data: seq<Octet>): (f: seq<Octet>)
    ensures |f| == 15 + |data|
  {
    FragmentHeader(15 + |data|) + PutU32(tid) + PutU32(ptid) + PutU32(subtid) + data
  }

  /** A fragment octet by octet. */
  lemma FragmentOctets(tid: nat, ptid: nat, subtid: nat, data: seq<Octet>)
    requires 15 + |data| < 0x1_0000 && tid < 0x1_0000_0000 && ptid < 0x1_0000_0000 && subtid < 0x1_0000_0000
    ensures var f := Fragment(tid, ptid, subtid, data);
      && Announced(f) == |f| && f[2] == 19 && f[15..] == data
      && Field(f, 3) == tid && Field(f, 7) == ptid && Field(f, 11) == subtid
  {
    var f, h := Fragment(tid, ptid, subtid, data), FragmentHeader(15 + |data|);
    ThreeFields(f, h, tid, ptid, subtid, data);
    assert f[0] == f[..3][0] && f[1] == f[..3][1] && f[2] == f[..3][2];
    U16RoundTrip(15 + |data|);
  }

  /** The payloads of the fragments that the octets m have filled, cap octets each. */
  function Filled(m: seq<Octet>, cap: nat): (chunks: seq<seq<Octet>>)
    requires cap > 0
    ensures forall i :: 0 <= i < |chunks| ==> |chunks[i]| == cap
  {
    if |m| < cap then [] else [m[..cap]] + Filled(m[cap..], cap)
  }

  /** The octets of m after the last filled fragment. */
  function Remainder(m: seq<Octet>, cap: nat): (r: seq<Octet>)
    requires cap > 0
    ensures |r| < cap
  {
    if |m| < cap then m else Remainder(m[cap..], cap)
  }

  /** Appending without filling the buffer, and filling it exactly. */
  lemma {:induction false} Grow(m: seq<Octet>, d: seq<Octet>, cap: nat)
    requires cap > 0 && |Remainder(m, cap)| + |d| <= cap
    ensures if |Remainder(m, cap)| + |d| < cap
            then Filled(m + d, cap) == Filled(m, cap) && Remainder(m + d, cap) == Remainder(m, cap) + d
            else Filled(m + d, cap) == Filled(m, cap) + [Remainder(m, cap) + d] && Remainder(m + d, cap) == []
    decreases |m|
  {
    if |m| < cap {
      if |m| + |d| == cap {
        assert (m + d)[..cap] == m + d && (m + d)[cap..] == [];
      }
    } else {
      assert (m + d)[..cap] == m[..cap] && (m + d)[cap..] == m[cap..] + d;
      Grow(m[cap..], d, cap);
    }
  }

  lemma {:induction false} NothingLost(m: seq<Octet>, cap: nat)
    requires cap > 0
    ensures Flat(Filled(m, cap)) + Remainder(m, cap) == m
    decreases |m|
  {
    if |m| < cap {
      Cut(m, 0);
    } else {
      var tail := m[cap..];
      NothingLost(tail, cap);
      FirstFilled(m[..cap], Filled(tail, cap), Remainder(tail, cap), tail);
      Cut(m, cap);
    }
  }

  lemma Cut(m: seq<Octet>, k: nat)
    requires k <= |m|
    ensures m[..k] + m[k..] == m && [] + m == m
  {
  }

  lemma FirstFilled(first: seq<Octet>, rest: seq<seq<Octet>>, last: seq<Octet>, tail: seq<Octet>)
    requires Flat(rest) + last == tail
    ensures Flat([first] + rest) + last == first + tail
  {
    assert ([first] + rest)[1..] == rest;
    JoinThree(first, Flat(rest), last);
  }

  /** Filled fragments as the client sends them: no topic yet. */
  function Wire(chunks: seq<seq<Octet>>, ptid: nat): seq<Octet> {
    if chunks == [] then [] else Fragment(0, ptid, 0, chunks[0]) + Wire(chunks[1..], ptid)
  }

  lemma {:induction false} WireAppend(chunks: seq<seq<Octet>>, last: seq<Octet>, ptid: nat)
    ensures Wire(chunks + [last], ptid) == Wire(chunks, ptid) + Fragment(0, ptid, 0, last)
  {
    if chunks == [] {
      assert ([] + [last])[1..] == [];
    } else {
      assert (chunks + [last])[1..] == chunks[1..] + [last];
      WireAppend(chunks[1..], last, ptid);
      JoinThree(Fragment(0, ptid, 0, chunks[0]), Wire(chunks[1..], ptid), Fragment(0, ptid, 0, last));
    }
  }

  /** A message as the broker publishes it. */
  datatype Published = Published(tid: nat, ptid: nat, subtid: nat, data: seq<Octet>)

  /** The broker joins fragments until one carries a topic. */
  function Broker(s: seq<Octet>, acc: seq<Octet>): seq<Published>
    decreases |s|
  {
    if |s| < 15 || s[2] != MSG_PUBFRAG || GetU16(s) < 15 || GetU16(s) > |s| then []
    else
      var len, tid := GetU16(s), GetU32(s[3..]);
      var data := acc + s[15..len];
      if tid == 0 then Broker(s[len..], data)
      else [Published(tid, GetU32(s[7..]), GetU32(s[11..]), data)] + Broker(s[len..], [])
  }

  /** A fragment with header h and fields a, b, c at the front of the stream. */
  lemma BrokerFields(h: seq<Octet>, a: seq<Octet>, b: seq<Octet>, c: seq<Octet>, d: seq<Octet>, more: seq<Octet>,
                     acc: seq<Octet>)
    requires |h| == 3 && |a| == |b| == |c| == 4
    requires GetU16(h) == 15 + |d| && h[2] == MSG_PUBFRAG
    ensures Broker(h + a + b + c + d + more, acc)
         == if GetU32(a) == 0 then Broker(more, acc + d)
            else [Published(GetU32(a), GetU32(b), GetU32(c), acc + d)] + Broker(more, [])
  {
    var s := h + a + b + c + d + more;
    assert s[0] == h[0] && s[1] == h[1] && s[2] == h[2];
    ReadU32(s, 3, a);
    ReadU32(s, 7, b);
    ReadU32(s, 11, c);
    assert s[15..15 + |d|] == d && s[15 + |d|..] == more;
  }

  lemma BrokerFragment(tid: nat, ptid: nat, subtid: nat, d: seq<Octet>, more: seq<Octet>, acc: seq<Octet>)
    requires 15 + |d| < 0x1_0000 && tid < 0x1_0000_0000 && ptid < 0x1_0000_0000 && subtid < 0x1_0000_0000
    ensures Broker(Fragment(tid, ptid, subtid, d) + more, acc)
         == if tid == 0 then Broker(more, acc + d)
            else [Published(tid, ptid, subtid, acc + d)] + Broker(more, [])
  {
    U32RoundTrip(tid);
    U32RoundTrip(ptid);
    U32RoundTrip(subtid);
    BrokerFields(FragmentHeader(15 + |d|), PutU32(tid), PutU32(ptid), PutU32(subtid), d, more, acc);
  }

  lemma {:induction false} BrokerWire(chunks: seq<seq<Octet>>, ptid: nat, more: seq<Octet>, acc: seq<Octet>)
    requires ptid < 0x1_0000_0000 && forall i :: 0 <= i < |chunks| ==> 15 + |chunks[i]| < 0x1_0000
    ensures Broker(Wire(chunks, ptid) + more, acc) == Broker(more, acc + Flat(chunks))
    decreases |chunks|
  {
    if chunks == [] {
      assert [] + more == more && acc + [] == acc;
    } else {
      var first, rest := Fragment(0, ptid, 0, chunks[0]), Wire(chunks[1..], ptid);
      JoinThree(first, rest, more);
      BrokerFragment(0, ptid, 0, chunks[0], rest + more, acc);
      BrokerWire(chunks[1..], ptid, more, acc + chunks[0]);
      JoinThree(acc, chunks[0], Flat(chunks[1..]));
    }
  }

  /** All that the client sends for a message written in pieces and then flushed to a topic. */
  function Sent(m: seq<Octet>, tid: nat, ptid: nat, subtid: nat, cap: nat): seq<Octet>
    requires cap > 0
  {
    Wire(Filled(m, cap), ptid) + Fragment(tid, ptid, subtid, Remainder(m, cap))
  }

  /** The broker gets back exactly the octets written if and only if the topic is not zero;
      otherwise they stay in front of the next message. */
  lemma FragmentsJoin(m: seq<Octet>, tid: nat, ptid: nat, subtid: nat, cap: nat, more: seq<Octet>, acc: seq<Octet>)
    requires 0 < cap && 15 + cap < 0x1_0000
    requires tid < 0x1_0000_0000 && ptid < 0x1_0000_0000 && subtid < 0x1_0000_0000
    ensures tid != 0 ==> Broker(Sent(m, tid, ptid, subtid, cap) + more, acc)
                         == [Published(tid, ptid, subtid, acc + m)] + Broker(more, [])
    ensures tid == 0 ==> Broker(Sent(m, tid, ptid, subtid, cap) + more, acc) == Broker(more, acc + m)
  {
    var chunks, rest := Filled(m, cap), Remainder(m, cap);
    var last := Fragment(tid, ptid, subtid, rest);
    assert Sent(m, tid, ptid, subtid, cap) + more == Wire(chunks, ptid) + (last + more);
    BrokerWire(chunks, ptid, last + more, acc);
    BrokerFragment(tid, ptid, subtid, rest, more, acc + Flat(chunks));
    NothingLost(m, cap);
    JoinThree(acc, Flat(chunks), rest);
  }

  datatype Message = Message(tid: nat, subtid: nat, data: seq<Octet>)

  function SentAll(ms: seq<Message>, ptid: nat, cap: nat): seq<Octet>
    requires cap > 0
  {
    if ms == [] then [] else Sent(ms[0].data, ms[0].tid, ptid, ms[0].subtid, cap) + SentAll(ms[1..], ptid, cap)
  }

  function PublishedAll(ms: seq<Message>, ptid: nat): seq<Published> {
    if ms == [] then [] else [Published(ms[0].tid, ptid, ms[0].subtid, ms[0].data)] + PublishedAll(ms[1..], ptid)
  }

  /** Any run of fragmented messages reaches the broker whole and in order. */
  lemma {:induction false} MessagesJoin(ms: seq<Message>, ptid: nat, cap: nat)
    requires 0 < cap && 15 + cap < 0x1_0000 && ptid < 0x1_0000_0000
    requires forall i :: 0 <= i < |ms| ==> 0 < ms[i].tid < 0x1_0000_0000 && ms[i].subtid < 0x1_0000_0000
    ensures Broker(SentAll(ms, ptid, cap), []) == PublishedAll(ms, ptid)
  {
    if ms != [] {
      var m := ms[0];
      FragmentsJoin(m.data, m.tid, ptid, m.subtid, cap, SentAll(ms[1..], ptid, cap), []);
      assert [] + m.data == m.data;
      MessagesJoin(ms[1..], ptid, cap);
    }
  }
}
