/** The socket ports meet the contract of se_recv that the client is built on. */
module Ports {
  import opened Octets
  import opened Transport
  import LwipSocket
  import NetxSocket
  import UipSocket

  /** The octets of a stream behind those already returned, and those of one more call. */
  lemma OneCall(stream: seq<Octet>, returned: seq<Octet>, got: seq<Octet>, len: nat)
    requires returned + got <= stream && |got| <= len
    ensures Received(stream[|returned|..], stream[|returned + got|..], len, |got|, got)
  {
    assert stream[|returned|..|returned + got|] == got;
  }

  /** What a call of se_recv has returned: nothing when it has failed. */
  function Got(into: seq<Octet>, x: int): seq<Octet>
    requires x <= |into|
  {
    if x > 0 then into[..x] else []
  }

  /** future is whatever the peer sends after this call; returned is what the caller had so far. A call that never
      comes back promises nothing. */
  method OverUip(s: UipSocket.Socket, into: array<Octet>, len: nat, timeout: nat, events: seq<UipSocket.Event>,
                 ghost returned: seq<Octet>, ghost future: seq<Octet>)
    returns (x: int, back: bool, ghost stream: seq<Octet>)
    requires s.Idle() && len <= into.Length && s.delivered == returned + s.Held()
    modifies s, into
    ensures stream == s.delivered + future && old(s.delivered) <= stream
    ensures back ==> s.Idle() && x <= len && (x >= 0 ==> s.delivered == (returned + Got(into[..], x)) + s.Held())
    ensures back ==>
      var next := |returned + Got(into[..], x)|;
      next <= |stream| && Received(stream[|returned|..], stream[next..], len, x, Got(into[..], x))
    ensures back ==> Framed(old(into[..]), into[..], 0, x)
    ensures timeout == INFINITE_TMO && len > 0 ==> x != 0
    ensures timeout != INFINITE_TMO ==> back
  {
    ghost var held, came := s.Held(), if |s.msgs| > 0 then [] else UipSocket.Incoming(events);
    x, back := s.Recv(into, len, timeout, events);
    stream := s.delivered + future;
    if back {
      ghost var got := Got(into[..], x);
      if x >= 0 {
        assert got == into[..x];
        JoinThree(returned, held, came);
        JoinThree(returned, got, s.Held());
      } else {
        assert returned + got == returned;
      }
      OneCall(stream, returned, got, len);
    }
  }

  method OverLwip(s: LwipSocket.Socket, into: array<Octet>, len: nat, timeout: nat, events: seq<LwipSocket.Event>,
                  ghost future: seq<Octet>)
    returns (x: int, back: bool, ghost stream: seq<Octet>)
    requires s.Valid() && !s.ready && !s.inRecv && len <= into.Length && LwipSocket.Possible(events)
    modifies s, into
    ensures s.Valid() && stream == s.received + future && old(s.received) <= stream && x <= len
    ensures |old(s.returned)| <= |stream| && |s.returned| <= |stream|
    ensures Received(stream[|old(s.returned)|..], stream[|s.returned|..], len, x, Got(into[..], x))
    ensures Framed(old(into[..]), into[..], 0, x)
    ensures timeout == INFINITE_TMO && len > 0 ==> x != 0
    ensures timeout != INFINITE_TMO ==> back
  {
    ghost var returned := s.returned;
    x, back := s.Recv(into, len, timeout, events);
    stream := s.received + future;
    ghost var got := Got(into[..], x);
    assert got == if x > 0 then into[..x] else [];
    assert returned + got == s.returned;
    OneCall(stream, returned, got, len);
  }

  method OverNetx(s: NetxSocket.Socket, into: array<Octet>, len: nat, timeout: nat, answer: NetxSocket.Answer,
                  ghost future: seq<Octet>)
    returns (x: int, ghost stream: seq<Octet>)
    requires s.Valid() && len <= into.Length && NetxSocket.Possible(answer, timeout == INFINITE_TMO)
    modifies s, into
    ensures s.Valid() && stream == s.received + future && old(s.received) <= stream && x <= len
    ensures |old(s.returned)| <= |stream| && |s.returned| <= |stream|
    ensures Received(stream[|old(s.returned)|..], stream[|s.returned|..], len, x, Got(into[..], x))
    ensures Framed(old(into[..]), into[..], 0, x)
    ensures timeout == INFINITE_TMO && len > 0 ==> x != 0
  {
    ghost var returned := s.returned;
    x := s.Recv(into, len, timeout, answer);
    stream := s.received + future;
    ghost var got := Got(into[..], x);
    assert got == if x > 0 then into[..x] else [];
    assert returned + got == s.returned;
    OneCall(stream, returned, got, len);
  }
}
