/** What the client waits through in a run of SMQ_getMessage, told by the octets that each call has taken. */
module SmqHistory {
  import opened Octets
  import opened SmqWire
  import opened PingTimer

  /** A call that has not failed: the octets that it took, as seen, and whether it ended in an idle timeout or
      with an event. */
  datatype Turn = Turn(taken: seq<Octet>, idle: bool)

  /** With left octets of a PUBLISH unread, a call takes just these octets: keep-alive frames before a timeout,
      or everything up to the end of the next event. */
  predicate TurnAt(t: Turn, left: nat, bufLen: nat)
    requires bufLen >= 127
  {
    if t.idle then left == 0 && SkipLen(t.taken) == |t.taken|
    else
      var n := Next(t.taken, left, bufLen);
      n.Got? && n.used == |t.taken| && !n.ev.Final()
  }

  function LeftOf(t: Turn, left: nat, bufLen: nat): nat
    requires bufLen >= 127 && TurnAt(t, left, bufLen)
  {
    if t.idle then 0 else Next(t.taken, left, bufLen).left
  }

  /** The headers that come in a call, and its timeout. */
  function WaitsOf(t: Turn, left: nat, timeout: nat): seq<Wait> {
    if t.idle then Headers(t.taken) + [IdleFor(timeout)]
    else if left > 0 then []
    else Headers(t.taken[..SkipLen(t.taken)]) + [GotHeader(false)]
  }

  /** The calls of a run, one after the other. */
  predicate Chain(turns: seq<Turn>, left: nat, bufLen: nat)
    requires bufLen >= 127
    decreases |turns|, 0
  {
    |turns| > 0 ==>
      var past := turns[..|turns| - 1];
      Chain(past, left, bufLen) && TurnAt(turns[|turns| - 1], LeftAfter(past, left, bufLen), bufLen)
  }

  function LeftAfter(turns: seq<Turn>, left: nat, bufLen: nat): nat
    requires bufLen >= 127 && Chain(turns, left, bufLen)
    decreases |turns|, 1
  {
    if |turns| == 0 then left
    else LeftOf(turns[|turns| - 1], LeftAfter(turns[..|turns| - 1], left, bufLen), bufLen)
  }

  /** The history of a run. */
  function History(turns: seq<Turn>, left: nat, timeout: nat, bufLen: nat): seq<Wait>
    requires bufLen >= 127 && Chain(turns, left, bufLen)
  {
    if |turns| == 0 then []
    else
      var past := turns[..|turns| - 1];
      History(past, left, timeout, bufLen) + WaitsOf(turns[|turns| - 1], LeftAfter(past, left, bufLen), timeout)
  }

  /** The octets of a run. */
  function Taken(turns: seq<Turn>): seq<Octet> {
    if |turns| == 0 then [] else Taken(turns[..|turns| - 1]) + turns[|turns| - 1].taken
  }

  /** How many calls of a run ended in an idle timeout. */
  function Idles(turns: seq<Turn>): nat {
    if |turns| == 0 then 0 else Idles(turns[..|turns| - 1]) + if turns[|turns| - 1].idle then 1 else 0
  }

  lemma OneMoreTurn(turns: seq<Turn>, t: Turn, left: nat, timeout: nat, bufLen: nat)
    requires bufLen >= 127 && Chain(turns, left, bufLen) && TurnAt(t, LeftAfter(turns, left, bufLen), bufLen)
    ensures var next, now := turns + [t], LeftAfter(turns, left, bufLen);
      && Chain(next, left, bufLen) && LeftAfter(next, left, bufLen) == LeftOf(t, now, bufLen)
      && History(next, left, timeout, bufLen) == History(turns, left, timeout, bufLen) + WaitsOf(t, now, timeout)
      && Taken(next) == Taken(turns) + t.taken && Idles(next) == Idles(turns) + if t.idle then 1 else 0
  {
    assert (turns + [t])[..|turns|] == turns;
  }

  // What the history is, without the calls ---------------------------------------------------------

  /** The idle timeouts of a history. */
  function IdleCount(h: seq<Wait>): nat {
    if |h| == 0 then 0 else IdleCount(h[..|h| - 1]) + if h[|h| - 1].IdleFor? then 1 else 0
  }

  /** The headers of a history, in order. */
  function Heard(h: seq<Wait>): seq<Wait> {
    if |h| == 0 then [] else Heard(h[..|h| - 1]) + if h[|h| - 1].GotHeader? then [h[|h| - 1]] else []
  }

  /** The frame headers of a stream, in order: those of keep-alive frames and those of events. */
  function HeadersIn(s: seq<Octet>, left: nat, bufLen: nat): seq<Wait>
    requires bufLen >= 127
    decreases |s|
  {
    match Next(s, left, bufLen)
    case NeedMore => if left > 0 then [] else Headers(s[..SkipLen(s)])
    case Got(ev, used, rest) =>
      (if left > 0 then [] else Headers(s[..SkipLen(s)]) + [GotHeader(false)]) + HeadersIn(s[used..], rest, bufLen)
  }

  lemma {:induction false} Both(a: seq<Wait>, b: seq<Wait>)
    ensures Heard(a + b) == Heard(a) + Heard(b) && IdleCount(a + b) == IdleCount(a) + IdleCount(b)
    decreases |b|
  {
    if |b| == 0 {
      assert a + b == a && Heard(a) + [] == Heard(a);
    } else {
      var past, w := b[..|b| - 1], b[|b| - 1];
      Both(a, past);
      assert (a + b)[..|a + b| - 1] == a + past;
      JoinWaits(Heard(a), Heard(past), if w.GotHeader? then [w] else []);
    }
  }

  lemma JoinWaits(a: seq<Wait>, b: seq<Wait>, c: seq<Wait>)
    ensures a + (b + c) == (a + b) + c
  {
  }

  lemma {:induction false} AllHeaders(k: seq<Octet>)
    ensures Heard(Headers(k)) == Headers(k) && IdleCount(Headers(k)) == 0
    decreases |k|
  {
    if |k| >= 3 {
      var w := GotHeader(k[2] == MSG_PING);
      AllHeaders(k[3..]);
      Both([w], Headers(k[3..]));
      assert [w][..0] == [] && [] + [w] == [w];
    }
  }

  lemma WaitsHeard(t: Turn, left: nat, timeout: nat)
    ensures var ws := WaitsOf(t, left, timeout);
      && IdleCount(ws) == (if t.idle then 1 else 0)
      && Heard(ws) == (if t.idle then Headers(t.taken) else ws)
  {
    var k := if t.idle then t.taken else t.taken[..SkipLen(t.taken)];
    var last := if t.idle then IdleFor(timeout) else GotHeader(false);
    AllHeaders(k);
    Both(Headers(k), [last]);
    assert [last][..0] == [] && [] + [last] == [last] && Headers(k) + [] == Headers(k);
  }

  lemma {:induction false} HeadersKeepAlive(s: seq<Octet>, k: nat, bufLen: nat)
    requires bufLen >= 127 && k % 3 == 0 && k <= SkipLen(s)
    ensures HeadersIn(s, 0, bufLen) == Headers(s[..k]) + HeadersIn(s[k..], 0, bufLen)
    decreases k
  {
    if k == 0 {
      assert s[..0] == [] && s[0..] == s;
      assert [] + HeadersIn(s, 0, bufLen) == HeadersIn(s, 0, bufLen);
    } else {
      var first := GotHeader(s[2] == MSG_PING);
      HeadersKeepAlive(s[3..], k - 3, bufLen);
      FirstHeader(s, bufLen);
      HeadersPush(s, k);
      assert s[3..][k - 3..] == s[k..];
      JoinWaits([first], Headers(s[3..][..k - 3]), HeadersIn(s[k..], 0, bufLen));
    }
  }

  lemma FirstHeader(s: seq<Octet>, bufLen: nat)
    requires bufLen >= 127 && KeepAlive(s)
    ensures HeadersIn(s, 0, bufLen) == [GotHeader(s[2] == MSG_PING)] + HeadersIn(s[3..], 0, bufLen)
  {
    var t, k := s[3..], SkipLen(s[3..]);
    var first := [GotHeader(s[2] == MSG_PING)];
    NextAfterKeepAlive(s, bufLen);
    HeadersPush(s, 3 + k);
    var n := Next(t, 0, bufLen);
    if n.Got? {
      assert s[3 + n.used..] == t[n.used..];
      FourParts(first, Headers(t[..k]), [GotHeader(false)], HeadersIn(t[n.used..], n.left, bufLen));
    }
  }

  lemma FourParts(a: seq<Wait>, b: seq<Wait>, c: seq<Wait>, d: seq<Wait>)
    ensures a + b + c + d == a + (b + c + d)
  {
  }

  lemma HeadersPush(s: seq<Octet>, n: nat)
    requires 3 <= n <= |s|
    ensures Headers(s[..n]) == [GotHeader(s[2] == MSG_PING)] + Headers(s[3..][..n - 3])
  {
    assert s[..n][3..] == s[3..][..n - 3];
  }

  /** The headers of a call are those of the octets that it took, whatever comes after them. */
  lemma HeadersOfTurn(t: Turn, left: nat, timeout: nat, bufLen: nat, more: seq<Octet>)
    requires bufLen >= 127 && TurnAt(t, left, bufLen)
    ensures HeadersIn(t.taken + more, left, bufLen)
         == Heard(WaitsOf(t, left, timeout)) + HeadersIn(more, LeftOf(t, left, bufLen), bufLen)
  {
    var s := t.taken + more;
    WaitsHeard(t, left, timeout);
    assert s[|t.taken|..] == more && s[..|t.taken|] == t.taken;
    if t.idle {
      SkipLenThirds(t.taken);
      SameSkip(t.taken, s, |t.taken|);
      HeadersKeepAlive(s, |t.taken|, bufLen);
    } else {
      assert t.taken[..|t.taken|] == t.taken;
      SameNext(t.taken, left, bufLen, more);
      if left == 0 {
        SameSkipLen(t.taken, bufLen, more);
        assert s[..SkipLen(s)] == t.taken[..SkipLen(s)];
      }
    }
  }

  /** So the headers of a history are those of the octets of the run. */
  lemma {:induction false} HeadersOfRun(turns: seq<Turn>, left: nat, timeout: nat, bufLen: nat, more: seq<Octet>)
    requires bufLen >= 127 && Chain(turns, left, bufLen)
    ensures HeadersIn(Taken(turns) + more, left, bufLen)
         == Heard(History(turns, left, timeout, bufLen)) + HeadersIn(more, LeftAfter(turns, left, bufLen), bufLen)
    ensures IdleCount(History(turns, left, timeout, bufLen)) == Idles(turns)
    decreases |turns|
  {
    if |turns| == 0 {
      assert Taken(turns) + more == more;
      assert [] + HeadersIn(more, left, bufLen) == HeadersIn(more, left, bufLen);
    } else {
      var past, t := turns[..|turns| - 1], turns[|turns| - 1];
      var now := LeftAfter(past, left, bufLen);
      HeadersOfRun(past, left, timeout, bufLen, t.taken + more);
      HeadersOfTurn(t, now, timeout, bufLen, more);
      WaitsHeard(t, now, timeout);
      Both(History(past, left, timeout, bufLen), WaitsOf(t, now, timeout));
      JoinThree(Taken(past), t.taken, more);
      JoinWaits(Heard(History(past, left, timeout, bufLen)), Heard(WaitsOf(t, now, timeout)),
                HeadersIn(more, LeftAfter(turns, left, bufLen), bufLen));
    }
  }

  lemma {:induction false} TimesOfRun(turns: seq<Turn>, left: nat, timeout: nat, bufLen: nat)
    requires bufLen >= 127 && Chain(turns, left, bufLen)
    ensures Timed(History(turns, left, timeout, bufLen), timeout)
    decreases |turns|
  {
    if |turns| > 0 {
      var past, t := turns[..|turns| - 1], turns[|turns| - 1];
      var now := LeftAfter(past, left, bufLen);
      TimesOfRun(past, left, timeout, bufLen);
      TimesOfTurn(t, now, timeout);
      TimesJoin(History(past, left, timeout, bufLen), WaitsOf(t, now, timeout), timeout);
    }
  }

  lemma TimesOfTurn(t: Turn, left: nat, timeout: nat)
    ensures Timed(WaitsOf(t, left, timeout), timeout)
  {
    var k := if t.idle then t.taken else t.taken[..SkipLen(t.taken)];
    NoTimes(k, timeout);
    TimesJoin(Headers(k), [if t.idle then IdleFor(timeout) else GotHeader(false)], timeout);
  }

  lemma TimesJoin(a: seq<Wait>, b: seq<Wait>, timeout: nat)
    requires Timed(a, timeout) && Timed(b, timeout)
    ensures Timed(a + b, timeout)
  {
  }

  lemma {:induction false} NoTimes(k: seq<Octet>, timeout: nat)
    ensures Timed(Headers(k), timeout)
    decreases |k|
  {
    if |k| >= 3 {
      NoTimes(k[3..], timeout);
      TimesJoin([GotHeader(k[2] == MSG_PING)], Headers(k[3..]), timeout);
    }
  }

  /** A run of a client with suitable settings obeys the rules. */
  lemma RulesOfRun(past: seq<Wait>, run: seq<Wait>, timeout: nat, pingTmo: int, dead: bool)
    requires Suits(past, timeout, pingTmo) && InRange(past, pingTmo) && Alive(past, pingTmo) && Timed(run, timeout)
    requires var h := past + run;
      if dead then |run| > 0 && Alive(h[..|h| - 1], pingTmo) else Alive(h, pingTmo)
    ensures InRange(past + run, pingTmo) && ObeysFrom(past + run, |past|, pingTmo)
  {
    var h := past + run;
    assert h[..|past|] == past;
    assert forall i :: |past| <= i < |h| ==> h[i] == run[i - |past|];
    RunObeys(h, |past|, timeout, pingTmo);
  }

  /** The history of a run, in terms of the octets taken. */
  lemma MeaningOfRun(turns: seq<Turn>, left: nat, timeout: nat, bufLen: nat)
    requires bufLen >= 127 && Chain(turns, left, bufLen)
    ensures var run := History(turns, left, timeout, bufLen);
      && Timed(run, timeout) && IdleCount(run) == Idles(turns) && Heard(run) == HeadersIn(Taken(turns), left, bufLen)
  {
    TimesOfRun(turns, left, timeout, bufLen);
    HeadersOfRun(turns, left, timeout, bufLen, []);
    NothingMore(Taken(turns), LeftAfter(turns, left, bufLen), bufLen);
    assert Heard(History(turns, left, timeout, bufLen)) + [] == Heard(History(turns, left, timeout, bufLen));
  }

  lemma NothingMore(s: seq<Octet>, left: nat, bufLen: nat)
    requires bufLen >= 127
    ensures s + [] == s && HeadersIn([], left, bufLen) == []
  {
  }

  /** The waits of an idle call: what they make of the counter and the session, and the frames sent in answer. */
  lemma IdleWaits(past: seq<Wait>, k: seq<Octet>, timeout: nat, pingTmo: int)
    ensures var h := past + (Headers(k) + [IdleFor(timeout)]);
      var tick := Tick(if |k| < 3 then After(past, pingTmo) else 0, timeout, pingTmo);
      && |h| > |past| && After(h, pingTmo) == tick.0
      && (Alive(h, pingTmo) <==> Alive(past, pingTmo) && tick.1 != Dead)
      && (Alive(h[..|h| - 1], pingTmo) <==> Alive(past, pingTmo))
      && Answers(h, |past|, pingTmo) == Replies(k) + if tick.1 == SendPing then PING_FRAME else []
  {
    var mid, last := past + Headers(k), IdleFor(timeout);
    PushHeaders(past, k, |past|, pingTmo);
    Push(mid, last, |past|, pingTmo);
    NoAnswers(past, k, pingTmo);
    JoinWaits(past, Headers(k), [last]);
    assert (mid + [last])[..|mid|] == mid;
  }

  lemma NoAnswers(past: seq<Wait>, k: seq<Octet>, pingTmo: int)
    ensures Answers(past, |past|, pingTmo) + Replies(k) == Replies(k)
  {
  }
}
