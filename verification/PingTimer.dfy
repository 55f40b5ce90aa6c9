/** The keep-alive counter of SMQ_getMessage, and what it means over a whole run. */
module PingTimer {
  import opened Octets
  import opened SmqWire

  const PING_FRAME: seq<Octet> := [0, 3, MSG_PING]

  datatype Action = Quiet | SendPing | Dead

  /** One idle timeout: the counter is an S32 to which the U32 timeout is added, and a negative
      value counts up to zero while a PING is unanswered. */
  function Tick(counter: int, timeout: nat, pingTmo: int): (int, Action) {
    var c := ToS32Wrap(counter + timeout);
    if counter >= 0 then
      if c >= pingTmo then (-10000, SendPing) else (c, Quiet)
    else if c >= 0 then (c, Dead)
    else (c, Quiet)
  }

  function ToS32Wrap(x: int): int { ToS32(x % 0x1_0000_0000) }

  /** What the client waits through: idle timeouts and frame headers, of a PING or of another frame. */
  datatype Wait = IdleFor(ms: nat) | GotHeader(ping: bool)

  /** The counter after a history, started at zero. */
  function After(h: seq<Wait>, pingTmo: int): int {
    if h == [] then 0
    else match h[|h| - 1]
      case GotHeader(_) => 0
      case IdleFor(ms) => Tick(After(h[..|h| - 1], pingTmo), ms, pingTmo).0
  }

  /** No call of the history has reported a dead peer. */
  predicate Alive(h: seq<Wait>, pingTmo: int) {
    h != [] ==>
      var past := h[..|h| - 1];
      Alive(past, pingTmo)
      && (h[|h| - 1].IdleFor? ==> Tick(After(past, pingTmo), h[|h| - 1].ms, pingTmo).1 != Dead)
  }

  /** The keep-alive frames that the client sends in answer to the waits from index from on. */
  function Answers(h: seq<Wait>, from: nat, pingTmo: int): seq<Octet> {
    if |h| <= from then []
    else
      var past := h[..|h| - 1];
      Answers(past, from, pingTmo) + AnswerTo(h[|h| - 1], After(past, pingTmo), pingTmo)
  }

  /** A PONG for each PING, and a PING at the end of the idle time. */
  function AnswerTo(w: Wait, counter: int, pingTmo: int): seq<Octet> {
    match w
    case GotHeader(ping) => if ping then [0, 3, MSG_PONG] else []
    case IdleFor(ms) => if Tick(counter, ms, pingTmo).1 == SendPing then PING_FRAME else []
  }

  /** The headers of a run of keep-alive frames. */
  function Headers(k: seq<Octet>): seq<Wait> {
    if |k| < 3 then [] else [GotHeader(k[2] == MSG_PING)] + Headers(k[3..])
  }

  /** One more wait. */
  lemma Push(h: seq<Wait>, w: Wait, from: nat, pingTmo: int)
    requires from <= |h|
    ensures var next := h + [w];
      && After(next, pingTmo) == (if w.IdleFor? then Tick(After(h, pingTmo), w.ms, pingTmo).0 else 0)
      && (Alive(next, pingTmo)
          <==> Alive(h, pingTmo) && (w.IdleFor? ==> Tick(After(h, pingTmo), w.ms, pingTmo).1 != Dead))
      && Answers(next, from, pingTmo) == Answers(h, from, pingTmo) + AnswerTo(w, After(h, pingTmo), pingTmo)
  {
    assert (h + [w])[..|h|] == h;
  }

  /** Keep-alive frames clear the counter, and each PING among them is answered. */
  lemma {:induction false} PushHeaders(h: seq<Wait>, k: seq<Octet>, from: nat, pingTmo: int)
    requires from <= |h|
    ensures var next := h + Headers(k);
      && After(next, pingTmo) == (if |k| < 3 then After(h, pingTmo) else 0)
      && (Alive(next, pingTmo) <==> Alive(h, pingTmo))
      && Answers(next, from, pingTmo) == Answers(h, from, pingTmo) + Replies(k)
    decreases |k|
  {
    if |k| < 3 {
      NoMore(h, Answers(h, from, pingTmo));
    } else {
      var w, rest := GotHeader(k[2] == MSG_PING), Headers(k[3..]);
      Push(h, w, from, pingTmo);
      PushHeaders(h + [w], k[3..], from, pingTmo);
      Regroup(h, w, rest);
      JoinThree(Answers(h, from, pingTmo), AnswerTo(w, After(h, pingTmo), pingTmo), Replies(k[3..]));
    }
  }

  lemma NoMore(h: seq<Wait>, said: seq<Octet>)
    ensures h + [] == h && said + [] == said
  {
  }

  lemma Regroup(h: seq<Wait>, w: Wait, rest: seq<Wait>)
    ensures h + ([w] + rest) == (h + [w]) + rest
  {
  }

  /** The answers to a longer history. */
  lemma {:induction false} AnswersJoin(h: seq<Wait>, more: seq<Wait>, from: nat, pingTmo: int)
    requires from <= |h|
    ensures Answers(h + more, from, pingTmo) == Answers(h, from, pingTmo) + Answers(h + more, |h|, pingTmo)
    decreases |more|
  {
    if |more| == 0 {
      NoMore(h, Answers(h, from, pingTmo));
      assert more == [];
    } else {
      var past, w := more[..|more| - 1], more[|more| - 1];
      AnswersJoin(h, past, from, pingTmo);
      assert h + more == (h + past) + [w];
      Push(h + past, w, from, pingTmo);
      Push(h + past, w, |h|, pingTmo);
      var last := AnswerTo(w, After(h + past, pingTmo), pingTmo);
      JoinThree(Answers(h, from, pingTmo), Answers(h + past, |h|, pingTmo), last);
    }
  }

  /** The idle timeouts since the last frame header. */
  function Since(h: seq<Wait>): seq<nat> {
    if h == [] || h[|h| - 1].GotHeader? then [] else Since(h[..|h| - 1]) + [h[|h| - 1].ms]
  }

  function Sum(s: seq<nat>): nat {
    if s == [] then 0 else Sum(s[..|s| - 1]) + s[|s| - 1]
  }

  /** The number of timeouts after which their sum first reached limit, or 0 when it has not. */
  function FirstAt(s: seq<nat>, limit: int): (j: nat)
    ensures j <= |s|
    ensures j > 0 ==> Sum(s[..j]) >= limit
    ensures forall i :: 0 < i <= |s| && (j == 0 || i < j) ==> Sum(s[..i]) < limit
  {
    if s == [] then 0
    else
      var past := s[..|s| - 1];
      assert s[..|s|] == s && forall i :: 0 <= i < |s| ==> s[..i] == past[..i];
      var j := FirstAt(past, limit);
      if j > 0 then j else if Sum(s) >= limit then |s| else 0
  }

  /** No addition to the counter has left the range of an S32. */
  predicate InRange(h: seq<Wait>, pingTmo: int) {
    h != [] ==>
      var past := h[..|h| - 1];
      InRange(past, pingTmo) && (h[|h| - 1].IdleFor? ==> After(past, pingTmo) + h[|h| - 1].ms < 0x8000_0000)
  }

  lemma OneMore(s: seq<nat>, ms: nat, limit: int)
    ensures Sum(s + [ms]) == Sum(s) + ms
    ensures var j := FirstAt(s, limit);
      && FirstAt(s + [ms], limit) == (if j > 0 then j else if Sum(s) + ms >= limit then |s| + 1 else 0)
      && Sum((s + [ms])[j..]) == Sum(s[j..]) + ms
  {
    var t, j := s + [ms], FirstAt(s, limit);
    assert t[..|s|] == s;
    assert t[j..] == s[j..] + [ms];
    assert t[j..][..|s| - j] == s[j..];
  }

  lemma TickUnwrapped(counter: int, ms: nat, pingTmo: int)
    requires -10000 <= counter && counter + ms < 0x8000_0000
    ensures Tick(counter, ms, pingTmo)
         == if counter >= 0 then (if counter + ms >= pingTmo then (-10000, SendPing) else (counter + ms, Quiet))
            else (counter + ms, if counter + ms >= 0 then Dead else Quiet)
  {
  }

  /** The counter c of a client idle for the timeouts s. */
  ghost predicate Means(c: int, s: seq<nat>, pingTmo: int) {
    var j := FirstAt(s, pingTmo);
    if j == 0 then c == Sum(s) else c == Sum(s[j..]) - 10000 < 0
  }

  lemma MeaningStep(s: seq<nat>, c: int, ms: nat, pingTmo: int)
    requires Means(c, s, pingTmo) && c + ms < 0x8000_0000
    requires Tick(c, ms, pingTmo).1 != Dead
    ensures Means(Tick(c, ms, pingTmo).0, s + [ms], pingTmo)
  {
    OneMore(s, ms, pingTmo);
    TickUnwrapped(c, ms, pingTmo);
    assert (s + [ms])[|s| + 1..] == [];
  }

  /** The counter says exactly how long the client has been idle, and since when a PING is out. */
  lemma {:induction false} CounterMeaning(h: seq<Wait>, pingTmo: int)
    requires InRange(h, pingTmo) && Alive(h, pingTmo)
    ensures Means(After(h, pingTmo), Since(h), pingTmo)
  {
    if h != [] && h[|h| - 1].IdleFor? {
      var past, ms := h[..|h| - 1], h[|h| - 1].ms;
      CounterMeaning(past, pingTmo);
      assert Since(h) == Since(past) + [ms];
      MeaningStep(Since(past), After(past, pingTmo), ms, pingTmo);
    }
  }

  /** PING goes out at the first idle timeout that brings the idle time since the last header to
      pingTmo, and the peer is given up at the first that brings the time since that PING to 10 s:
      after any history in range, the next timeout obeys both rules if and only if its own addition
      stays in range, or wraps round once and passes pingTmo again. */
  lemma KeepAliveOverRuns(h: seq<Wait>, ms: nat, pingTmo: int)
    requires InRange(h, pingTmo) && Alive(h, pingTmo)
    requires ms < 0x1_0000_0000 && 0 < pingTmo < 0x8000_0000
    ensures var s, c := Since(h), After(h, pingTmo);
            var j, action := FirstAt(s, pingTmo), Tick(c, ms, pingTmo).1;
      && (action == SendPing <==> j == 0 && Sum(s) + ms >= pingTmo)
      && (action == Dead <==> j > 0 && Sum(s[j..]) + ms >= 10000)
      <==> c + ms < 0x8000_0000 || c + ms >= 0x1_0000_0000 + pingTmo
  {
    CounterMeaning(h, pingTmo);
    CounterRange(h, pingTmo);
    var c := After(h, pingTmo);
    if c >= 0 {
      TickExact(c, ms, pingTmo);
    } else {
      DeadExact(c, ms, pingTmo);
    }
  }

  /** The last wait of a history obeys the two rules. */
  ghost predicate Obeys(h: seq<Wait>, pingTmo: int) {
    |h| > 0 && h[|h| - 1].IdleFor? ==>
      var past, ms := h[..|h| - 1], h[|h| - 1].ms;
      var s := Since(past);
      var j, action := FirstAt(s, pingTmo), Tick(After(past, pingTmo), ms, pingTmo).1;
      && (action == SendPing <==> j == 0 && Sum(s) + ms >= pingTmo)
      && (action == Dead <==> j > 0 && Sum(s[j..]) + ms >= 10000)
  }

  ghost predicate ObeysFrom(h: seq<Wait>, from: nat, pingTmo: int) {
    |h| > from ==> Obeys(h, pingTmo) && ObeysFrom(h[..|h| - 1], from, pingTmo)
  }

  /** A client with these settings never leaves the range of an S32. */
  predicate Calm(timeout: nat, pingTmo: int) { 0 < pingTmo < 0x8000_0000 && pingTmo + timeout <= 0x8000_0000 }

  lemma {:induction false} CounterBounds(h: seq<Wait>, pingTmo: int)
    requires 0 < pingTmo && InRange(h, pingTmo) && Alive(h, pingTmo)
    ensures -10000 <= After(h, pingTmo) < pingTmo
    decreases |h|
  {
    if h != [] {
      var past := h[..|h| - 1];
      CounterBounds(past, pingTmo);
      if h[|h| - 1].IdleFor? {
        TickUnwrapped(After(past, pingTmo), h[|h| - 1].ms, pingTmo);
      }
    }
  }

  /** All of the timeouts are those of the client. */
  predicate Timed(h: seq<Wait>, timeout: nat) {
    forall i :: 0 <= i < |h| && h[i].IdleFor? ==> h[i].ms == timeout
  }

  /** The least multiple of the timeout that is not below pingTmo: the idle time at which PING is due. */
  function DueAt(timeout: nat, pingTmo: int): (due: nat)
    requires timeout > 0 && pingTmo > 0
    ensures pingTmo <= due < pingTmo + timeout
  {
    (pingTmo + timeout - 1) / timeout * timeout
  }

  /** The idle time at which PING is due is an S32. */
  predicate Fits(timeout: nat, pingTmo: int) {
    0 < pingTmo < 0x8000_0000 && (timeout > 0 ==> DueAt(timeout, pingTmo) < 0x8000_0000)
  }

  lemma NextMultiple(k: nat, timeout: nat, pingTmo: int)
    requires timeout > 0 && pingTmo > 0 && k * timeout < pingTmo
    ensures k * timeout + timeout <= DueAt(timeout, pingTmo)
  {
    var n := (pingTmo + timeout - 1) / timeout;
    assert DueAt(timeout, pingTmo) == n * timeout;
    LessFactor(k, n, timeout);
    MoreTimes(k + 1, n, timeout);
    Times(k + 1, timeout);
  }

  lemma MoreTimes(a: nat, b: nat, timeout: nat)
    requires a <= b
    ensures a * timeout <= b * timeout
  {
    assert b * timeout == a * timeout + (b - a) * timeout;
  }

  lemma LessFactor(a: nat, b: nat, timeout: nat)
    requires a * timeout < b * timeout
    ensures a < b
  {
    if b <= a {
      MoreTimes(b, a, timeout);
    }
  }

  lemma Times(n: nat, timeout: nat)
    requires n > 0
    ensures n * timeout == (n - 1) * timeout + timeout >= timeout
  {
  }

  lemma {:induction false} SumTimed(h: seq<Wait>, timeout: nat)
    requires Timed(h, timeout)
    ensures Sum(Since(h)) == |Since(h)| * timeout
    decreases |h|
  {
    if h != [] && h[|h| - 1].IdleFor? {
      var past := h[..|h| - 1];
      SumTimed(past, timeout);
      assert (Since(past) + [timeout])[..|Since(past)|] == Since(past);
    }
  }

  /** No addition leaves the range of an S32. */
  lemma FitsInRange(h: seq<Wait>, timeout: nat, pingTmo: int)
    requires Fits(timeout, pingTmo) && Timed(h, timeout) && InRange(h, pingTmo) && Alive(h, pingTmo)
    ensures After(h, pingTmo) + timeout < 0x8000_0000
  {
    CounterMeaning(h, pingTmo);
    CounterBounds(h, pingTmo);
    SumTimed(h, timeout);
    if timeout > 0 && After(h, pingTmo) >= 0 {
      NextMultiple(|Since(h)|, timeout, pingTmo);
    }
  }

  /** Settings with which no addition leaves the range behind this history. */
  predicate Suits(past: seq<Wait>, timeout: nat, pingTmo: int) {
    Calm(timeout, pingTmo) || (Timed(past, timeout) && Fits(timeout, pingTmo))
  }

  lemma StaysInRange(h: seq<Wait>, from: nat, timeout: nat, pingTmo: int)
    requires from <= |h| && Suits(h[..from], timeout, pingTmo) && InRange(h, pingTmo) && Alive(h, pingTmo)
    requires forall i :: from <= i < |h| && h[i].IdleFor? ==> h[i].ms == timeout
    ensures 0 < pingTmo < 0x8000_0000 && After(h, pingTmo) + timeout < 0x8000_0000
  {
    if Calm(timeout, pingTmo) {
      CounterBounds(h, pingTmo);
    } else {
      assert forall i :: 0 <= i < from ==> h[i] == h[..from][i];
      FitsInRange(h, timeout, pingTmo);
    }
  }

  /** Every wait of such a client obeys the rules, up to the one at which the peer is given up. */
  lemma {:induction false} RunObeys(h: seq<Wait>, from: nat, timeout: nat, pingTmo: int)
    requires from <= |h| && Suits(h[..from], timeout, pingTmo) && InRange(h[..from], pingTmo)
    requires if |h| == from then Alive(h, pingTmo) else Alive(h[..|h| - 1], pingTmo)
    requires forall i :: from <= i < |h| && h[i].IdleFor? ==> h[i].ms == timeout
    ensures InRange(h, pingTmo) && ObeysFrom(h, from, pingTmo)
    decreases |h|
  {
    if |h| == from {
      assert h[..from] == h;
    } else {
      var past := h[..|h| - 1];
      assert past[..from] == h[..from];
      RunObeys(past, from, timeout, pingTmo);
      StaysInRange(past, from, timeout, pingTmo);
      if h[|h| - 1].IdleFor? {
        KeepAliveOverRuns(past, timeout, pingTmo);
      }
    }
  }

  /** The longest run with no PING: n timeouts after the last header. */
  function Idle(n: nat, timeout: nat): (h: seq<Wait>)
    ensures |h| == n && Timed(h, timeout)
  {
    if n == 0 then [] else Idle(n - 1, timeout) + [IdleFor(timeout)]
  }

  lemma {:induction false} IdleRun(n: nat, timeout: nat, pingTmo: int)
    requires 0 < pingTmo < 0x8000_0000 && n * timeout < pingTmo
    ensures var h := Idle(n, timeout);
      After(h, pingTmo) == n * timeout && Alive(h, pingTmo) && InRange(h, pingTmo)
  {
    if n > 0 {
      Times(n, timeout);
      IdleRun(n - 1, timeout, pingTmo);
      IdleStep(Idle(n - 1, timeout), (n - 1) * timeout, timeout, pingTmo);
    }
  }

  lemma IdleStep(h: seq<Wait>, c: nat, timeout: nat, pingTmo: int)
    requires After(h, pingTmo) == c && Alive(h, pingTmo) && InRange(h, pingTmo)
    requires c + timeout < pingTmo < 0x8000_0000
    ensures var next := h + [IdleFor(timeout)];
      After(next, pingTmo) == c + timeout && Alive(next, pingTmo) && InRange(next, pingTmo)
  {
    Push(h, IdleFor(timeout), 0, pingTmo);
    TickUnwrapped(c, timeout, pingTmo);
    assert (h + [IdleFor(timeout)])[..|h|] == h;
  }

  /** The settings with which every run from the start obeys the rules are exactly those that fit: in any other
      case the timeout at which PING is due, or would be, breaks them. */
  lemma SettingsExact(timeout: nat, pingTmo: int)
    requires timeout < 0x1_0000_0000 && 0 < pingTmo < 0x8000_0000
    ensures Fits(timeout, pingTmo)
       <==> forall h :: Timed(h, timeout) && AliveBefore(h, pingTmo) ==> ObeysFrom(h, 0, pingTmo)
  {
    if Fits(timeout, pingTmo) {
      forall h | Timed(h, timeout) && AliveBefore(h, pingTmo) ensures ObeysFrom(h, 0, pingTmo) {
        assert h[..0] == [];
        RunObeys(h, 0, timeout, pingTmo);
      }
    } else {
      var h := BrokenRun(timeout, pingTmo);
    }
  }

  /** The peer has not been given up before the last wait. */
  predicate AliveBefore(h: seq<Wait>, pingTmo: int) { |h| > 0 ==> Alive(h[..|h| - 1], pingTmo) }

  lemma BrokenRun(timeout: nat, pingTmo: int) returns (h: seq<Wait>)
    requires timeout < 0x1_0000_0000 && 0 < pingTmo < 0x8000_0000 && !Fits(timeout, pingTmo)
    ensures Timed(h, timeout) && AliveBefore(h, pingTmo) && !ObeysFrom(h, 0, pingTmo)
  {
    var n := (pingTmo + timeout - 1) / timeout;
    assert n * timeout == DueAt(timeout, pingTmo);
    Times(n, timeout);
    IdleRun(n - 1, timeout, pingTmo);
    var past := Idle(n - 1, timeout);
    h := Idle(n, timeout);
    assert h[..n - 1] == past && h[n - 1] == IdleFor(timeout);
    KeepAliveOverRuns(past, timeout, pingTmo);
  }

  /** The counter stays an S32. */
  lemma CounterRange(h: seq<Wait>, pingTmo: int)
    ensures After(h, pingTmo) < 0x8000_0000
  {
  }

  /** Beyond the range the rules fail: two timeouts of 2^31 ms end the session with no PING sent. */
  lemma DeadWithoutPing()
    ensures var (c, first) := Tick(0, 0x8000_0000, 1_200_000);
      first == Quiet && Tick(c, 0x8000_0000, 1_200_000).1 == Dead
  {
  }

  /** One idle timeout with no PING out: exactly when it obeys its rule, and exactly when it leaves the
      counter negative as if a PING were out. */
  lemma TickExact(counter: int, timeout: nat, pingTmo: int)
    requires 0 <= counter < 0x8000_0000 && timeout < 0x1_0000_0000 && 0 < pingTmo < 0x8000_0000
    ensures (Tick(counter, timeout, pingTmo).1 == SendPing <==> counter + timeout >= pingTmo)
       <==> counter + timeout < 0x8000_0000 || counter + timeout >= 0x1_0000_0000 + pingTmo
    ensures Tick(counter, timeout, pingTmo).0 < 0 && Tick(counter, timeout, pingTmo).1 != SendPing
       <==> 0x8000_0000 <= counter + timeout < 0x1_0000_0000
    ensures Tick(counter, timeout, pingTmo).1 != Dead
  {
  }

  /** One idle timeout with a PING out. */
  lemma DeadExact(counter: int, timeout: nat, pingTmo: int)
    requires -10000 <= counter < 0 && timeout < 0x1_0000_0000
    ensures (Tick(counter, timeout, pingTmo).1 == Dead <==> counter + timeout >= 0)
       <==> counter + timeout < 0x8000_0000
    ensures Tick(counter, timeout, pingTmo).1 != SendPing
  {
  }
}
