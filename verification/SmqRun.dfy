/** Whole runs of SMQ_getMessage. */
module SmqRun {
  import opened Octets
  import opened SmqWire
  import opened SmqOctets
  import opened SmqFrames
  import opened SmqHistory
  import opened PingTimer
  import opened Transport
  import opened SmqClient
  import opened Fragments

  /** The value SMQ_getMessage returns for an event. */
  function CodeOf(ev: Event): int {
    match ev
    case Publish(_, _, _, _, head) => |head|
    case Slice(data) => |data|
    case Ack(code, _, _, _) => code
    case Change(_, _) => SMQ_SUBCHANGE
    case Disconnect(_) => SMQE_DISCONNECT
    case Fault(code) => code
  }

  /** The application ends the session on an error code, not on a response code. */
  predicate Stops(x: int) {
    x < 0 && x !in {SMQ_SUBACK, SMQ_CREATEACK, SMQ_CREATESUBACK, SMQ_SUBCHANGE}
  }

  lemma CodesOfEvents(s: seq<Octet>, left: nat, bufLen: nat)
    requires bufLen >= 127 && Next(s, left, bufLen).Got?
    ensures var ev := Next(s, left, bufLen).ev;
      (ev.Final() <==> Stops(CodeOf(ev))) && (CodeOf(ev) == 0 ==> ev.Publish?) && CodeOf(ev) != SMQE_PONGTIMEOUT
  {
  }

  /** Where the octets of each event begin. */
  function Starts(s: seq<Octet>, left: nat, bufLen: nat): (at: seq<nat>)
    requires bufLen >= 127
    ensures |at| == |Messages(s, left, bufLen)|
    decreases |s|
  {
    match Next(s, left, bufLen)
    case NeedMore => []
    case Got(ev, used, rest) =>
      var later := if ev.Final() then [] else Starts(s[used..], rest, bufLen);
      [if left > 0 then 0 else SkipLen(s)] + seq(|later|, i requires 0 <= i < |later| => used + later[i])
  }

  /** The value returned for event i in terms of the octets of its frame; a slice returns its length. */
  ghost predicate CodeSays(s: seq<Octet>, left: nat, bufLen: nat, i: nat, x: int)
    requires bufLen >= 127 && i < |Messages(s, left, bufLen)|
  {
    CodeAt(s, Messages(s, left, bufLen)[i], Starts(s, left, bufLen)[i], bufLen, x)
  }

  ghost predicate CodeAt(s: seq<Octet>, ev: Event, at: nat, bufLen: nat, x: int) {
    if ev.Slice? then x == |ev.data| else at + 3 <= |s| && Returned(s[at..], bufLen, x)
  }

  lemma CodeLater(s: seq<Octet>, n: nat, ev: Event, at: nat, bufLen: nat, x: int)
    requires n <= |s| && CodeAt(s[n..], ev, at, bufLen, x)
    ensures CodeAt(s, ev, n + at, bufLen, x)
  {
    if !ev.Slice? {
      assert s[n..][at..] == s[n + at..];
    }
  }

  /** The same for the first n events. */
  ghost predicate AllSay(s: seq<Octet>, left: nat, bufLen: nat, codes: seq<int>, n: nat)
    requires bufLen >= 127
  {
    && n <= |Messages(s, left, bufLen)| && n <= |codes|
    && forall i :: 0 <= i < n ==> CodeSays(s, left, bufLen, i, codes[i])
  }

  lemma RunSays(s: seq<Octet>, left: nat, bufLen: nat, codes: seq<int>, events: seq<Event>)
    requires bufLen >= 127 && events <= Messages(s, left, bufLen) && Coded(codes, events)
    ensures AllSay(s, left, bufLen, codes, |events|)
  {
    forall i | 0 <= i < |events| ensures CodeSays(s, left, bufLen, i, codes[i]) {
      EventSays(s, left, bufLen, i);
    }
  }

  lemma {:induction false} EventSays(s: seq<Octet>, left: nat, bufLen: nat, i: nat)
    requires bufLen >= 127 && i < |Messages(s, left, bufLen)|
    ensures CodeSays(s, left, bufLen, i, CodeOf(Messages(s, left, bufLen)[i]))
    decreases i
  {
    if i == 0 {
      if left == 0 {
        FirstSays(s, left, bufLen);
      }
    } else {
      var n := Next(s, left, bufLen);
      var t := s[n.used..];
      EventSays(t, n.left, bufLen, i - 1);
      LaterSays(s, left, bufLen, i);
      var ev, at := Messages(t, n.left, bufLen)[i - 1], Starts(t, n.left, bufLen)[i - 1];
      CodeLater(s, n.used, ev, at, bufLen, CodeOf(ev));
    }
  }

  lemma LaterSays(s: seq<Octet>, left: nat, bufLen: nat, i: nat)
    requires bufLen >= 127 && 0 < i < |Messages(s, left, bufLen)|
    ensures var n := Next(s, left, bufLen);
      && n.Got? && i <= |Messages(s[n.used..], n.left, bufLen)|
      && Messages(s, left, bufLen)[i] == Messages(s[n.used..], n.left, bufLen)[i - 1]
      && Starts(s, left, bufLen)[i] == n.used + Starts(s[n.used..], n.left, bufLen)[i - 1]
  {
  }

  lemma FirstSays(s: seq<Octet>, left: nat, bufLen: nat)
    requires bufLen >= 127 && Next(s, left, bufLen).Got? && left == 0
    ensures SkipLen(s) + 3 <= |s| && Returned(s[SkipLen(s)..], bufLen, CodeOf(Next(s, left, bufLen).ev))
  {
  }

  /** The values returned end with the error for a dead peer. */
  predicate GivenUp(codes: seq<int>) { |codes| > 0 && codes[|codes| - 1] == SMQE_PONGTIMEOUT }

  /** What a run is told in terms of: the stream as the client has seen it, the position in it, the unread
      octets of a PUBLISH, the keep-alive counter, what was sent, and the client's settings. */
  datatype View = View(seen: seq<Octet>, pos: nat, left: nat, counter: int, sent: seq<Octet>,
                       timeout: nat, pingTmo: int, bufLen: nat)

  ghost function ViewOf(c: Smq): (v: View)
    requires c.Valid()
    reads c, c.sock
    ensures v.pos <= |v.seen| && v.bufLen >= 127
  {
    View(c.seen, c.sock.pos, c.Left(), c.pingTmoCounter, c.sock.sent, c.timeout, c.pingTmo, c.bufLen)
  }

  /** SMQ_getMessage called up to calls times, until the session ends, with any slicing of the input and
      any timeouts between frames. The events reported are the first events of the stream as the client
      has seen it, and while the run is live the next event starts at the stream position. The stream
      seen is the stream sent if and only if no header has been read wrong, and no header is read wrong
      that has come in one piece. The turns say what each call took, and Explained what follows. */
  method Receive(c: Smq, calls: nat, ghost past: seq<Wait>)
    returns (codes: seq<int>, live: bool, ghost events: seq<Event>, ghost turns: seq<Turn>)
    requires Ready(c) && c.pingTmoCounter == After(past, c.pingTmo)
    modifies c, c.buf, c.sock
    ensures c.Valid() && old(c.sock.pos) <= |c.seen| && (live ==> Ready(c))
    ensures events <= Messages(c.seen[old(c.sock.pos)..], old(c.Left()), c.bufLen)
    ensures live ==> Messages(c.seen[old(c.sock.pos)..], old(c.Left()), c.bufLen)
                     == events + Messages(c.sock.Rest(), c.Left(), c.bufLen)
    ensures (c.garbled <==> c.seen != c.sock.stream) && (c.garbled ==> c.split)
    ensures |codes| <= |events| + (if live then 0 else 1) && Coded(codes, events)
    ensures AllSay(c.seen[old(c.sock.pos)..], old(c.Left()), c.bufLen, codes, |events|)
    ensures c.timeout == old(c.timeout) && c.pingTmo == old(c.pingTmo)
    ensures live || GivenUp(codes) ==> old(c.sock.pos) <= c.sock.pos <= |c.seen|
    ensures live || GivenUp(codes) ==> Taken(turns) == c.seen[old(c.sock.pos)..c.sock.pos]
    ensures live ==> |turns| == calls && Idles(turns) + |codes| == calls && !GivenUp(codes)
    ensures GivenUp(codes) ==> Idles(turns) + |codes| == |turns| + 1
    ensures Explained(ViewOf(c), past, turns, old(c.Left()), old(c.sock.sent), live || GivenUp(codes), GivenUp(codes))
  {
    codes, live, events, turns := [], true, [], [];
    ghost var v0 := ViewOf(c);
    RunBegins(v0, past);
    for i := 0 to calls
      invariant Ready(c) && RunTo(ViewOf(c), past, v0, codes, events, turns) && |turns| == i
    {
      var x;
      x, codes, events, turns := NextCall(c, past, v0, codes, events, turns);
      if Stops(x) {
        live := false;
        RunSays(c.seen[v0.pos..], v0.left, c.bufLen, codes, events);
        return;
      }
    }
    RunEnds(ViewOf(c), past, v0, codes, events, turns);
    RunSays(c.seen[v0.pos..], v0.left, c.bufLen, codes, events);
  }

  /** One call of a run: the run goes on, or it has stopped. */
  method NextCall(c: Smq, ghost past: seq<Wait>, ghost v0: View, codes: seq<int>, ghost events: seq<Event>,
                  ghost turns: seq<Turn>)
    returns (x: int, reported: seq<int>, ghost heard: seq<Event>, ghost took: seq<Turn>)
    requires Ready(c) && RunTo(ViewOf(c), past, v0, codes, events, turns)
    modifies c, c.buf, c.sock
    ensures c.Valid()
    ensures !Stops(x) ==> Ready(c) && |took| == |turns| + 1 && RunTo(ViewOf(c), past, v0, reported, heard, took)
    ensures Stops(x) ==> Stopped(ViewOf(c), past, v0, reported, heard, took)
  {
    ghost var v1 := ViewOf(c);
    ghost var got, t;
    x, got, t := Call(c, past + History(turns, v0.left, v0.timeout, v0.bufLen));
    if Stops(x) {
      reported, heard := codes + [x], events + got;
      took := if x == SMQE_PONGTIMEOUT then turns + [t] else turns;
      RunStops(v1, ViewOf(c), past, v0, codes, events, turns, x, got, t);
    } else {
      var now := if x != 0 || c.bytesRead != 0 then [x] else [];
      RunGoesOn(v1, ViewOf(c), past, v0, codes, events, turns, x, now, got, t);
      reported, heard, took := codes + now, events + got, turns + [t];
    }
  }

  /** What a run of these turns means for the keep-alive timer. Its history has an idle timeout of the client's
      for each call without an event, and exactly the headers of the octets taken, in order. If now, the
      counter and what was sent follow from it: a PONG for each PING, and the PINGs of the timer. The
      peer is dead at the end or not. And with settings that stay in the range of an S32, each timeout obeys
      the rules for sending a PING and for giving up the peer. */
  ghost predicate Explained(v: View, past: seq<Wait>, turns: seq<Turn>, left: nat, base: seq<Octet>, now: bool,
                            dead: bool)
    requires v.bufLen >= 127
  {
    && Chain(turns, left, v.bufLen)
    && var run := History(turns, left, v.timeout, v.bufLen);
    var h := past + run;
    && Timed(run, v.timeout) && IdleCount(run) == Idles(turns)
    && Heard(run) == HeadersIn(Taken(turns), left, v.bufLen)
    && (now ==> Waited(v, past, h, base))
    && (Alive(past, v.pingTmo) ==> (Alive(h, v.pingTmo) <==> !dead))
    && (Alive(past, v.pingTmo) && InRange(past, v.pingTmo) && Suits(past, v.timeout, v.pingTmo) ==>
          InRange(h, v.pingTmo) && ObeysFrom(h, |past|, v.pingTmo))
  }

  /** The history h, which extends past, explains the counter and what was sent since then. */
  ghost predicate Waited(v: View, past: seq<Wait>, h: seq<Wait>, base: seq<Octet>) {
    v.counter == After(h, v.pingTmo) && v.sent == base + Answers(h, |past|, v.pingTmo)
  }

  /** A run that began in v0 has come to v, and goes on. */
  ghost predicate RunTo(v: View, past: seq<Wait>, v0: View, codes: seq<int>, events: seq<Event>, turns: seq<Turn>) {
    Settled(v, v0) && Streamed(v, v0, codes, events) && Told(v, past, v0, codes, turns)
  }

  /** A run that began in v0 has ended in v. */
  ghost predicate Stopped(v: View, past: seq<Wait>, v0: View, codes: seq<int>, events: seq<Event>, turns: seq<Turn>) {
    && v.bufLen == v0.bufLen >= 127 && v.timeout == v0.timeout && v.pingTmo == v0.pingTmo && v0.pos <= |v.seen|
    && events <= Messages(v.seen[v0.pos..], v0.left, v.bufLen) && |codes| <= |events| + 1 && Coded(codes, events)
    && (GivenUp(codes) ==> v0.pos <= v.pos <= |v.seen| && Taken(turns) == v.seen[v0.pos..v.pos]
                           && Idles(turns) + |codes| == |turns| + 1)
    && Explained(v, past, turns, v0.left, v0.sent, GivenUp(codes), GivenUp(codes))
  }

  predicate Settled(v: View, v0: View) {
    v.bufLen == v0.bufLen >= 127 && v.timeout == v0.timeout && v.pingTmo == v0.pingTmo && v0.pos <= v.pos <= |v.seen|
  }

  /** The events are those of the octets taken. */
  ghost predicate Streamed(v: View, v0: View, codes: seq<int>, events: seq<Event>)
    requires Settled(v, v0)
  {
    && |codes| == |events| && Coded(codes, events) && !GivenUp(codes)
    && Consumes(v.seen[v0.pos..v.pos], v0.left, events, v.left, v.bufLen)
  }

  /** The turns are those of the octets taken, and explain the counter and what was sent. */
  ghost predicate Told(v: View, past: seq<Wait>, v0: View, codes: seq<int>, turns: seq<Turn>)
    requires Settled(v, v0)
  {
    && Idles(turns) + |codes| == |turns| && Taken(turns) == v.seen[v0.pos..v.pos]
    && Chain(turns, v0.left, v.bufLen) && LeftAfter(turns, v0.left, v.bufLen) == v.left
    && var h := past + History(turns, v0.left, v.timeout, v.bufLen);
    Waited(v, past, h, v0.sent) && Ending(past, h, v.pingTmo, false)
  }

  lemma RunBegins(v: View, past: seq<Wait>)
    requires v.bufLen >= 127 && v.pos <= |v.seen| && v.counter == After(past, v.pingTmo)
    ensures RunTo(v, past, v, [], [], [])
  {
    ConsumesNothing(v.left, v.bufLen);
    NoMore(past, v.sent);
    assert v.seen[v.pos..v.pos] == [];
  }

  /** What one call does to the stream. */
  ghost predicate Moved(v1: View, v2: View) {
    && v2.bufLen == v1.bufLen >= 127 && v2.timeout == v1.timeout && v2.pingTmo == v1.pingTmo
    && v1.pos <= |v1.seen| == |v2.seen| && v2.seen[..v1.pos] == v1.seen[..v1.pos]
  }

  /** A call that goes on or gives up the peer, as a turn. */
  ghost predicate TookTurn(v1: View, v2: View, past: seq<Wait>, t: Turn, dead: bool)
    requires Moved(v1, v2)
  {
    && TurnAt(t, v1.left, v1.bufLen) && v2.left == LeftOf(t, v1.left, v1.bufLen)
    && v1.pos <= v2.pos <= |v2.seen| && t.taken == v2.seen[v1.pos..v2.pos]
    && WaitedTurn(v2, past, t, v1.left, v1.sent, dead)
  }

  /** What the waits of the turn explain. */
  ghost predicate WaitedTurn(v: View, past: seq<Wait>, t: Turn, left: nat, sent: seq<Octet>, dead: bool) {
    var h := past + WaitsOf(t, left, v.timeout);
    Waited(v, past, h, sent) && Ending(past, h, v.pingTmo, dead)
  }

  /** The waits of one more turn, behind the history h. */
  lemma MoreWaits(past: seq<Wait>, h: seq<Wait>, ws: seq<Wait>, base: seq<Octet>, before: seq<Octet>, after: seq<Octet>,
                  pingTmo: int)
    requires |past| <= |h| && before == base + Answers(h, |past|, pingTmo)
    requires after == before + Answers(h + ws, |h|, pingTmo)
    ensures after == base + Answers(h + ws, |past|, pingTmo)
  {
    AnswersJoin(h, ws, |past|, pingTmo);
    JoinThree(base, Answers(h, |past|, pingTmo), Answers(h + ws, |h|, pingTmo));
  }

  /** The history with one more turn. */
  lemma LongerHistory(past: seq<Wait>, turns: seq<Turn>, t: Turn, left: nat, timeout: nat, bufLen: nat)
    requires bufLen >= 127 && Chain(turns, left, bufLen) && TurnAt(t, LeftAfter(turns, left, bufLen), bufLen)
    ensures Chain(turns + [t], left, bufLen)
    ensures past + History(turns + [t], left, timeout, bufLen)
         == past + History(turns, left, timeout, bufLen) + WaitsOf(t, LeftAfter(turns, left, bufLen), timeout)
  {
    OneMoreTurn(turns, t, left, timeout, bufLen);
    JoinWaits(past, History(turns, left, timeout, bufLen), WaitsOf(t, LeftAfter(turns, left, bufLen), timeout));
  }

  /** The octets and the count of one more turn. */
  lemma TurnTaken(v1: View, v2: View, past: seq<Wait>, v0: View, codes: seq<int>, turns: seq<Turn>, t: Turn, dead: bool)
    requires Settled(v1, v0) && Told(v1, past, v0, codes, turns) && Moved(v1, v2)
    requires TookTurn(v1, v2, past + History(turns, v0.left, v1.timeout, v1.bufLen), t, dead)
    ensures Chain(turns + [t], v0.left, v2.bufLen) && LeftAfter(turns + [t], v0.left, v2.bufLen) == v2.left
    ensures Taken(turns + [t]) == v2.seen[v0.pos..v2.pos]
    ensures Idles(turns + [t]) == Idles(turns) + if t.idle then 1 else 0
  {
    OneMoreTurn(turns, t, v0.left, v1.timeout, v1.bufLen);
    KeptPart(v1.seen, v2.seen, v0.pos, v1.pos);
    Pieces(v2.seen, v0.pos, v1.pos, v2.pos);
  }

  /** The counter, what was sent, and the session after one more turn. */
  lemma TurnWaited(v1: View, v2: View, past: seq<Wait>, v0: View, codes: seq<int>, turns: seq<Turn>, t: Turn,
                   dead: bool)
    requires Settled(v1, v0) && Told(v1, past, v0, codes, turns) && Moved(v1, v2)
    requires TookTurn(v1, v2, past + History(turns, v0.left, v1.timeout, v1.bufLen), t, dead)
    requires Chain(turns + [t], v0.left, v2.bufLen)
    ensures var h := past + History(turns + [t], v0.left, v2.timeout, v2.bufLen);
      && Waited(v2, past, h, v0.sent) && Ending(past, h, v2.pingTmo, dead)
  {
    var h, ws := past + History(turns, v0.left, v1.timeout, v1.bufLen), WaitsOf(t, v1.left, v1.timeout);
    LongerHistory(past, turns, t, v0.left, v1.timeout, v1.bufLen);
    MoreWaits(past, h, ws, v0.sent, v1.sent, v2.sent, v1.pingTmo);
  }

  /** The session goes on after this history, or ends with its last wait. */
  ghost predicate Ending(past: seq<Wait>, h: seq<Wait>, pingTmo: int, dead: bool) {
    && (Alive(past, pingTmo) ==> (Alive(h, pingTmo) <==> !dead))
    && (dead ==> |h| > |past| && (Alive(past, pingTmo) ==> Alive(h[..|h| - 1], pingTmo)))
  }

  lemma Explain(v: View, past: seq<Wait>, turns: seq<Turn>, left: nat, base: seq<Octet>, now: bool, dead: bool)
    requires v.bufLen >= 127 && Chain(turns, left, v.bufLen)
    requires var h := past + History(turns, left, v.timeout, v.bufLen);
      (now ==> Waited(v, past, h, base)) && Ending(past, h, v.pingTmo, dead)
    ensures Explained(v, past, turns, left, base, now, dead)
  {
    MeaningOfRun(turns, left, v.timeout, v.bufLen);
    if Alive(past, v.pingTmo) && InRange(past, v.pingTmo) && Suits(past, v.timeout, v.pingTmo) {
      RulesOfRun(past, History(turns, left, v.timeout, v.bufLen), v.timeout, v.pingTmo, dead);
    }
  }

  /** A call after which the session goes on. */
  lemma RunGoesOn(v1: View, v2: View, past: seq<Wait>, v0: View, codes: seq<int>, events: seq<Event>, turns: seq<Turn>,
                  x: int, reported: seq<int>, got: seq<Event>, t: Turn)
    requires RunTo(v1, past, v0, codes, events, turns) && Moved(v1, v2) && x != SMQE_PONGTIMEOUT
    requires TookTurn(v1, v2, past + History(turns, v0.left, v0.timeout, v0.bufLen), t, false)
    requires Consumes(v2.seen[v1.pos..v2.pos], v1.left, got, v2.left, v2.bufLen)
    requires if t.idle then |reported| == |got| == 0 else reported == [x] && |got| == 1 && x == CodeOf(got[0])
    ensures RunTo(v2, past, v0, codes + reported, events + got, turns + [t])
  {
    TurnTaken(v1, v2, past, v0, codes, turns, t, false);
    TurnWaited(v1, v2, past, v0, codes, turns, t, false);
    StreamGoesOn(v1, v2, v0, codes, events, x, reported, got);
  }

  lemma StreamGoesOn(v1: View, v2: View, v0: View, codes: seq<int>, events: seq<Event>,
                     x: int, reported: seq<int>, got: seq<Event>)
    requires Settled(v1, v0) && Settled(v2, v0) && Streamed(v1, v0, codes, events) && Moved(v1, v2) && v1.pos <= v2.pos
    requires Consumes(v2.seen[v1.pos..v2.pos], v1.left, got, v2.left, v2.bufLen) && x != SMQE_PONGTIMEOUT
    requires |reported| == |got| <= 1 && (|got| == 1 ==> reported == [x] && x == CodeOf(got[0]))
    ensures Streamed(v2, v0, codes + reported, events + got)
  {
    KeptPart(v1.seen, v2.seen, v0.pos, v1.pos);
    Longer(v2.seen, v0.pos, v1.pos, v2.pos, v0.left, v1.left, v2.left, events, got, v2.bufLen);
    CodedPush(codes, x, events, got);
    if |got| == 0 {
      assert codes + reported == codes;
    }
  }

  /** A call that ends the session: the events. */
  lemma StreamStops(v1: View, v2: View, v0: View, codes: seq<int>, events: seq<Event>, x: int, got: seq<Event>)
    requires Settled(v1, v0) && Streamed(v1, v0, codes, events) && Moved(v1, v2)
    requires got <= Messages(v2.seen[v1.pos..], v1.left, v2.bufLen)
    requires |got| == 0 || (|got| == 1 && x == CodeOf(got[0]))
    ensures events + got <= Messages(v2.seen[v0.pos..], v0.left, v2.bufLen) && Coded(codes + [x], events + got)
  {
    KeptPart(v1.seen, v2.seen, v0.pos, v1.pos);
    Prefix(v2.seen, v0.pos, v1.pos, v0.left, v1.left, events, got, v2.bufLen);
    CodedPush(codes, x, events, got);
  }

  /** A call that ends the session: the waits before it. */
  lemma WaitsStop(v1: View, v2: View, past: seq<Wait>, v0: View, codes: seq<int>, turns: seq<Turn>)
    requires Settled(v1, v0) && Told(v1, past, v0, codes, turns) && Moved(v1, v2)
    ensures Explained(v2, past, turns, v0.left, v0.sent, false, false)
  {
    Explain(v2, past, turns, v0.left, v0.sent, false, false);
  }

  /** A call that gives up the peer. */
  lemma WaitsEnd(v1: View, v2: View, past: seq<Wait>, v0: View, codes: seq<int>, turns: seq<Turn>, t: Turn)
    requires Settled(v1, v0) && Told(v1, past, v0, codes, turns) && Moved(v1, v2)
    requires TookTurn(v1, v2, past + History(turns, v0.left, v1.timeout, v1.bufLen), t, true)
    ensures Explained(v2, past, turns + [t], v0.left, v0.sent, true, true)
    ensures Taken(turns + [t]) == v2.seen[v0.pos..v2.pos]
    ensures Idles(turns + [t]) == Idles(turns) + if t.idle then 1 else 0
  {
    TurnTaken(v1, v2, past, v0, codes, turns, t, true);
    TurnWaited(v1, v2, past, v0, codes, turns, t, true);
    Explain(v2, past, turns + [t], v0.left, v0.sent, true, true);
  }

  /** A call after which the session has ended. */
  lemma RunStops(v1: View, v2: View, past: seq<Wait>, v0: View, codes: seq<int>, events: seq<Event>, turns: seq<Turn>,
                 x: int, got: seq<Event>, t: Turn)
    requires RunTo(v1, past, v0, codes, events, turns) && Moved(v1, v2)
    requires got <= Messages(v2.seen[v1.pos..], v1.left, v2.bufLen)
    requires |got| == 0 || (|got| == 1 && x == CodeOf(got[0]))
    requires var dead := x == SMQE_PONGTIMEOUT;
      dead ==> t.idle && TookTurn(v1, v2, past + History(turns, v0.left, v0.timeout, v0.bufLen), t, true)
    ensures Stopped(v2, past, v0, codes + [x], events + got, if x == SMQE_PONGTIMEOUT then turns + [t] else turns)
  {
    StreamStops(v1, v2, v0, codes, events, x, got);
    if x == SMQE_PONGTIMEOUT {
      WaitsEnd(v1, v2, past, v0, codes, turns, t);
    } else {
      WaitsStop(v1, v2, past, v0, codes, turns);
    }
  }

  lemma RunEnds(v: View, past: seq<Wait>, v0: View, codes: seq<int>, events: seq<Event>, turns: seq<Turn>)
    requires RunTo(v, past, v0, codes, events, turns)
    ensures Messages(v.seen[v0.pos..], v0.left, v.bufLen) == events + Messages(v.seen[v.pos..], v.left, v.bufLen)
    ensures events <= Messages(v.seen[v0.pos..], v0.left, v.bufLen)
    ensures Explained(v, past, turns, v0.left, v0.sent, true, false)
  {
    AllDue(v.seen, v0.pos, v.pos, v0.left, v.left, events, v.bufLen);
    Explain(v, past, turns, v0.left, v0.sent, true, false);
  }

  lemma KeptPart(was: seq<Octet>, seen: seq<Octet>, p: nat, q: nat)
    requires p <= q <= |was| == |seen| && was[..q] == seen[..q]
    ensures was[p..q] == seen[p..q]
  {
    assert was[p..q] == was[..q][p..] && seen[p..q] == seen[..q][p..];
  }

  lemma Longer(seen: seq<Octet>, p: nat, q: nat, r: nat, left: nat, mid: nat, now: nat,
               events: seq<Event>, got: seq<Event>, bufLen: nat)
    requires bufLen >= 127 && p <= q <= r <= |seen|
    requires Consumes(seen[p..q], left, events, mid, bufLen) && Consumes(seen[q..r], mid, got, now, bufLen)
    ensures Consumes(seen[p..r], left, events + got, now, bufLen)
  {
    ConsumesBoth(seen[p..q], seen[q..r], events, got, left, mid, now, bufLen);
    assert seen[p..q] + seen[q..r] == seen[p..r];
  }

  lemma AllDue(seen: seq<Octet>, p: nat, q: nat, left: nat, now: nat, events: seq<Event>, bufLen: nat)
    requires bufLen >= 127 && p <= q <= |seen| && Consumes(seen[p..q], left, events, now, bufLen)
    ensures Messages(seen[p..], left, bufLen) == events + Messages(seen[q..], now, bufLen)
    ensures events <= Messages(seen[p..], left, bufLen)
  {
    assert seen[p..] == seen[p..q] + seen[q..];
    assert Messages(seen[p..q] + seen[q..], left, bufLen) == events + Messages(seen[q..], now, bufLen);
  }

  lemma Prefix(seen: seq<Octet>, p: nat, q: nat, left: nat, mid: nat, events: seq<Event>, got: seq<Event>, bufLen: nat)
    requires bufLen >= 127 && p <= q <= |seen| && Consumes(seen[p..q], left, events, mid, bufLen)
    requires got <= Messages(seen[q..], mid, bufLen)
    ensures events + got <= Messages(seen[p..], left, bufLen)
  {
    AllDue(seen, p, q, left, mid, events, bufLen);
    JoinedPrefix(events, got, Messages(seen[q..], mid, bufLen));
  }

  lemma JoinedPrefix(events: seq<Event>, got: seq<Event>, due: seq<Event>)
    requires got <= due
    ensures events + got <= events + due
  {
  }

  /** The values returned are those for the events. */
  ghost predicate Coded(codes: seq<int>, events: seq<Event>) {
    |events| <= |codes| && forall i :: 0 <= i < |events| ==> codes[i] == CodeOf(events[i])
  }

  lemma CodedPush(codes: seq<int>, x: int, events: seq<Event>, got: seq<Event>)
    requires |codes| == |events| && Coded(codes, events)
    ensures got == [] ==> events + got == events && Coded(codes + [x], events)
    ensures |got| == 1 && x == CodeOf(got[0]) ==> Coded(codes + [x], events + got)
  {
    assert got == [] ==> events + got == events;
  }

  ghost predicate Ready(c: Smq)
    reads c, c.sock
  {
    c.Valid() && !c.sock.failed && !c.inRecv && (c.Left() > 0 ==> c.bufIx == 0)
  }

  /** One call, in terms of the events still to come and of the waits so far. */
  method Call(c: Smq, ghost past: seq<Wait>) returns (x: int, ghost got: seq<Event>, ghost t: Turn)
    requires Ready(c) && c.pingTmoCounter == After(past, c.pingTmo)
    modifies c, c.buf, c.sock
    ensures c.Valid() && Moved(old(ViewOf(c)), ViewOf(c)) && (!Stops(x) ==> Ready(c))
    ensures got <= Messages(c.seen[old(c.sock.pos)..], old(c.Left()), c.bufLen)
    ensures |got| == 0 || (|got| == 1 && x == CodeOf(got[0]))
    ensures !Stops(x) || x == SMQE_PONGTIMEOUT ==>
      TookTurn(old(ViewOf(c)), ViewOf(c), past, t, x == SMQE_PONGTIMEOUT) && (t.idle <==> |got| == 0)
    ensures !Stops(x) ==> Consumes(c.seen[old(c.sock.pos)..c.sock.pos], old(c.Left()), got, c.Left(), c.bufLen)
    ensures !Stops(x) ==> (|got| == 0 <==> x == 0 && c.bytesRead == 0)
    ensures x == SMQE_PONGTIMEOUT ==> t.idle
  {
    ghost var v := ViewOf(c);
    var msg;
    ghost var outcome;
    x, msg, outcome := c.GetMessage();
    ghost var w := ViewOf(c);
    got := if outcome.Delivered? then [outcome.ev] else [];
    t := Turn(if v.pos <= w.pos <= |w.seen| then w.seen[v.pos..w.pos] else [], outcome.Idled?);
    if outcome.Delivered? {
      CodesOfEvents(w.seen[v.pos..], v.left, v.bufLen);
      if !Stops(x) {
        DeliveredTurn(v, w, past);
      }
    } else if outcome.Idled? {
      IdledTurn(v, w, past, outcome.skipped, outcome.waited);
    }
  }

  /** A call that has delivered an event. */
  lemma DeliveredTurn(v: View, w: View, past: seq<Wait>)
    requires Moved(v, w) && v.counter == After(past, v.pingTmo)
    requires var s := w.seen[v.pos..];
      && Next(s, v.left, w.bufLen).Got? && !Next(s, v.left, w.bufLen).ev.Final()
      && w.pos == v.pos + Next(s, v.left, w.bufLen).used && w.left == Next(s, v.left, w.bufLen).left
      && (v.left > 0 ==> w.sent == v.sent && w.counter == v.counter)
      && (v.left == 0 ==> w.sent == v.sent + Replies(s[..SkipLen(s)]) && w.counter == 0)
    ensures v.pos <= w.pos <= |w.seen|
    ensures TookTurn(v, w, past, Turn(w.seen[v.pos..w.pos], false), false)
    ensures Consumes(w.seen[v.pos..w.pos], v.left, [Next(w.seen[v.pos..], v.left, w.bufLen).ev], w.left, w.bufLen)
  {
    var s, t := w.seen[v.pos..], Turn(w.seen[v.pos..w.pos], false);
    assert s[..Next(s, v.left, w.bufLen).used] == t.taken;
    EventTurn(s, v.left, w.bufLen);
    ConsumesEvent(s, v.left, w.bufLen);
    AfterEvent(w, past, t, v.left, v.sent);
  }

  /** A call that has ended in an idle timeout. */
  lemma IdledTurn(v: View, w: View, past: seq<Wait>, skipped: nat, waited: Action)
    requires Moved(v, w) && v.left == w.left == 0 && v.counter == After(past, v.pingTmo)
    requires var s := w.seen[v.pos..];
      && skipped % 3 == 0 && skipped <= SkipLen(s) && w.pos == v.pos + skipped
      && (w.counter, waited) == Tick(if skipped == 0 then v.counter else 0, v.timeout, v.pingTmo)
      && w.sent == v.sent + Replies(s[..skipped]) + if waited == SendPing then PING_FRAME else []
    ensures v.pos <= w.pos <= |w.seen|
    ensures TookTurn(v, w, past, Turn(w.seen[v.pos..w.pos], true), waited == Dead)
    ensures Consumes(w.seen[v.pos..w.pos], 0, [], 0, w.bufLen)
  {
    var s, t := w.seen[v.pos..], Turn(w.seen[v.pos..w.pos], true);
    assert s[..skipped] == t.taken;
    ConsumesKeepAlive(s, skipped, w.bufLen);
    SameSkip(s, t.taken, skipped);
    AfterIdle(w, past, t, v.sent, v.counter, waited);
  }

  lemma EventTurn(s: seq<Octet>, left: nat, bufLen: nat)
    requires bufLen >= 127 && Next(s, left, bufLen).Got?
    ensures var taken := s[..Next(s, left, bufLen).used];
      Next(taken, left, bufLen) == Next(s, left, bufLen)
      && (left == 0 ==> SkipLen(taken) == SkipLen(s) && taken[..SkipLen(taken)] == s[..SkipLen(s)])
  {
    var taken := s[..Next(s, left, bufLen).used];
    SameNext(s, left, bufLen, []);
    assert taken + [] == taken;
    if left == 0 {
      SameSkipLen(s, bufLen, []);
    }
  }

  /** The waits of a call that has delivered an event. */
  lemma AfterEvent(v: View, past: seq<Wait>, t: Turn, left: nat, sent: seq<Octet>)
    requires !t.idle
    requires left > 0 ==> v.sent == sent && v.counter == After(past, v.pingTmo)
    requires left == 0 ==> v.sent == sent + Replies(t.taken[..SkipLen(t.taken)]) && v.counter == 0
    ensures WaitedTurn(v, past, t, left, sent, false)
  {
    if left > 0 {
      NoMore(past, sent);
    } else {
      var k := t.taken[..SkipLen(t.taken)];
      var mid := past + Headers(k);
      PushHeaders(past, k, |past|, v.pingTmo);
      Push(mid, GotHeader(false), |past|, v.pingTmo);
      NoMore(mid, Answers(mid, |past|, v.pingTmo));
      JoinWaits(past, Headers(k), [GotHeader(false)]);
      assert Answers(past, |past|, v.pingTmo) + Replies(k) == Replies(k);
    }
  }

  /** The waits of a call that has ended with a timeout. */
  lemma AfterIdle(v: View, past: seq<Wait>, t: Turn, sent: seq<Octet>, counter: int, waited: Action)
    requires t.idle && |t.taken| % 3 == 0 && counter == After(past, v.pingTmo)
    requires (v.counter, waited) == Tick(if |t.taken| == 0 then counter else 0, v.timeout, v.pingTmo)
    requires v.sent == sent + Replies(t.taken) + if waited == SendPing then PING_FRAME else []
    ensures WaitedTurn(v, past, t, 0, sent, waited == Dead)
  {
    var h := past + WaitsOf(t, 0, v.timeout);
    IdleWaits(past, t.taken, v.timeout, v.pingTmo);
    var ping := if waited == SendPing then PING_FRAME else [];
    assert Answers(h, |past|, v.pingTmo) == Replies(t.taken) + ping;
    JoinThree(sent, Replies(t.taken), ping);
  }

  /** A return value of zero does not always mean a timeout: an empty PUBLISH returns it too. */
  lemma ZeroMeans(c: Smq, p: nat, left: nat, x: int, msg: nat, outcome: Outcome)
    requires c.After(p, left, x, msg, outcome)
    ensures x == 0 <==> (outcome.Idled? && outcome.waited != Dead)
                        || (outcome.Delivered? && outcome.ev.Publish? && outcome.ev.head == [])
  {
    if outcome.Delivered? {
      CodesOfEvents(c.seen[p..], left, c.bufLen);
    }
  }

  /** In the middle of a PUBLISH the value returned tells whether the stream position is still where the
      rest of the message goes on: it is if and only if the wait for the slice did not time out. */
  lemma SliceTimeout(c: Smq, p: nat, left: nat, x: int, msg: nat, outcome: Outcome)
    requires c.After(p, left, x, msg, outcome) && left > 0
    ensures var n := Min(left, c.bufLen);
      && (x == SMQE_TIMEOUT <==> c.sock.pos == p && c.Left() == 0)
      && (x != SMQE_TIMEOUT <==> c.sock.pos == p + n && c.Left() == left - n)
  {
    if outcome.Delivered? {
      assert outcome.ev.Slice? && x == Min(left, c.bufLen);
    }
  }

  lemma {:induction false} JoinPrefix(a: seq<Event>, b: seq<Event>, part: Partial)
    ensures Join(a, part) <= Join(a + b, part)
    decreases |a|
  {
    if a != [] {
      assert (a + b)[1..] == a[1..] + b;
      match a[0]
      case Publish(t, p, s, size, head) =>
        JoinPrefix(a[1..], b, Part(t, p, s, size - 15, head));
        JoinPrefix(a[1..], b, Nothing);
      case Slice(data) =>
        JoinPrefix(a[1..], b, part);
        if part.Part? {
          JoinPrefix(a[1..], b, part.(data := part.data + data));
          JoinPrefix(a[1..], b, Nothing);
        }
      case _ => JoinPrefix(a[1..], b, Nothing);
    }
  }

  /** What an application collects in any run over well-formed frames is what the broker sent, in
      order and up to some point, and all of it once nothing more is due. */
  lemma RunDelivers(fs: seq<Frame>, bufLen: nat, events: seq<Event>)
    requires bufLen >= 127 && forall i :: 0 <= i < |fs| ==> fs[i].Valid(bufLen)
    requires events <= Messages(EncodeAll(fs), 0, bufLen)
    ensures Join(events, Nothing) <= Deliveries(fs)
    ensures events == Messages(EncodeAll(fs), 0, bufLen) ==> Join(events, Nothing) == Deliveries(fs)
  {
    var all := Messages(EncodeAll(fs), 0, bufLen);
    DeliversEverything(fs, bufLen);
    JoinPrefix(events, all[|events|..], Nothing);
    assert all == events + all[|events|..];
  }

  /** What the application collects in a run over well-formed frames: if no header was read wrong, and in
      particular if none was split, it is what the broker sent, in order and up to some point, and all of
      it once everything was read. */
  method ReceiveFrames(c: Smq, calls: nat, ghost fs: seq<Frame>)
    returns (codes: seq<int>, live: bool, ghost got: seq<Delivery>)
    requires Ready(c) && c.Left() == 0 && c.pingTmoCounter == 0 && c.sock.Rest() == EncodeAll(fs)
    requires forall i :: 0 <= i < |fs| ==> fs[i].Valid(c.bufLen)
    modifies c, c.buf, c.sock
    ensures c.Valid() && (c.garbled ==> c.split)
    ensures !c.garbled ==> got <= Deliveries(fs)
    ensures !c.garbled && live && c.sock.pos == |c.sock.stream| ==> got == Deliveries(fs)
  {
    ghost var p, events, turns := c.sock.pos, [], [];
    codes, live, events, turns := Receive(c, calls, []);
    got := Join(events, Nothing);
    if !c.garbled {
      assert c.seen[p..] == EncodeAll(fs);
      RunDelivers(fs, c.bufLen, events);
      if live && c.sock.pos == |c.sock.stream| {
        NothingDue(c.sock.Rest(), c.Left(), c.bufLen);
        assert events + [] == events;
      }
    }
  }

  lemma NothingDue(s: seq<Octet>, left: nat, bufLen: nat)
    requires bufLen >= 127 && |s| == 0
    ensures Messages(s, left, bufLen) == []
  {
  }

  /** SMQ_write for each piece, then SMQ_pubflush: what is sent depends on the joined pieces only. */
  method WriteMessage(c: Smq, pieces: seq<seq<Octet>>, tid: nat, subtid: nat) returns (x: int)
    requires c.Valid() && !c.sock.failed && !c.inRecv && c.bufIx == 0
    modifies c, c.buf, c.sock
    ensures c.Valid() && c.clientTid == old(c.clientTid)
    ensures x == 0 ==> !c.sock.failed && c.bufIx == 0
    ensures var sent := Sent(Flat(pieces), tid, c.clientTid, subtid, c.bufLen - 15);
      x == 0 ==> c.sock.sent == old(c.sock.sent) + sent
    ensures x != 0 ==> x < 0 && c.sock.failed
  {
    ghost var base, m := c.sock.sent, [];
    assert base + [] == base;
    for i := 0 to |pieces|
      invariant c.Writing(base, m) && m + Flat(pieces[i..]) == Flat(pieces)
      invariant !c.inRecv && c.clientTid == old(c.clientTid)
    {
      x := c.Write(pieces[i], base, m);
      if x != 0 {
        return;
      }
      JoinThree(m, pieces[i], Flat(pieces[i + 1..]));
      m := m + pieces[i];
    }
    assert m + [] == m;
    x := FlushMessage(c, base, m, tid, subtid);
  }

  method FlushMessage(c: Smq, ghost base: seq<Octet>, ghost m: seq<Octet>, tid: nat, subtid: nat) returns (x: int)
    requires c.Writing(base, m)
    modifies c`bufIx, c`status, c.buf, c.sock`sent, c.sock`failed
    ensures c.Valid()
    ensures x == 0 ==> !c.sock.failed && c.bufIx == 0
    ensures x == 0 ==> c.sock.sent == base + Sent(m, tid, c.clientTid, subtid, c.bufLen - 15)
    ensures x != 0 ==> x < 0 && c.sock.failed
  {
    ghost var cap := c.bufLen - 15;
    x := c.PubFlush(tid, subtid);
    JoinThree(base, Wire(Filled(m, cap), c.clientTid), Fragment(tid, c.clientTid, subtid, Remainder(m, cap)));
  }

  /** The frames in which a broker hands published messages on to a subscriber. */
  function Forward(ps: seq<Published>): seq<Frame> {
    if ps == [] then [] else [PublishFrame(ps[0].tid, ps[0].ptid, ps[0].subtid, ps[0].data)] + Forward(ps[1..])
  }

  function Owed(ms: seq<Fragments.Message>, ptid: nat): seq<Delivery> {
    if ms == [] then []
    else [SmqFrames.Message(ms[0].tid, ptid, ms[0].subtid, ms[0].data)] + Owed(ms[1..], ptid)
  }

  /** From SMQ_write to SMQ_getMessage: whatever the two buffer sizes, a subscriber reads exactly the
      messages that a publisher wrote in pieces, provided each fits a PUBLISH frame. */
  lemma EndToEnd(ms: seq<Fragments.Message>, ptid: nat, cap: nat, bufLen: nat)
    requires 0 < cap && 15 + cap < 0x1_0000 && bufLen >= 127 && ptid < 0x1_0000_0000
    requires forall i :: 0 <= i < |ms| ==>
      0 < ms[i].tid < 0x1_0000_0000 && ms[i].subtid < 0x1_0000_0000 && |ms[i].data| <= 65520
    ensures var frames := Forward(Broker(SentAll(ms, ptid, cap), []));
      Join(Messages(EncodeAll(frames), 0, bufLen), Nothing) == Owed(ms, ptid)
  {
    MessagesJoin(ms, ptid, cap);
    ForwardIsValid(ms, ptid, bufLen);
    DeliversEverything(Forward(PublishedAll(ms, ptid)), bufLen);
  }

  lemma {:induction false} ForwardIsValid(ms: seq<Fragments.Message>, ptid: nat, bufLen: nat)
    requires ptid < 0x1_0000_0000
    requires forall i :: 0 <= i < |ms| ==>
      0 < ms[i].tid < 0x1_0000_0000 && ms[i].subtid < 0x1_0000_0000 && |ms[i].data| <= 65520
    ensures var fs := Forward(PublishedAll(ms, ptid));
      && (forall i :: 0 <= i < |fs| ==> fs[i].Valid(bufLen))
      && Deliveries(fs) == Owed(ms, ptid)
  {
    if ms != [] {
      var ps := PublishedAll(ms, ptid);
      var fs := Forward(ps);
      ForwardIsValid(ms[1..], ptid, bufLen);
      assert ps[1..] == PublishedAll(ms[1..], ptid);
      assert fs[1..] == Forward(ps[1..]);
      assert fs[0] == PublishFrame(ms[0].tid, ptid, ms[0].subtid, ms[0].data);
      assert forall i :: 0 < i < |fs| ==> fs[i] == fs[1..][i - 1];
    }
  }

  /** The same through the code of the subscriber: what it collects is what the publisher wrote, if no header
      was read wrong. */
  method ReceivePublished(c: Smq, calls: nat, ghost ms: seq<Fragments.Message>, ghost ptid: nat, ghost cap: nat)
    returns (codes: seq<int>, live: bool, ghost got: seq<Delivery>)
    requires Ready(c) && c.Left() == 0 && c.pingTmoCounter == 0
    requires 0 < cap && 15 + cap < 0x1_0000 && ptid < 0x1_0000_0000
    requires forall i :: 0 <= i < |ms| ==>
      0 < ms[i].tid < 0x1_0000_0000 && ms[i].subtid < 0x1_0000_0000 && |ms[i].data| <= 65520
    requires c.sock.Rest() == EncodeAll(Forward(Broker(SentAll(ms, ptid, cap), [])))
    modifies c, c.buf, c.sock
    ensures c.Valid() && (c.garbled ==> c.split)
    ensures !c.garbled ==> got <= Owed(ms, ptid)
    ensures !c.garbled && live && c.sock.pos == |c.sock.stream| ==> got == Owed(ms, ptid)
  {
    MessagesJoin(ms, ptid, cap);
    ForwardIsValid(ms, ptid, c.bufLen);
    codes, live, got := ReceiveFrames(c, calls, Forward(PublishedAll(ms, ptid)));
  }
}
