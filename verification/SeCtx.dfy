/** The coroutine manager: a task that runs until it waits, and a main loop that polls it and runs the
    callbacks of the TCP/IP stack. */
module SeCtx {
  import opened Octets
  import opened Transport

  const WORD := 0x1_0000_0000
  const HALF := 0x8000_0000

  /** What the task does from where it is until control is back in the main loop: it returns, it waits in
      se_recv, in se_send, or in se_connect. The stack is what lies between the frame of SeCtx_run and that
      of SeCtx_save. */
  datatype Task =
    | Return
    | WaitRecv(timeout: nat, stack: seq<Octet>)
    | WaitSend(stack: seq<Octet>)
    | WaitOther(stack: seq<Octet>)

  /** Where the task waits. */
  datatype Place = Nowhere | InRecv | InSend | Elsewhere

  /** Most callbacks set ready only if the socket's flag says that a receiver or a sender waits; those for
      errors, for the end of a connection and for connecting set it in any case. */
  datatype Guard = Receiver | Sender | Anyone

  /** A callback that may wake the task, one that clears the socket and its flags, or a call of SeCtx_run by
      the main loop at a time in milliseconds. */
  datatype Event = Wake(guard: Guard) | Cleared | Poll(time: nat, task: Task)

  /** What can be seen of a step. The conditions asserted in SeCtx_save held or not. */
  datatype Act = Saved(asserted: bool, stack: seq<Octet>) | Restored(stack: seq<Octet>) | Panic(size: nat)

  datatype Option<T> = None | Some(value: T)

  datatype State = State(
    hasContext: bool, ready: bool, timeout: nat, startTime: nat, place: Place, flagged: bool, saved: seq<Octet>,
    dead: bool)

  const INITIAL := State(false, false, 0, 0, Nowhere, false, [], false)

  /** A callback with this guard sets ready. */
  predicate Wakes(s: State, guard: Guard) {
    || guard == Anyone
    || (guard == Receiver && s.flagged && s.place == InRecv)
    || (guard == Sender && s.flagged && s.place == InSend)
  }

  /** The type S32 of a word. */
  function Signed(x: nat): int { if x % WORD < HALF then x % WORD else x % WORD - WORD }

  /** The timer test, on the 32-bit clock. */
  predicate Fires(startTime: nat, timeout: nat, now: nat) {
    Signed((now - startTime) % WORD) >= Signed(timeout)
  }

  /** SeCtx_save. SeCtx_panic does not return. */
  function Saving(s: State, stack: seq<Octet>, room: nat): (State, seq<Act>) {
    if |stack| > room then (s.(dead := true), [Panic(|stack| + 100)])
    else (s.(hasContext := true, saved := stack), [Saved(!s.hasContext && !s.ready, stack)])
  }

  /** The task runs on. */
  function Running(s: State, task: Task, room: nat): (State, seq<Act>) {
    match task
    case Return => (s, [])
    case WaitRecv(timeout, stack) =>
      var t := s.(timeout := if timeout != INFINITE_TMO then timeout % WORD else s.timeout);
      Saving(t.(place := InRecv, flagged := true), stack, room)
    case WaitSend(stack) => Saving(s.(place := InSend, flagged := true), stack, room)
    case WaitOther(stack) => Saving(s.(place := Elsewhere, flagged := false), stack, room)
  }

  /** SeCtx_restore, and what the waiting function does first when it is back. */
  function Back(s: State): State {
    var back := s.(hasContext := false, ready := false, place := Nowhere, flagged := false);
    if s.place == InRecv then back.(timeout := 0, startTime := 0) else back
  }

  function Resuming(s: State, task: Task, room: nat): (State, seq<Act>) {
    var r := Running(Back(s), task, room);
    (r.0, [Restored(s.saved)] + r.1)
  }

  function Step(s: State, e: Event, room: nat): (State, seq<Act>) {
    if s.dead then (s, [])
    else if e.Wake? then (s.(ready := s.ready || Wakes(s, e.guard)), [])
    else if e.Cleared? then (s.(flagged := false), [])
    else if !s.hasContext then Running(s, e.task, room)
    else if s.ready then Resuming(s, e.task, room)
    else if s.timeout == 0 then (s, [])
    else if s.startTime == 0 then (s.(startTime := e.time % WORD), [])
    else if Fires(s.startTime, s.timeout, e.time % WORD) then
      Resuming(s.(startTime := 0, timeout := 0), e.task, room)
    else (s, [])
  }

  function Run(s: State, events: seq<Event>, room: nat): (State, seq<Act>)
    decreases |events|
  {
    if |events| == 0 then (s, [])
    else
      var first := Step(s, events[0], room);
      var rest := Run(first.0, events[1..], room);
      (rest.0, first.1 + rest.1)
  }

  /** Ready and flags only while suspended; a timer only for a wait in se_recv. */
  predicate Inv(s: State) {
    !s.dead ==>
      && (s.ready || s.flagged ==> s.hasContext)
      && (!s.hasContext || s.place != InRecv ==> s.timeout == 0)
      && (s.timeout == 0 ==> s.startTime == 0)
      && s.timeout < WORD && s.startTime < WORD
  }

  /** The callbacks that wake without looking at a flag come only while the task is suspended. */
  predicate WakesSuspended(s: State, events: seq<Event>, room: nat)
    decreases |events|
  {
    |events| > 0 ==>
      && (events[0] == Wake(Anyone) ==> s.dead || s.hasContext)
      && WakesSuspended(Step(s, events[0], room).0, events[1..], room)
  }

  /** What SeCtx.c asserts, and what a coroutine should do: a task is suspended only when it is not
      suspended yet and not ready, and resumed at most once, with the very stack that was saved. */
  predicate Paired(log: seq<Act>, held: Option<seq<Octet>>) {
    |log| > 0 ==>
      match log[0]
      case Saved(asserted, stack) => asserted && held == None && Paired(log[1..], Some(stack))
      case Restored(stack) => held == Some(stack) && Paired(log[1..], None)
      case Panic(_) => |log| == 1
  }

  function Held(s: State): Option<seq<Octet>> { if s.hasContext then Some(s.saved) else None }

  lemma StepKeeps(s: State, e: Event, room: nat)
    requires Inv(s) && (e == Wake(Anyone) ==> s.dead || s.hasContext)
    ensures Inv(Step(s, e, room).0)
  {
  }

  /** In every run from a state that meets the invariant. */
  lemma {:induction false} Discipline(s: State, events: seq<Event>, room: nat)
    requires Inv(s) && WakesSuspended(s, events, room)
    ensures Inv(Run(s, events, room).0)
    ensures s.dead || Paired(Run(s, events, room).1, Held(s))
    ensures s.dead ==> |Run(s, events, room).1| == 0
    decreases |events|
  {
    if |events| > 0 {
      var first := Step(s, events[0], room);
      StepKeeps(s, events[0], room);
      Discipline(first.0, events[1..], room);
      if !s.dead {
        PairedStep(s, events[0], room, Run(first.0, events[1..], room).1);
      }
    }
  }

  lemma PairedOne(a: Act, rest: seq<Act>, held: Option<seq<Octet>>)
    ensures Paired([a] + rest, held) <==>
            match a
            case Saved(asserted, stack) => asserted && held == None && Paired(rest, Some(stack))
            case Restored(stack) => held == Some(stack) && Paired(rest, None)
            case Panic(_) => |rest| == 0
  {
    assert ([a] + rest)[1..] == rest;
  }

  /** The log goes on well from this state. */
  predicate GoesOn(s: State, rest: seq<Act>) {
    if s.dead then |rest| == 0 else Paired(rest, Held(s))
  }

  lemma PairedRunning(s: State, task: Task, room: nat, rest: seq<Act>)
    requires !s.dead && !s.hasContext && !s.ready && GoesOn(Running(s, task, room).0, rest)
    ensures Paired(Running(s, task, room).1 + rest, None)
  {
    var log := Running(s, task, room).1;
    if task.Return? {
      assert log + rest == rest;
    } else {
      assert log == [log[0]];
      PairedOne(log[0], rest, None);
    }
  }

  lemma PairedResuming(s: State, task: Task, room: nat, rest: seq<Act>)
    requires !s.dead && s.hasContext && GoesOn(Resuming(s, task, room).0, rest)
    ensures Paired(Resuming(s, task, room).1 + rest, Held(s))
  {
    var log := Running(Back(s), task, room).1;
    PairedRunning(Back(s), task, room, rest);
    PairedOne(Restored(s.saved), log + rest, Held(s));
    assert [Restored(s.saved)] + log + rest == [Restored(s.saved)] + (log + rest);
  }

  lemma PairedStep(s: State, e: Event, room: nat, rest: seq<Act>)
    requires Inv(s) && !s.dead && (e == Wake(Anyone) ==> s.hasContext) && GoesOn(Step(s, e, room).0, rest)
    ensures Paired(Step(s, e, room).1 + rest, Held(s))
  {
    if e.Poll? && !s.hasContext {
      PairedRunning(s, e.task, room, rest);
    } else if |Step(s, e, room).1| == 0 {
      assert Step(s, e, room).1 + rest == rest;
    } else if s.ready {
      PairedResuming(s, e.task, room, rest);
    } else {
      PairedResuming(s.(startTime := 0, timeout := 0), e.task, room, rest);
    }
  }

  /** Only what an idle callback can do comes before the task is started. */
  predicate FromStart(events: seq<Event>) {
    |events| > 0 ==> events[0] != Wake(Anyone) && (events[0].Poll? || FromStart(events[1..]))
  }

  /** Wake-ups that look at a flag need no assumption. The others find the task suspended whenever they come,
      once it is started, if it never returns. */
  lemma {:induction false} PortRuns(s: State, events: seq<Event>, room: nat)
    requires (forall i :: 0 <= i < |events| ==> events[i] != Wake(Anyone))
      || ((s.dead || s.hasContext || FromStart(events))
          && forall i :: 0 <= i < |events| && events[i].Poll? ==> events[i].task != Return)
    ensures WakesSuspended(s, events, room)
    decreases |events|
  {
    if |events| > 0 {
      assert forall i :: 0 <= i < |events[1..]| ==> events[1..][i] == events[i + 1];
      PortRuns(Step(s, events[0], room).0, events[1..], room);
    }
  }

  /** So the asserted conditions hold in every run of the ports from the start, if wake-ups look at a flag or
      the task never returns. */
  lemma PortDiscipline(events: seq<Event>, room: nat)
    requires (forall i :: 0 <= i < |events| ==> events[i] != Wake(Anyone))
      || (FromStart(events) && forall i :: 0 <= i < |events| && events[i].Poll? ==> events[i].task != Return)
    ensures Inv(Run(INITIAL, events, room).0) && Paired(Run(INITIAL, events, room).1, None)
  {
    PortRuns(INITIAL, events, room);
    Discipline(INITIAL, events, room);
  }

  /** A wake-up is good if and only if there is a context to wake: without one, the next wait trips the
      assertion in SeCtx_save. */
  lemma WakeNeedsContext(s: State, time: nat, stack: seq<Octet>, room: nat)
    requires Inv(s) && !s.dead && |stack| <= room
    ensures Paired(Run(s, [Wake(Anyone), Poll(time, WaitOther(stack))], room).1, Held(s)) <==> s.hasContext
  {
    var events := [Wake(Anyone), Poll(time, WaitOther(stack))];
    var woken := Step(s, Wake(Anyone), room).0;
    assert events[1..] == [events[1]] && events[1..][1..] == [];
    var log := Step(woken, events[1], room).1;
    assert Run(woken, events[1..], room).1 == log;
    assert Run(s, events, room).1 == log;
    if s.hasContext {
      assert log == [Restored(s.saved)] + [Saved(true, stack)];
      PairedOne(Restored(s.saved), [Saved(true, stack)], Held(s));
    } else {
      assert !log[0].asserted;
    }
  }

  // Timed waits

  /** The difference of two readings of the 32-bit clock. */
  lemma Elapsed(a: nat, b: nat)
    requires a <= b
    ensures (b % WORD - a % WORD) % WORD == (b - a) % WORD && (b - a) % WORD <= b - a
    ensures b - a < HALF ==> (b - a) % WORD == b - a
  {
    var k, l := a / WORD, b / WORD;
    var d := b % WORD - a % WORD;
    assert b - a == WORD * (l - k) + d;
    if d >= 0 {
      ModUnique(WORD, l - k, d);
    } else {
      ModUnique(WORD, l - k - 1, d + WORD);
    }
  }

  /** When a clock reading is taken at true time b against one at true time a, the timer fires if and only
      if the time between, by a clock that wraps, is in [timeout, 2^31). */
  lemma FiresExactly(a: nat, b: nat, timeout: nat)
    requires a <= b && timeout < HALF
    ensures Fires(a % WORD, timeout, b % WORD) <==> timeout <= (b - a) % WORD < HALF
    ensures Fires(a % WORD, timeout, b % WORD) ==> b - a >= timeout
    ensures timeout <= b - a < HALF ==> Fires(a % WORD, timeout, b % WORD)
  {
    Elapsed(a, b);
  }

  /** A timer never fires early if and only if the timeout is below 2^31. */
  lemma NeverEarlyBelowHalf(timeout: nat)
    requires timeout < WORD
    ensures timeout < HALF <==>
            forall a: nat, b: nat :: a <= b && Fires(a % WORD, timeout, b % WORD) ==> b - a >= timeout
  {
    if timeout < HALF {
      forall a: nat, b: nat | a <= b && Fires(a % WORD, timeout, b % WORD) ensures b - a >= timeout {
        FiresExactly(a, b, timeout);
      }
    } else {
      assert Fires(1 % WORD, timeout, 1 % WORD);
    }
  }

  /** The number of polls that leave the task waiting. */
  function Waits(startTime: nat, timeout: nat, times: seq<nat>): (n: nat)
    ensures n <= |times|
    decreases |times|
  {
    if |times| == 0 then 0
    else if startTime == 0 then 1 + Waits(times[0] % WORD, timeout, times[1..])
    else if Fires(startTime, timeout, times[0] % WORD) then 0
    else 1 + Waits(startTime, timeout, times[1..])
  }

  function Polls(times: seq<nat>, task: Task): (r: seq<Event>)
    ensures |r| == |times| && forall i :: 0 <= i < |r| ==> r[i] == Poll(times[i], task)
  {
    seq(|times|, i requires 0 <= i < |times| => Poll(times[i], task))
  }

  /** Without a wake-up, the task waits for exactly that many polls and is resumed by the next. */
  lemma {:induction false} WaitsInRun(s: State, times: seq<nat>, task: Task, room: nat)
    requires Inv(s) && !s.dead && s.hasContext && !s.ready && s.timeout != 0
    ensures var n := Waits(s.startTime, s.timeout, times);
            var r := Run(s, Polls(times[..n], task), room);
            && r.1 == [] && r.0.hasContext && r.0.saved == s.saved
            && (n < |times| ==>
                  var log := Step(r.0, Poll(times[n], task), room).1; |log| > 0 && log[0] == Restored(s.saved))
    decreases |times|
  {
    var n := Waits(s.startTime, s.timeout, times);
    if n > 0 {
      var first := Step(s, Poll(times[0], task), room).0;
      WaitsInRun(first, times[1..], task, room);
      assert times[..n][1..] == times[1..][..n - 1];
      assert Polls(times[..n], task)[1..] == Polls(times[1..][..n - 1], task);
    }
  }

  predicate Ordered(times: seq<nat>) { forall i, j :: 0 <= i <= j < |times| ==> times[i] <= times[j] }

  /** The poll that starts the timer: the first at which the clock does not read zero. */
  function Starter(times: seq<nat>): (r: nat)
    ensures r <= |times|
    ensures forall i :: 0 <= i < r ==> times[i] % WORD == 0
    ensures r < |times| ==> times[r] % WORD != 0
  {
    if |times| == 0 || times[0] % WORD != 0 then 0 else 1 + Starter(times[1..])
  }

  /** Whatever the times of the polls: the task is never resumed before timeout milliseconds have passed
      since the timer was started, and the first poll in the window [timeout, 2^31) after that resumes it. */
  lemma {:induction false} WaitBounds(timeout: nat, times: seq<nat>, j: nat)
    requires 0 < timeout < HALF && Ordered(times)
    ensures var n, r := Waits(0, timeout, times), Starter(times);
            && (n < |times| ==> r < n && times[n] - times[r] >= timeout)
            && (r < j < |times| && timeout <= times[j] - times[r] < HALF ==> n <= j)
  {
    if |times| > 0 {
      if times[0] % WORD == 0 {
        WaitBounds(timeout, times[1..], if j > 0 then j - 1 else 0);
      } else {
        StartedBounds(times[0], timeout, times[1..], if j > 0 then j - 1 else 0);
      }
    }
  }

  lemma {:induction false} StartedBounds(start: nat, timeout: nat, times: seq<nat>, j: nat)
    requires 0 < timeout < HALF && Ordered(times) && start % WORD != 0
    requires |times| > 0 ==> start <= times[0]
    ensures var n := Waits(start % WORD, timeout, times);
            && (n < |times| ==> times[n] - start >= timeout)
            && (j < |times| && timeout <= times[j] - start < HALF ==> n <= j)
    decreases |times|
  {
    if |times| > 0 {
      FiresExactly(start, times[0], timeout);
      StartedBounds(start, timeout, times[1..], if j > 0 then j - 1 else 0);
    }
  }

  /** A poll starts a wait in se_recv: of a task that is not suspended, or that is ready and so resumed. */
  lemma StartsWaiting(s: State, now: nat, time: nat, stack: seq<Octet>, room: nat)
    requires Inv(s) && !s.dead && (s.hasContext ==> s.ready) && |stack| <= room
    ensures var w := Step(s, Poll(now, WaitRecv(time, stack)), room).0;
      && Inv(w) && !w.dead && w.hasContext && !w.ready && w.saved == stack && w.place == InRecv && w.flagged
      && w.startTime == 0 && (time < 0xFFFF_FFFF ==> w.timeout == time) && (time == 0xFFFF_FFFF ==> w.timeout == 0)
  {
  }

  /** A poll resumes a task that is ready, with the stack that was saved. */
  lemma ReadyResumes(s: State, now: nat, task: Task, room: nat)
    requires !s.dead && s.hasContext && s.ready
    ensures var log := Step(s, Poll(now, task), room).1; |log| > 0 && log[0] == Restored(s.saved)
  {
  }

  /** A task that starts to wait can be woken by the callbacks for its wait and by those that look at no flag, and
      by no other; once it is woken, the next poll resumes it. */
  lemma WokenFor(s: State, now: nat, task: Task, guard: Guard, later: nat, next: Task, room: nat)
    requires Inv(s) && !s.dead && (s.hasContext ==> s.ready) && task != Return && |task.stack| <= room
    ensures var w := Step(s, Poll(now, task), room).0;
      var woken := Step(w, Wake(guard), room).0;
      var log := Step(woken, Poll(later, next), room).1;
      && (woken.ready <==>
            guard == Anyone || (guard == Receiver && task.WaitRecv?) || (guard == Sender && task.WaitSend?))
      && (woken.ready ==> |log| > 0 && log[0] == Restored(task.stack))
  {
  }

  /** The polls before the first that makes something happen. */
  function Silent(s: State, times: seq<nat>, task: Task, room: nat): (n: nat)
    ensures n <= |times|
    decreases |times|
  {
    if |times| == 0 then 0
    else
      var first := Step(s, Poll(times[0], task), room);
      if |first.1| > 0 then 0 else 1 + Silent(first.0, times[1..], task, room)
  }

  /** What that one makes happen. */
  function FirstAct(s: State, times: seq<nat>, task: Task, room: nat): Act
    requires Silent(s, times, task, room) < |times|
    decreases |times|
  {
    var first := Step(s, Poll(times[0], task), room);
    if |first.1| > 0 then first.1[0] else FirstAct(first.0, times[1..], task, room)
  }

  lemma {:induction false} SilentWhileWaiting(s: State, times: seq<nat>, task: Task, room: nat)
    requires Inv(s) && !s.dead && s.hasContext && !s.ready && s.timeout != 0
    ensures var n := Silent(s, times, task, room);
      n == Waits(s.startTime, s.timeout, times) && (n < |times| ==> FirstAct(s, times, task, room) == Restored(s.saved))
    decreases |times|
  {
    if |times| > 0 && |Step(s, Poll(times[0], task), room).1| == 0 {
      SilentWhileWaiting(Step(s, Poll(times[0], task), room).0, times[1..], task, room);
    }
  }

  /** A task that asks se_recv to wait for time milliseconds and is not woken: no poll resumes it earlier than
      time milliseconds after the poll that starts the timer, and the first poll in the window [time, 2^31)
      after that one has. It goes on with the stack that it had. */
  lemma ReceiveWaits(s: State, now: nat, time: nat, stack: seq<Octet>, times: seq<nat>, task: Task, room: nat, j: nat)
    requires Inv(s) && !s.dead && (s.hasContext ==> s.ready) && |stack| <= room
    requires 0 < time < 0x8000_0000 && Ordered(times)
    ensures var w := Step(s, Poll(now, WaitRecv(time, stack)), room).0;
      var n, r := Silent(w, times, task, room), Starter(times);
      && (n < |times| ==>
            r < n && times[n] - times[r] >= time && FirstAct(w, times, task, room) == Restored(stack))
      && (r < j < |times| && time <= times[j] - times[r] < 0x8000_0000 ==> n <= j)
  {
    StartsWaiting(s, now, time, stack, room);
    SilentWhileWaiting(Step(s, Poll(now, WaitRecv(time, stack)), room).0, times, task, room);
    WaitBounds(time, times, j);
  }

  /** Asked to wait for ever, or for no time at all, it is never resumed by a poll. */
  lemma ReceiveForEver(s: State, now: nat, time: nat, stack: seq<Octet>, times: seq<nat>, task: Task, room: nat)
    requires Inv(s) && !s.dead && (s.hasContext ==> s.ready) && |stack| <= room
    requires time == 0 || time == 0xFFFF_FFFF
    ensures var w := Step(s, Poll(now, WaitRecv(time, stack)), room).0; Silent(w, times, task, room) == |times|
  {
    StartsWaiting(s, now, time, stack, room);
    SilentForEver(Step(s, Poll(now, WaitRecv(time, stack)), room).0, times, task, room);
  }

  lemma {:induction false} SilentForEver(s: State, times: seq<nat>, task: Task, room: nat)
    requires Inv(s) && !s.dead && s.hasContext && !s.ready && s.timeout == 0
    ensures Silent(s, times, task, room) == |times|
    decreases |times|
  {
    if |times| > 0 {
      assert Step(s, Poll(times[0], task), room) == (s, []);
      SilentForEver(s, times[1..], task, room);
    }
  }

  /** A timeout of zero is no timeout: without a wake-up the task waits for ever. */
  lemma {:induction false} ZeroWaitsForEver(s: State, times: seq<nat>, task: Task, room: nat)
    requires Inv(s) && !s.dead && s.hasContext && !s.ready && s.timeout == 0
    ensures Run(s, Polls(times, task), room).0 == s && |Run(s, Polls(times, task), room).1| == 0
  {
    if |times| > 0 {
      ZeroWaitsForEver(s, times[1..], task, room);
      var events := Polls(times, task);
      assert events[1..] == Polls(times[1..], task);
      assert Step(s, events[0], room) == (s, []);
    }
  }

  /** The context manager. The live stack is given to Save and comes back from Restore. */
  class Context {
    var hasContext: bool
    var ready: bool
    var timeout: nat
    var startTime: nat
    var place: Place
    var flagged: bool
    const stackBuf: array<Octet>
    var stackLen: nat
    var dead: bool

    ghost predicate Valid()
      reads this
    {
      stackLen <= stackBuf.Length
    }

    ghost function Abs(): State
      requires Valid()
      reads this, stackBuf
    {
      State(hasContext, ready, timeout, startTime, place, flagged, stackBuf[..stackLen], dead)
    }

    constructor (buf: array<Octet>)
      ensures Valid() && Abs() == INITIAL && Inv(Abs()) && stackBuf == buf
    {
      hasContext, ready, timeout, startTime, place, flagged := false, false, 0, 0, Nowhere, false;
      stackBuf, stackLen, dead := buf, 0, false;
    }

    /** SeCtx_save, up to the jump back to the main loop. */
    method Save(stack: seq<Octet>) returns (act: Act)
      requires Valid() && !hasContext && !ready
      modifies this`hasContext, this`stackLen, this`dead, stackBuf
      ensures Valid() && (Abs(), [act]) == Saving(old(Abs()), stack, stackBuf.Length)
      ensures |stack| <= stackBuf.Length ==> act == Saved(true, stack) && hasContext && Abs().saved == stack
      ensures |stack| > stackBuf.Length ==> act == Panic(|stack| + 100) && dead
    {
      if |stack| > stackBuf.Length {
        dead := true;
        return Panic(|stack| + 100);
      }
      forall i | 0 <= i < |stack| {
        stackBuf[i] := stack[i];
      }
      stackLen := |stack|;
      hasContext := true;
      assert stackBuf[..stackLen] == stack;
      return Saved(true, stack);
    }

    /** SeCtx_restore, and the stack as SeCtx_save finds it after the jump. */
    method Restore() returns (stack: seq<Octet>)
      requires Valid() && hasContext
      modifies this`hasContext, this`ready
      ensures Valid() && Abs() == old(Abs()).(hasContext := false, ready := false)
      ensures stack == old(Abs()).saved
    {
      hasContext := false;
      ready := false;
      stack := stackBuf[..stackLen];
    }

    /** A callback of the TCP/IP stack that may wake the task. */
    method Callback(guard: Guard)
      requires Valid() && !dead
      modifies this`ready
      ensures Valid() && Abs() == Step(old(Abs()), Wake(guard), stackBuf.Length).0
    {
      if guard.Anyone? || (flagged && place == if guard.Receiver? then InRecv else InSend) {
        ready := true;
      }
    }

    /** The task goes on, in a state in which SeCtx_save may be called. */
    method GoOn(task: Task) returns (acts: seq<Act>)
      requires Valid() && !hasContext && !ready && !dead
      modifies this, stackBuf
      ensures Valid() && (Abs(), acts) == Running(old(Abs()), task, stackBuf.Length)
    {
      match task
      case Return =>
        acts := [];
      case WaitRecv(time, stack) =>
        place, flagged := InRecv, true;
        if time != INFINITE_TMO {
          timeout := time % WORD;
        }
        var act := Save(stack);
        acts := [act];
      case WaitSend(stack) =>
        place, flagged := InSend, true;
        var act := Save(stack);
        acts := [act];
      case WaitOther(stack) =>
        place, flagged := Elsewhere, false;
        var act := Save(stack);
        acts := [act];
    }

    /** SeCtx_restore and the code behind SeCtx_save. */
    method Resume(task: Task) returns (acts: seq<Act>)
      requires Valid() && hasContext && !dead
      modifies this, stackBuf
      ensures Valid() && (Abs(), acts) == Resuming(old(Abs()), task, stackBuf.Length)
    {
      var stack := Restore();
      flagged := false;
      if place == InRecv {
        startTime, timeout := 0, 0;
      }
      place := Nowhere;
      var more := GoOn(task);
      acts := [Restored(stack)] + more;
    }

    /** SeCtx_run. */
    method Run(time: nat, task: Task) returns (acts: seq<Act>)
      requires Valid() && Inv(Abs()) && !dead
      modifies this, stackBuf
      ensures Valid() && Inv(Abs())
      ensures (Abs(), acts) == Step(old(Abs()), Poll(time, task), stackBuf.Length)
      ensures old(hasContext && ready) ==> |acts| > 0 && acts[0] == Restored(old(Abs()).saved)
      ensures old(hasContext ==> ready) && task.WaitRecv? && |task.stack| <= stackBuf.Length ==>
        && hasContext && !ready && startTime == 0
        && timeout == (if task.timeout == 0xFFFF_FFFF then 0 else task.timeout % 0x1_0000_0000)
    {
      acts := [];
      if hasContext {
        if ready {
          acts := Resume(task);
        } else if timeout != 0 {
          if startTime == 0 {
            startTime := time % WORD;
          } else if Fires(startTime, timeout, time % WORD) {
            startTime, timeout := 0, 0;
            acts := Resume(task);
          }
        }
      } else {
        acts := GoOn(task);
      }
    }
  }
}
