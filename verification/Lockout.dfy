/** The login attempts and the lockout that index.lsp keeps in the user's session. */
module Lockout {
  const LOCKED := 60 * 5 - 1

  /** One request for the page. The clock is read when the lockout is checked, when it is set, when the
      message is decided on, and when its minutes are computed. */
  datatype Request = Request(post: bool, correct: bool, checked: int, locked: int, shown: int, printed: int)

  /** A login that was looked at, and the time from which it would lock. */
  datatype Attempt = Attempt(time: int, locked: int, success: bool)

  datatype State = State(loginattempts: nat, lockoutuntil: int)

  const INITIAL := State(0, 0)

  predicate InOrder(r: Request) { 0 <= r.checked <= r.locked <= r.shown <= r.printed }

  predicate Chronological(run: seq<Request>, from: int) {
    |run| > 0 ==> from <= run[0].checked && InOrder(run[0]) && Chronological(run[1..], run[0].printed)
  }

  predicate Evaluated(s: State, r: Request) { r.post && r.checked > s.lockoutuntil }

  function Handle(s: State, r: Request): State {
    if !Evaluated(s, r) then s
    else if r.correct then s.(loginattempts := 0)
    else if s.loginattempts + 1 < 3 then s.(loginattempts := s.loginattempts + 1)
    else State(0, r.locked + LOCKED)
  }

  /** The logins looked at in a run. */
  function Log(s: State, run: seq<Request>): seq<Attempt>
    decreases |run|
  {
    if |run| == 0 then []
    else
      var later := Log(Handle(s, run[0]), run[1..]);
      (if Evaluated(s, run[0]) then [Attempt(run[0].checked, run[0].locked, run[0].correct)] else []) + later
  }

  function End(s: State, run: seq<Request>): State
    decreases |run|
  {
    if |run| == 0 then s else End(Handle(s, run[0]), run[1..])
  }

  /** Fewer than three failures counted, and the lockout ends within LOCKED seconds of the time now. */
  predicate Inv(s: State, now: int) { s.loginattempts < 3 && s.lockoutuntil <= now + LOCKED }

  lemma {:induction false} InvOverRuns(s: State, run: seq<Request>, from: int)
    requires Inv(s, from) && Chronological(run, from)
    ensures Inv(End(s, run), if |run| == 0 then from else run[|run| - 1].printed)
    decreases |run|
  {
    if |run| > 0 {
      InvOverRuns(Handle(s, run[0]), run[1..], run[0].printed);
    }
  }

  /** A log without logins before from, where every third failure in a row shuts out the next five minutes. */
  predicate Spaced(log: seq<Attempt>, failures: nat, from: int) {
    |log| > 0 ==>
      && from <= log[0].time
      && (log[0].success ==> Spaced(log[1..], 0, log[0].time))
      && (!log[0].success && failures + 1 < 3 ==> Spaced(log[1..], failures + 1, log[0].time))
      && (!log[0].success && failures + 1 >= 3 ==> Spaced(log[1..], 0, log[0].time + 300))
  }

  lemma {:induction false} RunIsSpaced(s: State, run: seq<Request>, from: int, start: int)
    requires s.loginattempts < 3 && Chronological(run, from)
    requires start <= from || start <= s.lockoutuntil + 1
    ensures Spaced(Log(s, run), s.loginattempts, start)
    decreases |run|
  {
    if |run| > 0 {
      var r, t := run[0], Handle(s, run[0]);
      if Evaluated(s, r) {
        RunIsSpaced(t, run[1..], r.printed, if !r.correct && s.loginattempts == 2 then r.checked + 300 else r.checked);
        assert Log(s, run)[1..] == Log(t, run[1..]);
      } else {
        RunIsSpaced(t, run[1..], r.printed, start);
        assert Log(s, run) == Log(t, run[1..]);
      }
    }
  }

  lemma {:induction false} SpacedFrom(log: seq<Attempt>, failures: nat, from: int, i: nat) returns (c: nat, f: int)
    requires Spaced(log, failures, from) && failures < 3 && i <= |log|
    ensures c < 3 && Spaced(log[i..], c, f)
    decreases i
  {
    if i == 0 {
      c, f := failures, from;
      assert log[0..] == log;
    } else {
      var next := if log[0].success || failures == 2 then 0 else failures + 1;
      var t := log[0].time;
      c, f := SpacedFrom(log[1..], next, if !log[0].success && failures == 2 then t + 300 else t, i - 1);
      assert log[i..] == log[1..][i - 1..];
    }
  }

  /** Four failures without a success between them take at least five minutes. */
  lemma FourFailures(log: seq<Attempt>, failures: nat, from: int)
    requires Spaced(log, failures, from) && failures < 3 && |log| >= 4
    requires !log[0].success && !log[1].success && !log[2].success
    ensures log[3].time >= log[0].time + 300
  {
    var second, third, fourth := log[1..], log[2..], log[3..];
    assert second[1..] == third && third[1..] == fourth;
    assert second[0] == log[1] && third[0] == log[2] && fourth[0] == log[3];
    var t, u, v := log[0].time, log[1].time, log[2].time;
    if failures == 0 {
      assert Spaced(second, 1, t) && Spaced(third, 2, u) && Spaced(fourth, 0, v + 300);
    } else if failures == 1 {
      assert Spaced(second, 2, t) && Spaced(third, 0, u + 300) && Spaced(fourth, 1, v);
    } else {
      assert Spaced(second, 0, t + 300) && Spaced(third, 1, u) && Spaced(fourth, 2, v);
    }
  }

  /** In every run on a clock that does not go back, a half-open window of 300 seconds holds at most three
      failed logins with no success between them. */
  lemma Window(run: seq<Request>, i: nat, j: nat)
    requires Chronological(run, 0)
    requires var log := Log(INITIAL, run);
             i <= j < |log| && (forall k :: i <= k <= j ==> !log[k].success) && log[j].time < log[i].time + 300
    ensures j < i + 3
  {
    var log := Log(INITIAL, run);
    RunIsSpaced(INITIAL, run, 0, 0);
    if j >= i + 3 {
      var c, f := SpacedFrom(log, 0, 0, i);
      FourFailures(log[i..], c, f);
      c, f := SpacedFrom(log, 0, 0, i + 3);
      NotBefore(log[i + 3..], c, f, j - i - 3);
    }
  }

  lemma {:induction false} NotBefore(log: seq<Attempt>, failures: nat, from: int, k: nat)
    requires Spaced(log, failures, from) && failures < 3 && k < |log|
    ensures log[k].time >= log[0].time >= from
    decreases k
  {
    if k > 0 {
      var t := log[0].time;
      if log[0].success || failures < 2 {
        NotBefore(log[1..], if log[0].success then 0 else failures + 1, t, k - 1);
      } else {
        NotBefore(log[1..], 0, t + 300, k - 1);
      }
    }
  }

  // Which logins are looked at, without the fields of the session

  /** The failures at the end of a log, back to the last success. */
  function Streak(log: seq<Attempt>): nat {
    if |log| == 0 || log[|log| - 1].success then 0 else 1 + Streak(log[..|log| - 1])
  }

  /** Login k is the third failure in a row, the sixth, and so on. */
  predicate Third(log: seq<Attempt>, k: nat)
    requires k < |log|
  {
    !log[k].success && Streak(log[..k + 1]) % 3 == 0
  }

  /** Five minutes have passed since each third failure. */
  predicate Open(log: seq<Attempt>, now: int) {
    now > 0 && forall k :: 0 <= k < |log| && Third(log, k) ==> now >= log[k].locked + 300
  }

  lemma {:induction false} OneMore(s: State, run: seq<Request>, r: Request)
    ensures End(s, run + [r]) == Handle(End(s, run), r)
    ensures Log(s, run + [r])
         == Log(s, run) + if Evaluated(End(s, run), r) then [Attempt(r.checked, r.locked, r.correct)] else []
    decreases |run|
  {
    if |run| == 0 {
      assert run + [r] == [r] && [r][1..] == [];
    } else {
      assert (run + [r])[1..] == run[1..] + [r];
      OneMore(Handle(s, run[0]), run[1..], r);
    }
  }

  /** The fields of the session in terms of the log. */
  ghost predicate Counted(s: State, log: seq<Attempt>) {
    && s.loginattempts == Streak(log) % 3
    && (forall k :: 0 <= k < |log| && Third(log, k) ==> 0 <= log[k].locked <= s.lockoutuntil - 299)
    && (s.lockoutuntil == 0 || exists k :: 0 <= k < |log| && Third(log, k) && s.lockoutuntil == log[k].locked + 299)
  }

  /** One more login changes nothing about those before. */
  lemma ThirdStays(log: seq<Attempt>, a: Attempt)
    ensures forall k :: 0 <= k < |log| ==> (log + [a])[k] == log[k] && (Third(log + [a], k) <==> Third(log, k))
    ensures Streak(log + [a]) == if a.success then 0 else Streak(log) + 1
    ensures Third(log + [a], |log|) <==> !a.success && (Streak(log) + 1) % 3 == 0
  {
    var next := log + [a];
    assert next[..|log|] == log && next[..|next|] == next;
    forall k | 0 <= k < |log| ensures next[k] == log[k] && (Third(next, k) <==> Third(log, k)) {
      assert next[..k + 1] == log[..k + 1];
    }
  }

  lemma NextOfThree(n: nat)
    ensures (n + 1) % 3 == if n % 3 == 2 then 0 else n % 3 + 1
  {
  }

  lemma CountedStep(s: State, log: seq<Attempt>, r: Request)
    requires Counted(s, log) && Evaluated(s, r) && InOrder(r)
    ensures Counted(Handle(s, r), log + [Attempt(r.checked, r.locked, r.correct)])
  {
    var a, t := Attempt(r.checked, r.locked, r.correct), Handle(s, r);
    ThirdStays(log, a);
    NextOfThree(Streak(log));
    if Third(log + [a], |log|) {
      assert t == State(0, a.locked + 299);
    } else {
      SameLock(s, log, t, a);
    }
  }

  lemma SameLock(s: State, log: seq<Attempt>, t: State, a: Attempt)
    requires Counted(s, log) && !Third(log + [a], |log|)
    requires t.lockoutuntil == s.lockoutuntil && t.loginattempts == Streak(log + [a]) % 3
    ensures Counted(t, log + [a])
  {
    ThirdStays(log, a);
    if s.lockoutuntil != 0 {
      var k :| 0 <= k < |log| && Third(log, k) && s.lockoutuntil == log[k].locked + 299;
      assert Third(log + [a], k);
    }
  }

  lemma {:induction false} RunCounts(run: seq<Request>)
    requires forall i :: 0 <= i < |run| ==> InOrder(run[i])
    ensures Counted(End(INITIAL, run), Log(INITIAL, run))
    decreases |run|
  {
    if |run| > 0 {
      var past, r := run[..|run| - 1], run[|run| - 1];
      RunCounts(past);
      OneMore(INITIAL, past, r);
      assert run == past + [r];
      if Evaluated(End(INITIAL, past), r) {
        CountedStep(End(INITIAL, past), Log(INITIAL, past), r);
      } else {
        assert Log(INITIAL, past) + [] == Log(INITIAL, past);
      }
    }
  }

  /** In every run, a request is looked at if and only if it is posted and five minutes have passed since each
      third failure in a row; it is then the next entry of the log. */
  lemma LookedAtExactly(run: seq<Request>, r: Request)
    requires forall i :: 0 <= i < |run| ==> InOrder(run[i])
    ensures Log(INITIAL, run + [r])
         == Log(INITIAL, run) + if r.post && Open(Log(INITIAL, run), r.checked)
                                then [Attempt(r.checked, r.locked, r.correct)] else []
  {
    RunCounts(run);
    OneMore(INITIAL, run, r);
  }

  /** Nobody is locked out for more than five minutes: behind any run, a request that is posted 300 seconds
      after it is looked at. */
  lemma NeverLonger(s: State, run: seq<Request>, from: int, r: Request)
    requires Inv(s, from) && Chronological(run, from) && r.post
    requires r.checked >= (if |run| == 0 then from else run[|run| - 1].printed) + 300
    ensures Log(s, run + [r]) == Log(s, run) + [Attempt(r.checked, r.locked, r.correct)]
  {
    InvOverRuns(s, run, from);
    OneMore(s, run, r);
  }

  /** The page says how long to wait: floor((lockoutuntil - now) / 60) + 1 minutes. */
  function Minutes(s: State, r: Request): int { (s.lockoutuntil - r.printed) / 60 + 1 }

  /** The wait printed is one to five minutes if and only if the lockout has not ended between the two
      readings of the clock. */
  lemma PrintedWait(s: State, r: Request)
    requires Inv(s, r.shown) && InOrder(r) && s.lockoutuntil > r.shown
    ensures 1 <= Minutes(s, r) <= 5 <==> r.printed <= s.lockoutuntil
  {
  }

  class Session {
    var loginattempts: nat
    var lockoutuntil: int
    var loggedin: bool

    ghost function Abs(): State
      reads this
    {
      State(loginattempts, lockoutuntil)
    }

    constructor ()
      ensures Abs() == INITIAL && !loggedin
    {
      loginattempts, lockoutuntil, loggedin := 0, 0, false;
    }

    /** The page, for one request: whether it reports a wrong password, and the minutes it tells to wait. */
    method Serve(r: Request) returns (wrong: bool, wait: bool, minutes: int)
      requires InOrder(r)
      modifies this
      ensures Abs() == Handle(old(Abs()), r)
      ensures loggedin <==> r.post && r.checked > old(lockoutuntil) && r.correct
      ensures wrong <==> r.post && r.checked > old(lockoutuntil) && !r.correct && old(loginattempts) < 2
      ensures r.post && r.checked > old(lockoutuntil) && !r.correct && old(loginattempts) >= 2 ==>
        loginattempts == 0 && lockoutuntil == r.locked + 299
      ensures wait <==> r.shown < lockoutuntil
      ensures wait ==> minutes == Minutes(Abs(), r)
      ensures wait && old(Inv(Abs(), r.checked)) && r.printed <= lockoutuntil ==> 1 <= minutes <= 5
    {
      wrong, wait, minutes := false, false, 0;
      loggedin := false;
      if r.post && r.checked > lockoutuntil {
        if r.correct {
          loggedin := true;
          loginattempts := 0;
        } else {
          loginattempts := loginattempts + 1;
          if loginattempts >= 3 {
            loginattempts := 0;
            lockoutuntil := r.locked + 60 * 5 - 1;
          } else {
            wrong := true;
          }
        }
      }
      if lockoutuntil > r.shown {
        wait, minutes := true, (lockoutuntil - r.printed) / 60 + 1;
      }
    }
  }
}
