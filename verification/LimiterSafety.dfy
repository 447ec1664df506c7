/** How many failures the login limiter lets through in a window: one handler at a time, and several at once. */
module LimiterSafety {
  import opened Text
  import opened Limiter

  /** One address: its failures, the handlers let through that have not yet answered, the latest time. */
  datatype State = State(history: seq<int>, pending: nat, clock: int)

  /** A handler asks; a handler let through fails and records; a handler let through succeeds. */
  datatype Step = Check(now: int) | Fail(now: int) | Succeed(now: int)

  /** A step under a clock that does not go back, with at most `k` handlers between asking and answering. */
  function Do(k: nat, s: State, step: Step): Option<State> {
    if step.now < s.clock then None
    else
      match step
      case Check(now) =>
        if !MayTry(s.history, now) then Some(s.(clock := now))
        else if s.pending < k then Some(s.(pending := s.pending + 1, clock := now))
        else None
      case Fail(now) =>
        if s.pending == 0 then None else Some(State(s.history + [now], s.pending - 1, now))
      case Succeed(now) =>
        if s.pending == 0 then None else Some(s.(pending := s.pending - 1, clock := now))
  }

  function Run(k: nat, s: State, steps: seq<Step>): Option<State>
    decreases |steps|
  {
    if steps == [] then Some(s)
    else
      match Do(k, s, steps[0])
      case None => None
      case Some(t) => Run(k, t, steps[1..])
  }

  /** The failures in the closed window of 60 seconds from `w` on. */
  function InWindow(s: seq<int>, w: int): (r: seq<int>)
    ensures forall t :: t in r <==> t in s && w <= t <= w + 60
  {
    if s == [] then []
    else
      assert forall t :: t in s <==> t in s[..|s| - 1] || t == s[|s| - 1];
      InWindow(s[..|s| - 1], w) + if w <= s[|s| - 1] <= w + 60 then [s[|s| - 1]] else []
  }

  lemma InWindowSnoc(s: seq<int>, t: int, w: int)
    ensures InWindow(s + [t], w) == InWindow(s, w) + if w <= t <= w + 60 then [t] else []
  {
    assert (s + [t])[..|s|] == s;
  }

  lemma {:induction false} WindowIsSince(s: seq<int>, w: int)
    ensures |InWindow(s, w)| <= |Since(s, w)|
  {
    if s != [] {
      WindowIsSince(s[..|s| - 1], w);
    }
  }

  /** Open windows leave room for those still to answer; no window holds more than the limit less one, and `k`. */
  ghost predicate Inv(k: nat, s: State) {
    && s.pending <= k
    && (forall w :: w >= s.clock - WINDOW ==> |Since(s.history, w)| + s.pending <= LIMIT - 1 + k)
    && (forall w :: |InWindow(s.history, w)| <= LIMIT - 1 + k)
  }

  lemma CheckKeeps(k: nat, s: State, now: int)
    requires Inv(k, s) && s.clock <= now && MayTry(s.history, now) && s.pending < k
    ensures Inv(k, s.(pending := s.pending + 1, clock := now))
  {
    forall w | w >= now - WINDOW ensures |Since(s.history, w)| <= LIMIT - 1 {
      SinceShrinks(s.history, now - WINDOW, w);
    }
  }

  lemma FailKeeps(k: nat, s: State, now: int)
    requires Inv(k, s) && s.clock <= now && s.pending > 0
    ensures Inv(k, State(s.history + [now], s.pending - 1, now))
  {
    var h := s.history + [now];
    forall w | w >= now - WINDOW ensures |Since(h, w)| + s.pending - 1 <= LIMIT - 1 + k {
      SinceSnoc(s.history, now, w);
    }
    forall w ensures |InWindow(h, w)| <= LIMIT - 1 + k {
      InWindowSnoc(s.history, now, w);
      if w <= now <= w + WINDOW {
        WindowIsSince(h, w);
      }
    }
  }

  lemma StepKeeps(k: nat, s: State, step: Step)
    requires Inv(k, s) && Do(k, s, step).Some?
    ensures Inv(k, Do(k, s, step).value)
  {
    match step {
      case Check(now) =>
        if MayTry(s.history, now) {
          CheckKeeps(k, s, now);
        }
      case Fail(now) => FailKeeps(k, s, now);
      case Succeed(_) =>
    }
  }

  lemma {:induction false} RunKeeps(k: nat, s: State, steps: seq<Step>)
    requires Inv(k, s) && Run(k, s, steps).Some?
    ensures Inv(k, Run(k, s, steps).value)
    decreases |steps|
  {
    if steps != [] {
      StepKeeps(k, s, steps[0]);
      RunKeeps(k, Do(k, s, steps[0]).value, steps[1..]);
    }
  }

  /** With at most `k` handlers at once, no window of 60 seconds ever holds more than 4 + k failures. */
  lemma WindowBound(k: nat, start: int, steps: seq<Step>, w: int)
    requires Run(k, State([], 0, start), steps).Some?
    ensures |InWindow(Run(k, State([], 0, start), steps).value.history, w)| <= 4 + k
  {
    RunKeeps(k, State([], 0, start), steps);
  }

  // ----- the bound is met -----

  lemma {:induction false} RunAppend(k: nat, s: State, a: seq<Step>, b: seq<Step>)
    requires Run(k, s, a).Some?
    ensures Run(k, s, a + b) == Run(k, Run(k, s, a).value, b)
    decreases |a|
  {
    if a == [] {
      assert a + b == b;
    } else {
      assert (a + b)[1..] == a[1..] + b;
      RunAppend(k, Do(k, s, a[0]).value, a[1..], b);
    }
  }

  function Times<T>(n: nat, x: T): (s: seq<T>)
    ensures |s| == n
  {
    if n == 0 then [] else [x] + Times(n - 1, x)
  }

  lemma {:induction false} TimesSnoc<T>(n: nat, x: T)
    ensures Times(n, x) + [x] == Times(n + 1, x)
  {
    if n > 0 {
      TimesSnoc(n - 1, x);
      assert Times(n, x) + [x] == [x] + (Times(n - 1, x) + [x]);
    }
  }

  lemma {:induction false} AllInWindow(n: nat, t: int)
    ensures |Since(Times(n, t), t - WINDOW)| == |InWindow(Times(n, t), t)| == n
  {
    if n > 0 {
      AllInWindow(n - 1, t);
      TimesSnoc(n - 1, t);
      SinceSnoc(Times(n - 1, t), t, t - WINDOW);
      InWindowSnoc(Times(n - 1, t), t, t);
    }
  }

  lemma {:induction false} ManyChecks(k: nat, s: State, n: nat)
    requires MayTry(s.history, s.clock) && s.pending + n <= k
    ensures Run(k, s, Times(n, Check(s.clock))) == Some(s.(pending := s.pending + n))
    decreases n
  {
    if n > 0 {
      ManyChecks(k, s.(pending := s.pending + 1), n - 1);
    }
  }

  lemma {:induction false} ManyFails(k: nat, n: nat, p: nat, t: int)
    ensures Run(k, State(Times(n, t), p, t), Times(p, Fail(t))) == Some(State(Times(n + p, t), 0, t))
    decreases p
  {
    if p > 0 {
      TimesSnoc(n, t);
      ManyFails(k, n + 1, p - 1, t);
    }
  }

  lemma CheckThenFail(k: nat, s: State)
    requires MayTry(s.history, s.clock) && s.pending < k
    ensures Run(k, s, [Check(s.clock), Fail(s.clock)]) == Some(s.(history := s.history + [s.clock]))
  {
    var checked := s.(pending := s.pending + 1);
    var steps := [Check(s.clock), Fail(s.clock)];
    assert Do(k, s, steps[0]) == Some(checked);
    assert Run(k, checked, steps[1..]) == Run(k, s.(history := s.history + [s.clock]), steps[2..]);
  }

  /** `n` failures one after the other, all in one second, while the limiter allows them. */
  lemma {:induction false} OneByOne(k: nat, n: nat, t: int) returns (steps: seq<Step>)
    requires k >= 1 && n < LIMIT
    ensures Run(k, State([], 0, t), steps) == Some(State(Times(n, t), 0, t))
  {
    steps := [];
    if n > 0 {
      var before := OneByOne(k, n - 1, t);
      AllInWindow(n - 1, t);
      TimesSnoc(n - 1, t);
      var s := State(Times(n - 1, t), 0, t);
      CheckThenFail(k, s);
      RunAppend(k, State([], 0, t), before, [Check(t), Fail(t)]);
      steps := before + [Check(t), Fail(t)];
    }
  }

  /** For every number of handlers there is a run with 4 + k failures in one window: the bound cannot be lowered. */
  lemma {:induction false} BoundIsMet(k: nat, t: int) returns (steps: seq<Step>)
    requires k >= 1
    ensures Run(k, State([], 0, t), steps).Some?
    ensures |InWindow(Run(k, State([], 0, t), steps).value.history, t)| == 4 + k
  {
    var first := OneByOne(k, LIMIT - 1, t);
    AllInWindow(LIMIT - 1, t);
    var s := State(Times(LIMIT - 1, t), 0, t);
    ManyChecks(k, s, k);
    ManyFails(k, LIMIT - 1, k, t);
    var rest := Times(k, Check(t)) + Times(k, Fail(t));
    RunAppend(k, s, Times(k, Check(t)), Times(k, Fail(t)));
    RunAppend(k, State([], 0, t), first, rest);
    AllInWindow(LIMIT - 1 + k, t);
    steps := first + rest;
  }

  // ----- the handler, one request at a time -----

  /** A login: from whom, when it was checked, whether the password was right, and when that was known. */
  datatype Attempt = Attempt(ip: string, checked: int, passwordOk: bool, answered: int)

  ghost predicate AllInv(rl: RateLimiter)
    reads rl
  {
    forall ip :: Inv(1, State(Get(rl.history, ip), 0, rl.clock))
  }

  /** The login handler: refuse, or try the password and record a failure. */
  method Login(rl: RateLimiter, a: Attempt) returns (allowed: bool)
    requires rl.Valid() && AllInv(rl) && rl.clock <= a.checked <= a.answered
    modifies rl
    ensures rl.Valid() && AllInv(rl) && rl.clock <= a.answered
    ensures allowed == (Recently(Get(old(rl.history), a.ip), a.checked) < 5)
    ensures rl.history ==
      if allowed && !a.passwordOk then old(rl.history)[a.ip := Get(old(rl.history), a.ip) + [a.answered]] else old(rl.history)
  {
    ghost var h, c := rl.history, rl.clock;
    forall ip ensures Inv(1, State(Get(h, ip), 0, a.checked)) && Inv(1, State(Get(h, ip), 0, a.answered)) {
    }
    allowed := rl.Allow(a.ip, a.checked);
    MayTryIs(Get(h, a.ip), a.checked);
    if allowed && !a.passwordOk {
      CheckKeeps(1, State(Get(h, a.ip), 0, a.checked), a.checked);
      FailKeeps(1, State(Get(h, a.ip), 1, a.checked), a.answered);
      rl.Record(a.ip, a.answered);
      forall ip ensures Inv(1, State(Get(rl.history, ip), 0, rl.clock)) {
        if ip != a.ip {
          assert Get(rl.history, ip) == Get(h, ip);
        }
      }
    }
  }

  predicate InOrder(attempts: seq<Attempt>, start: int) {
    && (forall i :: 0 <= i < |attempts| ==> start <= attempts[i].checked <= attempts[i].answered)
    && (forall i, j :: 0 <= i < j < |attempts| ==> attempts[i].answered <= attempts[j].checked)
  }

  /** What one attempt adds to an address's failures: its answer time, if it was allowed and the password was wrong. */
  function Failed(a: Attempt, allowed: bool, ip: string): seq<int> {
    if a.ip == ip && allowed && !a.passwordOk then [a.answered] else []
  }

  /** The times of an address's failures among the attempts answered so far. */
  function Failures(attempts: seq<Attempt>, allowed: seq<bool>, ip: string): seq<int>
    requires |allowed| <= |attempts|
    decreases |allowed|
  {
    if allowed == [] then []
    else
      var n := |allowed| - 1;
      Failures(attempts, allowed[..n], ip) + Failed(attempts[n], allowed[n], ip)
  }

  lemma FailuresSnoc(attempts: seq<Attempt>, allowed: seq<bool>, ok: bool, ip: string)
    requires |allowed| < |attempts|
    ensures Failures(attempts, allowed + [ok], ip) == Failures(attempts, allowed, ip) + Failed(attempts[|allowed|], ok, ip)
  {
    assert (allowed + [ok])[..|allowed|] == allowed;
  }

  /** Each answer is what the failures before it call for. */
  predicate Answered(attempts: seq<Attempt>, allowed: seq<bool>)
    requires |allowed| <= |attempts|
    decreases |allowed|
  {
    allowed != [] ==>
      var n := |allowed| - 1;
      && Answered(attempts, allowed[..n])
      && allowed[n] == (Recently(Failures(attempts, allowed[..n], attempts[n].ip), attempts[n].checked) < 5)
  }

  lemma AnsweredSnoc(attempts: seq<Attempt>, allowed: seq<bool>, ok: bool)
    requires |allowed| < |attempts| && Answered(attempts, allowed)
    requires
      var a := attempts[|allowed|];
      ok == (Recently(Failures(attempts, allowed, a.ip), a.checked) < 5)
    ensures Answered(attempts, allowed + [ok])
  {
    assert (allowed + [ok])[..|allowed|] == allowed;
  }

  /** The limiter's history is that of the attempts answered so far. */
  ghost predicate Holds(rl: RateLimiter, attempts: seq<Attempt>, allowed: seq<bool>)
    requires |allowed| <= |attempts|
    reads rl
  {
    forall ip :: Get(rl.history, ip) == Failures(attempts, allowed, ip)
  }

  /** The next attempt in turn. */
  method ServeNext(rl: RateLimiter, attempts: seq<Attempt>, before: seq<bool>) returns (allowed: seq<bool>)
    requires rl.Valid() && AllInv(rl) && |before| < |attempts|
    requires rl.clock <= attempts[|before|].checked <= attempts[|before|].answered
    requires Holds(rl, attempts, before) && Answered(attempts, before)
    modifies rl
    ensures rl.Valid() && AllInv(rl) && |allowed| == |before| + 1 && rl.clock <= attempts[|before|].answered
    ensures Holds(rl, attempts, allowed) && Answered(attempts, allowed)
  {
    hide Failures;
    var a := attempts[|before|];
    ghost var h := rl.history;
    var ok := Login(rl, a);
    forall ip ensures Get(rl.history, ip) == Failures(attempts, before + [ok], ip) {
      assert Get(h, ip) == Failures(attempts, before, ip);
      FailuresSnoc(attempts, before, ok, ip);
    }
    AnsweredSnoc(attempts, before, ok);
    allowed := before + [ok];
  }

  /**
   Attempts handled one at a time: each is allowed exactly when fewer than five failures of its address are in the
   last 60 seconds, and so no window of 60 seconds holds more than five failures of any address.
   */
  method Serve(attempts: seq<Attempt>, start: int) returns (allowed: seq<bool>)
    requires InOrder(attempts, start)
    ensures |allowed| == |attempts| && Answered(attempts, allowed)
    ensures forall ip, w :: |InWindow(Failures(attempts, allowed, ip), w)| <= 5
  {
    var rl := new RateLimiter(start);
    allowed := [];
    for i := 0 to |attempts|
      invariant fresh(rl) && rl.Valid() && AllInv(rl)
      invariant i < |attempts| ==> rl.clock <= attempts[i].checked
      invariant |allowed| == i && Answered(attempts, allowed) && Holds(rl, attempts, allowed)
    {
      allowed := ServeNext(rl, attempts, allowed);
    }
    forall ip, w ensures |InWindow(Failures(attempts, allowed, ip), w)| <= 5 {
      assert Inv(1, State(Get(rl.history, ip), 0, rl.clock));
    }
  }
}
