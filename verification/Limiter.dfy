/** The login limiter (web/main.go): a pruned list of failure times per address, and the handler that asks and records. */
module Limiter {
  const WINDOW := 60
  const LIMIT := 5

  /** The times from `cutoff` on. */
  function Since(s: seq<int>, cutoff: int): (r: seq<int>)
    ensures forall t :: t in r <==> t in s && t >= cutoff
  {
    if s == [] then []
    else
      assert forall t :: t in s <==> t in s[..|s| - 1] || t == s[|s| - 1];
      Since(s[..|s| - 1], cutoff) + if s[|s| - 1] >= cutoff then [s[|s| - 1]] else []
  }

  lemma SinceSnoc(s: seq<int>, t: int, cutoff: int)
    ensures Since(s + [t], cutoff) == Since(s, cutoff) + if t >= cutoff then [t] else []
  {
    assert (s + [t])[..|s|] == s;
  }

  lemma {:induction false} SinceTwice(s: seq<int>, a: int, b: int)
    requires a <= b
    ensures Since(Since(s, a), b) == Since(s, b)
  {
    if s != [] {
      var front, t := s[..|s| - 1], s[|s| - 1];
      SinceTwice(front, a, b);
      if t >= a {
        SinceSnoc(Since(front, a), t, b);
      } else {
        assert Since(front, a) + [] == Since(front, a);
      }
    }
  }

  lemma {:induction false} SinceShrinks(s: seq<int>, a: int, b: int)
    requires a <= b
    ensures |Since(s, b)| <= |Since(s, a)| <= |s|
  {
    if s != [] {
      SinceShrinks(s[..|s| - 1], a, b);
    }
  }

  /** What the limiter should say at `now`, given all failures ever recorded. */
  predicate MayTry(history: seq<int>, now: int) {
    |Since(history, now - WINDOW)| < LIMIT
  }

  /** How many of the times lie in the last 60 seconds. */
  function Recently(times: seq<int>, now: int): nat {
    if times == [] then 0 else (if times[0] >= now - 60 then 1 else 0) + Recently(times[1..], now)
  }

  lemma {:induction false} RecentlySnoc(times: seq<int>, t: int, now: int)
    ensures Recently(times + [t], now) == Recently(times, now) + if t >= now - 60 then 1 else 0
  {
    if times == [] {
      assert [t][1..] == [];
    } else {
      assert (times + [t])[1..] == times[1..] + [t];
      RecentlySnoc(times[1..], t, now);
    }
  }

  lemma {:induction false} SinceIsRecently(times: seq<int>, now: int)
    ensures |Since(times, now - 60)| == Recently(times, now)
  {
    if times != [] {
      var n := |times| - 1;
      SinceIsRecently(times[..n], now);
      RecentlySnoc(times[..n], times[n], now);
      assert times == times[..n] + [times[n]];
    }
  }

  /** An address may try exactly if fewer than five of its failures lie in the last 60 seconds. */
  lemma MayTryIs(times: seq<int>, now: int)
    ensures MayTry(times, now) <==> Recently(times, now) < 5
  {
    SinceIsRecently(times, now);
  }

  function Get(m: map<string, seq<int>>, ip: string): seq<int> {
    if ip in m then m[ip] else []
  }

  /** From `cutoff` on, `kept` and `history` hold the same times. */
  ghost predicate Agree(kept: seq<int>, history: seq<int>, cutoff: int) {
    forall c :: c >= cutoff ==> Since(kept, c) == Since(history, c)
  }

  lemma {:induction false} AgreeSnoc(kept: seq<int>, history: seq<int>, cutoff: int, later: int, t: int)
    requires Agree(kept, history, cutoff) && cutoff <= later
    ensures Agree(kept + [t], history + [t], later)
  {
    forall c | c >= later ensures Since(kept + [t], c) == Since(history + [t], c) {
      SinceSnoc(kept, t, c);
      SinceSnoc(history, t, c);
    }
  }

  lemma AgreePruned(kept: seq<int>, history: seq<int>, cutoff: int, later: int)
    requires Agree(kept, history, cutoff) && cutoff <= later
    ensures Agree(Since(kept, later), history, later)
  {
    forall c | c >= later ensures Since(Since(kept, later), c) == Since(history, c) {
      SinceTwice(kept, later, c);
    }
  }

  /** Compaction inside the backing array: the times from `cutoff` on move to the front. */
  method Compact(a: array<int>, cutoff: int) returns (kept: nat)
    modifies a
    ensures kept <= a.Length && a[..kept] == Since(old(a[..]), cutoff)
  {
    kept := 0;
    ghost var was := a[..];
    for i := 0 to a.Length
      invariant kept <= i && forall j :: i <= j < a.Length ==> a[j] == was[j]
      invariant a[..kept] == Since(was[..i], cutoff)
    {
      var ts := a[i];
      assert was[..i + 1] == was[..i] + [ts];
      SinceSnoc(was[..i], ts, cutoff);
      if ts >= cutoff {
        a[kept] := ts;
        kept := kept + 1;
        assert a[..kept] == a[..kept - 1] + [ts];
      }
    }
    assert was[..a.Length] == was;
  }

  class RateLimiter {
    var attempts: map<string, seq<int>>
    /** Everything ever recorded, and the latest time seen. */
    ghost var history: map<string, seq<int>>
    ghost var clock: int

    ghost predicate Valid()
      reads this
    {
      forall ip :: Agree(Get(attempts, ip), Get(history, ip), clock - WINDOW)
    }

    constructor (ghost now: int)
      ensures Valid() && attempts == map[] && history == map[] && clock == now
    {
      attempts := map[];
      history := map[];
      clock := now;
    }

    /** The answer is the one the full history gives, although old times have been pruned away. */
    method Allow(ip: string, now: int) returns (ok: bool)
      requires Valid() && clock <= now
      modifies this
      ensures Valid() && clock == now && history == old(history)
      ensures ok == (Recently(Get(history, ip), now) < 5)
      ensures attempts == old(attempts)[ip := Since(Get(old(attempts), ip), now - WINDOW)]
    {
      var cutoff := now - WINDOW;
      var was := Get(attempts, ip);
      var backing := new int[|was|](i requires 0 <= i < |was| => was[i]);
      assert backing[..] == was;
      var kept := Compact(backing, cutoff);
      attempts := attempts[ip := backing[..kept]];
      forall other ensures Agree(Get(attempts, other), Get(history, other), cutoff) {
        assert Agree(Get(old(attempts), other), Get(history, other), clock - WINDOW);
        if other == ip {
          AgreePruned(was, Get(history, ip), clock - WINDOW, cutoff);
        }
      }
      clock := now;
      assert Agree(Get(attempts, ip), Get(history, ip), cutoff);
      SinceTwice(was, cutoff, cutoff);
      MayTryIs(Get(history, ip), now);
      return kept < LIMIT;
    }

    method Record(ip: string, now: int)
      requires Valid() && clock <= now
      modifies this
      ensures Valid() && clock == now
      ensures history == old(history)[ip := Get(old(history), ip) + [now]]
      ensures attempts == old(attempts)[ip := Get(old(attempts), ip) + [now]]
    {
      assert Agree(Get(attempts, ip), Get(history, ip), clock - WINDOW);
      AgreeSnoc(Get(attempts, ip), Get(history, ip), clock - WINDOW, now - WINDOW, now);
      attempts := attempts[ip := Get(attempts, ip) + [now]];
      history := history[ip := Get(history, ip) + [now]];
      forall other | other != ip ensures Agree(Get(attempts, other), Get(history, other), now - WINDOW) {
        assert Agree(Get(old(attempts), other), Get(old(history), other), clock - WINDOW);
      }
      clock := now;
    }
  }
}
