/**
 The report rate limits: `ReportsService.checkDailyLimit` and `checkIpRateLimit`.

 Both count calls in a Redis key named after the subject and the UTC window (day or minute) of the
 call. INCR creates the key, the first INCR also sets its lifetime, and a key whose lifetime is over
 is gone. The argument does not depend on the two concrete windows, only on the lifetime being at
 least as long as the window. Instants are milliseconds since the epoch.
 */
module RateLimits {
  datatype Config = Config(window: int, lifetime: int, limit: int)

  ghost predicate Sound(cfg: Config) {
    0 < cfg.window <= cfg.lifetime && cfg.limit >= 0
  }

  const MINUTE := 60 * 1000
  const DAY := 24 * 60 * MINUTE

  /** REPORTS_DAILY_LIMIT: a day's key lives 36 hours. */
  function Daily(limit: nat): (cfg: Config)
    ensures Sound(cfg) && cfg.limit == limit
    ensures cfg.window == 24 * 3600000 && cfg.lifetime == cfg.window + cfg.window / 2
  {
    Config(DAY, 36 * 60 * MINUTE, limit)
  }

  /** REPORTS_PER_IP_PER_MINUTE: a minute's key lives 90 seconds. */
  function PerMinute(limit: nat): (cfg: Config)
    ensures Sound(cfg) && cfg.limit == limit
    ensures cfg.window == 60000 && cfg.lifetime == cfg.window + cfg.window / 2
  {
    Config(MINUTE, 90 * 1000, limit)
  }

  type Subject = nat

  datatype Counter = Counter(count: nat, expiresAt: int)

  datatype Call = Call(subject: Subject, at: int)

  /** The Redis keys, and the history of the calls that were let through. */
  datatype World = World(keys: map<(Subject, int), Counter>, passes: seq<Call>)

  /** INCR followed by EXPIRE when the result is 1. */
  function Increment(cfg: Config, keys: map<(Subject, int), Counter>, c: Call): Counter
    requires cfg.window > 0
  {
    var key := (c.subject, c.at / cfg.window);
    if key in keys && c.at < keys[key].expiresAt then keys[key].(count := keys[key].count + 1)
    else Counter(1, c.at + cfg.lifetime)
  }

  function Step(cfg: Config, w: World, c: Call): World
    requires cfg.window > 0
  {
    var counter := Increment(cfg, w.keys, c);
    World(w.keys[(c.subject, c.at / cfg.window) := counter],
          if counter.count <= cfg.limit then w.passes + [c] else w.passes)
  }

  function Run(cfg: Config, calls: seq<Call>): World
    requires cfg.window > 0
  {
    if calls == [] then World(map[], [])
    else Step(cfg, Run(cfg, calls[..|calls| - 1]), calls[|calls| - 1])
  }

  function CallsInWindow(cfg: Config, calls: seq<Call>, s: Subject, window: int): nat
    requires cfg.window > 0
  {
    if calls == [] then 0
    else
      var c := calls[|calls| - 1];
      CallsInWindow(cfg, calls[..|calls| - 1], s, window)
      + (if c.subject == s && c.at / cfg.window == window then 1 else 0)
  }

  function PassesBetween(passes: seq<Call>, s: Subject, from: int, to: int): nat {
    if passes == [] then 0
    else
      var c := passes[|passes| - 1];
      PassesBetween(passes[..|passes| - 1], s, from, to)
      + (if c.subject == s && from <= c.at <= to then 1 else 0)
  }

  function Min(a: int, b: int): int {
    if a < b then a else b
  }

  /** The key of a window, once created, outlives the window and counts its calls; of those the first
      `limit` pass. */
  ghost predicate Inv(cfg: Config, calls: seq<Call>, w: World, s: Subject, window: int)
    requires Sound(cfg)
  {
    var n := CallsInWindow(cfg, calls, s, window);
    && CallsInWindow(cfg, w.passes, s, window) == Min(n, cfg.limit)
    && ((s, window) in w.keys ==>
          w.keys[(s, window)].count == n && w.keys[(s, window)].expiresAt >= (window + 1) * cfg.window)
    && ((s, window) !in w.keys ==> n == 0)
  }

  lemma CountAppend(cfg: Config, calls: seq<Call>, c: Call, s: Subject, window: int)
    requires cfg.window > 0
    ensures CallsInWindow(cfg, calls + [c], s, window)
         == CallsInWindow(cfg, calls, s, window) + (if c.subject == s && c.at / cfg.window == window then 1 else 0)
  {
    assert (calls + [c])[..|calls|] == calls;
  }

  lemma StepKeepsInv(cfg: Config, calls: seq<Call>, w: World, c: Call, s: Subject, window: int)
    requires Sound(cfg) && Inv(cfg, calls, w, s, window)
    ensures Inv(cfg, calls + [c], Step(cfg, w, c), s, window)
  {
    hide CallsInWindow;
    CountAppend(cfg, calls, c, s, window);
    CountAppend(cfg, w.passes, c, s, window);
    if c.subject == s && c.at / cfg.window == window {
      WindowBounds(cfg.window, c.at, window);
    }
  }

  lemma WindowBounds(length: int, at: int, window: int)
    requires length > 0 && at / length == window
    ensures window * length <= at < (window + 1) * length
    ensures (window + 1) * length == window * length + length
  {}

  lemma {:induction false} RunKeepsInv(cfg: Config, calls: seq<Call>, s: Subject, window: int)
    requires Sound(cfg)
    ensures Inv(cfg, calls, Run(cfg, calls), s, window)
  {
    if calls != [] {
      var n := |calls| - 1;
      RunKeepsInv(cfg, calls[..n], s, window);
      StepKeepsInv(cfg, calls[..n], Run(cfg, calls[..n]), calls[n], s, window);
      assert calls[..n] + [calls[n]] == calls;
    }
  }

  /** For every run and every clock, of the calls of a subject in any one window the first `limit` pass
      and no more. */
  lemma AtMostLimitPerWindow(cfg: Config, calls: seq<Call>, s: Subject, window: int)
    requires Sound(cfg)
    ensures CallsInWindow(cfg, Run(cfg, calls).passes, s, window) == Min(CallsInWindow(cfg, calls, s, window), cfg.limit)
  {
    RunKeepsInv(cfg, calls, s, window);
  }

  /** A call passes exactly when fewer than `limit` calls of its subject came before it in its window. */
  lemma PassesIff(cfg: Config, calls: seq<Call>, c: Call)
    requires Sound(cfg)
    ensures var w := Run(cfg, calls);
            Step(cfg, w, c).passes == if CallsInWindow(cfg, calls, c.subject, c.at / cfg.window) < cfg.limit then w.passes + [c] else w.passes
  {
    hide Run, CallsInWindow;
    RunKeepsInv(cfg, calls, c.subject, c.at / cfg.window);
    WindowBounds(cfg.window, c.at, c.at / cfg.window);
  }

  /** The calls of the subject between two instants, both ends included. */
  ghost function Within(calls: seq<Call>, s: Subject, from: int, to: int): set<nat> {
    set i: nat | i < |calls| && calls[i].subject == s && calls[i].at >= from && calls[i].at <= to
  }

  lemma WithinAppend(calls: seq<Call>, c: Call, s: Subject, from: int, to: int)
    ensures Within(calls + [c], s, from, to)
         == Within(calls, s, from, to) + (if c.subject == s && c.at >= from && c.at <= to then {|calls|} else {})
  {
    assert (calls + [c])[|calls|] == c;
    assert forall i :: 0 <= i < |calls| ==> (calls + [c])[i] == calls[i];
  }

  lemma {:induction false} BetweenMeans(calls: seq<Call>, s: Subject, from: int, to: int)
    ensures PassesBetween(calls, s, from, to) == |Within(calls, s, from, to)|
  {
    if calls == [] {
      assert Within(calls, s, from, to) == {};
    } else {
      var n := |calls| - 1;
      BetweenMeans(calls[..n], s, from, to);
      WithinAppend(calls[..n], calls[n], s, from, to);
      assert calls == calls[..n] + [calls[n]];
      assert n !in Within(calls[..n], s, from, to);
    }
  }

  lemma {:induction false} IntervalMeetsTwoWindows(cfg: Config, passes: seq<Call>, s: Subject, from: int)
    requires cfg.window > 0
    ensures PassesBetween(passes, s, from, from + cfg.window)
         <= CallsInWindow(cfg, passes, s, from / cfg.window)
            + CallsInWindow(cfg, passes, s, from / cfg.window + 1)
  {
    if passes != [] {
      IntervalMeetsTwoWindows(cfg, passes[..|passes| - 1], s, from);
      var at := passes[|passes| - 1].at;
      if from <= at <= from + cfg.window {
        NeighbouringWindows(cfg.window, from, at);
      }
    }
  }

  lemma NeighbouringWindows(length: int, from: int, at: int)
    requires length > 0 && from <= at <= from + length
    ensures at / length == from / length || at / length == from / length + 1
  {
    var p, q := from / length, at / length;
    WindowBounds(length, from, p);
    WindowBounds(length, at, q);
    Cancel(p, q + 1, length);
    assert (p + 2) * length == (p + 1) * length + length;
    Cancel(q, p + 2, length);
  }

  lemma Cancel(a: int, b: int, c: int)
    requires c > 0 && a * c < b * c
    ensures a < b
  {}

  /** Hence any interval as long as the window, placed anywhere, sees at most twice the limit. */
  lemma AtMostTwiceLimitAnywhere(cfg: Config, calls: seq<Call>, s: Subject, from: int)
    requires Sound(cfg)
    ensures |Within(Run(cfg, calls).passes, s, from, from + cfg.window)| <= 2 * cfg.limit
  {
    BetweenMeans(Run(cfg, calls).passes, s, from, from + cfg.window);
    var passes := Run(cfg, calls).passes;
    AtMostLimitPerWindow(cfg, calls, s, from / cfg.window);
    AtMostLimitPerWindow(cfg, calls, s, from / cfg.window + 1);
    IntervalMeetsTwoWindows(cfg, passes, s, from);
  }

  /** The lifetime is what makes it work: with any shorter one, a limit of one call per window lets
      two through in the same window. */
  lemma ShortLifetimeBreaksTheLimit(cfg: Config, s: Subject)
    requires 0 <= cfg.lifetime < cfg.window && cfg.limit == 1
    ensures CallsInWindow(cfg, Run(cfg, [Call(s, 0), Call(s, cfg.lifetime)]).passes, s, 0) == 2
  {
    var c1, c2 := Call(s, 0), Call(s, cfg.lifetime);
    assert cfg.lifetime / cfg.window == 0 && 0 / cfg.window == 0;
    assert [c1, c2][..1] == [c1] && [c1][..0] == [];
    assert Run(cfg, [c1]) == Step(cfg, Run(cfg, []), c1);
    assert Run(cfg, [c1, c2]) == Step(cfg, Run(cfg, [c1]), c2);
    var keys := map[(s, 0) := Counter(1, cfg.lifetime)];
    assert Step(cfg, World(map[], []), c1) == World(keys, [c1]);
    assert Increment(cfg, keys, c2).count == 1;
    assert Run(cfg, [c1, c2]).passes == [c1, c2];
    assert CallsInWindow(cfg, [], s, 0) == 0;
    assert CallsInWindow(cfg, [c1], s, 0) == 1;
  }

  class FixedWindowLimiter {
    const cfg: Config
    var keys: map<(Subject, int), Counter>
    ghost var passes: seq<Call>
    ghost var calls: seq<Call>

    /** The keys and the passes are those of the calls made so far. */
    ghost predicate Valid()
      reads this
    {
      Sound(cfg) && World(keys, passes) == Run(cfg, calls)
    }

    constructor (cfg: Config)
      requires Sound(cfg)
      ensures Valid() && this.cfg == cfg && calls == []
    {
      this.cfg := cfg;
      keys, passes, calls := map[], [], [];
    }

    /** One rate-limited call. It may go on exactly when fewer than `limit` calls of the subject came
        before it in the same window; so the calls that went on never exceed the limit in a window. */
    method Check(subject: Subject, now: int) returns (pass: bool)
      requires Valid()
      modifies this
      ensures Valid() && calls == old(calls) + [Call(subject, now)]
      ensures pass <==> CallsInWindow(cfg, old(calls), subject, now / cfg.window) < cfg.limit
      ensures passes == if pass then old(passes) + [Call(subject, now)] else old(passes)
      ensures forall s, window :: CallsInWindow(cfg, passes, s, window) <= cfg.limit
    {
      hide CallsInWindow;
      ghost var c, was := Call(subject, now), calls;
      PassesIff(cfg, calls, c);
      var key := (subject, now / cfg.window);
      var count, expiresAt := 1, now + cfg.lifetime;
      if key in keys && now < keys[key].expiresAt {
        count, expiresAt := keys[key].count + 1, keys[key].expiresAt;
      }
      keys := keys[key := Counter(count, expiresAt)];
      pass := count <= cfg.limit;
      if pass {
        passes := passes + [c];
      }
      calls := calls + [c];
      assert calls[..|was|] == was;
      forall s, window ensures CallsInWindow(cfg, passes, s, window) <= cfg.limit {
        AtMostLimitPerWindow(cfg, calls, s, window);
      }
    }
  }

  /** The two limits as `create` applies them: only for plain users, day first, then IP if known. */
  class ReportLimits {
    const daily: FixedWindowLimiter
    const perIp: FixedWindowLimiter

    ghost predicate Valid()
      reads this, daily, perIp
    {
      daily != perIp && daily.Valid() && perIp.Valid()
    }

    constructor (dailyLimit: nat, ipLimit: nat)
      ensures Valid() && fresh(daily) && fresh(perIp)
      ensures daily.cfg == Daily(dailyLimit) && perIp.cfg == PerMinute(ipLimit)
      ensures daily.calls == [] && perIp.calls == []
    {
      daily := new FixedWindowLimiter(Daily(dailyLimit));
      perIp := new FixedWindowLimiter(PerMinute(ipLimit));
    }

    /** A plain user is admitted exactly when the day's limit leaves room and, if the IP is known, the
        minute's limit does. A call that the day refuses is not counted against the IP, but one that
        the IP refuses is counted against the day. */
    method Admit(plainUser: bool, user: Subject, hasIp: bool, ip: Subject, now: int) returns (ok: bool)
      requires Valid()
      modifies daily, perIp
      ensures Valid()
      ensures var today := CallsInWindow(daily.cfg, old(daily.calls), user, now / daily.cfg.window) < daily.cfg.limit;
              var minute := CallsInWindow(perIp.cfg, old(perIp.calls), ip, now / perIp.cfg.window) < perIp.cfg.limit;
              && (ok <==> (plainUser ==> today && (hasIp ==> minute)))
              && daily.calls == (if plainUser then old(daily.calls) + [Call(user, now)] else old(daily.calls))
              && perIp.calls == (if plainUser && today && hasIp then old(perIp.calls) + [Call(ip, now)] else old(perIp.calls))
    {
      ok := true;
      if plainUser {
        ok := daily.Check(user, now);
        if ok && hasIp {
          ok := perIp.Check(ip, now);
        }
      }
    }
  }
}
