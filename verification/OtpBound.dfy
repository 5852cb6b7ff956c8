/**
 The guessing bound and the prune job. The bound of `Otps.GuessingIsBounded` has a term for the failed
 attempts that prunes forget; here: for which configurations it holds without that term, in every run.
 */
module OtpBounds {
  import opened Otps
  import opened OtpCalls

  /** No run, with prunes at any instants, has more than `maxAttempts` evaluated wrong codes for a
      phone within lockout - ttl. */
  ghost predicate BoundHolds(cfg: Config) {
    forall start, events, phone, from, to ::
      Timely(start, events) && to - from <= cfg.lockout - cfg.ttl ==>
        WrongBetween(Run(cfg, start, events).log, phone, from, to) <= cfg.maxAttempts
  }

  /** The exact condition. Apart from configurations in which no code can be guessed at, or in which
      the interval is empty, the bound survives prunes only with a single attempt and a lockout that
      hardly outlasts the code. */
  lemma BoundHoldsIff(cfg: Config)
    ensures BoundHolds(cfg) <==>
            || cfg.maxAttempts == 0 || cfg.ttl == 0 || cfg.lockout < cfg.ttl
            || (cfg.maxAttempts == 1 && cfg.lockout < cfg.ttl + 2)
  {
    hide Run, Timely, WrongBetween;
    if cfg.maxAttempts == 0 || cfg.ttl == 0 || cfg.lockout < cfg.ttl || (cfg.maxAttempts == 1 && cfg.lockout < cfg.ttl + 2) {
      forall start, events, phone, from, to | Timely(start, events) && to - from <= cfg.lockout - cfg.ttl
        ensures WrongBetween(Run(cfg, start, events).log, phone, from, to) <= cfg.maxAttempts
      {
        BoundSurvivesPrunes(cfg, start, events, phone, from, to);
      }
    } else {
      var events, from, to := PruneForgetsAttempts(cfg);
      assert Timely(0, events);
    }
  }

  lemma BoundSurvivesPrunes(cfg: Config, start: int, events: seq<Timed>, phone: Phone, from: int, to: int)
    requires cfg.maxAttempts == 0 || cfg.ttl == 0 || cfg.lockout < cfg.ttl || (cfg.maxAttempts == 1 && cfg.lockout < cfg.ttl + 2)
    requires Timely(start, events) && to - from <= cfg.lockout - cfg.ttl
    ensures WrongBetween(Run(cfg, start, events).log, phone, from, to) <= cfg.maxAttempts
  {
    hide Run, Timely, WrongBetween, Guarded, Spread;
    if cfg.maxAttempts == 0 || cfg.ttl == 0 {
      NothingToGuess(cfg, start, events);
      NoneBetween(Run(cfg, start, events).log, phone, from, to);
    } else if cfg.lockout < cfg.ttl {
      EmptyInterval(Run(cfg, start, events).log, phone, from, to);
    } else {
      RunKeepsGuard(cfg, start, events, phone);
      AtMostOne(cfg, Run(cfg, start, events).log, phone, from, to);
    }
  }

  // ----- where nothing can be guessed at -----

  ghost predicate NoWrongs(log: seq<Entry>) {
    forall i :: 0 <= i < |log| ==> !log[i].deed.WrongCode?
  }

  lemma {:induction false} NothingToGuess(cfg: Config, start: int, events: seq<Timed>)
    requires (cfg.maxAttempts == 0 || cfg.ttl == 0) && Timely(start, events)
    ensures NoWrongs(Run(cfg, start, events).log)
  {
    hide EffectOf, Attempts;
    if events != [] {
      var n := |events| - 1;
      NothingToGuess(cfg, start, events[..n]);
      RunPrefix(cfg, start, events);
      RunKeepsInv(cfg, start, events[..n]);
      EffectIsAllowed(cfg, Run(cfg, start, events[..n]), events[n]);
    }
  }

  lemma {:induction false} NoneBetween(log: seq<Entry>, phone: Phone, from: int, to: int)
    requires forall i :: 0 <= i < |log| && log[i].deed.WrongCode? && log[i].phone == phone ==> !(from <= log[i].at <= to)
    ensures WrongBetween(log, phone, from, to) == 0
  {
    if log != [] {
      NoneBetween(log[..|log| - 1], phone, from, to);
    }
  }

  lemma EmptyInterval(log: seq<Entry>, phone: Phone, from: int, to: int)
    requires to < from
    ensures WrongBetween(log, phone, from, to) == 0
  {
    NoneBetween(log, phone, from, to);
  }

  // ----- one attempt, and a lockout that hardly outlasts the code -----

  /** The row that a wrong code was evaluated against still stands: it locks the phone. */
  ghost predicate Stands(rows: seq<Otp>, phone: Phone, createdAt: int) {
    exists k :: 0 <= k < |rows| && rows[k].phone == phone && rows[k].createdAt == createdAt
                && rows[k].status == Unused && rows[k].attempts >= 1
  }

  /** The row stands as long as a second wrong code would come too soon. */
  ghost predicate Guarded(cfg: Config, w: World, phone: Phone) {
    forall i :: 0 <= i < |w.log| && w.log[i].phone == phone && w.log[i].deed.WrongCode? ==>
                  w.clock > w.log[i].at + cfg.lockout - cfg.ttl || Stands(w.rows, phone, w.log[i].deed.otpCreatedAt)
  }

  ghost predicate Spread(cfg: Config, log: seq<Entry>, phone: Phone) {
    forall i, j :: 0 <= i < j < |log| && log[i].phone == phone == log[j].phone && log[i].deed.WrongCode? && log[j].deed.WrongCode? ==>
                     log[j].at > log[i].at + cfg.lockout - cfg.ttl
  }

  lemma {:induction false} StandingRowLocks(rows: seq<Otp>, phone: Phone, createdAt: int, since: int)
    requires Stands(rows, phone, createdAt) && createdAt > since
    ensures Attempts(rows, phone, since) >= 1
  {
    var n := |rows| - 1;
    if !(rows[n].phone == phone && rows[n].createdAt == createdAt && rows[n].status == Unused && rows[n].attempts >= 1) {
      var k :| 0 <= k < |rows| && rows[k].phone == phone && rows[k].createdAt == createdAt
               && rows[k].status == Unused && rows[k].attempts >= 1;
      assert rows[..n][k] == rows[k];
      StandingRowLocks(rows[..n], phone, createdAt, since);
    }
  }

  lemma {:induction false} KeptHas(rows: seq<Otp>, now: int, k: nat)
    requires k < |rows| && !Pruned(rows[k], now)
    ensures rows[k] in Kept(rows, now)
  {
    if k < |rows| - 1 {
      KeptHas(rows[..|rows| - 1], now, k);
    }
  }

  /** A standing row survives every effect that comes before the guard's time is over. */
  lemma ApplyKeepsStanding(cfg: Config, w: World, now: int, f: Effect, phone: Phone, createdAt: int)
    requires Inv(cfg, w) && Allowed(cfg, w.rows, now, f) && cfg.maxAttempts == 1
    requires Stands(w.rows, phone, createdAt) && now - cfg.lockout < createdAt && now <= createdAt + cfg.ttl
    ensures Stands(Apply(w, now, f).rows, phone, createdAt)
    ensures (f.Attempt? || f.Redeem?) ==> w.rows[f.k].phone != phone
  {
    hide Attempts, Spaced, Kept;
    StandingRowLocks(w.rows, phone, createdAt, now - cfg.lockout);
    var k :| 0 <= k < |w.rows| && w.rows[k].phone == phone && w.rows[k].createdAt == createdAt
             && w.rows[k].status == Unused && w.rows[k].attempts >= 1;
    var rows := Apply(w, now, f).rows;
    if f.Sweep? {
      KeptHas(w.rows, now, k);
      var i :| 0 <= i < |rows| && rows[i] == w.rows[k];
    } else {
      assert rows[k] == w.rows[k];
    }
  }

  lemma ApplyKeepsGuard(cfg: Config, w: World, now: int, f: Effect, phone: Phone)
    requires cfg.maxAttempts == 1 && cfg.ttl <= cfg.lockout < cfg.ttl + 2
    requires Inv(cfg, w) && w.clock <= now && Allowed(cfg, w.rows, now, f) && FreshWrongs(cfg, w.log)
    requires Guarded(cfg, w, phone) && Spread(cfg, w.log, phone)
    ensures Guarded(cfg, Apply(w, now, f), phone) && Spread(cfg, Apply(w, now, f).log, phone)
  {
    hide Attempts, Inv, Stands, Kept;
    var w' := Apply(w, now, f);
    forall i | 0 <= i < |w.log| && w.log[i].phone == phone && w.log[i].deed.WrongCode? && now <= w.log[i].at + cfg.lockout - cfg.ttl
      ensures Stands(w'.rows, phone, w.log[i].deed.otpCreatedAt)
      ensures (f.Attempt? || f.Redeem?) ==> w.rows[f.k].phone != phone
    {
      ApplyKeepsStanding(cfg, w, now, f, phone, w.log[i].deed.otpCreatedAt);
    }
    if f.Attempt? {
      NewGuard(w.rows, f.k);
    }
  }

  lemma NewGuard(rows: seq<Otp>, k: nat)
    requires k < |rows| && rows[k].status == Unused
    ensures Stands(WithAttempt(rows, k), rows[k].phone, rows[k].createdAt)
  {
    assert WithAttempt(rows, k)[k].attempts >= 1;
  }

  lemma {:induction false} RunKeepsGuard(cfg: Config, start: int, events: seq<Timed>, phone: Phone)
    requires cfg.maxAttempts == 1 && cfg.ttl <= cfg.lockout < cfg.ttl + 2 && Timely(start, events)
    ensures Guarded(cfg, Run(cfg, start, events), phone) && Spread(cfg, Run(cfg, start, events).log, phone)
  {
    hide EffectOf, Apply, Inv, Stands, Allowed;
    if events != [] {
      var n := |events| - 1;
      var w, t := Run(cfg, start, events[..n]), events[n];
      RunKeepsGuard(cfg, start, events[..n], phone);
      RunPrefix(cfg, start, events);
      RunKeepsInv(cfg, start, events[..n]);
      WrongsAreFresh(cfg, start, events[..n]);
      EffectIsAllowed(cfg, w, t);
      ApplyKeepsGuard(cfg, w, t.now, EffectOf(cfg, w.rows, t), phone);
    }
  }

  lemma {:induction false} AtMostOne(cfg: Config, log: seq<Entry>, phone: Phone, from: int, to: int)
    requires Spread(cfg, log, phone) && to - from <= cfg.lockout - cfg.ttl
    ensures WrongBetween(log, phone, from, to) <= 1
  {
    if log != [] {
      var n := |log| - 1;
      AtMostOne(cfg, log[..n], phone, from, to);
      if log[n].phone == phone && log[n].deed.WrongCode? && from <= log[n].at <= to {
        NoneBetween(log[..n], phone, from, to);
      }
    }
  }

  // ----- runs that break the bound -----

  const Code := "000000"
  const Guess := "111111"

  lemma CodesCompare()
    ensures Compare(Guess, Code) == Different && Compare(Code, Code) == Same
  {
    assert Guess[0] == '1' && Code[0] == '0';
    SixDigitCodes(Guess, Code);
    SixDigitCodes(Code, Code);
    ComparisonMeans(Guess, Code);
    ComparisonMeans(Code, Code);
  }

  /** A run from time 0, and the world it ends in. */
  ghost predicate Leads(cfg: Config, events: seq<Timed>, w: World) {
    Timely(0, events) && Run(cfg, 0, events) == w
  }

  lemma Extend(cfg: Config, events: seq<Timed>, w: World, t: Timed, w': World)
    requires Leads(cfg, events, w) && w.clock <= t.now && Step(cfg, w, t) == w'
    ensures Leads(cfg, events + [t], w')
  {
    hide Step;
    var more := events + [t];
    assert more[..|events|] == events;
    if events != [] {
      RunPrefix(cfg, 0, events);
    }
  }

  lemma SingleRow(o: Otp, since: int, now: int)
    ensures Attempts([o], o.phone, since) == if o.createdAt > since then o.attempts else 0
    ensures Newest([o], o.phone) == if o.status == Unused then 0 else -1
    ensures Pruned(o, now) ==> Kept([o], now) == []
  {
    assert [o][..0] == [];
  }

  function Fresh(cfg: Config, now: int): Otp {
    Otp(7, Code, Unused, 0, now, now + cfg.ttl)
  }

  lemma RequestStep(cfg: Config, log: seq<Entry>, clock: int, now: int)
    ensures Step(cfg, World([], log, clock), At(now, Request(7, true, false, Code)))
         == World([Fresh(cfg, now)], log + [Entry(7, now, Created)], now)
  {}

  lemma WrongStep(cfg: Config, o: Otp, log: seq<Entry>, clock: int, now: int)
    requires o.phone == 7 && o.code == Code && o.status == Unused && o.expiresAt > now && o.attempts < cfg.maxAttempts
    ensures Step(cfg, World([o], log, clock), At(now, Verify(7, Guess)))
         == World([o.(attempts := o.attempts + 1)], log + [Entry(7, now, WrongCode(o.createdAt))], now)
  {
    hide Compare, Attempts, Newest;
    CodesCompare();
    SingleRow(o, now - cfg.lockout, now);
  }

  lemma RedeemStep(cfg: Config, o: Otp, log: seq<Entry>, clock: int, now: int)
    requires o.phone == 7 && o.code == Code && o.status == Unused && o.expiresAt > now && o.attempts < cfg.maxAttempts
    ensures Step(cfg, World([o], log, clock), At(now, Verify(7, Code)))
         == World([o.(status := Used)], log + [Entry(7, now, Redeemed)], now)
  {
    hide Compare, Attempts, Newest;
    CodesCompare();
    SingleRow(o, now - cfg.lockout, now);
  }

  lemma PruneStep(cfg: Config, o: Otp, log: seq<Entry>, clock: int, now: int)
    requires Pruned(o, now)
    ensures Step(cfg, World([o], log, clock), At(now, Prune)) == World([], log, now)
  {
    SingleRow(o, now, now);
  }

  lemma CountOn(log: seq<Entry>, e: Entry, from: int, to: int)
    ensures WrongBetween(log + [e], 7, from, to)
         == WrongBetween(log, 7, from, to) + (if e.phone == 7 && e.deed.WrongCode? && from <= e.at <= to then 1 else 0)
  {
    assert (log + [e])[..|log|] == log;
  }

  /** One wrong code, then a prune that forgets it: because the code was redeemed after all, or
      because it has expired. */
  lemma OneForgotten(cfg: Config) returns (events: seq<Timed>, log: seq<Entry>, from: int, to: int)
    requires cfg.maxAttempts >= 1 && 1 <= cfg.ttl <= cfg.lockout && (cfg.maxAttempts >= 2 || cfg.ttl + 2 <= cfg.lockout)
    ensures Leads(cfg, events, World([], log, to))
    ensures from <= to <= from + cfg.lockout - cfg.ttl && WrongBetween(log, 7, from, to) == 1
  {
    hide Leads, Step, Run, Timely, Compare;
    var o := Fresh(cfg, 0);
    var tried := o.(attempts := 1);
    var at := if cfg.maxAttempts >= 2 then 0 else cfg.ttl - 1;
    var created, wrong := Entry(7, 0, Created), Entry(7, at, WrongCode(0));
    StartHere(cfg);
    RequestStep(cfg, [], 0, 0);
    Extend(cfg, [], Init(0), At(0, Request(7, true, false, Code)), World([o], [] + [created], 0));
    events := [] + [At(0, Request(7, true, false, Code))];
    WrongStep(cfg, o, [] + [created], 0, at);
    Extend(cfg, events, World([o], [] + [created], 0), At(at, Verify(7, Guess)), World([tried], [] + [created] + [wrong], at));
    events := events + [At(at, Verify(7, Guess))];
    log := [] + [created] + [wrong];
    from := at;
    to := if cfg.maxAttempts >= 2 then 0 else cfg.ttl + 1;
    assert WrongBetween([], 7, from, to) == 0;
    CountOn([], created, from, to);
    CountOn([] + [created], wrong, from, to);
    if cfg.maxAttempts >= 2 {
      var redeemed := Entry(7, 0, Redeemed);
      RedeemStep(cfg, tried, log, 0, 0);
      Extend(cfg, events, World([tried], log, 0), At(0, Verify(7, Code)), World([tried.(status := Used)], log + [redeemed], 0));
      events := events + [At(0, Verify(7, Code))];
      CountOn(log, redeemed, from, to);
      log := log + [redeemed];
      PruneStep(cfg, tried.(status := Used), log, 0, 0);
      Extend(cfg, events, World([tried.(status := Used)], log, 0), At(0, Prune), World([], log, 0));
      events := events + [At(0, Prune)];
    } else {
      PruneStep(cfg, tried, log, at, to);
      Extend(cfg, events, World([tried], log, at), At(to, Prune), World([], log, to));
      events := events + [At(to, Prune)];
    }
  }

  lemma StartHere(cfg: Config)
    ensures Leads(cfg, [], Init(0)) && Init(0) == World([], [], 0)
  {}

  /** From a fresh code, `k` more wrong codes at the same instant. */
  lemma {:induction false} GuessOn(cfg: Config, events: seq<Timed>, log: seq<Entry>, from: int, now: int, k: nat)
    returns (events': seq<Timed>, log': seq<Entry>)
    requires cfg.ttl >= 1 && k <= cfg.maxAttempts && from <= now
    requires Leads(cfg, events, World([Fresh(cfg, now)], log, now))
    ensures Leads(cfg, events', World([Fresh(cfg, now).(attempts := k)], log', now))
    ensures WrongBetween(log', 7, from, now) == WrongBetween(log, 7, from, now) + k
  {
    hide Leads, Step, WrongBetween;
    if k == 0 {
      events', log' := events, log;
    } else {
      var before, sofar := GuessOn(cfg, events, log, from, now, k - 1);
      var o := Fresh(cfg, now).(attempts := k - 1);
      var wrong := Entry(7, now, WrongCode(now));
      WrongStep(cfg, o, sofar, now, now);
      Extend(cfg, before, World([o], sofar, now), At(now, Verify(7, Guess)), World([o.(attempts := k)], sofar + [wrong], now));
      CountOn(sofar, wrong, from, now);
      events', log' := before + [At(now, Verify(7, Guess))], sofar + [wrong];
    }
  }

  /** The prune job lets a phone be guessed at too often: a failed attempt is forgotten, and a fresh
      code takes `maxAttempts` more, all within lockout - ttl. */
  lemma PruneForgetsAttempts(cfg: Config) returns (events: seq<Timed>, from: int, to: int)
    requires cfg.maxAttempts >= 1 && 1 <= cfg.ttl <= cfg.lockout && (cfg.maxAttempts >= 2 || cfg.ttl + 2 <= cfg.lockout)
    ensures Timely(0, events) && to - from <= cfg.lockout - cfg.ttl
    ensures WrongBetween(Run(cfg, 0, events).log, 7, from, to) == cfg.maxAttempts + 1
  {
    hide Step, Run, Timely, WrongBetween;
    var log;
    events, log, from, to := OneForgotten(cfg);
    var created := Entry(7, to, Created);
    RequestStep(cfg, log, to, to);
    Extend(cfg, events, World([], log, to), At(to, Request(7, true, false, Code)), World([Fresh(cfg, to)], log + [created], to));
    CountOn(log, created, from, to);
    events, log := GuessOn(cfg, events + [At(to, Request(7, true, false, Code))], log + [created], from, to, cfg.maxAttempts);
  }
}
