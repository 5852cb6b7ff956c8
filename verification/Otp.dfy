/**
 One-time passwords: `OtpService.requestOtp`, `OtpService.verifyOtp` and the OTP part of the
 daily prune job, as steps of one transition system under a non-decreasing clock.

 All durations and instants are in milliseconds. A `World` is the OTP table together with the
 history of what the service did, so that statements about whole runs can be made about it.
 */
module Otps {
  type Phone = nat

  /** OTP_TTL, OTP_RESEND_COOLDOWN, OTP_MAX_ATTEMPTS and OTP_LOCKOUT. */
  datatype Config = Config(ttl: nat, cooldown: nat, maxAttempts: nat, lockout: nat)

  datatype Status = Unused | Used

  datatype Otp = Otp(phone: Phone, code: string, status: Status, attempts: nat,
                     createdAt: int, expiresAt: int)

  datatype Reply =
    | LinkRequired
    | AlreadySent(canResendAt: int)
    | Sent
    | LockedOut
    | NoActiveOtp
    | Expired
    | CompareError
    | WrongNowLocked
    | WrongRemaining(remaining: int)
    | Verified

  /** What a call did to the table. `WrongCode` names the creation time of the OTP it was
      evaluated against. */
  datatype Deed = Created | WrongCode(otpCreatedAt: int) | Redeemed

  datatype Entry = Entry(phone: Phone, at: int, deed: Deed)

  datatype World = World(rows: seq<Otp>, log: seq<Entry>, clock: int)

  datatype Event =
    | Request(phone: Phone, linked: bool, devBypass: bool, code: string)
    | Verify(phone: Phone, code: string)
    | Prune

  datatype Timed = At(now: int, event: Event)

  // ----- the queries -----

  /** Sum of `attempts` over the phone's rows created after `since`. */
  function Attempts(rows: seq<Otp>, phone: Phone, since: int): nat {
    if rows == [] then 0
    else
      var last := rows[|rows| - 1];
      Attempts(rows[..|rows| - 1], phone, since)
      + (if last.phone == phone && last.createdAt > since then last.attempts else 0)
  }

  predicate Candidate(o: Otp, phone: Phone) {
    o.phone == phone && o.status == Unused
  }

  /** Position of the newest UNUSED row of the phone; rows stand in creation order. */
  function Newest(rows: seq<Otp>, phone: Phone): (k: int)
    ensures -1 <= k < |rows|
    ensures k >= 0 ==> Candidate(rows[k], phone)
    ensures forall i :: k < i < |rows| ==> !Candidate(rows[i], phone)
  {
    if rows == [] then -1
    else if Candidate(rows[|rows| - 1], phone) then |rows| - 1
    else Newest(rows[..|rows| - 1], phone)
  }

  /** The newest UNUSED row created at or after `since`, if any. */
  function Recent(rows: seq<Otp>, phone: Phone, since: int): (k: int)
    ensures -1 <= k < |rows|
  {
    var k := Newest(rows, phone);
    if k >= 0 && rows[k].createdAt >= since then k else -1
  }

  // ----- comparing codes -----

  function PadStart(code: string): string {
    if |code| >= 6 then code else seq(6 - |code|, _ => '0') + code
  }

  /** Bytes of the UTF-8 form, which is what the constant-time comparison works on. */
  function ByteLength(s: string): nat {
    if s == [] then 0
    else
      ByteLength(s[..|s| - 1])
      + (if s[|s| - 1] < '\U{80}' then 1 else if s[|s| - 1] < '\U{800}' then 2
         else if s[|s| - 1] < '\U{10000}' then 3 else 4)
  }

  datatype Comparison = Same | Different | Throws

  function Compare(provided: string, expected: string): Comparison {
    var a, b := PadStart(provided), PadStart(expected);
    if |a| != |b| then Different
    else if ByteLength(a) != ByteLength(b) then Throws
    else if a == b then Same
    else Different
  }

  // ----- the steps -----

  function RequestReply(cfg: Config, rows: seq<Otp>, now: int, e: Event): Reply
    requires e.Request?
  {
    var k := Recent(rows, e.phone, now - cfg.cooldown);
    if !e.linked && !e.devBypass then LinkRequired
    else if k >= 0 then AlreadySent(rows[k].createdAt + cfg.cooldown)
    else Sent
  }

  function VerifyReply(cfg: Config, rows: seq<Otp>, now: int, e: Event): Reply
    requires e.Verify?
  {
    var total := Attempts(rows, e.phone, now - cfg.lockout);
    var k := Newest(rows, e.phone);
    if total >= cfg.maxAttempts then LockedOut
    else if k < 0 then NoActiveOtp
    else if rows[k].expiresAt <= now then Expired
    else match Compare(e.code, rows[k].code)
      case Throws => CompareError
      case Same => Verified
      case Different =>
        if total + 1 >= cfg.maxAttempts then WrongNowLocked
        else WrongRemaining(cfg.maxAttempts - total - 1)
  }

  predicate IsWrong(r: Reply) {
    r.WrongNowLocked? || r.WrongRemaining?
  }

  function NewOtp(cfg: Config, now: int, e: Event): Otp
    requires e.Request?
  {
    Otp(e.phone, e.code, Unused, 0, now, now + cfg.ttl)
  }

  predicate Pruned(o: Otp, now: int) {
    o.expiresAt < now || o.status == Used
  }

  /** The rows the prune job keeps. */
  function Kept(rows: seq<Otp>, now: int): seq<Otp> {
    if rows == [] then []
    else
      var rest := Kept(rows[..|rows| - 1], now);
      if Pruned(rows[|rows| - 1], now) then rest else rest + [rows[|rows| - 1]]
  }

  function WithAttempt(rows: seq<Otp>, k: nat): seq<Otp>
    requires k < |rows|
  {
    rows[k := rows[k].(attempts := rows[k].attempts + 1)]
  }

  function WithUsed(rows: seq<Otp>, k: nat): seq<Otp>
    requires k < |rows|
  {
    rows[k := rows[k].(status := Used)]
  }

  /** What a call changes: nothing, a new row, a failed attempt, a redemption, or a prune. */
  datatype Effect = Nothing | Insert(row: Otp) | Attempt(k: int) | Redeem(k: int) | Sweep

  function EffectOf(cfg: Config, rows: seq<Otp>, t: Timed): Effect {
    match t.event
    case Request(_, _, _, _) =>
      if RequestReply(cfg, rows, t.now, t.event) == Sent then Insert(NewOtp(cfg, t.now, t.event))
      else Nothing
    case Verify(phone, _) =>
      var r := VerifyReply(cfg, rows, t.now, t.event);
      if IsWrong(r) then Attempt(Newest(rows, phone))
      else if r == Verified then Redeem(Newest(rows, phone))
      else Nothing
    case Prune => Sweep
  }

  /** The facts the branches of the two calls establish before they write. */
  ghost predicate Allowed(cfg: Config, rows: seq<Otp>, now: int, f: Effect) {
    match f
    case Nothing => true
    case Insert(o) =>
      && o == Otp(o.phone, o.code, Unused, 0, now, now + cfg.ttl)
      && (forall i :: 0 <= i < |rows| && Candidate(rows[i], o.phone) ==>
            rows[i].createdAt < now - cfg.cooldown)
    case Attempt(k) =>
      && 0 <= k < |rows| && rows[k].status == Unused && rows[k].expiresAt > now
      && Attempts(rows, rows[k].phone, now - cfg.lockout) < cfg.maxAttempts
    case Redeem(k) =>
      && 0 <= k < |rows| && rows[k].status == Unused && rows[k].expiresAt > now
      && Attempts(rows, rows[k].phone, now - cfg.lockout) < cfg.maxAttempts
    case Sweep => true
  }

  function Apply(w: World, now: int, f: Effect): World
    requires f.Attempt? ==> 0 <= f.k < |w.rows|
    requires f.Redeem? ==> 0 <= f.k < |w.rows|
  {
    match f
    case Nothing => w.(clock := now)
    case Insert(o) => World(w.rows + [o], w.log + [Entry(o.phone, now, Created)], now)
    case Attempt(k) =>
      World(WithAttempt(w.rows, k),
            w.log + [Entry(w.rows[k].phone, now, WrongCode(w.rows[k].createdAt))], now)
    case Redeem(k) => World(WithUsed(w.rows, k), w.log + [Entry(w.rows[k].phone, now, Redeemed)], now)
    case Sweep => World(Kept(w.rows, now), w.log, now)
  }

  function Step(cfg: Config, w: World, t: Timed): World {
    Apply(w, t.now, EffectOf(cfg, w.rows, t))
  }

  // ----- runs -----

  function Init(start: int): World { World([], [], start) }

  function Run(cfg: Config, start: int, events: seq<Timed>): World {
    if events == [] then Init(start)
    else Step(cfg, Run(cfg, start, events[..|events| - 1]), events[|events| - 1])
  }

  /** The clock never goes back. */
  predicate Timely(start: int, events: seq<Timed>) {
    && (forall i :: 0 <= i < |events| ==> start <= events[i].now)
    && (forall i, j :: 0 <= i < j < |events| ==> events[i].now <= events[j].now)
  }

  lemma RunPrefix(cfg: Config, start: int, events: seq<Timed>)
    requires events != [] && Timely(start, events)
    ensures var n := |events| - 1;
            && Timely(start, events[..n])
            && Run(cfg, start, events[..n]).clock <= events[n].now == Run(cfg, start, events).clock
            && Run(cfg, start, events) == Step(cfg, Run(cfg, start, events[..n]), events[n])
  {
    hide EffectOf;
  }

  // ----- what every run keeps -----

  /** Rows stand in creation order, live exactly `ttl`, and any two UNUSED rows of one phone were
      created more than the cooldown apart. */
  ghost predicate Inv(cfg: Config, w: World) {
    && (forall i :: 0 <= i < |w.rows| ==>
          w.rows[i].createdAt <= w.clock && w.rows[i].expiresAt == w.rows[i].createdAt + cfg.ttl)
    && (forall i, j :: 0 <= i < j < |w.rows| ==> w.rows[i].createdAt <= w.rows[j].createdAt)
    && Spaced(cfg, w.rows)
  }

  ghost predicate Spaced(cfg: Config, rows: seq<Otp>) {
    forall i, j :: 0 <= i < j < |rows| && rows[i].phone == rows[j].phone
                   && rows[i].status == Unused && rows[j].status == Unused ==>
                     rows[j].createdAt > rows[i].createdAt + cfg.cooldown
  }

  lemma EffectIsAllowed(cfg: Config, w: World, t: Timed)
    requires Inv(cfg, w)
    ensures Allowed(cfg, w.rows, t.now, EffectOf(cfg, w.rows, t))
    ensures EffectOf(cfg, w.rows, t).Sweep? <==> t.event.Prune?
  {
    hide Compare, Attempts;
  }

  /** The prune job keeps a subsequence: order and pairwise facts survive. */
  lemma {:induction false} KeptIsSubsequence(rows: seq<Otp>, now: int) returns (at: seq<nat>)
    ensures |at| == |Kept(rows, now)|
    ensures forall i :: 0 <= i < |at| ==> at[i] < |rows| && Kept(rows, now)[i] == rows[at[i]]
    ensures forall i, j :: 0 <= i < j < |at| ==> at[i] < at[j]
  {
    hide Pruned;
    at := [];
    if rows != [] {
      var n := |rows| - 1;
      var before := KeptIsSubsequence(rows[..n], now);
      assert forall i :: 0 <= i < |before| ==> rows[..n][before[i]] == rows[before[i]];
      if Pruned(rows[n], now) {
        at := before;
      } else {
        at := before + [n];
      }
    }
  }

  /** A table that thins out another one and only ever turns UNUSED into USED inherits its facts. */
  lemma ThinnedKeepsInv(cfg: Config, w: World, w': World, at: seq<nat>)
    requires Inv(cfg, w) && w.clock <= w'.clock && |at| == |w'.rows|
    requires forall i :: 0 <= i < |at| ==>
                at[i] < |w.rows| && w'.rows[i].phone == w.rows[at[i]].phone
                && w'.rows[i].createdAt == w.rows[at[i]].createdAt
                && w'.rows[i].expiresAt == w.rows[at[i]].expiresAt
                && (w'.rows[i].status == Unused ==> w.rows[at[i]].status == Unused)
    requires forall i, j :: 0 <= i < j < |at| ==> at[i] < at[j]
    ensures Inv(cfg, w')
  {}

  lemma InsertKeepsInv(cfg: Config, w: World, now: int, o: Otp)
    requires Inv(cfg, w) && w.clock <= now && Allowed(cfg, w.rows, now, Insert(o))
    ensures Inv(cfg, Apply(w, now, Insert(o)))
  {
    forall i | 0 <= i < |w.rows| && w.rows[i].phone == o.phone && w.rows[i].status == Unused
      ensures now > w.rows[i].createdAt + cfg.cooldown
    {
      assert Candidate(w.rows[i], o.phone);
    }
  }

  lemma ApplyKeepsInv(cfg: Config, w: World, now: int, f: Effect)
    requires Inv(cfg, w) && w.clock <= now && Allowed(cfg, w.rows, now, f)
    ensures Inv(cfg, Apply(w, now, f))
  {
    if f.Insert? {
      InsertKeepsInv(cfg, w, now, f.row);
    } else if f.Sweep? {
      var at := KeptIsSubsequence(w.rows, now);
      ThinnedKeepsInv(cfg, w, Apply(w, now, f), at);
    } else {
      ThinnedKeepsInv(cfg, w, Apply(w, now, f), seq(|w.rows|, i => i));
    }
  }

  lemma StepKeepsInv(cfg: Config, w: World, t: Timed)
    requires Inv(cfg, w) && w.clock <= t.now
    ensures Inv(cfg, Step(cfg, w, t))
  {
    EffectIsAllowed(cfg, w, t);
    ApplyKeepsInv(cfg, w, t.now, EffectOf(cfg, w.rows, t));
  }

  lemma {:induction false} RunKeepsInv(cfg: Config, start: int, events: seq<Timed>)
    requires Timely(start, events)
    ensures Inv(cfg, Run(cfg, start, events))
  {
    if events != [] {
      var before := events[..|events| - 1];
      RunKeepsInv(cfg, start, before);
      RunPrefix(cfg, start, events);
      StepKeepsInv(cfg, Run(cfg, start, before), events[|events| - 1]);
    }
  }

  /** In every reachable table, two UNUSED codes of one phone are more than a cooldown apart, so
      the newest one is the only one with its creation time. */
  lemma UnusedCodesAreSpaced(cfg: Config, start: int, events: seq<Timed>, i: nat, j: nat)
    requires Timely(start, events)
    requires i < |Run(cfg, start, events).rows| && j < |Run(cfg, start, events).rows| && i != j
    requires Run(cfg, start, events).rows[i].phone == Run(cfg, start, events).rows[j].phone
    requires Run(cfg, start, events).rows[i].status == Unused == Run(cfg, start, events).rows[j].status
    ensures var rows := Run(cfg, start, events).rows;
            var gap := rows[i].createdAt - rows[j].createdAt;
            gap > cfg.cooldown || -gap > cfg.cooldown
  {
    RunKeepsInv(cfg, start, events);
  }

  // ----- how many codes are usable at once -----

  predicate Usable(o: Otp, phone: Phone, now: int) {
    Candidate(o, phone) && o.expiresAt > now
  }

  function UsableCount(rows: seq<Otp>, phone: Phone, now: int): nat {
    if rows == [] then 0
    else
      UsableCount(rows[..|rows| - 1], phone, now)
      + (if Usable(rows[|rows| - 1], phone, now) then 1 else 0)
  }

  lemma {:induction false} UsableSpread(cfg: Config, rows: seq<Otp>, phone: Phone, now: int) returns (j: int)
    requires Spaced(cfg, rows)
    requires forall i :: 0 <= i < |rows| ==> rows[i].expiresAt == rows[i].createdAt + cfg.ttl
    ensures -1 <= j < |rows|
    ensures j == -1 <==> UsableCount(rows, phone, now) == 0
    ensures j >= 0 ==> Usable(rows[j], phone, now)
    ensures j >= 0 ==> rows[j].createdAt > now - cfg.ttl
                                           + (UsableCount(rows, phone, now) - 1) * (cfg.cooldown + 1)
  {
    j := -1;
    if rows != [] {
      var n := |rows| - 1;
      j := UsableSpread(cfg, rows[..n], phone, now);
      if Usable(rows[n], phone, now) {
        var before := UsableCount(rows[..n], phone, now);
        if before > 0 {
          assert rows[n].createdAt >= rows[j].createdAt + (cfg.cooldown + 1);
          assert (before - 1) * (cfg.cooldown + 1) + (cfg.cooldown + 1) == before * (cfg.cooldown + 1);
        }
        j := n;
      }
    }
  }

  /** At any instant at most ceil(ttl / cooldown) codes of a phone are usable. */
  lemma UsableCodesAreFew(cfg: Config, start: int, events: seq<Timed>, phone: Phone, now: int)
    requires Timely(start, events)
    requires Run(cfg, start, events).clock <= now
    ensures var n := UsableCount(Run(cfg, start, events).rows, phone, now);
            && (n > 0 ==> (n - 1) * (cfg.cooldown + 1) < cfg.ttl)
            && (cfg.cooldown > 0 ==> n <= (cfg.ttl + cfg.cooldown - 1) / cfg.cooldown)
  {
    RunKeepsInv(cfg, start, events);
    hide Run;
    UsableBound(cfg, Run(cfg, start, events), phone, now);
  }

  lemma UsableBound(cfg: Config, w: World, phone: Phone, now: int)
    requires Inv(cfg, w) && w.clock <= now
    ensures var n := UsableCount(w.rows, phone, now);
            && (n > 0 ==> (n - 1) * (cfg.cooldown + 1) < cfg.ttl)
            && (cfg.cooldown > 0 ==> n <= (cfg.ttl + cfg.cooldown - 1) / cfg.cooldown)
  {
    hide UsableCount;
    var j := UsableSpread(cfg, w.rows, phone, now);
    var n := UsableCount(w.rows, phone, now);
    if n > 0 {
      assert (n - 1) * (cfg.cooldown + 1) < cfg.ttl;
    }
    if cfg.cooldown > 0 {
      CeilingBound(n, cfg.cooldown, cfg.ttl);
    }
  }

  lemma CeilingBound(n: nat, c: nat, t: nat)
    requires c > 0 && (n > 0 ==> (n - 1) * (c + 1) < t)
    ensures n <= (t + c - 1) / c
  {
    if n == 0 {
      return;
    }
    assert (n - 1) * (c + 1) == (n - 1) * c + (n - 1);
    var q := (t + c - 1) / c;
    assert q * c > t - 1;
    assert q * c > (n - 1) * c;
    assert q > n - 1;
  }

  // ----- successes never exceed codes created -----

  function Count(log: seq<Entry>, phone: Phone, deed: Deed): nat {
    if log == [] then 0
    else
      Count(log[..|log| - 1], phone, deed)
      + (if log[|log| - 1].phone == phone && log[|log| - 1].deed == deed then 1 else 0)
  }

  function UnusedCount(rows: seq<Otp>, phone: Phone): nat {
    if rows == [] then 0
    else UnusedCount(rows[..|rows| - 1], phone) + (if Candidate(rows[|rows| - 1], phone) then 1 else 0)
  }

  lemma {:induction false} UnusedAfterUpdate(rows: seq<Otp>, k: nat, o: Otp, phone: Phone)
    requires k < |rows|
    ensures UnusedCount(rows[k := o], phone) + (if Candidate(rows[k], phone) then 1 else 0)
         == UnusedCount(rows, phone) + (if Candidate(o, phone) then 1 else 0)
  {
    var n := |rows| - 1;
    if k < n {
      assert rows[k := o][..n] == rows[..n][k := o];
      UnusedAfterUpdate(rows[..n], k, o, phone);
    } else {
      assert rows[k := o][..n] == rows[..n];
    }
  }

  lemma UnusedAfterInsert(rows: seq<Otp>, o: Otp, phone: Phone)
    ensures UnusedCount(rows + [o], phone) == UnusedCount(rows, phone) + (if Candidate(o, phone) then 1 else 0)
  {
    assert (rows + [o])[..|rows|] == rows;
  }

  lemma {:induction false} UnusedAfterPrune(rows: seq<Otp>, now: int, phone: Phone)
    ensures UnusedCount(Kept(rows, now), phone) <= UnusedCount(rows, phone)
  {
    if rows != [] {
      var n := |rows| - 1;
      UnusedAfterPrune(rows[..n], now, phone);
      var rest := Kept(rows[..n], now);
      assert (rest + [rows[n]])[..|rest|] == rest;
    }
  }

  lemma CountAppend(log: seq<Entry>, e: Entry, phone: Phone, deed: Deed)
    ensures Count(log + [e], phone, deed)
         == Count(log, phone, deed) + (if e.phone == phone && e.deed == deed then 1 else 0)
  {
    assert (log + [e])[..|log|] == log;
  }

  /** Every code is redeemed at most once: redemptions and still unused rows together never
      exceed the codes created, for every phone and every run. */
  lemma {:induction false} RedemptionsNeverExceedCreations(cfg: Config, start: int, events: seq<Timed>, phone: Phone)
    requires Timely(start, events)
    ensures var w := Run(cfg, start, events);
            Count(w.log, phone, Redeemed) + UnusedCount(w.rows, phone) <= Count(w.log, phone, Created)
  {
    if events != [] {
      var before := events[..|events| - 1];
      var t := events[|events| - 1];
      RedemptionsNeverExceedCreations(cfg, start, before, phone);
      RunKeepsInv(cfg, start, before);
      var w := Run(cfg, start, before);
      EffectIsAllowed(cfg, w, t);
      ApplyKeepsBalance(cfg, w, t.now, EffectOf(cfg, w.rows, t), phone);
    }
  }

  lemma ApplyKeepsBalance(cfg: Config, w: World, now: int, f: Effect, phone: Phone)
    requires Allowed(cfg, w.rows, now, f)
    requires Count(w.log, phone, Redeemed) + UnusedCount(w.rows, phone) <= Count(w.log, phone, Created)
    ensures var w' := Apply(w, now, f);
            Count(w'.log, phone, Redeemed) + UnusedCount(w'.rows, phone) <= Count(w'.log, phone, Created)
  {
    hide Count, UnusedCount, Kept, Attempts;
    var w' := Apply(w, now, f);
    if w'.log != w.log {
      CountAppend(w.log, w'.log[|w.log|], phone, Created);
      CountAppend(w.log, w'.log[|w.log|], phone, Redeemed);
    }
    match f
    case Nothing =>
    case Insert(o) => UnusedAfterInsert(w.rows, o, phone);
    case Attempt(k) => UnusedAfterUpdate(w.rows, k, w'.rows[k], phone);
    case Redeem(k) => UnusedAfterUpdate(w.rows, k, w'.rows[k], phone);
    case Sweep => UnusedAfterPrune(w.rows, now, phone);
  }

  // ----- the phone-wide lockout -----

  lemma {:induction false} AttemptsShrink(rows: seq<Otp>, phone: Phone, since: int, later: int)
    requires since <= later
    ensures Attempts(rows, phone, later) <= Attempts(rows, phone, since)
  {
    if rows != [] {
      AttemptsShrink(rows[..|rows| - 1], phone, since, later);
    }
  }

  lemma {:induction false} AttemptsAfterUpdate(rows: seq<Otp>, k: nat, o: Otp, phone: Phone, since: int)
    requires k < |rows| && o.phone == rows[k].phone && o.createdAt == rows[k].createdAt
    ensures Attempts(rows[k := o], phone, since)
         == Attempts(rows, phone, since)
            + (if o.phone == phone && o.createdAt > since then o.attempts - rows[k].attempts else 0)
  {
    var n := |rows| - 1;
    if k < n {
      assert rows[k := o][..n] == rows[..n][k := o];
      AttemptsAfterUpdate(rows[..n], k, o, phone, since);
    } else {
      assert rows[k := o][..n] == rows[..n];
    }
  }

  lemma AttemptsAfterInsert(rows: seq<Otp>, o: Otp, phone: Phone, since: int)
    ensures Attempts(rows + [o], phone, since)
         == Attempts(rows, phone, since) + (if o.phone == phone && o.createdAt > since then o.attempts else 0)
  {
    assert (rows + [o])[..|rows|] == rows;
  }

  /** The failed attempts on the phone's codes created after `since` that a prune forgets. */
  function Lost(rows: seq<Otp>, now: int, phone: Phone, since: int): nat {
    if rows == [] then 0
    else
      var last := rows[|rows| - 1];
      Lost(rows[..|rows| - 1], now, phone, since)
      + (if Pruned(last, now) && last.phone == phone && last.createdAt > since then last.attempts else 0)
  }

  lemma {:induction false} AttemptsAfterPrune(rows: seq<Otp>, now: int, phone: Phone, since: int)
    ensures Attempts(rows, phone, since) == Attempts(Kept(rows, now), phone, since) + Lost(rows, now, phone, since)
  {
    hide Pruned;
    if rows != [] {
      var n := |rows| - 1;
      AttemptsAfterPrune(rows[..n], now, phone, since);
      var rest := Kept(rows[..n], now);
      assert (rest + [rows[n]])[..|rest|] == rest;
    }
  }

  /** A prune keeps the phone's attempt count exactly when every row of the phone that it removes is
      outside the window or carries no failed attempt. */
  lemma PruneForgetsNothingIff(rows: seq<Otp>, now: int, phone: Phone, since: int)
    ensures Attempts(Kept(rows, now), phone, since) == Attempts(rows, phone, since) <==> Forgettable(rows, now, phone, since)
  {
    hide Attempts, Lost, Kept, Forgettable;
    AttemptsAfterPrune(rows, now, phone, since);
    LostNothingIff(rows, now, phone, since);
  }

  ghost predicate Forgettable(rows: seq<Otp>, now: int, phone: Phone, since: int) {
    forall i :: 0 <= i < |rows| && rows[i].phone == phone && Pruned(rows[i], now) ==>
                  rows[i].createdAt <= since || rows[i].attempts == 0
  }

  lemma {:induction false} LostNothingIff(rows: seq<Otp>, now: int, phone: Phone, since: int)
    ensures Lost(rows, now, phone, since) == 0 <==> Forgettable(rows, now, phone, since)
  {
    hide Pruned;
    if rows != [] {
      var n := |rows| - 1;
      LostNothingIff(rows[..n], now, phone, since);
      assert forall i :: 0 <= i < n ==> rows[..n][i] == rows[i];
    }
  }

  /** In every reachable table the failed attempts on a phone's codes created within the lockout
      window never exceed the maximum, at this and at every later instant. */
  lemma {:induction false} LockoutHolds(cfg: Config, start: int, events: seq<Timed>, phone: Phone, now: int)
    requires Timely(start, events)
    requires Run(cfg, start, events).clock <= now
    ensures Attempts(Run(cfg, start, events).rows, phone, now - cfg.lockout) <= cfg.maxAttempts
  {
    hide Step, Timely, Inv;
    if events != [] {
      var before := events[..|events| - 1];
      var t := events[|events| - 1];
      var w := Run(cfg, start, before);
      RunPrefix(cfg, start, events);
      LockoutHolds(cfg, start, before, phone, t.now);
      RunKeepsInv(cfg, start, before);
      StepKeepsLockout(cfg, w, t, phone);
      AttemptsShrink(Step(cfg, w, t).rows, phone, t.now - cfg.lockout, now - cfg.lockout);
    }
  }

  lemma StepKeepsLockout(cfg: Config, w: World, t: Timed, phone: Phone)
    requires Inv(cfg, w) && Attempts(w.rows, phone, t.now - cfg.lockout) <= cfg.maxAttempts
    ensures Attempts(Step(cfg, w, t).rows, phone, t.now - cfg.lockout) <= cfg.maxAttempts
  {
    hide EffectOf, Inv, Apply, Attempts;
    EffectIsAllowed(cfg, w, t);
    ApplyKeepsLockout(cfg, w, t.now, EffectOf(cfg, w.rows, t), phone);
  }

  lemma ApplyKeepsLockout(cfg: Config, w: World, now: int, f: Effect, phone: Phone)
    requires Allowed(cfg, w.rows, now, f)
    requires Attempts(w.rows, phone, now - cfg.lockout) <= cfg.maxAttempts
    ensures Attempts(Apply(w, now, f).rows, phone, now - cfg.lockout) <= cfg.maxAttempts
  {
    var w' := Apply(w, now, f);
    var since := now - cfg.lockout;
    match f
    case Nothing =>
    case Insert(o) => AttemptsAfterInsert(w.rows, o, phone, since);
    case Attempt(k) =>
      hide Attempts;
      AttemptsAfterUpdate(w.rows, k, w'.rows[k], phone, since);
    case Redeem(k) =>
      hide Attempts;
      AttemptsAfterUpdate(w.rows, k, w'.rows[k], phone, since);
    case Sweep => AttemptsAfterPrune(w.rows, now, phone, since);
  }

  /** Wrong codes evaluated against OTPs of the phone created after `since`. */
  function WrongSince(log: seq<Entry>, phone: Phone, since: int): nat {
    if log == [] then 0
    else
      var e := log[|log| - 1];
      WrongSince(log[..|log| - 1], phone, since)
      + (if e.phone == phone && e.deed.WrongCode? && e.deed.otpCreatedAt > since then 1 else 0)
  }

  /** Wrong codes evaluated for the phone between `from` and `to`, both included. */
  function WrongBetween(log: seq<Entry>, phone: Phone, from: int, to: int): nat {
    if log == [] then 0
    else
      var e := log[|log| - 1];
      WrongBetween(log[..|log| - 1], phone, from, to)
      + (if e.phone == phone && e.deed.WrongCode? && from <= e.at <= to then 1 else 0)
  }

  /** What the prunes of a run forgot about the phone's codes created after `since`. */
  function Forgotten(cfg: Config, start: int, events: seq<Timed>, phone: Phone, since: int): nat {
    if events == [] then 0
    else
      var before, t := events[..|events| - 1], events[|events| - 1];
      Forgotten(cfg, start, before, phone, since)
      + (if t.event.Prune? then Lost(Run(cfg, start, before).rows, t.now, phone, since) else 0)
  }

  /** Nothing is forgotten exactly when each prune of the run meets the condition on its own. */
  lemma {:induction false} NothingForgottenIff(cfg: Config, start: int, events: seq<Timed>, phone: Phone, since: int)
    ensures Forgotten(cfg, start, events, phone, since) == 0 <==>
            forall i :: 0 <= i < |events| && events[i].event.Prune? ==>
                          Forgettable(Run(cfg, start, events[..i]).rows, events[i].now, phone, since)
  {
    hide Run, Lost, Forgettable;
    if events != [] {
      var n := |events| - 1;
      var before := events[..n];
      assert forall i :: 0 <= i <= n ==> before[..i] == events[..i];
      assert forall i :: 0 <= i < n ==> before[i] == events[i];
      NothingForgottenIff(cfg, start, before, phone, since);
      if events[n].event.Prune? {
        LostNothingIff(Run(cfg, start, before).rows, events[n].now, phone, since);
      }
    }
  }

  /** In every run: the wrong codes on record that concern OTPs created after an instant are those the
      attempt counters in the table still show, plus those that prunes forgot. */
  lemma {:induction false} AttemptsCoverWrongs(cfg: Config, start: int, events: seq<Timed>, phone: Phone, since: int)
    requires Timely(start, events)
    ensures var w := Run(cfg, start, events);
            WrongSince(w.log, phone, since) == Attempts(w.rows, phone, since) + Forgotten(cfg, start, events, phone, since)
  {
    hide EffectOf, Inv, Apply, Allowed, Attempts, WrongSince, Lost;
    if events == [] {
      NothingYet(start, phone, since);
    } else {
      var n := |events| - 1;
      var before := events[..n];
      AttemptsCoverWrongs(cfg, start, before, phone, since);
      RunKeepsInv(cfg, start, before);
      var w, t := Run(cfg, start, before), events[n];
      RunPrefix(cfg, start, events);
      EffectIsAllowed(cfg, w, t);
      ApplyKeepsCover(cfg, w, t.now, EffectOf(cfg, w.rows, t), phone, since);
    }
  }

  lemma NothingYet(start: int, phone: Phone, since: int)
    ensures WrongSince(Init(start).log, phone, since) == 0 == Attempts(Init(start).rows, phone, since)
  {}

  lemma WrongSinceAppend(log: seq<Entry>, e: Entry, phone: Phone, since: int)
    ensures WrongSince(log + [e], phone, since)
         == WrongSince(log, phone, since)
            + (if e.phone == phone && e.deed.WrongCode? && e.deed.otpCreatedAt > since then 1 else 0)
  {
    assert (log + [e])[..|log|] == log;
  }

  lemma ApplyKeepsCover(cfg: Config, w: World, now: int, f: Effect, phone: Phone, since: int)
    requires Allowed(cfg, w.rows, now, f)
    ensures var w' := Apply(w, now, f);
            WrongSince(w'.log, phone, since) - Attempts(w'.rows, phone, since)
            == WrongSince(w.log, phone, since) - Attempts(w.rows, phone, since)
               + (if f.Sweep? then Lost(w.rows, now, phone, since) else 0)
  {
    hide Attempts, WrongSince, Kept, Lost;
    var w' := Apply(w, now, f);
    if w'.log != w.log {
      WrongSinceAppend(w.log, w'.log[|w.log|], phone, since);
    }
    match f
    case Nothing =>
    case Insert(o) => AttemptsAfterInsert(w.rows, o, phone, since);
    case Attempt(k) => AttemptsAfterUpdate(w.rows, k, w'.rows[k], phone, since);
    case Redeem(k) => AttemptsAfterUpdate(w.rows, k, w'.rows[k], phone, since);
    case Sweep => AttemptsAfterPrune(w.rows, now, phone, since);
  }

  /** A wrong code is only ever evaluated against an unexpired OTP. */
  ghost predicate FreshWrongs(cfg: Config, log: seq<Entry>) {
    forall i :: 0 <= i < |log| && log[i].deed.WrongCode? ==> log[i].deed.otpCreatedAt > log[i].at - cfg.ttl
  }

  lemma {:induction false} WrongsAreFresh(cfg: Config, start: int, events: seq<Timed>)
    requires Timely(start, events)
    ensures FreshWrongs(cfg, Run(cfg, start, events).log)
  {
    if events != [] {
      var before := events[..|events| - 1];
      WrongsAreFresh(cfg, start, before);
      RunKeepsInv(cfg, start, before);
    }
  }

  lemma {:induction false} RecentWrongsAreYoung(cfg: Config, log: seq<Entry>, phone: Phone, from: int, to: int, since: int)
    requires FreshWrongs(cfg, log)
    requires since <= from - cfg.ttl
    ensures WrongBetween(log, phone, from, to) <= WrongSince(log, phone, since)
  {
    if log != [] {
      RecentWrongsAreYoung(cfg, log[..|log| - 1], phone, from, to, since);
    }
  }

  /** The guessing bound, for every run. However many fresh OTPs are requested, a time interval of
      length at most lockout - ttl contains at most `maxAttempts` evaluated wrong codes for one phone,
      plus the failed attempts that prunes forgot on OTPs young enough to matter. */
  lemma {:induction false} GuessingIsBounded(cfg: Config, start: int, events: seq<Timed>, phone: Phone, from: int, to: int)
    requires Timely(start, events) && to - from <= cfg.lockout - cfg.ttl
    ensures WrongBetween(Run(cfg, start, events).log, phone, from, to)
         <= cfg.maxAttempts + Forgotten(cfg, start, events, phone, from - cfg.ttl)
  {
    hide Step, Attempts, WrongSince, FreshWrongs, Lost;
    if events != [] {
      var n := |events| - 1;
      var before := events[..n];
      GuessingIsBounded(cfg, start, before, phone, from, to);
      var w, w' := Run(cfg, start, before), Run(cfg, start, events);
      StepLogs(cfg, w, events[n]);
      WrongsAreFresh(cfg, start, events);
      AttemptsCoverWrongs(cfg, start, events, phone, from - cfg.ttl);
      RunPrefix(cfg, start, events);
      LockoutHolds(cfg, start, events, phone, events[n].now);
      if w'.log != w.log && from <= events[n].now <= to {
        RecentWrongsAreYoung(cfg, w'.log, phone, from, to, from - cfg.ttl);
        AttemptsShrink(w'.rows, phone, events[n].now - cfg.lockout, from - cfg.ttl);
      }
    }
  }

  lemma StepLogs(cfg: Config, w: World, t: Timed)
    ensures var w' := Step(cfg, w, t);
            w'.log == w.log || (|w'.log| == |w.log| + 1 && w'.log[..|w.log|] == w.log && w'.log[|w.log|].at == t.now)
  {}

  // ----- the service -----

  class OtpService {
    const cfg: Config
    var rows: seq<Otp>
    ghost var log: seq<Entry>
    ghost var clock: int

    ghost function View(): World
      reads this
    {
      World(rows, log, clock)
    }

    ghost predicate Valid()
      reads this
    {
      Inv(cfg, View())
    }

    constructor (cfg: Config, ghost start: int)
      ensures Valid() && this.cfg == cfg && View() == Init(start)
    {
      this.cfg := cfg;
      rows, log, clock := [], [], start;
    }

    /** `findFirst ... orderBy createdAt desc`: the newest UNUSED row of the phone. */
    method FindNewest(phone: Phone) returns (k: int)
      ensures k == Newest(rows, phone)
    {
      k := |rows| - 1;
      while k >= 0 && !(rows[k].phone == phone && rows[k].status == Unused)
        invariant -1 <= k < |rows|
        invariant Newest(rows, phone) == Newest(rows[..k + 1], phone)
      {
        assert rows[..k + 1][..k] == rows[..k];
        k := k - 1;
      }
    }

    method SumAttempts(phone: Phone, since: int) returns (total: nat)
      ensures total == Attempts(rows, phone, since)
    {
      total := 0;
      for i := 0 to |rows|
        invariant total == Attempts(rows[..i], phone, since)
      {
        assert rows[..i + 1][..i] == rows[..i];
        if rows[i].phone == phone && rows[i].createdAt > since {
          total := total + rows[i].attempts;
        }
      }
      assert rows[..|rows|] == rows;
    }

    method RequestOtp(now: int, phone: Phone, linked: bool, devBypass: bool, code: string) returns (r: Reply)
      requires Valid() && clock <= now
      modifies this
      ensures Valid()
      ensures View() == Step(cfg, old(View()), At(now, Request(phone, linked, devBypass, code)))
      ensures r == RequestReply(cfg, old(rows), now, Request(phone, linked, devBypass, code))
    {
      hide Newest, Inv;
      ghost var before := View();
      var k := FindNewest(phone);
      if !linked && !devBypass {
        r := LinkRequired;
      } else if k >= 0 && rows[k].createdAt >= now - cfg.cooldown {
        r := AlreadySent(rows[k].createdAt + cfg.cooldown);
      } else {
        rows := rows + [Otp(phone, code, Unused, 0, now, now + cfg.ttl)];
        log := log + [Entry(phone, now, Created)];
        r := Sent;
      }
      clock := now;
      StepKeepsInv(cfg, before, At(now, Request(phone, linked, devBypass, code)));
    }

    method VerifyOtp(now: int, phone: Phone, code: string) returns (r: Reply)
      requires Valid() && clock <= now
      modifies this
      ensures Valid()
      ensures View() == Step(cfg, old(View()), At(now, Verify(phone, code)))
      ensures r == VerifyReply(cfg, old(rows), now, Verify(phone, code))
    {
      hide Attempts, Newest, Compare, Inv;
      ghost var before := View();
      var total := SumAttempts(phone, now - cfg.lockout);
      var k := FindNewest(phone);
      if total >= cfg.maxAttempts {
        r := LockedOut;
      } else if k < 0 {
        r := NoActiveOtp;
      } else if rows[k].expiresAt <= now {
        r := Expired;
      } else {
        match Compare(code, rows[k].code) {
          case Throws =>
            r := CompareError;
          case Different =>
            log := log + [Entry(phone, now, WrongCode(rows[k].createdAt))];
            rows := rows[k := rows[k].(attempts := rows[k].attempts + 1)];
            r := if total + 1 >= cfg.maxAttempts then WrongNowLocked
                 else WrongRemaining(cfg.maxAttempts - total - 1);
          case Same =>
            log := log + [Entry(phone, now, Redeemed)];
            rows := rows[k := rows[k].(status := Used)];
            r := Verified;
        }
      }
      clock := now;
      StepKeepsInv(cfg, before, At(now, Verify(phone, code)));
    }

    method PruneRows(now: int)
      requires Valid() && clock <= now
      modifies this
      ensures Valid()
      ensures View() == Step(cfg, old(View()), At(now, Prune))
    {
      hide Inv;
      ghost var before := View();
      var kept := [];
      for i := 0 to |rows|
        invariant kept == Kept(rows[..i], now)
        invariant rows == old(rows) && log == old(log)
      {
        assert rows[..i + 1][..i] == rows[..i];
        if !(rows[i].expiresAt < now || rows[i].status == Used) {
          kept := kept + [rows[i]];
        }
      }
      assert rows[..|rows|] == rows;
      rows := kept;
      clock := now;
      StepKeepsInv(cfg, before, At(now, Prune));
    }
  }
}
