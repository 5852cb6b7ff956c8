/**
 Refresh tokens: `AuthService` (login, refresh, logout), the token part of the daily prune, and the
 part of suspending and unsuspending a user that touches tokens and suspensions.

 Token hashes and family ids are random in the program; here both are drawn from one counter, so a
 new one differs from everything ever used. A session id and a token hash name the same row.
 Instants are milliseconds.
 */
module Sessions {
  import opened Prelude

  /** REFRESH_REUSE_GRACE and REFRESH_TOKEN_TTL. */
  datatype Config = Config(grace: nat, ttl: nat)

  type UserId = nat
  type Hash = nat
  type Family = nat

  datatype Token = Token(user: UserId, family: Family, expiresAt: int, revokedAt: Option<int>)

  datatype Suspension = Suspension(user: UserId, expiresAt: Option<int>, revokedAt: Option<int>)

  /** What happened to a family, in order. */
  datatype Deed = Started(family: Family) | Rotated(family: Family) | Replayed(family: Family)

  /** The two tables, the supply of fresh names, and two histories: who a family was started for and
      what was issued. */
  datatype Auth = Auth(tokens: map<Hash, Token>, suspensions: seq<Suspension>, next: nat, clock: int,
                       owners: map<Family, UserId>, log: seq<Deed>)

  datatype Reply = Issued(hash: Hash) | Invalid | Suspended | ReuseDetected | Done

  datatype Event =
    | Login(user: UserId)
    | Refresh(hash: Hash)
    | Logout(user: UserId, hash: Hash)
    | Impose(user: UserId, expiresAt: Option<int>)
    | Lift(sid: nat)
    | Prune

  datatype Timed = At(now: int, event: Event)

  // ----- the calls -----

  predicate InForce(s: Suspension, user: UserId, now: int) {
    s.user == user && s.revokedAt.None? && (s.expiresAt.None? || s.expiresAt.value > now)
  }

  /** `throwIfSuspended` throws. */
  predicate Blocked(suspensions: seq<Suspension>, user: UserId, now: int) {
    exists i :: 0 <= i < |suspensions| && InForce(suspensions[i], user, now)
  }

  predicate Live(t: Token) {
    t.revokedAt.None?
  }

  /** `issueTokenPair`. */
  function Issue(cfg: Config, a: Auth, now: int, user: UserId, family: Family, why: Deed): Auth {
    a.(tokens := a.tokens[a.next := Token(user, family, now + cfg.ttl, None)],
       next := a.next + 1, clock := now, log := a.log + [why])
  }

  /** `updateMany` over the unrevoked rows picked by `pick`. */
  function Revoke(tokens: map<Hash, Token>, now: int, pick: set<Hash>): (r: map<Hash, Token>)
    ensures r.Keys == tokens.Keys
  {
    map h | h in tokens :: if h in pick && Live(tokens[h]) then tokens[h].(revokedAt := Some(now)) else tokens[h]
  }

  function OfFamily(tokens: map<Hash, Token>, f: Family): set<Hash> {
    set h | h in tokens && tokens[h].family == f
  }

  function OfUser(tokens: map<Hash, Token>, u: UserId): set<Hash> {
    set h | h in tokens && tokens[h].user == u
  }

  /** The end of `verifyOtp`: suspension check, then a token in a new family. */
  function DoLogin(cfg: Config, a: Auth, now: int, user: UserId): (Auth, Reply) {
    if Blocked(a.suspensions, user, now) then (a.(clock := now), Suspended)
    else (Issue(cfg, a, now, user, a.next, Started(a.next)).(owners := a.owners[a.next := user]), Issued(a.next))
  }

  function DoRefresh(cfg: Config, a: Auth, now: int, hash: Hash): (Auth, Reply) {
    if hash in a.tokens && Live(a.tokens[hash]) then
      var t := a.tokens[hash];
      var revoked := a.(tokens := Revoke(a.tokens, now, {hash}), clock := now);
      if Blocked(a.suspensions, t.user, now) then (revoked, Suspended)
      else (Issue(cfg, revoked, now, t.user, t.family, Rotated(t.family)), Issued(a.next))
    else if hash !in a.tokens || a.tokens[hash].expiresAt <= now then (a.(clock := now), Invalid)
    else
      var t := a.tokens[hash];
      if now - t.revokedAt.value <= cfg.grace then
        if Blocked(a.suspensions, t.user, now) then (a.(clock := now), Suspended)
        else (Issue(cfg, a, now, t.user, t.family, Replayed(t.family)), Issued(a.next))
      else
        (a.(tokens := Revoke(a.tokens, now, OfFamily(a.tokens, t.family)), clock := now), ReuseDetected)
  }

  function DoLogout(a: Auth, now: int, user: UserId, hash: Hash): Auth {
    a.(tokens := Revoke(a.tokens, now, {hash} * OfUser(a.tokens, user)), clock := now)
  }

  /** Suspending: a new suspension row, and every unrevoked token of the user is revoked. */
  function DoImpose(a: Auth, now: int, user: UserId, expiresAt: Option<int>): Auth {
    a.(suspensions := a.suspensions + [Suspension(user, expiresAt, None)],
       tokens := Revoke(a.tokens, now, OfUser(a.tokens, user)), clock := now)
  }

  /** Unsuspending, by hand or by the reactivation job. */
  function DoLift(a: Auth, now: int, sid: nat): Auth {
    if sid < |a.suspensions| then
      a.(suspensions := a.suspensions[sid := a.suspensions[sid].(revokedAt := Some(now))], clock := now)
    else a.(clock := now)
  }

  predicate Stale(t: Token, now: int) {
    t.expiresAt < now || t.revokedAt.Some?
  }

  function DoPrune(a: Auth, now: int): Auth {
    a.(tokens := map h | h in a.tokens && !Stale(a.tokens[h], now) :: a.tokens[h], clock := now)
  }

  function Step(cfg: Config, a: Auth, t: Timed): Auth {
    match t.event
    case Login(u) => DoLogin(cfg, a, t.now, u).0
    case Refresh(h) => DoRefresh(cfg, a, t.now, h).0
    case Logout(u, h) => DoLogout(a, t.now, u, h)
    case Impose(u, x) => DoImpose(a, t.now, u, x)
    case Lift(i) => DoLift(a, t.now, i)
    case Prune => DoPrune(a, t.now)
  }

  function Init(start: int): Auth {
    Auth(map[], [], 0, start, map[], [])
  }

  function RunFrom(cfg: Config, a: Auth, events: seq<Timed>): Auth {
    if events == [] then a
    else Step(cfg, RunFrom(cfg, a, events[..|events| - 1]), events[|events| - 1])
  }

  predicate Timely(start: int, events: seq<Timed>) {
    && (forall i :: 0 <= i < |events| ==> start <= events[i].now)
    && (forall i, j :: 0 <= i < j < |events| ==> events[i].now <= events[j].now)
  }

  lemma RunPrefix(cfg: Config, a: Auth, events: seq<Timed>)
    requires events != [] && Timely(a.clock, events)
    ensures var n := |events| - 1;
            && Timely(a.clock, events[..n])
            && RunFrom(cfg, a, events[..n]).clock <= events[n].now
            && RunFrom(cfg, a, events) == Step(cfg, RunFrom(cfg, a, events[..n]), events[n])
  {
    hide DoLogin, DoRefresh, DoLogout, DoImpose, DoLift, DoPrune;
    var n := |events| - 1;
    if n > 0 {
      StepClock(cfg, RunFrom(cfg, a, events[..n][..n - 1]), events[..n][n - 1]);
    }
  }

  lemma StepClock(cfg: Config, a: Auth, t: Timed)
    ensures Step(cfg, a, t).clock == t.now
  {}

  // ----- what every step keeps -----

  /** Names are fresh, every family has one owner, and nobody has a live token while suspended. */
  ghost predicate Inv(a: Auth) {
    && (forall h :: h in a.tokens ==> h < a.next)
    && (forall h :: h in a.tokens ==>
          a.tokens[h].family in a.owners && a.owners[a.tokens[h].family] == a.tokens[h].user)
    && (forall f :: f in a.owners ==> f < a.next)
    && (forall h :: h in a.tokens && Live(a.tokens[h]) ==> !Blocked(a.suspensions, a.tokens[h].user, a.clock))
  }

  lemma BlockedEarlier(suspensions: seq<Suspension>, user: UserId, now: int, later: int)
    requires now <= later && Blocked(suspensions, user, later)
    ensures Blocked(suspensions, user, now)
  {
    var i :| 0 <= i < |suspensions| && InForce(suspensions[i], user, later);
    assert InForce(suspensions[i], user, now);
  }

  /** Time alone breaks nothing: a suspension in force later is in force now. */
  lemma TickKeepsInv(a: Auth, now: int)
    requires Inv(a) && a.clock <= now
    ensures Inv(a.(clock := now))
  {
    forall h | h in a.tokens && Live(a.tokens[h])
      ensures !Blocked(a.suspensions, a.tokens[h].user, now)
    {
      if Blocked(a.suspensions, a.tokens[h].user, now) {
        BlockedEarlier(a.suspensions, a.tokens[h].user, a.clock, now);
      }
    }
  }

  lemma RevokeKeepsInv(a: Auth, now: int, pick: set<Hash>)
    requires Inv(a)
    ensures Inv(a.(tokens := Revoke(a.tokens, now, pick)))
  {}

  lemma IssueKeepsInv(cfg: Config, a: Auth, now: int, user: UserId, family: Family, why: Deed)
    requires Inv(a) && a.clock == now && !Blocked(a.suspensions, user, now)
    requires family in a.owners && a.owners[family] == user
    ensures Inv(Issue(cfg, a, now, user, family, why))
  {
    hide Blocked;
  }

  lemma LoginKeepsInv(cfg: Config, a: Auth, now: int, user: UserId)
    requires Inv(a) && a.clock == now
    ensures Inv(DoLogin(cfg, a, now, user).0)
  {
    hide Blocked;
  }

  lemma RefreshKeepsInv(cfg: Config, a: Auth, now: int, hash: Hash)
    requires Inv(a) && a.clock == now
    ensures Inv(DoRefresh(cfg, a, now, hash).0)
  {
    hide Blocked, Inv;
    if hash in a.tokens {
      var t := a.tokens[hash];
      OwnerOf(a, hash);
      RevokeKeepsInv(a, now, {hash});
      RevokeKeepsInv(a, now, OfFamily(a.tokens, t.family));
      assert a.(tokens := Revoke(a.tokens, now, {hash}), clock := now) == a.(tokens := Revoke(a.tokens, now, {hash}));
      if !Blocked(a.suspensions, t.user, now) {
        IssueKeepsInv(cfg, a, now, t.user, t.family, Replayed(t.family));
        IssueKeepsInv(cfg, a.(tokens := Revoke(a.tokens, now, {hash})), now, t.user, t.family, Rotated(t.family));
      }
    }
  }

  lemma OwnerOf(a: Auth, hash: Hash)
    requires Inv(a) && hash in a.tokens
    ensures a.tokens[hash].family in a.owners && a.owners[a.tokens[hash].family] == a.tokens[hash].user
  {}

  lemma ImposeKeepsInv(a: Auth, now: int, user: UserId, expiresAt: Option<int>)
    requires Inv(a) && a.clock == now
    ensures Inv(DoImpose(a, now, user, expiresAt))
  {
    var a' := DoImpose(a, now, user, expiresAt);
    forall h | h in a'.tokens && Live(a'.tokens[h])
      ensures !Blocked(a'.suspensions, a'.tokens[h].user, now)
    {
      assert a.tokens[h] == a'.tokens[h];
      assert !Blocked(a.suspensions, a.tokens[h].user, now);
    }
  }

  lemma LiftKeepsInv(a: Auth, now: int, sid: nat)
    requires Inv(a) && a.clock == now
    ensures Inv(DoLift(a, now, sid))
  {
    var a' := DoLift(a, now, sid);
    forall u | Blocked(a'.suspensions, u, now)
      ensures Blocked(a.suspensions, u, now)
    {
      var i :| 0 <= i < |a'.suspensions| && InForce(a'.suspensions[i], u, now);
      assert InForce(a.suspensions[i], u, now);
    }
  }

  lemma StepKeepsInv(cfg: Config, a: Auth, t: Timed)
    requires Inv(a) && a.clock <= t.now
    ensures Inv(Step(cfg, a, t))
  {
    hide Blocked, Inv, Issue, Revoke;
    TickKeepsInv(a, t.now);
    ClockIrrelevant(cfg, a, t);
    var b := a.(clock := t.now);
    match t.event
    case Login(u) => LoginKeepsInv(cfg, b, t.now, u);
    case Refresh(h) => RefreshKeepsInv(cfg, b, t.now, h);
    case Logout(u, h) => RevokeKeepsInv(b, t.now, {h} * OfUser(b.tokens, u));
    case Impose(u, x) => ImposeKeepsInv(b, t.now, u, x);
    case Lift(i) => LiftKeepsInv(b, t.now, i);
    case Prune => PruneKeepsInv(b, t.now);
  }

  lemma PruneKeepsInv(a: Auth, now: int)
    requires Inv(a) && a.clock == now
    ensures Inv(DoPrune(a, now))
  {
    hide Blocked;
  }

  lemma ClockIrrelevant(cfg: Config, a: Auth, t: Timed)
    ensures Step(cfg, a, t) == Step(cfg, a.(clock := t.now), t)
  {
    hide Blocked, Revoke;
  }

  lemma {:induction false} RunKeepsInv(cfg: Config, a: Auth, events: seq<Timed>)
    requires Inv(a) && Timely(a.clock, events)
    ensures Inv(RunFrom(cfg, a, events))
  {
    hide Inv, Step, Timely;
    if events != [] {
      RunPrefix(cfg, a, events);
      RunKeepsInv(cfg, a, events[..|events| - 1]);
      StepKeepsInv(cfg, RunFrom(cfg, a, events[..|events| - 1]), events[|events| - 1]);
    }
  }

  /** While a suspension is unrevoked and unexpired its user holds no unrevoked refresh token, after
      every run and at every later instant. */
  lemma {:induction false} SuspendedHasNoLiveToken(cfg: Config, start: int, events: seq<Timed>, user: UserId, now: int, hash: Hash)
    requires Timely(start, events)
    requires RunFrom(cfg, Init(start), events).clock <= now
    requires Blocked(RunFrom(cfg, Init(start), events).suspensions, user, now)
    requires hash in RunFrom(cfg, Init(start), events).tokens
    requires RunFrom(cfg, Init(start), events).tokens[hash].user == user
    ensures RunFrom(cfg, Init(start), events).tokens[hash].revokedAt.Some?
  {
    RunKeepsInv(cfg, Init(start), events);
    var a := RunFrom(cfg, Init(start), events);
    BlockedEarlier(a.suspensions, user, a.clock, now);
  }

  /** All tokens of one family belong to one user, after every run. */
  lemma FamilyHasOneOwner(cfg: Config, start: int, events: seq<Timed>, h: Hash, h': Hash)
    requires Timely(start, events)
    requires h in RunFrom(cfg, Init(start), events).tokens && h' in RunFrom(cfg, Init(start), events).tokens
    requires RunFrom(cfg, Init(start), events).tokens[h].family == RunFrom(cfg, Init(start), events).tokens[h'].family
    ensures RunFrom(cfg, Init(start), events).tokens[h].user == RunFrom(cfg, Init(start), events).tokens[h'].user
  {
    hide Step, Inv;
    InitInv(start);
    RunKeepsInv(cfg, Init(start), events);
    OwnerOf(RunFrom(cfg, Init(start), events), h);
    OwnerOf(RunFrom(cfg, Init(start), events), h');
  }

  // ----- a row never changes owner or family, and revokedAt is written once -----

  ghost predicate RowKept(a: Auth, a': Auth, hash: Hash) {
    && (hash in a.tokens && hash in a'.tokens ==>
          && a'.tokens[hash].user == a.tokens[hash].user
          && a'.tokens[hash].family == a.tokens[hash].family
          && a'.tokens[hash].expiresAt == a.tokens[hash].expiresAt
          && (a.tokens[hash].revokedAt.Some? ==> a'.tokens[hash].revokedAt == a.tokens[hash].revokedAt))
    && (hash !in a.tokens && hash < a.next ==> hash !in a'.tokens)
    && a.next <= a'.next
  }

  lemma StepKeepsRow(cfg: Config, a: Auth, t: Timed, hash: Hash)
    requires forall h :: h in a.tokens ==> h < a.next
    ensures RowKept(a, Step(cfg, a, t), hash)
  {
    hide Blocked;
  }

  /** Over any run, a token that is still in the table has the same user and family, and the same
      revocation time if it had one; and a deleted token never comes back. */
  lemma {:induction false} RevocationIsWriteOnce(cfg: Config, a: Auth, events: seq<Timed>, hash: Hash)
    requires Inv(a) && Timely(a.clock, events) && hash < a.next
    ensures RowKept(a, RunFrom(cfg, a, events), hash)
  {
    hide Inv, Step, Timely;
    if events != [] {
      RunPrefix(cfg, a, events);
      var before := events[..|events| - 1];
      RevocationIsWriteOnce(cfg, a, before, hash);
      RunKeepsInv(cfg, a, before);
      HashesAreUsed(RunFrom(cfg, a, before));
      StepKeepsRow(cfg, RunFrom(cfg, a, before), events[|events| - 1], hash);
    }
  }

  lemma HashesAreUsed(a: Auth)
    requires Inv(a)
    ensures forall h :: h in a.tokens ==> h < a.next
  {}

  // ----- which refreshes succeed -----

  /** The token is live, or it is unexpired and was revoked no longer ago than the grace window. */
  predicate Open(cfg: Config, t: Token, now: int) {
    Live(t) || (t.expiresAt > now && now - t.revokedAt.value <= cfg.grace)
  }

  /** A refresh issues a token exactly for an open token whose owner is not suspended, and then into
      the family of that token. */
  lemma RefreshIssuesIff(cfg: Config, a: Auth, now: int, hash: Hash)
    ensures DoRefresh(cfg, a, now, hash).1.Issued? <==>
            hash in a.tokens && Open(cfg, a.tokens[hash], now) && !Blocked(a.suspensions, a.tokens[hash].user, now)
    ensures DoRefresh(cfg, a, now, hash).1.Issued? ==>
              var d := DoRefresh(cfg, a, now, hash).0;
              a.next in d.tokens && Live(d.tokens[a.next]) && d.tokens[a.next].family == a.tokens[hash].family
  {
    hide Blocked;
  }

  /** An expired token still rotates: exactly when it was never revoked. */
  lemma ExpiredTokenRotatesIff(cfg: Config, a: Auth, now: int, hash: Hash)
    requires hash in a.tokens && a.tokens[hash].expiresAt <= now
    ensures DoRefresh(cfg, a, now, hash).1.Issued? <==>
            Live(a.tokens[hash]) && !Blocked(a.suspensions, a.tokens[hash].user, now)
  {
    hide Blocked, DoRefresh;
    RefreshIssuesIff(cfg, a, now, hash);
  }

  /** The run at which "an expired token never rotates" fails: log in, wait, refresh. */
  lemma ExpiredTokenRotates(cfg: Config, user: UserId, later: nat)
    ensures var a := RunFrom(cfg, Init(0), [At(0, Login(user))]);
            && 0 in a.tokens && a.tokens[0].expiresAt == cfg.ttl
            && DoRefresh(cfg, a, cfg.ttl + later, 0).1 == Issued(1)
  {
    var events := [At(0, Login(user))];
    assert events[..|events| - 1] == [] && events[|events| - 1] == At(0, Login(user));
    var a := RunFrom(cfg, Init(0), events);
    assert RunFrom(cfg, Init(0), []) == Init(0);
    assert a == Step(cfg, Init(0), At(0, Login(user)));
  }

  /** Some refresh at this instant issues into the family exactly when one of its tokens is open and
      belongs to a user who is not suspended. */
  lemma FamilyIssuesIff(cfg: Config, a: Auth, now: int, f: Family)
    ensures (exists hash :: hash in a.tokens && a.tokens[hash].family == f && DoRefresh(cfg, a, now, hash).1.Issued?) <==>
            (exists hash :: hash in a.tokens && a.tokens[hash].family == f && Open(cfg, a.tokens[hash], now)
                            && !Blocked(a.suspensions, a.tokens[hash].user, now))
  {
    hide Blocked, DoRefresh, Open;
    forall hash { RefreshIssuesIff(cfg, a, now, hash); }
  }

  // ----- when a family is over -----

  /** No token of the family is open any more. */
  ghost predicate Dead(cfg: Config, a: Auth, f: Family, now: int) {
    && f < a.next
    && forall h :: h in a.tokens && a.tokens[h].family == f ==> !Open(cfg, a.tokens[h], now)
  }

  lemma StepKeepsDead(cfg: Config, a: Auth, t: Timed, f: Family)
    requires Dead(cfg, a, f, t.now)
    ensures Dead(cfg, Step(cfg, a, t), f, t.now)
  {
    hide Blocked;
  }

  lemma DeadLater(cfg: Config, a: Auth, f: Family, now: int, later: int)
    requires Dead(cfg, a, f, now) && now <= later
    ensures Dead(cfg, a, f, later)
  {}

  /** No later run of logins, refreshes, logouts, suspensions or prunes puts a live token into a family
      none of whose tokens is open: each was revoked, and has expired or was revoked longer ago than
      the grace window. */
  lemma {:induction false} DeadFamilyStaysDead(cfg: Config, a: Auth, events: seq<Timed>, f: Family)
    requires Timely(a.clock, events) && Dead(cfg, a, f, a.clock)
    ensures forall h :: h in RunFrom(cfg, a, events).tokens && RunFrom(cfg, a, events).tokens[h].family == f ==>
                          !Live(RunFrom(cfg, a, events).tokens[h])
    ensures Dead(cfg, RunFrom(cfg, a, events), f, RunFrom(cfg, a, events).clock)
  {
    hide Step, Timely;
    if events != [] {
      RunPrefix(cfg, a, events);
      var b, t := RunFrom(cfg, a, events[..|events| - 1]), events[|events| - 1];
      DeadFamilyStaysDead(cfg, a, events[..|events| - 1], f);
      DeadLater(cfg, b, f, b.clock, t.now);
      StepKeepsDead(cfg, b, t, f);
      StepClock(cfg, b, t);
    }
  }

  /** Some later run puts a new live token into the family. */
  ghost predicate Revivable(cfg: Config, a: Auth, f: Family) {
    exists events :: Timely(a.clock, events) && HasNewToken(a, RunFrom(cfg, a, events), f)
  }

  ghost predicate HasNewToken(a: Auth, b: Auth, f: Family) {
    exists h :: h >= a.next && h in b.tokens && b.tokens[h].family == f && Live(b.tokens[h])
  }

  /** The condition is exact: a family can get a new live token in some later run if and only if one
      of its tokens is open. In particular reuse detection is not final: the tokens that it revokes
      stay open for the grace window. */
  lemma FamilyIsOverIff(cfg: Config, a: Auth, f: Family)
    requires Inv(a) && f < a.next
    ensures Revivable(cfg, a, f) <==> !Dead(cfg, a, f, a.clock)
  {
    hide RunFrom, Timely, Inv, Open;
    if Dead(cfg, a, f, a.clock) {
      forall events | Timely(a.clock, events) ensures !HasNewToken(a, RunFrom(cfg, a, events), f) {
        DeadFamilyStaysDead(cfg, a, events, f);
      }
    } else {
      var h :| h in a.tokens && a.tokens[h].family == f && Open(cfg, a.tokens[h], a.clock);
      Revive(cfg, a, h);
    }
  }

  /** Lift every suspension and refresh. */
  lemma Revive(cfg: Config, a: Auth, h: Hash)
    requires h in a.tokens && Open(cfg, a.tokens[h], a.clock)
    ensures Revivable(cfg, a, a.tokens[h].family)
  {
    hide Open, Timely, Blocked, DoRefresh, DoLift;
    var lifts := Lifts(|a.suspensions|, a.clock);
    LiftAll(cfg, a, |a.suspensions|);
    var b := RunFrom(cfg, a, lifts);
    NoneInForce(b.suspensions, a.tokens[h].user, a.clock);
    RefreshIssuesIff(cfg, b, a.clock, h);
    var events := lifts + [At(a.clock, Refresh(h))];
    assert events[..|lifts|] == lifts;
    AllAtOnce(a.clock, events);
    assert a.next in RunFrom(cfg, a, events).tokens;
  }

  lemma NoneInForce(s: seq<Suspension>, user: UserId, now: int)
    requires forall i :: 0 <= i < |s| ==> s[i].revokedAt.Some?
    ensures !Blocked(s, user, now)
  {}

  lemma AllAtOnce(now: int, events: seq<Timed>)
    requires forall i :: 0 <= i < |events| ==> events[i].now == now
    ensures Timely(now, events)
  {}

  function Lifts(n: nat, now: int): (r: seq<Timed>)
    ensures |r| == n && forall i :: 0 <= i < n ==> r[i].now == now
  {
    if n == 0 then [] else Lifts(n - 1, now) + [At(now, Lift(n - 1))]
  }

  lemma {:induction false} LiftAll(cfg: Config, a: Auth, n: nat)
    requires n <= |a.suspensions|
    ensures var b := RunFrom(cfg, a, Lifts(n, a.clock));
            && b == a.(suspensions := b.suspensions) && |b.suspensions| == |a.suspensions|
            && (forall i :: 0 <= i < n ==> b.suspensions[i].revokedAt.Some?)
  {
    if n > 0 {
      LiftAll(cfg, a, n - 1);
      assert Lifts(n, a.clock)[..n - 1] == Lifts(n - 1, a.clock);
    }
  }

  /** Reuse detection itself, and what a replay within the grace window makes of it: two tokens of a
      family, one revoked long ago. Presenting that one revokes the other, and presenting the other
      then issues a live token again. */
  lemma ReuseDetectionIsNotFinal(cfg: Config, a: Auth, now: int, stolen: Hash, other: Hash)
    requires stolen in a.tokens && other in a.tokens && a.tokens[stolen].family == a.tokens[other].family
    requires a.tokens[stolen].revokedAt.Some? && a.tokens[stolen].expiresAt > now && now - a.tokens[stolen].revokedAt.value > cfg.grace
    requires Live(a.tokens[other]) && a.tokens[other].expiresAt > now && !Blocked(a.suspensions, a.tokens[other].user, now)
    ensures DoRefresh(cfg, a, now, stolen).1 == ReuseDetected
    ensures DoRefresh(cfg, DoRefresh(cfg, a, now, stolen).0, now, other).1.Issued?
  {
    hide Blocked;
  }

  lemma RunSnoc(cfg: Config, a: Auth, events: seq<Timed>, t: Timed)
    ensures RunFrom(cfg, a, events + [t]) == Step(cfg, RunFrom(cfg, a, events), t)
  {
    hide Step;
    assert (events + [t])[..|events|] == events;
  }

  /** A run that gets there: log in, refresh, wait past the grace window, present the first token, and
      then the second one, which that has just revoked. */
  lemma ReuseDetectionRun(cfg: Config, user: UserId)
    requires cfg.ttl > cfg.grace + 1
    ensures var late := cfg.grace + 1;
            var a := RunFrom(cfg, Init(0), [] + [At(0, Login(user))] + [At(0, Refresh(0))]);
            && DoRefresh(cfg, a, late, 0).1 == ReuseDetected
            && 1 in a.tokens && a.tokens[1].revokedAt == None
            && 1 in Step(cfg, a, At(late, Refresh(0))).tokens && Step(cfg, a, At(late, Refresh(0))).tokens[1].revokedAt == Some(late)
            && DoRefresh(cfg, Step(cfg, a, At(late, Refresh(0))), late, 1).1 == Issued(2)
  {
    var late := cfg.grace + 1;
    RunSnoc(cfg, Init(0), [], At(0, Login(user)));
    RunSnoc(cfg, Init(0), [] + [At(0, Login(user))], At(0, Refresh(0)));
    var a := RunFrom(cfg, Init(0), [] + [At(0, Login(user))] + [At(0, Refresh(0))]);
    assert a.tokens == map[0 := Token(user, 0, cfg.ttl, Some(0)), 1 := Token(user, 0, cfg.ttl, None)];
    ReuseDetectionIsNotFinal(cfg, a, late, 0, 1);
  }

  // ----- how many live tokens a family can have -----

  function LiveOf(tokens: map<Hash, Token>, f: Family): set<Hash> {
    set h | h in tokens && tokens[h].family == f && Live(tokens[h])
  }

  function Replays(log: seq<Deed>, f: Family): nat {
    if log == [] then 0
    else Replays(log[..|log| - 1], f) + (if log[|log| - 1] == Replayed(f) then 1 else 0)
  }

  ghost predicate FewLive(a: Auth, f: Family) {
    && |LiveOf(a.tokens, f)| <= 1 + Replays(a.log, f)
    && (f >= a.next ==> LiveOf(a.tokens, f) == {})
  }

  lemma FewerIsFew(a: Auth, a': Auth, f: Family)
    requires FewLive(a, f) && LiveOf(a'.tokens, f) <= LiveOf(a.tokens, f)
    requires a'.log == a.log && a'.next == a.next
    ensures FewLive(a', f)
  {
    Subset(LiveOf(a'.tokens, f), LiveOf(a.tokens, f));
  }

  lemma Subset(s: set<Hash>, t: set<Hash>)
    requires s <= t
    ensures |s| <= |t|
  {
    assert t == s + (t - s);
  }

  lemma LogGrows(log: seq<Deed>, d: Deed, f: Family)
    ensures Replays(log + [d], f) == Replays(log, f) + (if d == Replayed(f) then 1 else 0)
  {
    assert (log + [d])[..|log|] == log;
  }

  lemma IssueAdds(cfg: Config, a: Auth, now: int, user: UserId, family: Family, why: Deed, f: Family)
    requires a.next !in a.tokens
    ensures LiveOf(Issue(cfg, a, now, user, family, why).tokens, f)
         == LiveOf(a.tokens, f) + (if family == f then {a.next} else {})
  {}

  lemma RevokeOne(tokens: map<Hash, Token>, now: int, hash: Hash, f: Family)
    requires hash in tokens && Live(tokens[hash])
    ensures LiveOf(Revoke(tokens, now, {hash}), f) == LiveOf(tokens, f) - {hash}
    ensures tokens[hash].family == f ==> hash in LiveOf(tokens, f)
  {}

  lemma RotateKeepsFew(cfg: Config, a: Auth, now: int, hash: Hash, f: Family)
    requires FewLive(a, f) && hash in a.tokens && Live(a.tokens[hash])
    requires a.next !in a.tokens && a.tokens[hash].family < a.next
    ensures var t := a.tokens[hash];
            var b := a.(tokens := Revoke(a.tokens, now, {hash}), clock := now);
            FewLive(b, f) && FewLive(Issue(cfg, b, now, t.user, t.family, Rotated(t.family)), f)
  {
    hide Replays, Revoke, LiveOf;
    var t := a.tokens[hash];
    var b := a.(tokens := Revoke(a.tokens, now, {hash}), clock := now);
    LogGrows(a.log, Rotated(t.family), f);
    RevokeOne(a.tokens, now, hash, f);
    Subset(LiveOf(a.tokens, f) - {hash}, LiveOf(a.tokens, f));
    IssueAdds(cfg, b, now, t.user, t.family, Rotated(t.family), f);
  }

  lemma ReplayKeepsFew(cfg: Config, a: Auth, now: int, user: UserId, family: Family, f: Family)
    requires FewLive(a, f) && a.next !in a.tokens && family < a.next
    ensures FewLive(Issue(cfg, a, now, user, family, Replayed(family)), f)
  {
    hide Replays, LiveOf;
    LogGrows(a.log, Replayed(family), f);
    IssueAdds(cfg, a, now, user, family, Replayed(family), f);
  }

  lemma RefreshKeepsFew(cfg: Config, a: Auth, now: int, hash: Hash, f: Family)
    requires Inv(a) && FewLive(a, f)
    ensures FewLive(DoRefresh(cfg, a, now, hash).0, f)
  {
    hide Inv, Blocked, FewLive, Revoke, Issue;
    HashesAreUsed(a);
    TickKeepsFew(a, now, f);
    if hash in a.tokens {
      var t := a.tokens[hash];
      OwnerOf(a, hash);
      OwnersAreUsed(a);
      ReplayKeepsFew(cfg, a, now, t.user, t.family, f);
      RevokeKeepsFew(a, now, OfFamily(a.tokens, t.family), f);
      if Live(t) {
        RotateKeepsFew(cfg, a, now, hash, f);
      }
    }
  }

  lemma OwnersAreUsed(a: Auth)
    requires Inv(a)
    ensures forall f :: f in a.owners ==> f < a.next
  {}

  lemma TickKeepsFew(a: Auth, now: int, f: Family)
    requires FewLive(a, f)
    ensures FewLive(a.(clock := now), f)
  {}

  lemma RevokeKeepsFew(a: Auth, now: int, pick: set<Hash>, f: Family)
    requires FewLive(a, f)
    ensures FewLive(a.(tokens := Revoke(a.tokens, now, pick), clock := now), f)
  {
    hide Replays;
    FewerIsFew(a, a.(tokens := Revoke(a.tokens, now, pick), clock := now), f);
  }

  lemma LoginKeepsFew(cfg: Config, a: Auth, now: int, user: UserId, f: Family)
    requires Inv(a) && FewLive(a, f)
    ensures FewLive(DoLogin(cfg, a, now, user).0, f)
  {
    hide Blocked, Replays;
    LogGrows(a.log, Started(a.next), f);
    IssueAdds(cfg, a, now, user, a.next, Started(a.next), f);
  }

  lemma PruneKeepsFew(a: Auth, now: int, f: Family)
    requires FewLive(a, f)
    ensures FewLive(DoPrune(a, now), f)
  {
    hide Replays;
    FewerIsFew(a, DoPrune(a, now), f);
  }

  lemma StepKeepsFew(cfg: Config, a: Auth, t: Timed, f: Family)
    requires Inv(a) && FewLive(a, f)
    ensures FewLive(Step(cfg, a, t), f)
  {
    hide Inv, LiveOf, Replays, DoLogin, DoRefresh, DoPrune, Revoke;
    match t.event
    case Login(u) => LoginKeepsFew(cfg, a, t.now, u, f);
    case Refresh(h) => RefreshKeepsFew(cfg, a, t.now, h, f);
    case Logout(u, h) => RevokeKeepsFew(a, t.now, {h} * OfUser(a.tokens, u), f);
    case Impose(u, _) => RevokeKeepsFew(a, t.now, OfUser(a.tokens, u), f);
    case Lift(_) =>
    case Prune => PruneKeepsFew(a, t.now, f);
  }

  /** After every run a family has at most one live token more than it saw grace replays. */
  lemma {:induction false} LiveTokensBoundedByReplays(cfg: Config, start: int, events: seq<Timed>, f: Family)
    requires Timely(start, events)
    ensures var a := RunFrom(cfg, Init(start), events); |LiveOf(a.tokens, f)| <= 1 + Replays(a.log, f)
    ensures FewLive(RunFrom(cfg, Init(start), events), f)
  {
    hide Step, Timely, Inv;
    if events != [] {
      RunPrefix(cfg, Init(start), events);
      var before := events[..|events| - 1];
      LiveTokensBoundedByReplays(cfg, start, before, f);
      InitInv(start);
      RunKeepsInv(cfg, Init(start), before);
      StepKeepsFew(cfg, RunFrom(cfg, Init(start), before), events[|events| - 1], f);
    }
  }

  lemma InitInv(start: int)
    ensures Inv(Init(start))
  {}

  // ----- the service -----

  class AuthService {
    const cfg: Config
    var tokens: map<Hash, Token>
    var suspensions: seq<Suspension>
    var next: nat
    ghost var clock: int
    ghost var owners: map<Family, UserId>
    ghost var log: seq<Deed>

    ghost function View(): Auth
      reads this
    {
      Auth(tokens, suspensions, next, clock, owners, log)
    }

    ghost predicate Valid()
      reads this
    {
      Inv(View())
    }

    constructor (cfg: Config, ghost start: int)
      ensures Valid() && this.cfg == cfg && View() == Init(start)
    {
      this.cfg := cfg;
      tokens, suspensions, next := map[], [], 0;
      clock, owners, log := start, map[], [];
    }

    method IsSuspended(user: UserId, now: int) returns (b: bool)
      ensures b == Blocked(suspensions, user, now)
    {
      b := false;
      for i := 0 to |suspensions|
        invariant b <==> exists j :: 0 <= j < i && InForce(suspensions[j], user, now)
      {
        if InForce(suspensions[i], user, now) {
          b := true;
        }
      }
    }

    /** `updateMany` that sets `revokedAt` on the unrevoked rows among `pick`. */
    method RevokeAll(now: int, pick: set<Hash>)
      modifies `tokens
      ensures tokens == Revoke(old(tokens), now, pick)
    {
      var todo := pick * tokens.Keys;
      while todo != {}
        invariant todo <= pick * tokens.Keys && tokens.Keys == old(tokens.Keys)
        invariant forall h :: h in tokens && h !in pick - todo ==> tokens[h] == old(tokens)[h]
        invariant forall h :: h in tokens && h in pick - todo ==>
                                tokens[h] == if Live(old(tokens)[h]) then old(tokens)[h].(revokedAt := Some(now)) else old(tokens)[h]
        decreases todo
      {
        var h :| h in todo;
        todo := todo - {h};
        if tokens[h].revokedAt.None? {
          tokens := tokens[h := tokens[h].(revokedAt := Some(now))];
        }
      }
    }

    method IssueTokenPair(now: int, user: UserId, family: Family, ghost why: Deed) returns (hash: Hash)
      modifies this
      ensures View() == Issue(cfg, old(View()), now, user, family, why) && hash == old(next)
    {
      hash := next;
      tokens := tokens[hash := Token(user, family, now + cfg.ttl, None)];
      next := next + 1;
      clock, log := now, log + [why];
    }

    method LoginUser(now: int, user: UserId) returns (r: Reply)
      requires Valid() && clock <= now
      modifies this
      ensures Valid()
      ensures (View(), r) == DoLogin(cfg, old(View()), now, user)
    {
      hide Inv, Blocked, Revoke;
      StepKeepsInv(cfg, View(), At(now, Login(user)));
      var blocked := IsSuspended(user, now);
      if blocked {
        clock := now;
        return Suspended;
      }
      owners := owners[next := user];
      var h := IssueTokenPair(now, user, next, Started(next));
      r := Issued(h);
    }

    method RefreshToken(now: int, hash: Hash) returns (r: Reply)
      requires Valid() && clock <= now
      modifies this
      ensures Valid()
      ensures (View(), r) == DoRefresh(cfg, old(View()), now, hash)
    {
      hide Inv, Blocked, Revoke;
      StepKeepsInv(cfg, View(), At(now, Refresh(hash)));
      if hash in tokens && tokens[hash].revokedAt.None? {
        var t := tokens[hash];
        RevokeAll(now, {hash});
        clock := now;
        var blocked := IsSuspended(t.user, now);
        if blocked {
          return Suspended;
        }
        var h := IssueTokenPair(now, t.user, t.family, Rotated(t.family));
        return Issued(h);
      }
      if hash !in tokens || tokens[hash].expiresAt <= now {
        clock := now;
        return Invalid;
      }
      var t := tokens[hash];
      if now - t.revokedAt.value <= cfg.grace {
        var blocked := IsSuspended(t.user, now);
        if blocked {
          clock := now;
          return Suspended;
        }
        var h := IssueTokenPair(now, t.user, t.family, Replayed(t.family));
        return Issued(h);
      }
      RevokeAll(now, set h | h in tokens && tokens[h].family == t.family);
      clock := now;
      return ReuseDetected;
    }

    method LogoutUser(now: int, user: UserId, hash: Hash)
      requires Valid() && clock <= now
      modifies this
      ensures Valid()
      ensures View() == DoLogout(old(View()), now, user, hash)
    {
      hide Inv, Blocked, Revoke;
      StepKeepsInv(cfg, View(), At(now, Logout(user, hash)));
      RevokeAll(now, {hash} * set h | h in tokens && tokens[h].user == user);
      clock := now;
    }

    method PruneTokens(now: int)
      requires Valid() && clock <= now
      modifies this
      ensures Valid()
      ensures View() == DoPrune(old(View()), now)
    {
      hide Inv, Blocked, Revoke;
      StepKeepsInv(cfg, View(), At(now, Prune));
      tokens := map h | h in tokens && !(tokens[h].expiresAt < now || tokens[h].revokedAt.Some?) :: tokens[h];
      assert tokens == DoPrune(old(View()), now).tokens;
      clock := now;
    }
  }
}
