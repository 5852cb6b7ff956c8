/**
 What each session call answers, and what it does to every token and suspension.
 */
module SessionCalls {
  import opened Prelude
  import opened Sessions

  /** Some unrevoked suspension of the user that has not expired. */
  ghost predicate IsBlocked(suspensions: seq<Suspension>, user: UserId, now: int) {
    exists i :: 0 <= i < |suspensions| && suspensions[i].user == user && suspensions[i].revokedAt == None
                && (suspensions[i].expiresAt == None || suspensions[i].expiresAt.value > now)
  }

  lemma BlockedMeans(suspensions: seq<Suspension>, user: UserId, now: int)
    ensures Blocked(suspensions, user, now) <==> IsBlocked(suspensions, user, now)
  {
    if Blocked(suspensions, user, now) {
      var i :| 0 <= i < |suspensions| && InForce(suspensions[i], user, now);
      assert suspensions[i].revokedAt == None;
    }
    if IsBlocked(suspensions, user, now) {
      var i :| 0 <= i < |suspensions| && suspensions[i].user == user && suspensions[i].revokedAt == None
               && (suspensions[i].expiresAt == None || suspensions[i].expiresAt.value > now);
      assert InForce(suspensions[i], user, now);
    }
  }

  /** The tokens afterwards: the unrevoked ones for which `hit` holds are revoked at `now`, all others
      are as they were. */
  ghost predicate Revoked(was: map<Hash, Token>, tokens: map<Hash, Token>, now: int, hit: set<Hash>) {
    && tokens.Keys == was.Keys
    && forall h :: h in was ==>
         tokens[h] == if h in hit && was[h].revokedAt == None
                      then Token(was[h].user, was[h].family, was[h].expiresAt, Some(now)) else was[h]
  }

  /** A login by a user who is not suspended adds one live token in a family of its own. */
  lemma LoginMeans(cfg: Config, a: Auth, now: int, user: UserId)
    ensures var (d, r) := DoLogin(cfg, a, now, user);
            && (r == Suspended <==> IsBlocked(a.suspensions, user, now))
            && (r == Issued(a.next) <==> !IsBlocked(a.suspensions, user, now))
            && d == Step(cfg, a, At(now, Login(user)))
            && d.suspensions == a.suspensions && d.clock == now
            && (r == Suspended ==> d.tokens == a.tokens && d.next == a.next && d.owners == a.owners && d.log == a.log)
            && (r != Suspended ==>
                  && d.tokens == a.tokens[a.next := Token(user, a.next, now + cfg.ttl, None)] && d.next == a.next + 1
                  && d.owners == a.owners[a.next := user] && d.log == a.log + [Started(a.next)])
  {
    hide Blocked, IsBlocked;
    BlockedMeans(a.suspensions, user, now);
  }

  /** The four kinds of answer to a refresh. */
  lemma RefreshAnswers(cfg: Config, a: Auth, now: int, hash: Hash)
    ensures var r := DoRefresh(cfg, a, now, hash).1;
            if hash !in a.tokens then r == Invalid
            else
              var t := a.tokens[hash];
              if t.revokedAt == None then r == if IsBlocked(a.suspensions, t.user, now) then Suspended else Issued(a.next)
              else if t.expiresAt <= now then r == Invalid
              else if now - t.revokedAt.value > cfg.grace then r == ReuseDetected
              else r == if IsBlocked(a.suspensions, t.user, now) then Suspended else Issued(a.next)
  {
    hide Blocked, IsBlocked;
    if hash in a.tokens {
      BlockedMeans(a.suspensions, a.tokens[hash].user, now);
    }
  }

  /** A rotation revokes the presented token, if it was live, and no other; and it adds one live token
      of the same user and family. A replay within the grace window only adds one. */
  lemma IssuedMeans(cfg: Config, a: Auth, now: int, hash: Hash)
    requires DoRefresh(cfg, a, now, hash).1.Issued? && a.next !in a.tokens
    ensures hash in a.tokens
    ensures var d, t := DoRefresh(cfg, a, now, hash).0, a.tokens[hash];
            && d == Step(cfg, a, At(now, Refresh(hash)))
            && d.suspensions == a.suspensions && d.clock == now && d.next == a.next + 1 && d.owners == a.owners
            && a.next in d.tokens && d.tokens[a.next] == Token(t.user, t.family, now + cfg.ttl, None)
            && Revoked(a.tokens, d.tokens - {a.next}, now, {hash})
            && d.log == a.log + [if t.revokedAt == None then Rotated(t.family) else Replayed(t.family)]
  {
    hide Blocked;
  }

  /** A refresh that does not issue adds no token. For a suspended owner it still revokes a live token
      that is presented; reuse detection revokes the whole family, and no token of another one. */
  lemma RefusedMeans(cfg: Config, a: Auth, now: int, hash: Hash)
    requires !DoRefresh(cfg, a, now, hash).1.Issued?
    ensures var (d, r) := DoRefresh(cfg, a, now, hash);
            && d.suspensions == a.suspensions && d.clock == now && d.next == a.next && d.owners == a.owners && d.log == a.log
            && d == Step(cfg, a, At(now, Refresh(hash)))
            && (r == ReuseDetected ==>
                  && hash in a.tokens
                  && Revoked(a.tokens, d.tokens, now, set h | h in a.tokens && a.tokens[h].family == a.tokens[hash].family))
            && (r == Suspended ==> Revoked(a.tokens, d.tokens, now, {hash}))
            && (r == Invalid ==> d.tokens == a.tokens)
  {
    hide Blocked;
  }

  /** After reuse is detected no token of the family is live. */
  lemma ReuseLeavesNoneLive(cfg: Config, a: Auth, now: int, hash: Hash)
    requires DoRefresh(cfg, a, now, hash).1 == ReuseDetected
    ensures hash in a.tokens
    ensures var d := DoRefresh(cfg, a, now, hash).0;
            forall h :: h in d.tokens && d.tokens[h].family == a.tokens[hash].family ==> d.tokens[h].revokedAt.Some?
  {
    hide DoRefresh;
    RefusedMeans(cfg, a, now, hash);
  }

  /** A logout revokes the named token if it is the caller's, and nothing else. */
  lemma LogoutMeans(cfg: Config, a: Auth, now: int, user: UserId, hash: Hash)
    ensures var d := Step(cfg, a, At(now, Logout(user, hash)));
            && Revoked(a.tokens, d.tokens, now, set h | h in a.tokens && h == hash && a.tokens[h].user == user)
            && d == a.(tokens := d.tokens, clock := now)
  {}

  /** A suspension adds exactly its own row and revokes every live token of the user and of nobody else. */
  lemma ImposeMeans(cfg: Config, a: Auth, now: int, user: UserId, expiresAt: Option<int>)
    ensures var d := Step(cfg, a, At(now, Impose(user, expiresAt)));
            && d.suspensions == a.suspensions + [Suspension(user, expiresAt, None)]
            && Revoked(a.tokens, d.tokens, now, set h | h in a.tokens && a.tokens[h].user == user)
            && d == a.(tokens := d.tokens, suspensions := d.suspensions, clock := now)
  {}

  /** So, with no other suspension of the user in force, it blocks them until it expires. */
  lemma ImposedUntil(cfg: Config, a: Auth, now: int, user: UserId, expiresAt: Option<int>, later: int)
    requires !IsBlocked(a.suspensions, user, later)
    ensures IsBlocked(Step(cfg, a, At(now, Impose(user, expiresAt))).suspensions, user, later) <==>
            (expiresAt == None || expiresAt.value > later)
  {
    hide Step;
    ImposeMeans(cfg, a, now, user, expiresAt);
    var s := Step(cfg, a, At(now, Impose(user, expiresAt))).suspensions;
    assert s[|a.suspensions|] == Suspension(user, expiresAt, None);
    assert forall i :: 0 <= i < |a.suspensions| ==> s[i] == a.suspensions[i];
  }

  /** Lifting ends one suspension and touches no token. */
  lemma LiftMeans(cfg: Config, a: Auth, now: int, sid: nat)
    ensures var d := Step(cfg, a, At(now, Lift(sid)));
            && |d.suspensions| == |a.suspensions| && d == a.(suspensions := d.suspensions, clock := now)
            && (forall i :: 0 <= i < |a.suspensions| ==>
                  d.suspensions[i] == if i == sid then Suspension(a.suspensions[i].user, a.suspensions[i].expiresAt, Some(now))
                                      else a.suspensions[i])
  {}

  /** A prune removes exactly the tokens that are revoked or have expired. */
  lemma PruneMeans(cfg: Config, a: Auth, now: int)
    ensures var d := Step(cfg, a, At(now, Prune));
            && (forall h :: h in d.tokens <==> h in a.tokens && a.tokens[h].revokedAt == None && a.tokens[h].expiresAt >= now)
            && (forall h :: h in d.tokens ==> d.tokens[h] == a.tokens[h])
            && d == a.(tokens := d.tokens, clock := now)
  {}
}
