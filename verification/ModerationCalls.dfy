/**
 What each moderation call answers, and what it does to every table. A refusal changes nothing.
 */
module ModerationCalls {
  import opened Prelude
  import opened Moderation
  import Sessions
  import SessionCalls

  /** The database with the time moved on. */
  function Later(db: Db, now: int): Db {
    db.(auth := db.auth.(clock := now))
  }

  lemma RefusalChangesNothing(db: Db, now: int, q: Request)
    requires Decide(db, now, q).1 != Ok
    ensures Step(db, At(now, q)) == Later(db, now)
  {
    hide CommitSuspend, CommitDelete, CloseReports;
    DecideIsAllowed(db, now, q);
  }

  // ----- suspending -----

  lemma SuspendAnswers(db: Db, now: int, q: Request)
    requires q.SuspendUser?
    ensures Decide(db, now, q).1 ==
            if q.role != Admin then Forbidden
            else if q.actor == q.target then BadRequest
            else if q.target >= |db.users| then NotFound
            else if db.users[q.target].role == Admin then Forbidden
            else if db.users[q.target].status == Suspended then Conflict
            else if q.expiresAt.Some? && q.expiresAt.value <= now then BadRequest
            else Ok
  {}

  /** Rows of the cascade: one per live message of the sender, by the actor, in table order. */
  ghost predicate CascadeRows(rows: seq<AuditRow>, messages: seq<Message>, sender: UserId, actor: UserId) {
    && (forall i :: 0 <= i < |rows| ==>
          && rows[i].actor == Some(actor) && rows[i].action.MessageTombstone? && rows[i].action.message < |messages|
          && messages[rows[i].action.message] == Message(sender, false))
    && (forall i, j :: 0 <= i < j < |rows| && rows[i].action.MessageTombstone? && rows[j].action.MessageTombstone? ==>
                         rows[i].action.message < rows[j].action.message)
    && (forall m :: 0 <= m < |messages| && messages[m] == Message(sender, false) ==> AuditRow(Some(actor), MessageTombstone(m)) in rows)
  }

  lemma {:induction false} RowsAreTheLive(messages: seq<Message>, sender: UserId, actor: UserId)
    ensures CascadeRows(TombstoneRows(messages, sender, actor), messages, sender, actor)
  {
    if messages != [] {
      var n := |messages| - 1;
      RowsAreTheLive(messages[..n], sender, actor);
      assert forall m :: 0 <= m < n ==> messages[..n][m] == messages[m];
    }
  }

  /** Everything a suspension changes. The new suspension row carries the end date. */
  lemma SuspendChanges(db: Db, now: int, q: Request)
    requires q.SuspendUser? && Decide(db, now, q).1 == Ok
    ensures var d := Step(db, At(now, q));
            && q.target < |db.users|
            && d.users == db.users[q.target := User(Suspended, db.users[q.target].role, db.users[q.target].strikes + 1)]
            && d.auth.suspensions == db.auth.suspensions + [Sessions.Suspension(q.target, q.expiresAt, None)]
            && SessionCalls.Revoked(db.auth.tokens, d.auth.tokens, now, set h | h in db.auth.tokens && db.auth.tokens[h].user == q.target)
            && d.auth == db.auth.(tokens := d.auth.tokens, suspensions := d.auth.suspensions, clock := now)
            && d == db.(users := d.users, messages := d.messages, reports := d.reports, audit := d.audit, auth := d.auth)
  {
    hide CloseReports, OnLiveFrom, TombstoneAll, TombstoneRows;
    DecideIsAllowed(db, now, q);
  }

  lemma SuspendCascades(db: Db, now: int, q: Request)
    requires q.SuspendUser? && Decide(db, now, q).1 == Ok
    ensures var d := Step(db, At(now, q));
            && |d.messages| == |db.messages|
            && (forall m :: 0 <= m < |db.messages| ==>
                  d.messages[m] == Message(db.messages[m].sender, db.messages[m].deleted || db.messages[m].sender == q.target))
            && d.reports.Keys == db.reports.Keys
            && (forall r :: r in db.reports ==>
                  d.reports[r] ==
                  if db.reports[r].status != Closed
                     && (q.trigger == Some(r) || (db.reports[r].message < |db.messages| && db.messages[db.reports[r].message] == Message(q.target, false)))
                  then db.reports[r].(status := Closed, resolution := Some(AutoClosedSuspended), reviewer := Some(q.actor))
                  else db.reports[r])
  {
    hide TombstoneRows;
    DecideIsAllowed(db, now, q);
  }

  lemma SuspendIsLogged(db: Db, now: int, q: Request)
    requires q.SuspendUser? && Decide(db, now, q).1 == Ok
    ensures var d := Step(db, At(now, q));
            && |db.audit| < |d.audit| && d.audit[..|db.audit|] == db.audit
            && d.audit[|d.audit| - 1] == AuditRow(Some(q.actor), UserSuspend(q.target, |db.auth.suspensions|))
            && CascadeRows(d.audit[|db.audit|..|d.audit| - 1], db.messages, q.target, q.actor)
  {
    hide CloseReports, OnLiveFrom, TombstoneAll, TombstoneRows, CascadeRows;
    DecideIsAllowed(db, now, q);
    RowsAreTheLive(db.messages, q.target, q.actor);
    var d := Step(db, At(now, q));
    assert d.audit[|db.audit|..|d.audit| - 1] == TombstoneRows(db.messages, q.target, q.actor);
  }

  // ----- lifting a suspension -----

  /** The user is ACTIVE again, that suspension is revoked now, and one row says so; nothing else. */
  ghost predicate Lifted(db: Db, d: Db, now: int, who: Option<UserId>, u: UserId, sid: nat) {
    && u < |db.users| && sid < |db.auth.suspensions|
    && d.users == db.users[u := User(Active, db.users[u].role, db.users[u].strikes)]
    && d.auth == db.auth.(suspensions := db.auth.suspensions[sid :=
                            Sessions.Suspension(db.auth.suspensions[sid].user, db.auth.suspensions[sid].expiresAt, Some(now))], clock := now)
    && d.audit == db.audit + [AuditRow(who, UserUnsuspend(u, sid))]
    && d == db.(users := d.users, auth := d.auth, audit := d.audit)
  }

  /** The newest unrevoked suspension of the user. */
  ghost predicate IsActive(s: seq<Sessions.Suspension>, u: UserId, sid: nat) {
    && sid < |s| && s[sid].user == u && s[sid].revokedAt == None
    && forall i :: sid < i < |s| ==> !(s[i].user == u && s[i].revokedAt == None)
  }

  lemma {:induction false} ActiveIsNewest(s: seq<Sessions.Suspension>, u: UserId)
    ensures ActiveSuspension(s, u) >= 0 ==> IsActive(s, u, ActiveSuspension(s, u))
  {
    if s != [] {
      ActiveIsNewest(s[..|s| - 1], u);
    }
  }

  lemma UnsuspendMeans(db: Db, now: int, q: Request)
    requires q.UnsuspendUser?
    ensures var (d, r) := (Step(db, At(now, q)), Decide(db, now, q).1);
            && (q.role != Admin ==> r == Forbidden)
            && (q.role == Admin && q.target >= |db.users| ==> r == NotFound)
            && (q.role == Admin && q.target < |db.users| && db.users[q.target].status == Active ==> r == BadRequest)
            && (q.role == Admin && q.target < |db.users| && db.users[q.target].status == Suspended ==>
                  r == if exists sid :: IsActive(db.auth.suspensions, q.target, sid) then Ok else BadRequest)
            && (r == Ok ==> exists sid: nat :: IsActive(db.auth.suspensions, q.target, sid)
                                               && Lifted(db, d, now, Some(q.actor), q.target, sid))
  {
    hide ActiveSuspension;
    DecideIsAllowed(db, now, q);
    ActiveIsNewest(db.auth.suspensions, q.target);
    var sid := ActiveSuspension(db.auth.suspensions, q.target);
    if Decide(db, now, q).1 == Ok {
      assert IsActive(db.auth.suspensions, q.target, sid) && Lifted(db, Step(db, At(now, q)), now, Some(q.actor), q.target, sid);
    }
  }

  lemma ReactivateMeans(db: Db, now: int, sid: nat)
    ensures var s := db.auth.suspensions;
            var q := ReactivateOne(sid);
            && (Decide(db, now, q).1 == Ok <==>
                && sid < |s| && s[sid].revokedAt == None && s[sid].expiresAt.Some? && s[sid].expiresAt.value < now
                && s[sid].user < |db.users|)
            && (Decide(db, now, q).1 == Ok ==> Lifted(db, Step(db, At(now, q)), now, None, s[sid].user, sid))
  {
    DecideIsAllowed(db, now, ReactivateOne(sid));
  }

  // ----- strikes and roles -----

  lemma ResetMeans(db: Db, now: int, q: Request)
    requires q.ResetStrikes?
    ensures var (d, r) := (Step(db, At(now, q)), Decide(db, now, q).1);
            && (r == if q.role != Admin then Forbidden else if q.target >= |db.users| then NotFound
                     else if db.users[q.target].strikes == 0 then BadRequest else Ok)
            && (r == Ok ==>
                  d == Later(db, now).(users := db.users[q.target := User(db.users[q.target].status, db.users[q.target].role, 0)],
                                     audit := db.audit + [AuditRow(Some(q.actor), StrikeReset(q.target, db.users[q.target].strikes))]))
  {
    DecideIsAllowed(db, now, q);
  }

  predicate Above(to: Role, from: Role) {
    (from == PlainUser && to != PlainUser) || (from == Moderator && to == Admin)
  }

  function RoleRow(who: Option<UserId>, u: UserId, from: Role, to: Role): AuditRow {
    AuditRow(who, if Above(to, from) then RolePromote(u, from, to) else RoleDemote(u, from, to))
  }

  lemma ChangeRoleMeans(db: Db, now: int, q: Request)
    requires q.ChangeUserRole?
    ensures var (d, r) := (Step(db, At(now, q)), Decide(db, now, q).1);
            && (r == if q.role != Admin then Forbidden else if q.target >= |db.users| then NotFound
                     else if db.users[q.target].status == Suspended && q.to != PlainUser then BadRequest else Ok)
            && (r == Ok ==>
                  d == Later(db, now).(users := db.users[q.target := User(db.users[q.target].status, q.to, db.users[q.target].strikes)],
                                     audit := db.audit + [RoleRow(Some(q.actor), q.target, db.users[q.target].role, q.to)]))
  {
    DecideIsAllowed(db, now, q);
  }

  lemma BootstrapMeans(db: Db, now: int, u: UserId)
    ensures var (d, r) := (Step(db, At(now, Bootstrap(u))), Decide(db, now, Bootstrap(u)).1);
            && (r == if u >= |db.users| then NotFound else Ok)
            && (r == Ok ==>
                  d == if db.users[u].role == Admin then Later(db, now)
                       else Later(db, now).(users := db.users[u := User(db.users[u].status, Admin, db.users[u].strikes)],
                                          audit := db.audit + [AuditRow(None, RolePromote(u, db.users[u].role, Admin))]))
  {
    DecideIsAllowed(db, now, Bootstrap(u));
  }

  // ----- messages -----

  lemma TombstoneAnswers(db: Db, now: int, q: Request)
    requires q.TombstoneMessage?
    ensures Decide(db, now, q).1 ==
            if q.role == PlainUser then Forbidden else if q.message >= |db.messages| then NotFound
            else if db.messages[q.message].deleted then Conflict
            else if q.trigger.Some? && q.trigger.value !in db.reports then Failed else Ok
  {}

  lemma TombstoneChanges(db: Db, now: int, q: Request)
    requires q.TombstoneMessage? && Decide(db, now, q).1 == Ok
    ensures var d := Step(db, At(now, q));
            && q.message < |db.messages|
            && d.messages == db.messages[q.message := Message(db.messages[q.message].sender, true)]
            && d.audit == db.audit + [AuditRow(Some(q.actor), MessageTombstone(q.message))]
            && d.reports.Keys == db.reports.Keys
            && (forall r :: r in db.reports ==>
                  d.reports[r] ==
                  if db.reports[r].message == q.message && db.reports[r].status != Closed
                  then db.reports[r].(status := Closed, resolution := Some(AutoClosedTombstoned), reviewer := Some(q.actor))
                  else if q.trigger == Some(r) then db.reports[r].(reviewer := Some(q.actor)) else db.reports[r])
            && d == Later(db, now).(messages := d.messages, audit := d.audit, reports := d.reports)
  {
    DecideIsAllowed(db, now, q);
  }

  lemma UntombstoneMeans(db: Db, now: int, q: Request)
    requires q.UntombstoneMessage?
    ensures var (d, r) := (Step(db, At(now, q)), Decide(db, now, q).1);
            && (r == if q.role != Admin then Forbidden else if q.message >= |db.messages| then NotFound
                     else if !db.messages[q.message].deleted then BadRequest else Ok)
            && (r == Ok ==>
                  && d.messages == db.messages[q.message := Message(db.messages[q.message].sender, false)]
                  && d.audit == db.audit + [AuditRow(Some(q.actor), MessageUntombstone(q.message))]
                  && d == Later(db, now).(messages := d.messages, audit := d.audit, byDelete := d.byDelete))
  {
    DecideIsAllowed(db, now, q);
  }

  lemma DeleteMeans(db: Db, now: int, q: Request)
    requires q.DeleteMessage?
    ensures var (d, r) := (Step(db, At(now, q)), Decide(db, now, q).1);
            && (r == if q.message >= |db.messages| then NotFound
                     else if !q.permitted || (db.messages[q.message].sender != q.user && !q.groupAdmin) then Forbidden else Ok)
            && (r == Ok ==>
                  && d.messages == db.messages[q.message := Message(db.messages[q.message].sender, true)]
                  && d.audit == db.audit + (if db.messages[q.message].sender == q.user then []
                                            else [AuditRow(Some(q.user), MessageTombstone(q.message))])
                  && d == Later(db, now).(messages := d.messages, audit := d.audit, silent := d.silent, redundant := d.redundant,
                                        byDelete := d.byDelete))
  {
    DecideIsAllowed(db, now, q);
  }

  // ----- reports -----

  lemma FileMeans(db: Db, now: int, q: Request)
    requires q.FileReport?
    ensures var (d, r) := (Step(db, At(now, q)), Decide(db, now, q).1);
            var filed := exists i :: i in db.reports && db.reports[i].reporter == q.reporter && db.reports[i].message == q.message;
            && (r == if q.reporter >= |db.users| then NotFound
                     else if db.users[q.reporter].status == Suspended then Forbidden
                     else if q.message >= |db.messages| then NotFound
                     else if db.messages[q.message].deleted || db.messages[q.message].sender == q.reporter then BadRequest
                     else if !q.visible then Forbidden
                     else if !q.admitted then Conflict
                     else Ok)
            && (r == Ok ==>
                  d == if filed then Later(db, now)
                       else Later(db, now).(reports := db.reports[db.nextReport := Report(q.reporter, q.message, Open, None, None, now)],
                                          nextReport := db.nextReport + 1))
  {
    DecideIsAllowed(db, now, q);
  }

  lemma ReviewMeans(db: Db, now: int, q: Request)
    requires q.MarkInReview?
    ensures var (d, r) := (Step(db, At(now, q)), Decide(db, now, q).1);
            && (r == if q.report !in db.reports then NotFound else if db.reports[q.report].status == Closed then BadRequest else Ok)
            && (r == Ok ==>
                  d == if db.reports[q.report].status == InReview then Later(db, now)
                       else Later(db, now).(reports := db.reports[q.report := db.reports[q.report].(status := InReview, reviewer := Some(q.actor))],
                                          audit := db.audit + [AuditRow(Some(q.actor), ReviewStart(q.report))]))
  {
    DecideIsAllowed(db, now, q);
  }

  lemma DismissMeans(db: Db, now: int, q: Request)
    requires q.DismissReport?
    ensures var (d, r) := (Step(db, At(now, q)), Decide(db, now, q).1);
            && (r == if q.report !in db.reports then NotFound else if db.reports[q.report].status == Closed then BadRequest else Ok)
            && (r == Ok ==>
                  d == Later(db, now).(reports := db.reports[q.report :=
                                       db.reports[q.report].(status := Closed, resolution := Some(Dismissed), reviewer := Some(q.actor))],
                                     audit := db.audit + [AuditRow(Some(q.actor), ReportDismiss(q.report))]))
  {
    DecideIsAllowed(db, now, q);
  }

  // ----- users, messages, sessions, prunes -----

  lemma PruneMeans(db: Db, now: int, cutoff: int)
    ensures var d := Step(db, At(now, Prune(cutoff)));
            && (forall r :: r in d.reports <==> r in db.reports && db.reports[r].createdAt >= cutoff)
            && (forall r :: r in d.reports ==> d.reports[r] == db.reports[r])
            && (forall h :: h in d.auth.tokens <==>
                  h in db.auth.tokens && db.auth.tokens[h].revokedAt == None && db.auth.tokens[h].expiresAt >= now)
            && (forall h :: h in d.auth.tokens ==> d.auth.tokens[h] == db.auth.tokens[h])
            && d == db.(reports := d.reports, auth := db.auth.(tokens := d.auth.tokens, clock := now))
  {
    DecideIsAllowed(db, now, Prune(cutoff));
  }

  lemma ArrivalMeans(db: Db, now: int, sender: UserId)
    ensures Step(db, At(now, Register)) == Later(db, now).(users := db.users + [User(Active, PlainUser, 0)])
    ensures Step(db, At(now, Post(sender))) ==
            if sender < |db.users| then Later(db, now).(messages := db.messages + [Message(sender, false)]) else Later(db, now)
    ensures Decide(db, now, Register).1 == Ok && Decide(db, now, Post(sender)).1 == if sender < |db.users| then Ok else NotFound
  {
    DecideIsAllowed(db, now, Register);
    DecideIsAllowed(db, now, Post(sender));
  }

  /** Logins of users there are, refreshes and logouts do in the whole system what they do among the
      sessions; nothing else reaches them that way. */
  lemma SessionMeans(db: Db, now: int, e: Sessions.Event)
    ensures var q := Session(e);
            if (e.Login? && e.user < |db.users|) || e.Refresh? || e.Logout?
            then Decide(db, now, q).1 == Ok && Step(db, At(now, q)) == db.(auth := Sessions.Step(db.cfg, db.auth, Sessions.At(now, e)))
            else Decide(db, now, q).1 == Failed
  {
    hide Sessions.Step;
    DecideIsAllowed(db, now, Session(e));
  }
}
