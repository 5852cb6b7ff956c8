/**
 What every run of the moderation system keeps: the audit log rebuilds the state, a suspended user
 has exactly one unrevoked suspension and no live token, and a closed report stays closed.
 */
module ModerationLaws {
  import opened Prelude
  import opened Moderation
  import Sessions

  // ----- reading the state off the audit log -----

  /** The last USER_SUSPEND or USER_UNSUSPEND row about the user is a USER_SUSPEND. */
  function SuspendedBy(log: seq<AuditRow>, u: UserId): bool {
    if log == [] then false
    else match log[|log| - 1].action
      case UserSuspend(v, _) => v == u || SuspendedBy(log[..|log| - 1], u)
      case UserUnsuspend(v, _) => v != u && SuspendedBy(log[..|log| - 1], u)
      case _ => SuspendedBy(log[..|log| - 1], u)
  }

  /** The USER_SUSPEND rows about the user since the last STRIKE_RESET row about them. */
  function StrikesBy(log: seq<AuditRow>, u: UserId): nat {
    if log == [] then 0
    else match log[|log| - 1].action
      case UserSuspend(v, _) => StrikesBy(log[..|log| - 1], u) + (if v == u then 1 else 0)
      case StrikeReset(v, _) => if v == u then 0 else StrikesBy(log[..|log| - 1], u)
      case _ => StrikesBy(log[..|log| - 1], u)
  }

  /** The target role of the last ROLE_PROMOTE or ROLE_DEMOTE row about the user. */
  function RoleBy(log: seq<AuditRow>, u: UserId): Role {
    if log == [] then PlainUser
    else match log[|log| - 1].action
      case RolePromote(v, _, to) => if v == u then to else RoleBy(log[..|log| - 1], u)
      case RoleDemote(v, _, to) => if v == u then to else RoleBy(log[..|log| - 1], u)
      case _ => RoleBy(log[..|log| - 1], u)
  }

  /** MESSAGE_TOMBSTONE rows minus MESSAGE_UNTOMBSTONE rows about the message. */
  function Tombstones(log: seq<AuditRow>, m: MessageId): int {
    if log == [] then 0
    else match log[|log| - 1].action
      case MessageTombstone(n) => Tombstones(log[..|log| - 1], m) + (if n == m then 1 else 0)
      case MessageUntombstone(n) => Tombstones(log[..|log| - 1], m) - (if n == m then 1 else 0)
      case _ => Tombstones(log[..|log| - 1], m)
  }

  function StatusOf(users: seq<User>, u: UserId): Status {
    if u < |users| then users[u].status else Active
  }

  function RoleOf(users: seq<User>, u: UserId): Role {
    if u < |users| then users[u].role else PlainUser
  }

  function StrikesOf(users: seq<User>, u: UserId): nat {
    if u < |users| then users[u].strikes else 0
  }

  function IsDeleted(messages: seq<Message>, m: MessageId): bool {
    m < |messages| && messages[m].deleted
  }

  ghost predicate UserMatchesLog(users: seq<User>, log: seq<AuditRow>, u: UserId) {
    && (StatusOf(users, u) == Suspended <==> SuspendedBy(log, u))
    && StrikesOf(users, u) == StrikesBy(log, u)
    && RoleOf(users, u) == RoleBy(log, u)
  }

  /** The exact law for tombstones, deletes included. */
  ghost predicate MessageMatchesLog(db: Db, m: MessageId) {
    Tombstones(db.audit, m) == (if IsDeleted(db.messages, m) then 1 else 0) as int - db.silent[m] + db.redundant[m]
  }

  lemma Snoc(log: seq<AuditRow>, row: AuditRow)
    ensures (log + [row])[..|log|] == log && (log + [row])[|log|] == row && log + [row] != []
  {}

  /** The cascade of a suspension adds no row about users... */
  lemma {:induction false} CascadeSparesUsers(log: seq<AuditRow>, messages: seq<Message>, sender: UserId, actor: UserId, u: UserId)
    ensures var rows := log + TombstoneRows(messages, sender, actor);
            && SuspendedBy(rows, u) == SuspendedBy(log, u)
            && StrikesBy(rows, u) == StrikesBy(log, u)
            && RoleBy(rows, u) == RoleBy(log, u)
  {
    if messages == [] {
      assert log + [] == log;
    } else {
      var n := |messages| - 1;
      CascadeSparesUsers(log, messages[..n], sender, actor, u);
      CascadeSnoc(log, messages, sender, actor);
      Snoc(log + TombstoneRows(messages[..n], sender, actor), AuditRow(Some(actor), MessageTombstone(n)));
    }
  }

  lemma CascadeSnoc(log: seq<AuditRow>, messages: seq<Message>, sender: UserId, actor: UserId)
    requires messages != []
    ensures log + TombstoneRows(messages, sender, actor)
         == if LiveFrom(messages, |messages| - 1, sender)
            then log + TombstoneRows(messages[..|messages| - 1], sender, actor)
                 + [AuditRow(Some(actor), MessageTombstone(|messages| - 1))]
            else log + TombstoneRows(messages[..|messages| - 1], sender, actor)
  {}

  /** ... and exactly one row about each live message of the sender. */
  lemma {:induction false} CascadeCountsOnce(log: seq<AuditRow>, messages: seq<Message>, sender: UserId, actor: UserId, m: MessageId)
    ensures Tombstones(log + TombstoneRows(messages, sender, actor), m)
         == Tombstones(log, m) + (if LiveFrom(messages, m, sender) then 1 else 0)
  {
    if messages == [] {
      assert log + [] == log;
    } else {
      var n := |messages| - 1;
      CascadeCountsOnce(log, messages[..n], sender, actor, m);
      CascadeSnoc(log, messages, sender, actor);
      Snoc(log + TombstoneRows(messages[..n], sender, actor), AuditRow(Some(actor), MessageTombstone(n)));
    }
  }

  lemma SuspendKeepsUser(db: Db, now: int, f: Effect, u: UserId)
    requires f.Suspend? && Allowed(db, now, f) && UserMatchesLog(db.users, db.audit, u)
    ensures var d := Apply(db, now, f); UserMatchesLog(d.users, d.audit, u)
  {
    hide CloseReports, OnLiveFrom, TombstoneAll, Sessions.DoImpose, TombstoneRows, SuspendedBy, StrikesBy, RoleBy;
    CascadeSparesUsers(db.audit, db.messages, f.user, f.actor, u);
    RowRead(db.audit + TombstoneRows(db.messages, f.user, f.actor),
            AuditRow(Some(f.actor), UserSuspend(f.user, |db.auth.suspensions|)), u);
  }

  predicate TouchesUsers(f: Effect) {
    f.AddUser? || f.Suspend? || f.Unsuspend? || f.ClearStrikes? || f.SetRole?
  }

  predicate AboutUsers(a: Action) {
    a.UserSuspend? || a.UserUnsuspend? || a.StrikeReset? || a.RolePromote? || a.RoleDemote?
  }

  lemma UserEditKeepsUser(db: Db, now: int, f: Effect, u: UserId)
    requires TouchesUsers(f) && !f.Suspend? && Allowed(db, now, f) && UserMatchesLog(db.users, db.audit, u)
    ensures var d := Apply(db, now, f); UserMatchesLog(d.users, d.audit, u)
  {
    hide Sessions.DoLift, SuspendedBy, StrikesBy, RoleBy;
    var d := Apply(db, now, f);
    if d.audit != db.audit {
      RowRead(db.audit, d.audit[|db.audit|], u);
    }
  }

  /** What one more row changes in the three readings. */
  lemma RowRead(log: seq<AuditRow>, row: AuditRow, u: UserId)
    ensures SuspendedBy(log + [row], u)
         == match row.action {
              case UserSuspend(v, _) => v == u || SuspendedBy(log, u)
              case UserUnsuspend(v, _) => v != u && SuspendedBy(log, u)
              case _ => SuspendedBy(log, u) }
    ensures StrikesBy(log + [row], u)
         == match row.action {
              case UserSuspend(v, _) => StrikesBy(log, u) + (if v == u then 1 else 0)
              case StrikeReset(v, _) => if v == u then 0 else StrikesBy(log, u)
              case _ => StrikesBy(log, u) }
    ensures RoleBy(log + [row], u)
         == match row.action {
              case RolePromote(v, _, to) => if v == u then to else RoleBy(log, u)
              case RoleDemote(v, _, to) => if v == u then to else RoleBy(log, u)
              case _ => RoleBy(log, u) }
  {
    Snoc(log, row);
  }

  /** An effect on messages, reports or tokens leaves the users alone and logs nothing about them. */
  lemma OtherEffects(db: Db, now: int, f: Effect)
    requires !TouchesUsers(f) && Allowed(db, now, f)
    ensures var d := Apply(db, now, f);
            && d.users == db.users
            && (d.audit == db.audit || exists row: AuditRow :: d.audit == db.audit + [row] && !AboutUsers(row.action))
  {
    hide CloseReports, OnMessage, SetReviewer, Sessions.Step, Sessions.DoPrune;
  }

  lemma ApplyKeepsUser(db: Db, now: int, f: Effect, u: UserId)
    requires Allowed(db, now, f) && UserMatchesLog(db.users, db.audit, u)
    ensures var d := Apply(db, now, f); UserMatchesLog(d.users, d.audit, u)
  {
    hide Apply, SuspendedBy, StrikesBy, RoleBy;
    if f.Suspend? {
      SuspendKeepsUser(db, now, f, u);
    } else if TouchesUsers(f) {
      UserEditKeepsUser(db, now, f, u);
    } else {
      OtherEffects(db, now, f);
      var d := Apply(db, now, f);
      if d.audit != db.audit {
        var row :| d.audit == db.audit + [row] && !AboutUsers(row.action);
        RowRead(db.audit, row, u);
      }
    }
  }

  lemma RowCounts(log: seq<AuditRow>, row: AuditRow, m: MessageId)
    ensures Tombstones(log + [row], m)
         == Tombstones(log, m) + (if row.action == MessageTombstone(m) then 1 else if row.action == MessageUntombstone(m) then -1 else 0)
  {
    Snoc(log, row);
  }

  lemma ApplyKeepsMessage(db: Db, now: int, f: Effect, m: MessageId)
    requires Allowed(db, now, f) && MessageMatchesLog(db, m)
    ensures MessageMatchesLog(Apply(db, now, f), m)
  {
    hide CommitSuspend, CloseReports, OnMessage, SetReviewer, Sessions.Step, Sessions.DoLift, Sessions.DoPrune, Tombstones;
    if f.Suspend? {
      SuspendKeepsMessage(db, now, f, m);
    } else {
      var d := Apply(db, now, f);
      if d.audit != db.audit {
        RowCounts(db.audit, d.audit[|db.audit|], m);
      }
    }
  }

  lemma SuspendKeepsMessage(db: Db, now: int, f: Effect, m: MessageId)
    requires f.Suspend? && Allowed(db, now, f) && MessageMatchesLog(db, m)
    ensures MessageMatchesLog(Apply(db, now, f), m)
  {
    hide CloseReports, OnLiveFrom, Sessions.DoImpose, TombstoneRows;
    CascadeCountsOnce(db.audit, db.messages, f.user, f.actor, m);
    Snoc(db.audit + TombstoneRows(db.messages, f.user, f.actor),
         AuditRow(Some(f.actor), UserSuspend(f.user, |db.auth.suspensions|)));
  }

  /** In every run the users table can be rebuilt from the audit log alone: status from the last
      suspension row, strikes from the suspension rows since the last reset, role from the last role
      row. Users the table does not have yet read as ACTIVE plain users without strikes. */
  lemma {:induction false} LogRebuildsUsers(cfg: Sessions.Config, start: int, requests: seq<Timed>, u: UserId)
    ensures var db := RunFrom(Init(cfg, start), requests); UserMatchesLog(db.users, db.audit, u)
  {
    hide Decide, Apply, UserMatchesLog;
    if requests == [] {
      EmptyLog(cfg, start, u, u);
    } else {
      var n := |requests| - 1;
      LogRebuildsUsers(cfg, start, requests[..n], u);
      var db := RunFrom(Init(cfg, start), requests[..n]);
      DecideIsAllowed(db, requests[n].now, requests[n].request);
      ApplyKeepsUser(db, requests[n].now, Decide(db, requests[n].now, requests[n].request).0, u);
    }
  }

  lemma EmptyLog(cfg: Sessions.Config, start: int, u: UserId, m: MessageId)
    ensures UserMatchesLog(Init(cfg, start).users, Init(cfg, start).audit, u)
    ensures MessageMatchesLog(Init(cfg, start), m)
  {}

  /** In every run, deletes included: the tombstone rows of a message outnumber its untombstone rows
      by one if it is tombstoned and by none if not, less one for each time its sender deleted it
      while it was live (no row), plus one for each time a group admin deleted it although it was
      tombstoned already. */
  lemma {:induction false} LogRebuildsTombstones(cfg: Sessions.Config, start: int, requests: seq<Timed>, m: MessageId)
    ensures MessageMatchesLog(RunFrom(Init(cfg, start), requests), m)
  {
    hide Decide, Apply, MessageMatchesLog;
    if requests == [] {
      EmptyLog(cfg, start, m, m);
    } else {
      var n := |requests| - 1;
      LogRebuildsTombstones(cfg, start, requests[..n], m);
      var db := RunFrom(Init(cfg, start), requests[..n]);
      DecideIsAllowed(db, requests[n].now, requests[n].request);
      ApplyKeepsMessage(db, requests[n].now, Decide(db, requests[n].now, requests[n].request).0, m);
    }
  }

  ghost predicate WithoutDeletes(requests: seq<Timed>) {
    forall i :: 0 <= i < |requests| ==> !requests[i].request.DeleteMessage?
  }

  lemma OnlyDeleteLeavesTraces(db: Db, t: Timed)
    requires !t.request.DeleteMessage?
    ensures var d := Step(db, t); d.silent == db.silent && d.redundant == db.redundant && d.byDelete <= db.byDelete
  {
    hide CloseReports, OnMessage, SetReviewer, Sessions.Step, Sessions.DoLift, Sessions.DoPrune, Sessions.DoImpose, TombstoneAll;
    DecideIsAllowed(db, t.now, t.request);
  }

  lemma {:induction false} NoDeletesNoTraces(cfg: Sessions.Config, start: int, requests: seq<Timed>)
    requires WithoutDeletes(requests)
    ensures var db := RunFrom(Init(cfg, start), requests);
            db.silent == multiset{} && db.redundant == multiset{} && db.byDelete == {}
  {
    hide Step;
    if requests != [] {
      var n := |requests| - 1;
      NoDeletesNoTraces(cfg, start, requests[..n]);
      OnlyDeleteLeavesTraces(RunFrom(Init(cfg, start), requests[..n]), requests[n]);
    }
  }

  /** Without `MessagesService.delete`, a message is tombstoned exactly when its tombstone rows
      outnumber its untombstone rows by one, and they never do by more. */
  lemma TombstonedIffLogSaysSo(cfg: Sessions.Config, start: int, requests: seq<Timed>, m: MessageId)
    requires WithoutDeletes(requests)
    ensures var db := RunFrom(Init(cfg, start), requests);
            && (IsDeleted(db.messages, m) <==> Tombstones(db.audit, m) == 1)
            && 0 <= Tombstones(db.audit, m) <= 1
  {
    hide Step;
    NoDeletesNoTraces(cfg, start, requests);
    LogRebuildsTombstones(cfg, start, requests, m);
  }

  /** The plain law of one message: tombstoned as often as the log says. */
  ghost predicate LogSaysSo(db: Db, m: MessageId) {
    Tombstones(db.audit, m) == if IsDeleted(db.messages, m) then 1 else 0
  }

  /** A delete that goes through by the sender of a live message, which writes no row, or by a group
      admin on a tombstoned message, which writes one too many. */
  predicate Misreported(db: Db, t: Timed, m: MessageId) {
    && t.request.DeleteMessage? && t.request.message == m && m < |db.messages|
    && Decide(db, t.now, t.request).1 == Ok
    && (db.messages[m].sender == t.request.user <==> !db.messages[m].deleted)
  }

  /** Exactly such deletes break the plain law. */
  lemma StepKeepsLogIff(db: Db, t: Timed, m: MessageId)
    requires LogSaysSo(db, m)
    ensures LogSaysSo(Step(db, t), m) <==> !Misreported(db, t, m)
  {
    hide Apply, Allowed, Tombstones, IsDeleted;
    DecideIsAllowed(db, t.now, t.request);
    var f := Decide(db, t.now, t.request).0;
    if f.Delete? {
      DeleteAndLog(db, t.now, f, m);
    } else {
      OthersAndLog(db, t.now, f, m);
    }
  }

  lemma DeleteAndLog(db: Db, now: int, f: Effect, m: MessageId)
    requires f.Delete? && Allowed(db, now, f) && LogSaysSo(db, m)
    ensures LogSaysSo(Apply(db, now, f), m) <==>
            !(f.message == m && (db.messages[m].sender == f.user <==> !db.messages[m].deleted))
  {
    hide Tombstones;
    if db.messages[f.message].sender != f.user {
      RowCounts(db.audit, AuditRow(Some(f.user), MessageTombstone(f.message)), m);
    }
  }

  /** Every other effect keeps the plain law; it is the exact law without its two delete terms. */
  lemma OthersAndLog(db: Db, now: int, f: Effect, m: MessageId)
    requires !f.Delete? && Allowed(db, now, f) && LogSaysSo(db, m)
    ensures LogSaysSo(Apply(db, now, f), m)
  {
    hide Tombstones, Apply, Allowed, IsDeleted;
    var plain := db.(silent := multiset{}, redundant := multiset{});
    SameButHistory(db, plain, now, f);
    ApplyKeepsMessage(plain, now, f, m);
  }

  lemma SameButHistory(db: Db, plain: Db, now: int, f: Effect)
    requires !f.Delete? && Allowed(db, now, f) && plain == db.(silent := multiset{}, redundant := multiset{})
    ensures Allowed(plain, now, f)
    ensures var d, p := Apply(db, now, f), Apply(plain, now, f);
            p.messages == d.messages && p.audit == d.audit && p.silent == multiset{} && p.redundant == multiset{}
  {
    hide CloseReports, OnMessage, OnLiveFrom, SetReviewer, TombstoneAll, TombstoneRows, Sessions.Step, Sessions.DoImpose, Sessions.DoLift, Sessions.DoPrune;
  }

  /** A run keeps the plain law of a message, all the way, exactly when no delete of it misreports. */
  lemma {:induction false} LogThroughoutIff(cfg: Sessions.Config, start: int, requests: seq<Timed>, m: MessageId)
    ensures (forall i :: 0 <= i <= |requests| ==> LogSaysSo(RunFrom(Init(cfg, start), requests[..i]), m)) <==>
            (forall i :: 0 <= i < |requests| ==> !Misreported(RunFrom(Init(cfg, start), requests[..i]), requests[i], m))
  {
    hide Step, Misreported, LogSaysSo;
    NothingLoggedYet(cfg, start, m);
    if requests != [] {
      var n := |requests| - 1;
      var before := requests[..n];
      assert forall i :: 0 <= i <= n ==> before[..i] == requests[..i];
      assert forall i :: 0 <= i < n ==> before[i] == requests[i];
      assert requests[..n + 1] == requests;
      LogThroughoutIff(cfg, start, before, m);
      var db := RunFrom(Init(cfg, start), before);
      if LogSaysSo(db, m) {
        StepKeepsLogIff(db, requests[n], m);
      }
    }
  }

  lemma NothingLoggedYet(cfg: Sessions.Config, start: int, m: MessageId)
    ensures LogSaysSo(Init(cfg, start), m)
  {}

  // ----- suspensions -----

  function Unrevoked(s: seq<Sessions.Suspension>, u: UserId): set<nat> {
    set i | 0 <= i < |s| && s[i].user == u && s[i].revokedAt.None?
  }

  ghost predicate SuspensionsMatch(db: Db, u: UserId) {
    && (forall i :: 0 <= i < |db.auth.suspensions| ==> db.auth.suspensions[i].user < |db.users|)
    && |Unrevoked(db.auth.suspensions, u)| == (if StatusOf(db.users, u) == Suspended then 1 else 0)
  }

  lemma SessionStepKeepsSuspensions(cfg: Sessions.Config, a: Sessions.Auth, now: int, e: Sessions.Event)
    requires e.Login? || e.Refresh? || e.Logout?
    ensures Sessions.Step(cfg, a, Sessions.At(now, e)).suspensions == a.suspensions
  {}

  lemma ImposeAddsOne(s: seq<Sessions.Suspension>, row: Sessions.Suspension, u: UserId)
    requires row.revokedAt.None?
    ensures Unrevoked(s + [row], u) == Unrevoked(s, u) + (if row.user == u then {|s|} else {})
    ensures |s| !in Unrevoked(s, u)
  {}

  lemma LiftRemovesOne(s: seq<Sessions.Suspension>, sid: nat, now: int, u: UserId)
    requires sid < |s| && s[sid].revokedAt.None?
    ensures Unrevoked(s[sid := s[sid].(revokedAt := Some(now))], u) == Unrevoked(s, u) - {sid}
    ensures sid in Unrevoked(s, u) <==> s[sid].user == u
  {}

  lemma SuspendKeepsSuspensions(db: Db, now: int, f: Effect, u: UserId)
    requires f.Suspend? && Allowed(db, now, f) && SuspensionsMatch(db, u)
    ensures SuspensionsMatch(Apply(db, now, f), u)
  {
    hide Unrevoked, CloseReports, OnLiveFrom, TombstoneAll, TombstoneRows, Sessions.Revoke;
    ImposeAddsOne(db.auth.suspensions, Sessions.Suspension(f.user, f.expiresAt, None), u);
  }

  lemma UnsuspendKeepsSuspensions(db: Db, now: int, f: Effect, u: UserId)
    requires f.Unsuspend? && Allowed(db, now, f) && SuspensionsMatch(db, u)
    ensures SuspensionsMatch(Apply(db, now, f), u)
  {
    hide Unrevoked;
    LiftRemovesOne(db.auth.suspensions, f.sid, now, u);
  }

  lemma ApplyKeepsSuspensions(db: Db, now: int, f: Effect, u: UserId)
    requires Allowed(db, now, f) && SuspensionsMatch(db, u)
    ensures SuspensionsMatch(Apply(db, now, f), u)
  {
    hide Unrevoked, CloseReports, OnMessage, SetReviewer, CommitSuspend, Sessions.Step, Sessions.DoLift, Sessions.Revoke;
    match f
    case SessionStep(e) => SessionStepKeepsSuspensions(db.cfg, db.auth, now, e);
    case Suspend(_, _, _, _) => SuspendKeepsSuspensions(db, now, f, u);
    case Unsuspend(_, _, _) => UnsuspendKeepsSuspensions(db, now, f, u);
    case Delete(_, _) => DeleteTouchesNoUser(db, now, f);
    case _ =>
  }

  lemma DeleteTouchesNoUser(db: Db, now: int, f: Effect)
    requires f.Delete? && Allowed(db, now, f)
    ensures var d := Apply(db, now, f); d.users == db.users && d.auth.suspensions == db.auth.suspensions
  {}

  /** A user is SUSPENDED exactly when they have one unrevoked suspension, and otherwise has none,
      through any mix of suspensions, manual unsuspensions and reactivation rows that succeed. */
  lemma {:induction false} SuspendedIffOneSuspension(cfg: Sessions.Config, start: int, requests: seq<Timed>, u: UserId)
    ensures SuspensionsMatch(RunFrom(Init(cfg, start), requests), u)
  {
    hide Decide, Apply;
    if requests != [] {
      var n := |requests| - 1;
      SuspendedIffOneSuspension(cfg, start, requests[..n], u);
      var db := RunFrom(Init(cfg, start), requests[..n]);
      DecideIsAllowed(db, requests[n].now, requests[n].request);
      ApplyKeepsSuspensions(db, requests[n].now, Decide(db, requests[n].now, requests[n].request).0, u);
    }
  }

  predicate SuspendedAdmin(db: Db, u: UserId) {
    StatusOf(db.users, u) == Suspended && RoleOf(db.users, u) == Admin
  }

  /** A request that goes through and ends the user's suspension or takes the admin role away. */
  predicate Releases(db: Db, t: Timed, u: UserId) {
    Decide(db, t.now, t.request).1 == Ok &&
    match t.request {
      case UnsuspendUser(_, _, v) => v == u
      case ReactivateOne(sid) => sid < |db.auth.suspensions| && db.auth.suspensions[sid].user == u
      case ChangeUserRole(_, _, v, to) => v == u && to != Admin
      case _ => false
    }
  }

  lemma EffectOnSuspendedAdmin(db: Db, now: int, f: Effect, u: UserId)
    requires Allowed(db, now, f)
    ensures SuspendedAdmin(Apply(db, now, f), u) <==>
            if SuspendedAdmin(db, u) then !(f.Unsuspend? && f.user == u) && !(f.SetRole? && f.user == u && f.to != Admin)
            else f.SetRole? && f.who.None? && f.user == u && f.to == Admin && StatusOf(db.users, u) == Suspended
  {
    hide CloseReports, OnMessage, OnLiveFrom, SetReviewer, TombstoneAll, TombstoneRows, Sessions.Step, Sessions.DoImpose, Sessions.DoLift;
  }

  /** The exact law of a step: only the bootstrap of a suspended user makes a suspended admin, and only
      a lifted suspension or a demotion ends that state. */
  lemma StepOnSuspendedAdmin(db: Db, t: Timed, u: UserId)
    ensures SuspendedAdmin(Step(db, t), u) <==>
            if SuspendedAdmin(db, u) then !Releases(db, t, u)
            else t.request == Bootstrap(u) && StatusOf(db.users, u) == Suspended
  {
    hide Apply;
    DecideIsAllowed(db, t.now, t.request);
    EffectOnSuspendedAdmin(db, t.now, Decide(db, t.now, t.request).0, u);
  }

  /** A user is a suspended admin after a run exactly when the bootstrap met them suspended and nothing
      has released them since. In particular, without such a bootstrap a suspended user is never ADMIN. */
  lemma {:induction false} SuspendedIsAdminIffBootstrapped(cfg: Sessions.Config, start: int, requests: seq<Timed>, u: UserId)
    ensures SuspendedAdmin(RunFrom(Init(cfg, start), requests), u) <==>
            exists i :: 0 <= i < |requests| && BootstrappedAt(cfg, start, requests, u, i)
  {
    hide Step, Releases;
    if requests != [] {
      var n := |requests| - 1;
      var before := requests[..n];
      SuspendedIsAdminIffBootstrapped(cfg, start, before, u);
      var db := RunFrom(Init(cfg, start), before);
      StepOnSuspendedAdmin(db, requests[n], u);
      BootstrapReleasesNobody(db, requests[n], u);
      OneRequestOn(cfg, start, requests, u, n);
      if SuspendedAdmin(db, u) && !Releases(db, requests[n], u) {
        var i :| 0 <= i < n && BootstrappedAt(cfg, start, before, u, i);
        OneRequestOn(cfg, start, requests, u, i);
      }
      forall i | 0 <= i < n && BootstrappedAt(cfg, start, requests, u, i)
        ensures SuspendedAdmin(db, u) && !Releases(db, requests[n], u)
      {
        OneRequestOn(cfg, start, requests, u, i);
      }
    }
  }

  lemma OneRequestOn(cfg: Sessions.Config, start: int, requests: seq<Timed>, u: UserId, i: nat)
    requires i < |requests|
    ensures var n := |requests| - 1;
            var db := RunFrom(Init(cfg, start), requests[..n]);
            BootstrappedAt(cfg, start, requests, u, i) <==>
            if i == n then requests[n].request == Bootstrap(u) && StatusOf(db.users, u) == Suspended
            else BootstrappedAt(cfg, start, requests[..n], u, i) && !Releases(db, requests[n], u)
  {
    hide Step, Releases, RunFrom;
    var n := |requests| - 1;
    assert forall j :: 0 <= j <= n ==> requests[..n][..j] == requests[..j];
    assert forall j :: 0 <= j < n ==> requests[..n][j] == requests[j];
  }

  lemma BootstrapReleasesNobody(db: Db, t: Timed, u: UserId)
    ensures t.request.Bootstrap? ==> !Releases(db, t, u)
  {}

  ghost predicate BootstrappedAt(cfg: Sessions.Config, start: int, requests: seq<Timed>, u: UserId, i: nat)
    requires i < |requests|
  {
    && requests[i].request == Bootstrap(u)
    && StatusOf(RunFrom(Init(cfg, start), requests[..i]).users, u) == Suspended
    && forall j :: i < j < |requests| ==> !Releases(RunFrom(Init(cfg, start), requests[..j]), requests[j], u)
  }

  /** The input at which the rule "a suspended user is never ADMIN" fails. */
  lemma BootstrapMakesSuspendedAdmin(db: Db, now: int, u: UserId)
    requires u < |db.users| && db.users[u].status == Suspended
    ensures SuspendedAdmin(Step(db, At(now, Bootstrap(u))), u)
  {
    hide Decide, Apply;
    StepOnSuspendedAdmin(db, At(now, Bootstrap(u)), u);
    BootstrapReleasesNobody(db, At(now, Bootstrap(u)), u);
  }

  lemma ApplyKeepsSessions(db: Db, now: int, f: Effect)
    requires Allowed(db, now, f) && Sessions.Inv(db.auth) && db.auth.clock <= now
    ensures Sessions.Inv(Apply(db, now, f).auth)
  {
    hide Sessions.Inv, Sessions.Revoke, CloseReports, OnMessage, OnLiveFrom, SetReviewer, TombstoneAll, TombstoneRows;
    var b := db.auth.(clock := now);
    Sessions.TickKeepsInv(db.auth, now);
    match f
    case SessionStep(e) => Sessions.StepKeepsInv(db.cfg, db.auth, Sessions.At(now, e));
    case Suspend(_, u, x, _) => Sessions.ImposeKeepsInv(b, now, u, x);
    case Unsuspend(_, _, sid) => Sessions.LiftKeepsInv(b, now, sid);
    case Sweep(_) => Sessions.PruneKeepsInv(b, now);
    case _ =>
  }

  /** The session invariant holds in the whole system: while a user's suspension is unrevoked and
      unexpired, none of their refresh tokens is live, whatever moderation and sessions did. */
  lemma {:induction false} SuspensionLocksSessions(cfg: Sessions.Config, start: int, requests: seq<Timed>)
    requires Timely(start, requests)
    ensures var a := RunFrom(Init(cfg, start), requests).auth;
            && Sessions.Inv(a)
            && (forall h :: h in a.tokens && a.tokens[h].revokedAt.None? ==>
                              !Sessions.Blocked(a.suspensions, a.tokens[h].user, a.clock))
  {
    hide Decide, Apply, Timely;
    if requests != [] {
      var n := |requests| - 1;
      RunPrefix(Init(cfg, start), requests);
      SuspensionLocksSessions(cfg, start, requests[..n]);
      var db := RunFrom(Init(cfg, start), requests[..n]);
      DecideIsAllowed(db, requests[n].now, requests[n].request);
      ApplyKeepsSessions(db, requests[n].now, Decide(db, requests[n].now, requests[n].request).0);
    }
  }

  // ----- reports -----

  /** A report has a resolution exactly when it is CLOSED. The message of an unresolved report is
      tombstoned exactly when its tombstone comes from a delete. */
  ghost predicate ReportsConsistent(db: Db) {
    && (forall r :: r in db.reports ==>
          && r < db.nextReport
          && db.reports[r].message < |db.messages|
          && (db.reports[r].status == Closed <==> db.reports[r].resolution.Some?)
          && (Unresolved(db.reports[r]) ==>
                (db.messages[db.reports[r].message].deleted <==> db.reports[r].message in db.byDelete)))
    && (forall m :: m in db.byDelete ==> IsDeleted(db.messages, m))
  }

  /** The unique key (reporter, message). */
  ghost predicate OneReportEach(reports: map<ReportId, Report>) {
    forall r, s :: r in reports && s in reports
                   && (reports[r].reporter, reports[r].message) == (reports[s].reporter, reports[s].message) ==>
                     r == s
  }

  lemma ApplyKeepsOneReportEach(db: Db, now: int, f: Effect)
    requires Allowed(db, now, f) && OneReportEach(db.reports)
    ensures OneReportEach(Apply(db, now, f).reports)
  {
    hide Sessions.Step, Sessions.DoImpose, Sessions.DoLift, Sessions.DoPrune, TombstoneRows, TombstoneAll, OnMessage, OnLiveFrom;
  }

  lemma SuspendKeepsReports(db: Db, now: int, f: Effect)
    requires f.Suspend? && Allowed(db, now, f) && ReportsConsistent(db)
    ensures ReportsConsistent(Apply(db, now, f))
  {
    hide Sessions.DoImpose, TombstoneRows;
  }

  lemma TombstoneKeepsReports(db: Db, now: int, f: Effect)
    requires f.Tombstone? && Allowed(db, now, f) && ReportsConsistent(db)
    ensures ReportsConsistent(Apply(db, now, f))
  {}

  lemma SweepKeepsReports(db: Db, now: int, f: Effect)
    requires f.Sweep? && Allowed(db, now, f) && ReportsConsistent(db)
    ensures ReportsConsistent(Apply(db, now, f))
  {
    hide Sessions.DoPrune;
  }

  lemma EditKeepsReports(db: Db, now: int, f: Effect)
    requires !f.Suspend? && !f.Tombstone? && !f.Sweep? && Allowed(db, now, f) && ReportsConsistent(db)
    ensures ReportsConsistent(Apply(db, now, f))
  {
    hide Sessions.Step, Sessions.DoLift;
  }

  lemma ApplyKeepsReports(db: Db, now: int, f: Effect)
    requires Allowed(db, now, f) && ReportsConsistent(db)
    ensures ReportsConsistent(Apply(db, now, f))
  {
    hide Apply, Allowed, ReportsConsistent;
    if f.Suspend? {
      SuspendKeepsReports(db, now, f);
    } else if f.Tombstone? {
      TombstoneKeepsReports(db, now, f);
    } else if f.Sweep? {
      SweepKeepsReports(db, now, f);
    } else {
      EditKeepsReports(db, now, f);
    }
  }

  /** In every run: a report has a resolution exactly when it is CLOSED; an unresolved report is on a
      tombstoned message exactly when that tombstone came from a delete; and nobody has two reports on
      one message. */
  lemma {:induction false} ReportsStayConsistent(cfg: Sessions.Config, start: int, requests: seq<Timed>)
    ensures ReportsConsistent(RunFrom(Init(cfg, start), requests))
    ensures OneReportEach(RunFrom(Init(cfg, start), requests).reports)
  {
    hide Decide, Apply, Allowed;
    if requests != [] {
      var n := |requests| - 1;
      ReportsStayConsistent(cfg, start, requests[..n]);
      var db := RunFrom(Init(cfg, start), requests[..n]);
      DecideIsAllowed(db, requests[n].now, requests[n].request);
      ApplyKeepsReports(db, requests[n].now, Decide(db, requests[n].now, requests[n].request).0);
      ApplyKeepsOneReportEach(db, requests[n].now, Decide(db, requests[n].now, requests[n].request).0);
    }
  }

  /** No tombstoned message has an unresolved report. */
  ghost predicate Clean(db: Db) {
    forall r :: r in db.reports && Unresolved(db.reports[r]) ==> !IsDeleted(db.messages, db.reports[r].message)
  }

  /** A delete that goes through on a message with an unresolved report. */
  ghost predicate Strands(db: Db, t: Timed) {
    t.request.DeleteMessage? && Decide(db, t.now, t.request).1 == Ok
    && exists r :: r in db.reports && db.reports[r].message == t.request.message && Unresolved(db.reports[r])
  }

  lemma DeleteKeepsCleanIff(db: Db, now: int, f: Effect)
    requires f.Delete? && Allowed(db, now, f) && ReportsConsistent(db) && Clean(db)
    ensures Clean(Apply(db, now, f)) <==>
            forall r :: r in db.reports && db.reports[r].message == f.message ==> db.reports[r].status == Closed
  {
    var d := Apply(db, now, f);
    assert d.reports == db.reports;
    if Clean(d) {
      forall r | r in db.reports && db.reports[r].message == f.message ensures db.reports[r].status == Closed {
        assert r in d.reports && IsDeleted(d.messages, f.message);
      }
    }
  }

  lemma OthersKeepClean(db: Db, now: int, f: Effect)
    requires !f.Delete? && Allowed(db, now, f) && ReportsConsistent(db) && Clean(db)
    ensures Clean(Apply(db, now, f))
  {
    hide Sessions.Step, Sessions.DoImpose, Sessions.DoLift, Sessions.DoPrune, TombstoneRows;
  }

  /** The exact law of a step: a delete breaks the rule exactly when the message has an unresolved
      report, and nothing else breaks it. */
  lemma StepKeepsCleanIff(db: Db, t: Timed)
    requires ReportsConsistent(db) && Clean(db)
    ensures Clean(Step(db, t)) <==> !Strands(db, t)
  {
    hide Apply, ReportsConsistent, Clean, Allowed;
    DecideIsAllowed(db, t.now, t.request);
    var f := Decide(db, t.now, t.request).0;
    if f.Delete? {
      DeleteKeepsCleanIff(db, t.now, f);
    } else {
      OthersKeepClean(db, t.now, f);
    }
  }

  /** A run keeps every tombstoned message free of unresolved reports, all the way, exactly when no
      delete of it strands a report. */
  lemma {:induction false} CleanThroughoutIff(cfg: Sessions.Config, start: int, requests: seq<Timed>)
    ensures (forall i :: 0 <= i <= |requests| ==> Clean(RunFrom(Init(cfg, start), requests[..i]))) <==>
            (forall i :: 0 <= i < |requests| ==> !Strands(RunFrom(Init(cfg, start), requests[..i]), requests[i]))
  {
    hide Step, Strands, ReportsConsistent, Clean;
    NoReportsYet(cfg, start);
    if requests != [] {
      var n := |requests| - 1;
      var before := requests[..n];
      assert forall i :: 0 <= i <= n ==> before[..i] == requests[..i];
      assert forall i :: 0 <= i < n ==> before[i] == requests[i];
      assert requests[..n + 1] == requests;
      CleanThroughoutIff(cfg, start, before);
      var db := RunFrom(Init(cfg, start), before);
      ReportsStayConsistent(cfg, start, before);
      if Clean(db) {
        StepKeepsCleanIff(db, requests[n]);
      }
    }
  }

  lemma NoReportsYet(cfg: Sessions.Config, start: int)
    ensures Clean(Init(cfg, start))
  {}

  /** Hence, without deletes, no tombstoned message has an unresolved report. */
  lemma NoOpenReportOnTombstone(cfg: Sessions.Config, start: int, requests: seq<Timed>, r: ReportId)
    requires WithoutDeletes(requests)
    requires r in RunFrom(Init(cfg, start), requests).reports
    requires Unresolved(RunFrom(Init(cfg, start), requests).reports[r])
    ensures !IsDeleted(RunFrom(Init(cfg, start), requests).messages, RunFrom(Init(cfg, start), requests).reports[r].message)
  {
    hide Step;
    NoDeletesNoTraces(cfg, start, requests);
    ReportsStayConsistent(cfg, start, requests);
  }

  /** A sender's delete does leave an unresolved report on a tombstoned message. */
  lemma DeleteLeavesReportOpen(db: Db, now: int, sender: UserId, m: MessageId, r: ReportId)
    requires m < |db.messages| && db.messages[m] == Message(sender, false)
    requires r in db.reports && db.reports[r].message == m && Unresolved(db.reports[r])
    ensures var d := Step(db, At(now, DeleteMessage(sender, m, true, false)));
            IsDeleted(d.messages, m) && d.reports == db.reports && r in d.reports && Unresolved(d.reports[r])
  {}

  ghost predicate StaysClosed(db: Db, d: Db, r: ReportId) {
    && db.nextReport <= d.nextReport
    && (r < db.nextReport && r !in db.reports ==> r !in d.reports)
    && (r in db.reports && r in d.reports && db.reports[r].status == Closed ==>
          d.reports[r].status == Closed && d.reports[r].resolution == db.reports[r].resolution)
  }

  lemma ApplyKeepsClosed(db: Db, now: int, f: Effect, r: ReportId)
    requires Allowed(db, now, f) && ReportsConsistent(db)
    ensures StaysClosed(db, Apply(db, now, f), r)
  {
    hide Sessions.Step, Sessions.DoImpose, Sessions.DoLift, Sessions.DoPrune, TombstoneRows, TombstoneAll;
  }

  /** CLOSED is terminal: over any run, a closed report that is still in the table is closed with the
      same resolution, and a pruned report never comes back. */
  lemma {:induction false} ClosedIsTerminal(db: Db, requests: seq<Timed>, r: ReportId)
    requires ReportsConsistent(db) && r < db.nextReport
    ensures StaysClosed(db, RunFrom(db, requests), r)
    ensures ReportsConsistent(RunFrom(db, requests))
  {
    hide Decide, Apply, ReportsConsistent;
    if requests != [] {
      var n := |requests| - 1;
      ClosedIsTerminal(db, requests[..n], r);
      var d := RunFrom(db, requests[..n]);
      DecideIsAllowed(d, requests[n].now, requests[n].request);
      ApplyKeepsReports(d, requests[n].now, Decide(d, requests[n].now, requests[n].request).0);
      ApplyKeepsClosed(d, requests[n].now, Decide(d, requests[n].now, requests[n].request).0, r);
    }
  }

  // ----- what the calls mean -----

  /** A report on a message of the user. */
  predicate OnMessageOf(db: Db, r: ReportId, u: UserId) {
    r in db.reports && db.reports[r].message < |db.messages| && db.messages[db.reports[r].message].sender == u
  }

  /** A suspension adds its row with the given end date, and leaves its target with one strike more, no live token, no live message, and no
      unresolved report but those that an earlier delete stranded; the triggering report is closed. */
  lemma SuspensionMeans(db: Db, now: int, q: Request)
    requires q.SuspendUser? && Decide(db, now, q).1 == Ok
    ensures var d := Step(db, At(now, q));
            && q.target < |db.users| && db.users[q.target].role != Admin && db.users[q.target].status == Active
            && d.users == db.users[q.target := User(Suspended, db.users[q.target].role, db.users[q.target].strikes + 1)]
            && d.auth.suspensions == db.auth.suspensions + [Sessions.Suspension(q.target, q.expiresAt, None)]
            && (forall h :: h in d.auth.tokens && d.auth.tokens[h].user == q.target ==> d.auth.tokens[h].revokedAt.Some?)
            && (forall m :: 0 <= m < |d.messages| && d.messages[m].sender == q.target ==> d.messages[m].deleted)
            && (forall r :: OnMessageOf(d, r, q.target) && Unresolved(d.reports[r]) ==> IsDeleted(db.messages, d.reports[r].message))
            && (q.trigger.Some? && q.trigger.value in d.reports ==> d.reports[q.trigger.value].status == Closed)
  {
    hide TombstoneRows;
    DecideIsAllowed(db, now, q);
  }

  /** A platform tombstone closes every report on the message: those that were closed keep their
      resolution, the others are closed as tombstoned, and reports on other messages keep theirs. */
  lemma TombstoneMeans(db: Db, now: int, q: Request)
    requires q.TombstoneMessage? && Decide(db, now, q).1 == Ok
    ensures var d := Step(db, At(now, q));
            && q.message < |db.messages| && d.messages == db.messages[q.message := db.messages[q.message].(deleted := true)]
            && d.reports.Keys == db.reports.Keys
            && (forall r :: r in d.reports && d.reports[r].message == q.message ==> d.reports[r].status == Closed)
            && (forall r :: r in d.reports ==>
                  d.reports[r].resolution == if d.reports[r].message == q.message && Unresolved(db.reports[r])
                                             then Some(AutoClosedTombstoned) else db.reports[r].resolution)
            && (q.trigger.Some? ==> q.trigger.value in d.reports && d.reports[q.trigger.value].reviewer == Some(q.actor))
  {
    DecideIsAllowed(db, now, q);
  }

  // ----- runs that break the two rules -----

  /** Two users register and one becomes admin by the bootstrap; that one suspends the other, whom the
      bootstrap then promotes too: a suspended admin. */
  lemma SuspendedAdminRun(cfg: Sessions.Config, now: int)
    ensures var d1 := Step(Step(Init(cfg, now), At(now, Register)), At(now, Register));
            var d2 := Step(d1, At(now, Bootstrap(1)));
            var d3 := Step(d2, At(now, SuspendUser(1, d2.users[1].role, 0, None, None)));
            |d2.users| == 2 && d2.users[1].role == Admin && SuspendedAdmin(Step(d3, At(now, Bootstrap(0))), 0)
  {
    hide Apply;
    var d0 := Step(Init(cfg, now), At(now, Register));
    var d1 := Step(d0, At(now, Register));
    Registered(Init(cfg, now), now);
    Registered(d0, now);
    Promoted(d1, now, 1);
    var d2 := Step(d1, At(now, Bootstrap(1)));
    var q := SuspendUser(1, Admin, 0, None, None);
    assert Decide(d2, now, q).1 == Ok;
    SuspensionMeans(d2, now, q);
    BootstrapMakesSuspendedAdmin(Step(d2, At(now, q)), now, 0);
  }

  lemma Promoted(db: Db, now: int, u: UserId)
    requires u < |db.users| && db.users[u].role != Admin
    ensures Step(db, At(now, Bootstrap(u))).users == db.users[u := db.users[u].(role := Admin)]
  {}

  lemma Registered(db: Db, now: int)
    ensures Step(db, At(now, Register)) == db.(users := db.users + [User(Active, PlainUser, 0)], auth := db.auth.(clock := now))
  {}

  /** Two users, a message, a report on it, and the sender's delete: a stranded report. */
  lemma StrandedReportRun(cfg: Sessions.Config, now: int)
    ensures var d1 := Step(Step(Init(cfg, now), At(now, Register)), At(now, Register));
            var d2 := Step(Step(d1, At(now, Post(0))), At(now, FileReport(1, 0, true, true)));
            Clean(d2) && !Clean(Step(d2, At(now, DeleteMessage(0, 0, true, false))))
  {
    hide Step;
    var d0 := Step(Init(cfg, now), At(now, Register));
    var d1 := Step(d0, At(now, Register));
    Registered(Init(cfg, now), now);
    Registered(d0, now);
    var posted := Step(d1, At(now, Post(0)));
    Posted(d1, now, 0);
    var d2 := Step(posted, At(now, FileReport(1, 0, true, true)));
    Reported(posted, now, 1, 0);
    DeleteLeavesReportOpen(d2, now, 0, 0, 0);
    var d3 := Step(d2, At(now, DeleteMessage(0, 0, true, false)));
    assert 0 in d3.reports && IsDeleted(d3.messages, d3.reports[0].message);
  }

  lemma Posted(db: Db, now: int, sender: UserId)
    requires sender < |db.users|
    ensures Step(db, At(now, Post(sender))) == db.(messages := db.messages + [Message(sender, false)], auth := db.auth.(clock := now))
  {}

  lemma Reported(db: Db, now: int, reporter: UserId, m: MessageId)
    requires reporter < |db.users| && db.users[reporter].status == Active && db.reports == map[]
    requires m < |db.messages| && !db.messages[m].deleted && db.messages[m].sender != reporter
    ensures Step(db, At(now, FileReport(reporter, m, true, true)))
         == db.(reports := map[db.nextReport := Report(reporter, m, Open, None, None, now)], nextReport := db.nextReport + 1,
                auth := db.auth.(clock := now))
  {
    assert !Filed(db.reports, reporter, m);
  }

  /** A sender's delete of a live message: tombstoned, and the log says nothing. */
  lemma UnloggedDeleteRun(cfg: Sessions.Config, now: int)
    ensures var d1 := Step(Step(Init(cfg, now), At(now, Register)), At(now, Post(0)));
            LogSaysSo(d1, 0) && !LogSaysSo(Step(d1, At(now, DeleteMessage(0, 0, true, false))), 0)
  {
    hide Step;
    var d0 := Step(Init(cfg, now), At(now, Register));
    Registered(Init(cfg, now), now);
    Posted(d0, now, 0);
    StepKeepsLogIff(Step(d0, At(now, Post(0))), At(now, DeleteMessage(0, 0, true, false)), 0);
  }

  // ----- all laws together -----

  ghost predicate Lawful(db: Db) {
    && Sessions.Inv(db.auth)
    && ReportsConsistent(db) && OneReportEach(db.reports)
    && (forall u :: UserMatchesLog(db.users, db.audit, u))
    && (forall m :: MessageMatchesLog(db, m))
    && (forall u :: SuspensionsMatch(db, u))
  }

  lemma StepKeepsLawful(db: Db, t: Timed)
    requires Lawful(db) && db.auth.clock <= t.now
    ensures Lawful(Step(db, t))
  {
    hide Sessions.Inv, ReportsConsistent, UserMatchesLog, MessageMatchesLog, SuspensionsMatch, OneReportEach, Decide, Apply, Allowed;
    DecideIsAllowed(db, t.now, t.request);
    var f := Decide(db, t.now, t.request).0;
    var d := Apply(db, t.now, f);
    ApplyKeepsSessions(db, t.now, f);
    ApplyKeepsReports(db, t.now, f);
    ApplyKeepsOneReportEach(db, t.now, f);
    forall u: UserId ensures UserMatchesLog(d.users, d.audit, u) { ApplyKeepsUser(db, t.now, f, u); }
    forall m: MessageId ensures MessageMatchesLog(d, m) { ApplyKeepsMessage(db, t.now, f, m); }
    forall u: UserId ensures SuspensionsMatch(d, u) { ApplyKeepsSuspensions(db, t.now, f, u); }
  }
}
