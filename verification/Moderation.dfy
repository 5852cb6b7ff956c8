/**
 Moderation: users, messages, reports, suspensions and the append-only audit log, as one transition
 system. It models `ModerationService`, the report workflow of `ReportsService`, the reactivation
 job, the admin bootstrap, `MessagesService.delete`, the logins and refreshes of `AuthService`, and
 the prune job.

 A request first decides what it may do (`Decide`, the guards of the source) and then commits one
 effect (`Apply`, the transaction of the source). Ids of users, messages and suspensions are the
 positions of their rows, which are never removed.
 */
module Moderation {
  import opened Prelude
  import Sessions

  type UserId = nat
  type MessageId = nat
  type ReportId = nat

  datatype Status = Active | Suspended
  datatype Role = PlainUser | Moderator | Admin

  datatype User = User(status: Status, role: Role, strikes: nat)

  datatype Message = Message(sender: UserId, deleted: bool)

  datatype ReportStatus = Open | InReview | Closed
  datatype Resolution = Dismissed | AutoClosedTombstoned | AutoClosedSuspended

  datatype Report = Report(reporter: UserId, message: MessageId, status: ReportStatus,
                           resolution: Option<Resolution>, reviewer: Option<UserId>, createdAt: int)

  datatype Action =
    | MessageTombstone(message: MessageId)
    | MessageUntombstone(message: MessageId)
    | UserSuspend(user: UserId, sid: nat)
    | UserUnsuspend(user: UserId, sid: nat)
    | StrikeReset(user: UserId, previous: nat)
    | RolePromote(user: UserId, from: Role, to: Role)
    | RoleDemote(user: UserId, from: Role, to: Role)
    | ReviewStart(report: ReportId)
    | ReportDismiss(report: ReportId)

  datatype AuditRow = AuditRow(actor: Option<UserId>, action: Action)

  /** The tables, and three histories: which messages their sender deleted without an audit row, which
      ones a group admin deleted although they were tombstoned already, and which tombstones in force
      come from a delete. */
  datatype Db = Db(cfg: Sessions.Config, users: seq<User>, messages: seq<Message>, reports: map<ReportId, Report>, nextReport: nat,
                   auth: Sessions.Auth, audit: seq<AuditRow>,
                   silent: multiset<MessageId>, redundant: multiset<MessageId>,
                   byDelete: set<MessageId>)

  datatype Reply = Ok | Forbidden | NotFound | Conflict | BadRequest | Failed

  datatype Request =
    | Register
    | Post(sender: UserId)
    | Session(event: Sessions.Event)
    | SuspendUser(actor: UserId, role: Role, target: UserId, expiresAt: Option<int>, trigger: Option<ReportId>)
    | UnsuspendUser(actor: UserId, role: Role, target: UserId)
    | ResetStrikes(actor: UserId, role: Role, target: UserId)
    | ChangeUserRole(actor: UserId, role: Role, target: UserId, to: Role)
    | TombstoneMessage(actor: UserId, role: Role, message: MessageId, trigger: Option<ReportId>)
    | UntombstoneMessage(actor: UserId, role: Role, message: MessageId)
    | DeleteMessage(user: UserId, message: MessageId, permitted: bool, groupAdmin: bool)
    | FileReport(reporter: UserId, message: MessageId, visible: bool, admitted: bool)
    | MarkInReview(actor: UserId, report: ReportId)
    | DismissReport(actor: UserId, report: ReportId)
    | ReactivateOne(sid: nat)
    | Bootstrap(user: UserId)
    | Prune(cutoff: int)

  datatype Timed = At(now: int, request: Request)

  // ----- the transactions -----

  datatype Effect =
    | Nothing
    | AddUser
    | AddMessage(sender: UserId)
    | SessionStep(event: Sessions.Event)
    | Suspend(actor: UserId, user: UserId, expiresAt: Option<int>, trigger: Option<ReportId>)
    | Unsuspend(who: Option<UserId>, user: UserId, sid: nat)
    | ClearStrikes(actor: UserId, user: UserId)
    | SetRole(who: Option<UserId>, user: UserId, to: Role)
    | Tombstone(actor: UserId, message: MessageId, trigger: Option<ReportId>)
    | Untombstone(actor: UserId, message: MessageId)
    | Delete(user: UserId, message: MessageId)
    | AddReport(reporter: UserId, message: MessageId)
    | StartReview(actor: UserId, report: ReportId)
    | Dismiss(actor: UserId, report: ReportId)
    | Sweep(cutoff: int)

  predicate Unresolved(r: Report) {
    r.status != Closed
  }

  /** `updateMany` closing the OPEN and IN_REVIEW reports among `pick`. */
  function CloseReports(reports: map<ReportId, Report>, pick: set<ReportId>, why: Resolution, actor: UserId)
    : (r: map<ReportId, Report>)
    ensures r.Keys == reports.Keys
  {
    map i | i in reports ::
      if i in pick && Unresolved(reports[i])
      then reports[i].(status := Closed, resolution := Some(why), reviewer := Some(actor)) else reports[i]
  }

  function OnMessage(reports: map<ReportId, Report>, m: MessageId): set<ReportId> {
    set i | i in reports && reports[i].message == m
  }

  predicate LiveFrom(messages: seq<Message>, m: MessageId, sender: UserId) {
    m < |messages| && messages[m].sender == sender && !messages[m].deleted
  }

  function OnLiveFrom(reports: map<ReportId, Report>, messages: seq<Message>, sender: UserId): set<ReportId> {
    set i | i in reports && LiveFrom(messages, reports[i].message, sender)
  }

  function TombstoneAll(messages: seq<Message>, sender: UserId): (r: seq<Message>)
    ensures |r| == |messages|
    ensures forall m :: 0 <= m < |r| ==>
                          r[m] == messages[m].(deleted := messages[m].deleted || messages[m].sender == sender)
  {
    seq(|messages|, m requires 0 <= m < |messages| =>
      messages[m].(deleted := messages[m].deleted || messages[m].sender == sender))
  }

  /** One MESSAGE_TOMBSTONE row per live message of the sender, in table order. */
  function TombstoneRows(messages: seq<Message>, sender: UserId, actor: UserId): seq<AuditRow> {
    if messages == [] then []
    else
      var n := |messages| - 1;
      TombstoneRows(messages[..n], sender, actor)
      + (if LiveFrom(messages, n, sender) then [AuditRow(Some(actor), MessageTombstone(n))] else [])
  }

  function Rank(role: Role): nat {
    match role case Admin => 2 case Moderator => 1 case PlainUser => 0
  }

  function RoleAction(user: UserId, from: Role, to: Role): Action {
    if Rank(to) > Rank(from) then RolePromote(user, from, to) else RoleDemote(user, from, to)
  }

  function Chosen(report: Option<ReportId>): set<ReportId> {
    if report.Some? then {report.value} else {}
  }

  /** What an effect needs in order to make sense; `Decide` establishes it. */
  ghost predicate Allowed(db: Db, now: int, f: Effect) {
    match f
    case Nothing => true
    case AddUser => true
    case AddMessage(s) => s < |db.users|
    case SessionStep(e) => e.Login? || e.Refresh? || e.Logout?
    case Suspend(_, u, _, _) => u < |db.users| && db.users[u].status == Active && db.users[u].role != Admin
    case Unsuspend(_, u, sid) =>
      && sid < |db.auth.suspensions| && db.auth.suspensions[sid].user == u
      && db.auth.suspensions[sid].revokedAt.None? && u < |db.users|
    case ClearStrikes(_, u) => u < |db.users|
    case SetRole(who, u, to) => u < |db.users| && (who.Some? && db.users[u].status == Suspended ==> to == PlainUser)
    case Tombstone(_, m, trigger) =>
      m < |db.messages| && !db.messages[m].deleted && (trigger.Some? ==> trigger.value in db.reports)
    case Untombstone(_, m) => m < |db.messages| && db.messages[m].deleted
    case Delete(_, m) => m < |db.messages|
    case AddReport(reporter, m) => m < |db.messages| && !db.messages[m].deleted && !Filed(db.reports, reporter, m)
    case StartReview(_, r) => r in db.reports && db.reports[r].status == Open
    case Dismiss(_, r) => r in db.reports && Unresolved(db.reports[r])
    case Sweep(_) => true
  }

  function SetReviewer(reports: map<ReportId, Report>, trigger: Option<ReportId>, actor: UserId): map<ReportId, Report>
    requires trigger.Some? ==> trigger.value in reports
  {
    if trigger.Some? then reports[trigger.value := reports[trigger.value].(reviewer := Some(actor))] else reports
  }

  function CommitSuspend(db: Db, now: int, actor: UserId, u: UserId, expiresAt: Option<int>, trigger: Option<ReportId>): Db
    requires u < |db.users|
  {
    var sid := |db.auth.suspensions|;
    var closed := CloseReports(db.reports, OnLiveFrom(db.reports, db.messages, u), AutoClosedSuspended, actor);
    db.(auth := Sessions.DoImpose(db.auth, now, u, expiresAt),
        users := db.users[u := db.users[u].(status := Suspended, strikes := db.users[u].strikes + 1)],
        messages := TombstoneAll(db.messages, u),
        reports := CloseReports(closed, Chosen(trigger), AutoClosedSuspended, actor),
        audit := db.audit + TombstoneRows(db.messages, u, actor) + [AuditRow(Some(actor), UserSuspend(u, sid))])
  }

  function CommitDelete(db: Db, user: UserId, m: MessageId): Db
    requires m < |db.messages|
  {
    var asSender, was := db.messages[m].sender == user, db.messages[m].deleted;
    db.(messages := db.messages[m := db.messages[m].(deleted := true)],
        audit := if asSender then db.audit else db.audit + [AuditRow(Some(user), MessageTombstone(m))],
        silent := if asSender && !was then db.silent + multiset{m} else db.silent,
        redundant := if !asSender && was then db.redundant + multiset{m} else db.redundant,
        byDelete := if was then db.byDelete else db.byDelete + {m})
  }

  /** One committed transaction at time `now`. */
  function Apply(db: Db, now: int, f: Effect): Db
    requires Allowed(db, now, f)
  {
    var d := db.(auth := db.auth.(clock := now));
    match f
    case Nothing => d
    case AddUser => d.(users := d.users + [User(Active, PlainUser, 0)])
    case AddMessage(s) => d.(messages := d.messages + [Message(s, false)])
    case SessionStep(e) => d.(auth := Sessions.Step(db.cfg, db.auth, Sessions.At(now, e)))
    case Suspend(actor, u, x, r) => CommitSuspend(d, now, actor, u, x, r)
    case Unsuspend(who, u, sid) =>
      d.(auth := Sessions.DoLift(d.auth, now, sid),
         users := d.users[u := d.users[u].(status := Active)],
         audit := d.audit + [AuditRow(who, UserUnsuspend(u, sid))])
    case ClearStrikes(actor, u) =>
      d.(users := d.users[u := d.users[u].(strikes := 0)],
         audit := d.audit + [AuditRow(Some(actor), StrikeReset(u, d.users[u].strikes))])
    case SetRole(who, u, to) =>
      d.(users := d.users[u := d.users[u].(role := to)],
         audit := d.audit + [AuditRow(who, RoleAction(u, d.users[u].role, to))])
    case Tombstone(actor, m, trigger) =>
      d.(messages := d.messages[m := d.messages[m].(deleted := true)],
         reports := SetReviewer(CloseReports(d.reports, OnMessage(d.reports, m), AutoClosedTombstoned, actor), trigger, actor),
         audit := d.audit + [AuditRow(Some(actor), MessageTombstone(m))])
    case Untombstone(actor, m) =>
      d.(messages := d.messages[m := d.messages[m].(deleted := false)],
         audit := d.audit + [AuditRow(Some(actor), MessageUntombstone(m))],
         byDelete := d.byDelete - {m})
    case Delete(user, m) => CommitDelete(d, user, m)
    case AddReport(reporter, m) =>
      d.(reports := d.reports[d.nextReport := Report(reporter, m, Open, None, None, now)], nextReport := d.nextReport + 1)
    case StartReview(actor, r) =>
      d.(reports := d.reports[r := d.reports[r].(status := InReview, reviewer := Some(actor))],
         audit := d.audit + [AuditRow(Some(actor), ReviewStart(r))])
    case Dismiss(actor, r) =>
      d.(reports := d.reports[r := d.reports[r].(status := Closed, resolution := Some(Dismissed), reviewer := Some(actor))],
         audit := d.audit + [AuditRow(Some(actor), ReportDismiss(r))])
    case Sweep(cutoff) =>
      d.(auth := Sessions.DoPrune(d.auth, now),
         reports := map r | r in d.reports && d.reports[r].createdAt >= cutoff :: d.reports[r])
  }

  // ----- the guards -----

  /** `findFirst ... orderBy suspendedAt desc`: the newest unrevoked suspension of the user, or -1. */
  function ActiveSuspension(s: seq<Sessions.Suspension>, u: UserId): (sid: int)
    ensures -1 <= sid < |s|
    ensures sid >= 0 ==> s[sid].user == u && s[sid].revokedAt.None?
    ensures sid == -1 ==> forall i :: 0 <= i < |s| ==> !(s[i].user == u && s[i].revokedAt.None?)
  {
    if s == [] then -1
    else if s[|s| - 1].user == u && s[|s| - 1].revokedAt.None? then |s| - 1
    else ActiveSuspension(s[..|s| - 1], u)
  }

  predicate Overdue(s: Sessions.Suspension, now: int) {
    s.revokedAt.None? && s.expiresAt.Some? && s.expiresAt.value < now
  }

  function DecideSuspend(db: Db, now: int, q: Request): (Effect, Reply)
    requires q.SuspendUser?
  {
    if q.role != Admin then (Nothing, Forbidden)
    else if q.target == q.actor then (Nothing, BadRequest)
    else if q.target >= |db.users| then (Nothing, NotFound)
    else if db.users[q.target].role == Admin then (Nothing, Forbidden)
    else if db.users[q.target].status == Suspended then (Nothing, Conflict)
    else if q.expiresAt.Some? && q.expiresAt.value <= now then (Nothing, BadRequest)
    else (Suspend(q.actor, q.target, q.expiresAt, q.trigger), Ok)
  }

  function DecideUnsuspend(db: Db, q: Request): (Effect, Reply)
    requires q.UnsuspendUser?
  {
    if q.role != Admin then (Nothing, Forbidden)
    else if q.target >= |db.users| then (Nothing, NotFound)
    else if db.users[q.target].status != Suspended then (Nothing, BadRequest)
    else
      var sid := ActiveSuspension(db.auth.suspensions, q.target);
      if sid < 0 then (Nothing, BadRequest) else (Unsuspend(Some(q.actor), q.target, sid), Ok)
  }

  function DecideUserEdit(db: Db, q: Request): (Effect, Reply)
    requires q.ResetStrikes? || q.ChangeUserRole? || q.Bootstrap?
  {
    match q
    case ResetStrikes(actor, role, u) =>
      if role != Admin then (Nothing, Forbidden)
      else if u >= |db.users| then (Nothing, NotFound)
      else if db.users[u].strikes == 0 then (Nothing, BadRequest)
      else (ClearStrikes(actor, u), Ok)
    case ChangeUserRole(actor, role, u, to) =>
      if role != Admin then (Nothing, Forbidden)
      else if u >= |db.users| then (Nothing, NotFound)
      else if db.users[u].status == Suspended && to != PlainUser then (Nothing, BadRequest)
      else (SetRole(Some(actor), u, to), Ok)
    case Bootstrap(u) =>
      if u >= |db.users| then (Nothing, NotFound)
      else if db.users[u].role == Admin then (Nothing, Ok)
      else (SetRole(None, u, Admin), Ok)
  }

  function DecideMessage(db: Db, q: Request): (Effect, Reply)
    requires q.TombstoneMessage? || q.UntombstoneMessage? || q.DeleteMessage?
  {
    match q
    case TombstoneMessage(actor, role, m, report) =>
      if role != Moderator && role != Admin then (Nothing, Forbidden)
      else if m >= |db.messages| then (Nothing, NotFound)
      else if db.messages[m].deleted then (Nothing, Conflict)
      else if report.Some? && report.value !in db.reports then (Nothing, Failed)
      else (Tombstone(actor, m, report), Ok)
    case UntombstoneMessage(actor, role, m) =>
      if role != Admin then (Nothing, Forbidden)
      else if m >= |db.messages| then (Nothing, NotFound)
      else if !db.messages[m].deleted then (Nothing, BadRequest)
      else (Untombstone(actor, m), Ok)
    case DeleteMessage(user, m, permitted, groupAdmin) =>
      if m >= |db.messages| then (Nothing, NotFound)
      else if !permitted then (Nothing, Forbidden)
      else if db.messages[m].sender != user && !groupAdmin then (Nothing, Forbidden)
      else (Delete(user, m), Ok)
  }

  predicate Filed(reports: map<ReportId, Report>, reporter: UserId, m: MessageId) {
    exists r :: r in reports && reports[r].reporter == reporter && reports[r].message == m
  }

  function DecideReport(db: Db, q: Request): (Effect, Reply)
    requires q.FileReport? || q.MarkInReview? || q.DismissReport?
  {
    match q
    case FileReport(reporter, m, visible, admitted) =>
      if reporter >= |db.users| then (Nothing, NotFound)
      else if db.users[reporter].status == Suspended then (Nothing, Forbidden)
      else if m >= |db.messages| then (Nothing, NotFound)
      else if db.messages[m].deleted then (Nothing, BadRequest)
      else if db.messages[m].sender == reporter then (Nothing, BadRequest)
      else if !visible then (Nothing, Forbidden)
      else if !admitted then (Nothing, Conflict)
      else if Filed(db.reports, reporter, m) then (Nothing, Ok)
      else (AddReport(reporter, m), Ok)
    case MarkInReview(actor, r) =>
      if r !in db.reports then (Nothing, NotFound)
      else if db.reports[r].status == Closed then (Nothing, BadRequest)
      else if db.reports[r].status == InReview then (Nothing, Ok)
      else (StartReview(actor, r), Ok)
    case DismissReport(actor, r) =>
      if r !in db.reports then (Nothing, NotFound)
      else if db.reports[r].status == Closed then (Nothing, BadRequest)
      else (Dismiss(actor, r), Ok)
  }

  function DecideJob(db: Db, now: int, q: Request): (Effect, Reply)
    requires q.Register? || q.Post? || q.Session? || q.ReactivateOne? || q.Prune?
  {
    match q
    case Register => (AddUser, Ok)
    case Post(s) => if s < |db.users| then (AddMessage(s), Ok) else (Nothing, NotFound)
    case Session(e) =>
      if (e.Login? && e.user < |db.users|) || e.Refresh? || e.Logout? then (SessionStep(e), Ok) else (Nothing, Failed)
    case ReactivateOne(sid) =>
      var s := db.auth.suspensions;
      if sid < |s| && Overdue(s[sid], now) && s[sid].user < |db.users|
      then (Unsuspend(None, s[sid].user, sid), Ok) else (Nothing, Failed)
    case Prune(cutoff) => (Sweep(cutoff), Ok)
  }

  function Decide(db: Db, now: int, q: Request): (Effect, Reply) {
    if q.SuspendUser? then DecideSuspend(db, now, q)
    else if q.UnsuspendUser? then DecideUnsuspend(db, q)
    else if q.ResetStrikes? || q.ChangeUserRole? || q.Bootstrap? then DecideUserEdit(db, q)
    else if q.TombstoneMessage? || q.UntombstoneMessage? || q.DeleteMessage? then DecideMessage(db, q)
    else if q.FileReport? || q.MarkInReview? || q.DismissReport? then DecideReport(db, q)
    else DecideJob(db, now, q)
  }

  lemma DecideIsAllowed(db: Db, now: int, q: Request)
    ensures Allowed(db, now, Decide(db, now, q).0)
  {}

  function Step(db: Db, t: Timed): Db {
    DecideIsAllowed(db, t.now, t.request);
    Apply(db, t.now, Decide(db, t.now, t.request).0)
  }

  // ----- runs -----

  function Init(cfg: Sessions.Config, start: int): Db {
    Db(cfg, [], [], map[], 0, Sessions.Init(start), [], multiset{}, multiset{}, {})
  }

  function RunFrom(db: Db, requests: seq<Timed>): Db {
    if requests == [] then db
    else Step(RunFrom(db, requests[..|requests| - 1]), requests[|requests| - 1])
  }

  predicate Timely(start: int, requests: seq<Timed>) {
    && (forall i :: 0 <= i < |requests| ==> start <= requests[i].now)
    && (forall i, j :: 0 <= i < j < |requests| ==> requests[i].now <= requests[j].now)
  }

  lemma StepClock(db: Db, t: Timed)
    ensures Step(db, t).auth.clock == t.now
  {
    hide Decide, Sessions.DoLogin, Sessions.DoRefresh;
    DecideIsAllowed(db, t.now, t.request);
    var f := Decide(db, t.now, t.request).0;
    if f.SessionStep? {
      Sessions.StepClock(db.cfg, db.auth, Sessions.At(t.now, f.event));
    }
  }

  lemma RunPrefix(db: Db, requests: seq<Timed>)
    requires requests != [] && Timely(db.auth.clock, requests)
    ensures var n := |requests| - 1;
            && Timely(db.auth.clock, requests[..n])
            && RunFrom(db, requests[..n]).auth.clock <= requests[n].now
            && RunFrom(db, requests) == Step(RunFrom(db, requests[..n]), requests[n])
  {
    hide Step;
    var n := |requests| - 1;
    if n > 0 {
      StepClock(RunFrom(db, requests[..n][..n - 1]), requests[..n][n - 1]);
    }
  }
}
