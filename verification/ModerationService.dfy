/**
 The moderation services as they run: tables updated in place, one transaction after the other.
 Every method is proved to take exactly the step of the transition system that its request stands
 for, and so to keep all the laws.
 */
module ModerationServices {
  import opened Prelude
  import opened Moderation
  import opened ModerationLaws
  import Sessions

  /** The ids `findMany` returns for the reactivation job: overdue suspensions, in table order. */
  function OverdueIds(s: seq<Sessions.Suspension>, now: int): seq<nat> {
    if s == [] then []
    else OverdueIds(s[..|s| - 1], now) + (if Overdue(s[|s| - 1], now) then [|s| - 1] else [])
  }

  lemma {:induction false} OverdueIdsListed(s: seq<Sessions.Suspension>, now: int)
    ensures forall i :: 0 <= i < |OverdueIds(s, now)| ==>
                          OverdueIds(s, now)[i] < |s| && Overdue(s[OverdueIds(s, now)[i]], now)
    ensures forall i, j :: 0 <= i < j < |OverdueIds(s, now)| ==> OverdueIds(s, now)[i] < OverdueIds(s, now)[j]
    ensures forall sid :: 0 <= sid < |s| && Overdue(s[sid], now) ==> sid in OverdueIds(s, now)
  {
    hide Overdue, OverdueIds;
    if s == [] {
      NothingOverdue(now);
    } else {
      var n := |s| - 1;
      var before, ids := OverdueIds(s[..n], now), OverdueIds(s, now);
      OverdueIdsListed(s[..n], now);
      OneRowOn(s, now);
      forall sid | 0 <= sid < |s| && Overdue(s[sid], now) ensures sid in ids {
        if sid < n {
          assert s[..n][sid] == s[sid];
          assert sid in before;
        }
      }
    }
  }

  lemma NothingOverdue(now: int)
    ensures OverdueIds([], now) == []
  {}

  lemma OneRowOn(s: seq<Sessions.Suspension>, now: int)
    requires s != []
    ensures OverdueIds(s, now) == OverdueIds(s[..|s| - 1], now) + (if Overdue(s[|s| - 1], now) then [|s| - 1] else [])
  {}

  /** The reactivation steps of a batch in which the rows in `failing` throw. */
  function Reactivations(ids: seq<nat>, now: int, failing: set<nat>): seq<Timed> {
    if ids == [] then []
    else
      var before := Reactivations(ids[..|ids| - 1], now, failing);
      if ids[|ids| - 1] in failing then before else before + [At(now, ReactivateOne(ids[|ids| - 1]))]
  }

  /** No suspension is overdue any more, except among the failing rows. */
  ghost predicate AllLifted(s: seq<Sessions.Suspension>, now: int, failing: set<nat>) {
    forall sid :: 0 <= sid < |s| && Overdue(s[sid], now) ==> sid in failing
  }

  /** The first `i` listed suspensions are lifted or failing, the others still overdue. */
  ghost predicate Progress(s: seq<Sessions.Suspension>, ids: seq<nat>, i: nat, now: int, failing: set<nat>) {
    && (forall j :: 0 <= j < |ids| ==> ids[j] < |s|)
    && (forall j, k :: 0 <= j < k < |ids| ==> ids[j] < ids[k])
    && (forall j :: i <= j < |ids| ==> Overdue(s[ids[j]], now))
    && (forall j :: 0 <= j < i && j < |ids| ==> ids[j] in failing || !Overdue(s[ids[j]], now))
    && (forall sid :: 0 <= sid < |s| && sid !in ids ==> !Overdue(s[sid], now))
  }

  lemma BatchStarts(s: seq<Sessions.Suspension>, now: int, failing: set<nat>)
    ensures Progress(s, OverdueIds(s, now), 0, now, failing)
  {
    OverdueIdsListed(s, now);
  }

  lemma BatchAdvances(s: seq<Sessions.Suspension>, ids: seq<nat>, i: nat, now: int, failing: set<nat>)
    requires Progress(s, ids, i, now, failing) && i < |ids|
    ensures ids[i] < |s| && Overdue(s[ids[i]], now)
    ensures ids[i] in failing ==> Progress(s, ids, i + 1, now, failing)
    ensures ids[i] !in failing ==>
              Progress(s[ids[i] := s[ids[i]].(revokedAt := Some(now))], ids, i + 1, now, failing)
  {}

  lemma BatchEnds(s: seq<Sessions.Suspension>, ids: seq<nat>, now: int, failing: set<nat>)
    requires Progress(s, ids, |ids|, now, failing)
    ensures AllLifted(s, now, failing)
  {}

  /** The phones without a user. */
  function Missing(found: seq<Option<UserId>>): nat {
    if found == [] then 0 else Missing(found[..|found| - 1]) + if found[|found| - 1].None? then 1 else 0
  }

  /** The bootstrap steps for the configured phones; a phone without a user takes none. */
  function Promotions(found: seq<Option<UserId>>, now: int): seq<Timed> {
    if found == [] then []
    else
      var before := Promotions(found[..|found| - 1], now);
      match found[|found| - 1] case None => before case Some(u) => before + [At(now, Bootstrap(u))]
  }

  lemma NoSteps(db: Db)
    ensures RunFrom(db, []) == db
  {}

  lemma RunSnoc(db: Db, requests: seq<Timed>, t: Timed)
    ensures RunFrom(db, requests + [t]) == Step(RunFrom(db, requests), t)
  {
    hide Step;
    assert (requests + [t])[..|requests|] == requests;
  }

  class ModerationService {
    const cfg: Sessions.Config
    var users: seq<User>
    var messages: seq<Message>
    var reports: map<ReportId, Report>
    var nextReport: nat
    var auth: Sessions.Auth
    var audit: seq<AuditRow>
    ghost var silent: multiset<MessageId>
    ghost var redundant: multiset<MessageId>
    ghost var byDelete: set<MessageId>

    ghost function View(): Db
      reads this
    {
      Db(cfg, users, messages, reports, nextReport, auth, audit, silent, redundant, byDelete)
    }

    ghost predicate Valid()
      reads this
    {
      Lawful(View())
    }

    constructor (cfg: Sessions.Config, start: int)
      ensures Valid() && View() == Init(cfg, start)
    {
      this.cfg := cfg;
      users, messages, reports, nextReport := [], [], map[], 0;
      auth, audit := Sessions.Auth(map[], [], 0, start, map[], []), [];
      silent, redundant, byDelete := multiset{}, multiset{}, {};
    }

    /** `AuditLogService.write`. */
    method Write(actor: Option<UserId>, action: Action)
      modifies `audit
      ensures audit == old(audit) + [AuditRow(actor, action)]
    {
      audit := audit + [AuditRow(actor, action)];
    }

    method TombstoneMessage(now: int, actor: UserId, role: Role, m: MessageId, trigger: Option<ReportId>) returns (r: Reply)
      requires Valid() && auth.clock <= now
      modifies this
      ensures Valid()
      ensures View() == Step(old(View()), At(now, Request.TombstoneMessage(actor, role, m, trigger)))
      ensures r == Decide(old(View()), now, Request.TombstoneMessage(actor, role, m, trigger)).1
      ensures r == Ok ==> IsDeleted(messages, m) && forall i :: i in reports && reports[i].message == m ==> reports[i].status == Closed
    {
      hide Lawful, CommitSuspend, CommitDelete, CloseReports, OnMessage, SetReviewer, Unresolved;
      StepKeepsLawful(View(), At(now, Request.TombstoneMessage(actor, role, m, trigger)));
      if Decide(View(), now, Request.TombstoneMessage(actor, role, m, trigger)).1 == Ok {
        TombstoneMeans(View(), now, Request.TombstoneMessage(actor, role, m, trigger));
      }
      auth := auth.(clock := now);
      if role != Moderator && role != Admin {
        return Forbidden;
      }
      if m >= |messages| {
        return NotFound;
      }
      if messages[m].deleted {
        return Conflict;
      }
      if trigger.Some? && trigger.value !in reports {
        return Failed;
      }
      CommitTombstone(m, trigger, actor);
      r := Ok;
    }

    /** The transaction of `tombstoneMessage`. */
    method CommitTombstone(m: MessageId, trigger: Option<ReportId>, actor: UserId)
      requires m < |messages| && (trigger.Some? ==> trigger.value in reports)
      modifies this
      ensures trigger.Some? ==> trigger.value in CloseReports(old(reports), OnMessage(old(reports), m), AutoClosedTombstoned, actor)
      ensures View() == old(View()).(
                          messages := old(messages)[m := old(messages)[m].(deleted := true)],
                          reports := SetReviewer(CloseReports(old(reports), OnMessage(old(reports), m), AutoClosedTombstoned, actor), trigger, actor),
                          audit := old(audit) + [AuditRow(Some(actor), MessageTombstone(m))])
    {
      hide Lawful, CloseReports, OnMessage, SetReviewer;
      messages := messages[m := messages[m].(deleted := true)];
      CascadeCloseReports(m, trigger, actor);
      CascadeIsExact(old(reports), reports, m, trigger, actor);
      Write(Some(actor), MessageTombstone(m));
    }

    /** Closes the unresolved reports on the message; a given report also gets its reviewer. Reports
        that were closed keep their resolution, and all other reports are untouched. */
    method CascadeCloseReports(m: MessageId, trigger: Option<ReportId>, actor: UserId)
      requires trigger.Some? ==> trigger.value in reports
      modifies `reports
      ensures reports.Keys == old(reports).Keys
      ensures forall i :: i in reports && reports[i].message == m ==> reports[i].status == Closed
      ensures forall i :: i in reports && old(reports)[i].message == m && Unresolved(old(reports)[i]) ==>
                            reports[i] == old(reports)[i].(status := Closed, resolution := Some(AutoClosedTombstoned), reviewer := Some(actor))
      ensures forall i :: i in reports && !(old(reports)[i].message == m && Unresolved(old(reports)[i])) ==>
                            reports[i] == if trigger == Some(i) then old(reports)[i].(reviewer := Some(actor)) else old(reports)[i]
    {
      reports := CloseReports(reports, OnMessage(reports, m), AutoClosedTombstoned, actor);
      if trigger.Some? {
        reports := reports[trigger.value := reports[trigger.value].(reviewer := Some(actor))];
      }
    }

    /** The contract of `CascadeCloseReports` leaves no freedom. */
    static lemma CascadeIsExact(was: map<ReportId, Report>, reports: map<ReportId, Report>, m: MessageId, trigger: Option<ReportId>, actor: UserId)
      requires trigger.Some? ==> trigger.value in was
      requires reports.Keys == was.Keys
      requires forall i :: i in reports && was[i].message == m && Unresolved(was[i]) ==>
                             reports[i] == was[i].(status := Closed, resolution := Some(AutoClosedTombstoned), reviewer := Some(actor))
      requires forall i :: i in reports && !(was[i].message == m && Unresolved(was[i])) ==>
                             reports[i] == if trigger == Some(i) then was[i].(reviewer := Some(actor)) else was[i]
      ensures trigger.Some? ==> trigger.value in CloseReports(was, OnMessage(was, m), AutoClosedTombstoned, actor)
      ensures reports == SetReviewer(CloseReports(was, OnMessage(was, m), AutoClosedTombstoned, actor), trigger, actor)
    {}

    method UntombstoneMessage(now: int, actor: UserId, role: Role, m: MessageId) returns (r: Reply)
      requires Valid() && auth.clock <= now
      modifies this
      ensures Valid()
      ensures View() == Step(old(View()), At(now, Request.UntombstoneMessage(actor, role, m)))
      ensures r == Decide(old(View()), now, Request.UntombstoneMessage(actor, role, m)).1
      ensures r == Ok <==> role == Admin && IsDeleted(old(messages), m)
      ensures r == Ok ==> !IsDeleted(messages, m)
    {
      hide Lawful;
      StepKeepsLawful(View(), At(now, Request.UntombstoneMessage(actor, role, m)));
      auth := auth.(clock := now);
      if role != Admin {
        return Forbidden;
      }
      if m >= |messages| {
        return NotFound;
      }
      if !messages[m].deleted {
        return BadRequest;
      }
      messages := messages[m := messages[m].(deleted := false)];
      Write(Some(actor), MessageUntombstone(m));
      byDelete := byDelete - {m};
      r := Ok;
    }

    /** `MessagesService.delete` for everyone. `permitted` is the outcome of its device, access and
        age checks, `groupAdmin` whether the caller administers the message's group. */
    method DeleteMessage(now: int, user: UserId, m: MessageId, permitted: bool, groupAdmin: bool) returns (r: Reply)
      requires Valid() && auth.clock <= now
      modifies this
      ensures Valid()
      ensures View() == Step(old(View()), At(now, Request.DeleteMessage(user, m, permitted, groupAdmin)))
      ensures r == Decide(old(View()), now, Request.DeleteMessage(user, m, permitted, groupAdmin)).1
      ensures r == Ok ==> IsDeleted(messages, m) && (audit == old(audit) <==> messages[m].sender == user)
      ensures reports == old(reports)
    {
      hide Lawful, CommitSuspend, CommitDelete;
      StepKeepsLawful(View(), At(now, Request.DeleteMessage(user, m, permitted, groupAdmin)));
      auth := auth.(clock := now);
      if m >= |messages| {
        return NotFound;
      }
      if !permitted || (messages[m].sender != user && !groupAdmin) {
        return Forbidden;
      }
      CommitDeletion(user, m);
      r := Ok;
    }

    method CommitDeletion(user: UserId, m: MessageId)
      requires m < |messages|
      modifies this
      ensures View() == CommitDelete(old(View()), user, m)
      ensures reports == old(reports) && IsDeleted(messages, m) && messages[m].sender == old(messages)[m].sender
      ensures audit == old(audit) <==> messages[m].sender == user
    {
      hide Lawful;
      ghost var was := messages[m].deleted;
      messages := messages[m := messages[m].(deleted := true)];
      if messages[m].sender != user {
        Write(Some(user), MessageTombstone(m));
        redundant := if was then redundant + multiset{m} else redundant;
      } else {
        silent := if was then silent else silent + multiset{m};
      }
      byDelete := if was then byDelete else byDelete + {m};
    }

    method SuspendUser(now: int, actor: UserId, role: Role, target: UserId, expiresAt: Option<int>, trigger: Option<ReportId>)
      returns (r: Reply)
      requires Valid() && auth.clock <= now
      modifies this
      ensures Valid()
      ensures View() == Step(old(View()), At(now, Request.SuspendUser(actor, role, target, expiresAt, trigger)))
      ensures r == Decide(old(View()), now, Request.SuspendUser(actor, role, target, expiresAt, trigger)).1
      ensures r == Ok ==>
                && target < |old(users)|
                && users == old(users)[target := User(Suspended, old(users)[target].role, old(users)[target].strikes + 1)]
                && auth.suspensions == old(auth.suspensions) + [Sessions.Suspension(target, expiresAt, None)]
                && (forall h :: h in auth.tokens && auth.tokens[h].user == target ==> auth.tokens[h].revokedAt.Some?)
                && (forall m :: 0 <= m < |messages| && messages[m].sender == target ==> messages[m].deleted)
                && (forall i :: OnMessageOf(View(), i, target) && Unresolved(reports[i]) ==> IsDeleted(old(messages), reports[i].message))
    {
      hide Lawful, CommitSuspend, CommitDelete, OnMessageOf, IsDeleted, Unresolved;
      StepKeepsLawful(View(), At(now, Request.SuspendUser(actor, role, target, expiresAt, trigger)));
      if Decide(View(), now, Request.SuspendUser(actor, role, target, expiresAt, trigger)).1 == Ok {
        SuspensionMeans(View(), now, Request.SuspendUser(actor, role, target, expiresAt, trigger));
      }
      auth := auth.(clock := now);
      if role != Admin {
        return Forbidden;
      }
      if target == actor {
        return BadRequest;
      }
      if target >= |users| {
        return NotFound;
      }
      if users[target].role == Admin {
        return Forbidden;
      }
      if users[target].status == Suspended {
        return Conflict;
      }
      if expiresAt.Some? && expiresAt.value <= now {
        return BadRequest;
      }
      CommitSuspension(now, actor, target, expiresAt, trigger);
      r := Ok;
    }

    /** The transaction of `suspendUser`, with its cascade over the user's messages. */
    method CommitSuspension(now: int, actor: UserId, u: UserId, expiresAt: Option<int>, trigger: Option<ReportId>)
      requires u < |users|
      modifies this
      ensures View() == CommitSuspend(old(View()), now, actor, u, expiresAt, trigger)
    {
      hide Sessions.Revoke, Sessions.DoImpose, Lawful, CloseReports, TombstoneAll, TombstoneRows, OnLiveFrom;
      var sid := |auth.suspensions|;
      auth := Sessions.DoImpose(auth, now, u, expiresAt);
      users := users[u := users[u].(status := Suspended, strikes := users[u].strikes + 1)];
      var live := TombstoneMessagesOf(u, actor);
      AffectedReports(reports, old(messages), u, live);
      CloseReportsOf(live, trigger, actor);
      Write(Some(actor), UserSuspend(u, sid));
    }

    /** Closes the unresolved reports on the tombstoned messages, then the report that led here. */
    method CloseReportsOf(live: set<MessageId>, trigger: Option<ReportId>, actor: UserId)
      modifies `reports
      ensures reports == CloseReports(CloseReports(old(reports), OnAnyOf(old(reports), live), AutoClosedSuspended, actor),
                                      Chosen(trigger), AutoClosedSuspended, actor)
    {
      hide CloseReports;
      reports := CloseReports(reports, OnAnyOf(reports, live), AutoClosedSuspended, actor);
      CloseChosen(reports, trigger, actor);
      if trigger.Some? && trigger.value in reports && reports[trigger.value].status != Closed {
        reports := reports[trigger.value := reports[trigger.value].(status := Closed,
                     resolution := Some(AutoClosedSuspended), reviewer := Some(actor))];
      }
    }

    static function OnAnyOf(reports: map<ReportId, Report>, live: set<MessageId>): set<ReportId> {
      set i | i in reports && reports[i].message in live
    }

    static lemma AffectedReports(reports: map<ReportId, Report>, messages: seq<Message>, u: UserId, live: set<MessageId>)
      requires forall m: MessageId :: m in live <==> LiveFrom(messages, m, u)
      ensures OnAnyOf(reports, live) == OnLiveFrom(reports, messages, u)
    {}

    static lemma CloseChosen(reports: map<ReportId, Report>, trigger: Option<ReportId>, actor: UserId)
      ensures CloseReports(reports, Chosen(trigger), AutoClosedSuspended, actor)
           == if trigger.Some? && trigger.value in reports && Unresolved(reports[trigger.value])
              then reports[trigger.value := reports[trigger.value].(status := Closed,
                     resolution := Some(AutoClosedSuspended), reviewer := Some(actor))]
              else reports
    {}

    /** The loop over the sender's live messages: tombstone each and write its audit row. */
    method TombstoneMessagesOf(u: UserId, actor: UserId) returns (live: set<MessageId>)
      modifies `messages, `audit
      ensures messages == TombstoneAll(old(messages), u)
      ensures audit == old(audit) + TombstoneRows(old(messages), u, actor)
      ensures forall m: MessageId :: m in live <==> LiveFrom(old(messages), m, u)
    {
      live := {};
      var was := messages;
      for i := 0 to |was|
        invariant |messages| == |was|
        invariant forall m :: 0 <= m < i ==>
                                messages[m] == was[m].(deleted := was[m].deleted || was[m].sender == u)
        invariant forall m :: i <= m < |was| ==> messages[m] == was[m]
        invariant audit == old(audit) + TombstoneRows(was[..i], u, actor)
        invariant forall m: MessageId :: m in live <==> m < i && LiveFrom(was, m, u)
      {
        assert was[..i + 1][..i] == was[..i];
        if was[i].sender == u && !was[i].deleted {
          live := live + {i};
          messages := messages[i := messages[i].(deleted := true)];
          Write(Some(actor), MessageTombstone(i));
        }
      }
      assert was[..|was|] == was;
      assert messages == TombstoneAll(was, u);
    }

    method UnsuspendUser(now: int, actor: UserId, role: Role, target: UserId) returns (r: Reply)
      requires Valid() && auth.clock <= now
      modifies this
      ensures Valid()
      ensures View() == Step(old(View()), At(now, Request.UnsuspendUser(actor, role, target)))
      ensures r == Decide(old(View()), now, Request.UnsuspendUser(actor, role, target)).1
      ensures r == Ok <==> role == Admin && target < |old(users)| && old(users[target].status) == Suspended
    {
      hide Lawful, ActiveSuspension;
      StepKeepsLawful(View(), At(now, Request.UnsuspendUser(actor, role, target)));
      auth := auth.(clock := now);
      if role != Admin {
        return Forbidden;
      }
      if target >= |users| {
        return NotFound;
      }
      if users[target].status != Suspended {
        return BadRequest;
      }
      HasActiveSuspension(old(View()), target);
      var sid := FindActive(target);
      if sid < 0 {
        return BadRequest;
      }
      auth := Sessions.DoLift(auth, now, sid);
      users := users[target := users[target].(status := Active)];
      Write(Some(actor), UserUnsuspend(target, sid));
      r := Ok;
    }

    method FindActive(target: UserId) returns (sid: int)
      ensures sid == ActiveSuspension(auth.suspensions, target)
    {
      hide ActiveSuspension;
      sid := |auth.suspensions| - 1;
      OlderSuspension(auth.suspensions, sid, target);
      while sid >= 0 && !(auth.suspensions[sid].user == target && auth.suspensions[sid].revokedAt.None?)
        invariant -1 <= sid < |auth.suspensions|
        invariant ActiveSuspension(auth.suspensions, target) == ActiveSuspension(auth.suspensions[..sid + 1], target)
      {
        OlderSuspension(auth.suspensions, sid, target);
        sid := sid - 1;
      }
      OlderSuspension(auth.suspensions, sid, target);
    }

    static lemma OlderSuspension(s: seq<Sessions.Suspension>, sid: int, u: UserId)
      requires -1 <= sid < |s|
      ensures sid == -1 ==> ActiveSuspension(s[..sid + 1], u) == -1
      ensures sid >= 0 && s[sid].user == u && s[sid].revokedAt.None? ==> ActiveSuspension(s[..sid + 1], u) == sid
      ensures sid >= 0 && !(s[sid].user == u && s[sid].revokedAt.None?) ==>
                ActiveSuspension(s[..sid + 1], u) == ActiveSuspension(s[..sid], u)
      ensures ActiveSuspension(s[..|s|], u) == ActiveSuspension(s, u)
    {
      assert s[..|s|] == s;
      if sid >= 0 {
        assert s[..sid + 1][..sid] == s[..sid];
      }
    }

    /** A suspended user always has an active suspension, so `No active suspension found` is dead. */
    static lemma HasActiveSuspension(db: Db, u: UserId)
      requires Lawful(db) && u < |db.users| && db.users[u].status == Suspended
      ensures ActiveSuspension(db.auth.suspensions, u) >= 0
    {
      assert SuspensionsMatch(db, u);
      assert Unrevoked(db.auth.suspensions, u) != {};
      var i :| i in Unrevoked(db.auth.suspensions, u);
      assert db.auth.suspensions[i].user == u && db.auth.suspensions[i].revokedAt.None?;
    }

    method ResetStrikes(now: int, actor: UserId, role: Role, target: UserId) returns (r: Reply)
      requires Valid() && auth.clock <= now
      modifies this
      ensures Valid()
      ensures View() == Step(old(View()), At(now, Request.ResetStrikes(actor, role, target)))
      ensures r == Decide(old(View()), now, Request.ResetStrikes(actor, role, target)).1
      ensures r == Ok <==> role == Admin && target < |users| && old(users[target].strikes) > 0
      ensures r == Ok ==> users == old(users)[target := old(users[target]).(strikes := 0)]
    {
      hide Lawful;
      StepKeepsLawful(View(), At(now, Request.ResetStrikes(actor, role, target)));
      auth := auth.(clock := now);
      if role != Admin {
        return Forbidden;
      }
      if target >= |users| {
        return NotFound;
      }
      if users[target].strikes == 0 {
        return BadRequest;
      }
      var previous := users[target].strikes;
      users := users[target := users[target].(strikes := 0)];
      Write(Some(actor), StrikeReset(target, previous));
      r := Ok;
    }

    method ChangeUserRole(now: int, actor: UserId, role: Role, target: UserId, to: Role) returns (r: Reply)
      requires Valid() && auth.clock <= now
      modifies this
      ensures Valid()
      ensures View() == Step(old(View()), At(now, Request.ChangeUserRole(actor, role, target, to)))
      ensures r == Decide(old(View()), now, Request.ChangeUserRole(actor, role, target, to)).1
      ensures r == Ok <==> role == Admin && target < |users| && (old(users[target].status) == Suspended ==> to == PlainUser)
      ensures r == Ok ==> users == old(users)[target := old(users[target]).(role := to)]
      ensures r == Ok ==> !SuspendedAdmin(View(), target)
    {
      hide Lawful;
      StepKeepsLawful(View(), At(now, Request.ChangeUserRole(actor, role, target, to)));
      auth := auth.(clock := now);
      if role != Admin {
        return Forbidden;
      }
      if target >= |users| {
        return NotFound;
      }
      if users[target].status == Suspended && to != PlainUser {
        return BadRequest;
      }
      var from := users[target].role;
      users := users[target := users[target].(role := to)];
      Write(Some(actor), if Rank(to) > Rank(from) then RolePromote(target, from, to) else RoleDemote(target, from, to));
      r := Ok;
    }

    /** `ReportsService.create` after its lookups: `visible` is the participant or member check,
        `admitted` the two rate limits. */
    method FileReport(now: int, reporter: UserId, m: MessageId, visible: bool, admitted: bool) returns (r: Reply)
      requires Valid() && auth.clock <= now
      modifies this
      ensures Valid()
      ensures View() == Step(old(View()), At(now, Request.FileReport(reporter, m, visible, admitted)))
      ensures r == Decide(old(View()), now, Request.FileReport(reporter, m, visible, admitted)).1
      ensures OneReportEach(reports) && (r == Ok ==> Filed(reports, reporter, m))
      ensures Filed(old(reports), reporter, m) ==> reports == old(reports)
    {
      hide Lawful, OneReportEach;
      LawfulReports(View(), At(now, Request.FileReport(reporter, m, visible, admitted)));
      StepKeepsLawful(View(), At(now, Request.FileReport(reporter, m, visible, admitted)));
      auth := auth.(clock := now);
      if reporter >= |users| {
        return NotFound;
      }
      if users[reporter].status == Suspended {
        return Forbidden;
      }
      if m >= |messages| {
        return NotFound;
      }
      if messages[m].deleted || messages[m].sender == reporter {
        return BadRequest;
      }
      if !visible {
        return Forbidden;
      }
      if !admitted {
        return Conflict;
      }
      var twins := set i | i in reports && reports[i].reporter == reporter && reports[i].message == m;
      assert twins != {} <==> Filed(reports, reporter, m) by {
        if Filed(reports, reporter, m) {
          var i :| i in reports && reports[i].reporter == reporter && reports[i].message == m;
          assert i in twins;
        }
      }
      if twins == {} {
        reports := reports[nextReport := Report(reporter, m, Open, None, None, now)];
        assert reports[nextReport].reporter == reporter;
        nextReport := nextReport + 1;
      }
      r := Ok;
    }

    static lemma LawfulReports(db: Db, t: Timed)
      requires Lawful(db) && db.auth.clock <= t.now
      ensures OneReportEach(Step(db, t).reports)
    {
      hide Step;
      StepKeepsLawful(db, t);
    }

    method MarkInReview(now: int, actor: UserId, report: ReportId) returns (r: Reply)
      requires Valid() && auth.clock <= now
      modifies this
      ensures Valid()
      ensures View() == Step(old(View()), At(now, Request.MarkInReview(actor, report)))
      ensures r == Decide(old(View()), now, Request.MarkInReview(actor, report)).1
      ensures r == Ok <==> report in reports && Unresolved(old(reports)[report])
      ensures r == Ok ==> reports[report].status == InReview
      ensures audit == old(audit) <==> !(r == Ok && old(reports)[report].status == Open)
    {
      hide Lawful;
      StepKeepsLawful(View(), At(now, Request.MarkInReview(actor, report)));
      auth := auth.(clock := now);
      if report !in reports {
        return NotFound;
      }
      if reports[report].status == Closed {
        return BadRequest;
      }
      if reports[report].status == InReview {
        return Ok;
      }
      reports := reports[report := reports[report].(status := InReview, reviewer := Some(actor))];
      Write(Some(actor), ReviewStart(report));
      r := Ok;
    }

    method DismissReport(now: int, actor: UserId, report: ReportId) returns (r: Reply)
      requires Valid() && auth.clock <= now
      modifies this
      ensures Valid()
      ensures View() == Step(old(View()), At(now, Request.DismissReport(actor, report)))
      ensures r == Decide(old(View()), now, Request.DismissReport(actor, report)).1
      ensures r == Ok <==> report in reports && Unresolved(old(reports)[report])
      ensures r == Ok ==> reports[report].status == Closed && reports[report].resolution == Some(Dismissed)
    {
      hide Lawful;
      StepKeepsLawful(View(), At(now, Request.DismissReport(actor, report)));
      auth := auth.(clock := now);
      if report !in reports {
        return NotFound;
      }
      if reports[report].status == Closed {
        return BadRequest;
      }
      reports := reports[report := reports[report].(status := Closed, resolution := Some(Dismissed), reviewer := Some(actor))];
      Write(Some(actor), ReportDismiss(report));
      r := Ok;
    }

    /** The transaction of `reactivateOne`. */
    method Reactivate(now: int, sid: nat)
      requires Valid() && auth.clock <= now
      requires sid < |auth.suspensions| && Overdue(auth.suspensions[sid], now)
      modifies this
      ensures Valid() && auth.clock == now
      ensures View() == Step(old(View()), At(now, ReactivateOne(sid)))
      ensures auth.suspensions == old(auth.suspensions)[sid := old(auth.suspensions[sid]).(revokedAt := Some(now))]
    {
      hide Lawful;
      StepKeepsLawful(View(), At(now, ReactivateOne(sid)));
      SuspendedUserExists(View(), sid);
      var u := auth.suspensions[sid].user;
      auth := Sessions.DoLift(auth.(clock := now), now, sid);
      users := users[u := users[u].(status := Active)];
      Write(None, UserUnsuspend(u, sid));
    }

    static lemma SuspendedUserExists(db: Db, sid: nat)
      requires Lawful(db) && sid < |db.auth.suspensions|
      ensures db.auth.suspensions[sid].user < |db.users|
    {
      assert SuspensionsMatch(db, 0);
    }

    /** The reactivation job. Rows in `failing` throw and are skipped; all other overdue suspensions
        are lifted, one step each, and nothing else happens. */
    method ReactivateExpired(now: int, failing: set<nat>) returns (reactivated: nat)
      requires Valid() && auth.clock <= now
      modifies this
      ensures Valid()
      ensures View() == RunFrom(old(View()), Reactivations(OverdueIds(old(auth.suspensions), now), now, failing))
      ensures reactivated == |Reactivations(OverdueIds(old(auth.suspensions), now), now, failing)|
      ensures AllLifted(auth.suspensions, now, failing)
    {
      hide Lawful, Step, OverdueIds, RunFrom, Progress, Overdue;
      ghost var before := View();
      NoSteps(before);
      var ids := FindOverdue(now);
      BatchStarts(auth.suspensions, now, failing);
      reactivated := 0;
      for i := 0 to |ids|
        invariant Valid() && auth.clock <= now && |auth.suspensions| == |old(auth.suspensions)|
        invariant View() == RunFrom(before, Reactivations(ids[..i], now, failing))
        invariant reactivated == |Reactivations(ids[..i], now, failing)|
        invariant Progress(auth.suspensions, ids, i, now, failing)
      {
        assert ids[..i + 1][..i] == ids[..i];
        BatchAdvances(auth.suspensions, ids, i, now, failing);
        if ids[i] !in failing {
          RunSnoc(before, Reactivations(ids[..i], now, failing), At(now, ReactivateOne(ids[i])));
          Reactivate(now, ids[i]);
          reactivated := reactivated + 1;
        }
      }
      assert ids[..|ids|] == ids;
      BatchEnds(auth.suspensions, ids, now, failing);
    }

    method FindOverdue(now: int) returns (ids: seq<nat>)
      ensures ids == OverdueIds(auth.suspensions, now)
    {
      ids := [];
      for i := 0 to |auth.suspensions|
        invariant ids == OverdueIds(auth.suspensions[..i], now)
      {
        assert auth.suspensions[..i + 1][..i] == auth.suspensions[..i];
        var s := auth.suspensions[i];
        if s.revokedAt.None? && s.expiresAt.Some? && s.expiresAt.value < now {
          ids := ids + [i];
        }
      }
      assert auth.suspensions[..|auth.suspensions|] == auth.suspensions;
    }

    /** The admin bootstrap over the configured phones; `found[i]` is the user with the i-th hash. */
    method BootstrapAdmins(now: int, found: seq<Option<UserId>>) returns (promoted: nat, alreadyAdmin: nat, missing: nat)
      requires Valid() && auth.clock <= now
      requires forall i :: 0 <= i < |found| && found[i].Some? ==> found[i].value < |users|
      modifies this
      ensures Valid()
      ensures View() == RunFrom(old(View()), Promotions(found, now))
      ensures promoted + alreadyAdmin + missing == |found|
      ensures promoted == |audit| - |old(audit)| && missing == Missing(found)
      ensures forall i :: 0 <= i < |found| && found[i].Some? ==>
                            found[i].value < |users| && users[found[i].value].role == Admin
    {
      hide Lawful, Step, RunFrom;
      ghost var before := View();
      NoSteps(before);
      promoted, alreadyAdmin, missing := 0, 0, 0;
      for i := 0 to |found|
        invariant Valid() && auth.clock <= now && |users| == |old(users)|
        invariant View() == RunFrom(before, Promotions(found[..i], now))
        invariant promoted + alreadyAdmin + missing == i && missing == Missing(found[..i])
        invariant promoted == |audit| - |old(audit)|
        invariant forall j :: 0 <= j < i && found[j].Some? ==> users[found[j].value].role == Admin
      {
        assert found[..i + 1][..i] == found[..i];
        if found[i].None? {
          missing := missing + 1;
        } else {
          RunSnoc(before, Promotions(found[..i], now), At(now, Bootstrap(found[i].value)));
          var did := Promote(now, found[i].value);
          if did {
            promoted := promoted + 1;
          } else {
            alreadyAdmin := alreadyAdmin + 1;
          }
        }
      }
      assert found[..|found|] == found;
    }

    method Promote(now: int, u: UserId) returns (did: bool)
      requires Valid() && auth.clock <= now && u < |users|
      modifies this
      ensures Valid() && auth.clock == now
      ensures View() == Step(old(View()), At(now, Bootstrap(u)))
      ensures users == old(users)[u := old(users)[u].(role := Admin)]
      ensures did <==> old(users)[u].role != Admin
      ensures audit == if did then old(audit) + [AuditRow(None, RolePromote(u, old(users)[u].role, Admin))] else old(audit)
    {
      hide Lawful;
      StepKeepsLawful(View(), At(now, Bootstrap(u)));
      auth := auth.(clock := now);
      did := users[u].role != Admin;
      if did {
        var from := users[u].role;
        users := users[u := users[u].(role := Admin)];
        Write(None, RolePromote(u, from, Admin));
      }
    }

    /** The prune job: tokens and old reports go, audit rows never do. */
    method PruneRows(now: int, cutoff: int)
      requires Valid() && auth.clock <= now
      modifies this
      ensures Valid() && audit == old(audit)
      ensures View() == Step(old(View()), At(now, Prune(cutoff)))
    {
      hide Lawful;
      StepKeepsLawful(View(), At(now, Prune(cutoff)));
      auth := Sessions.DoPrune(auth.(clock := now), now);
      reports := map r | r in reports && reports[r].createdAt >= cutoff :: reports[r];
      assert reports == Step(old(View()), At(now, Prune(cutoff))).reports;
    }
  }
}
