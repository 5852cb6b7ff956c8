/**
 Envelopes in every run: who may receive one, that fan-out jobs can be repeated, and that the edit
 job's chunked loop is one update.
 */
module EnvelopeLaws {
  import opened Messaging
  import opened MessageLaws

  /** An envelope is addressed to the owner of its device, never to the sending device. */
  ghost predicate WellAddressed(devices: seq<Device>, messages: seq<Message>, e: Envelope) {
    && e.msg < |messages| && e.device < |devices|
    && devices[e.device].user == e.user
    && messages[e.msg].device != e.device
  }

  /** All well addressed; one envelope per message and device; envelope sequences ascending. */
  ghost predicate EnvInv(db: Db) {
    && (forall k :: 0 <= k < |db.envelopes| ==> WellAddressed(db.devices, db.messages, db.envelopes[k]))
    && Ascending(db.envelopes, db.nextSequence)
    && NoTwinRows(db.envelopes)
  }

  ghost predicate Ascending(envelopes: seq<Envelope>, next: nat) {
    && (forall k :: 0 <= k < |envelopes| ==> 1 <= envelopes[k].sequence < next)
    && (forall i, j :: 0 <= i < j < |envelopes| ==> envelopes[i].sequence < envelopes[j].sequence)
    && next >= 1
  }

  ghost predicate NoTwinRows(envelopes: seq<Envelope>) {
    forall i, j :: 0 <= i < j < |envelopes| ==>
                     envelopes[i].msg != envelopes[j].msg || envelopes[i].device != envelopes[j].device
  }

  /** Same row up to status, version and ciphertext. */
  predicate SameRow(e: Envelope, e': Envelope) {
    e'.msg == e.msg && e'.device == e.device && e'.user == e.user && e'.sequence == e.sequence
  }

  lemma SameRowsKeepEnv(db: Db, d: Db)
    requires EnvInv(db) && d.devices == db.devices && d.messages == db.messages && d.nextSequence == db.nextSequence
    requires |d.envelopes| == |db.envelopes|
    requires forall k :: 0 <= k < |db.envelopes| ==> SameRow(db.envelopes[k], d.envelopes[k])
    ensures EnvInv(d)
  {}

  lemma TableGrowthKeepsEnv(db: Db, d: Db)
    requires EnvInv(db) && d.envelopes == db.envelopes && d.nextSequence == db.nextSequence
    requires |db.devices| <= |d.devices| && (forall i :: 0 <= i < |db.devices| ==> d.devices[i].user == db.devices[i].user)
    requires |db.messages| <= |d.messages| && (forall i :: 0 <= i < |db.messages| ==> d.messages[i] == db.messages[i])
    ensures EnvInv(d)
  {}

  /** New rows after the old ones, with greater sequences and fresh (message, device) pairs. */
  lemma AppendKeepsEnv(db: Db, d: Db, rows: seq<Envelope>)
    requires EnvInv(db) && d.envelopes == db.envelopes + rows && d.devices == db.devices
    requires |db.messages| <= |d.messages| && (forall i :: 0 <= i < |db.messages| ==> d.messages[i] == db.messages[i])
    requires db.nextSequence <= d.nextSequence
    requires forall i :: 0 <= i < |rows| ==>
                WellAddressed(d.devices, d.messages, rows[i]) && db.nextSequence <= rows[i].sequence < d.nextSequence
    requires forall i, j :: 0 <= i < j < |rows| ==> rows[i].sequence < rows[j].sequence
    requires NoTwinRows(rows)
    requires forall i, k :: 0 <= i < |rows| && 0 <= k < |db.envelopes| ==>
                db.envelopes[k].msg != rows[i].msg || db.envelopes[k].device != rows[i].device
    ensures EnvInv(d)
  {}

  lemma PostDirectKeepsEnv(db: Db, f: Effect)
    requires f.PostDirect? && Allowed(db, f) && EnvInv(db)
    ensures EnvInv(Apply(db, f))
  {
    hide Ascending, BumpThread, ThreadOf, FindKey, CheckReply, Covers, WellAddressed;
    var d := Apply(db, f);
    var rows := DirectEnvelopes(db.devices, |db.messages|, f.draft.sender, f.recipient, f.envelopes, db.nextSequence);
    forall i | 0 <= i < |rows|
      ensures WellAddressed(d.devices, d.messages, rows[i])
    {
      RowIsWellAddressed(db, d, f, i, rows[i]);
    }
    forall k | 0 <= k < |db.envelopes| ensures db.envelopes[k].msg < |db.messages| {
      RowsExist(db.devices, db.messages, db.envelopes[k]);
    }
    AppendKeepsEnv(db, d, rows);
  }

  lemma RowsExist(devices: seq<Device>, messages: seq<Message>, e: Envelope)
    requires WellAddressed(devices, messages, e)
    ensures e.msg < |messages| && e.device < |devices|
  {}

  lemma RowIsWellAddressed(db: Db, d: Db, f: Effect, i: nat, row: Envelope)
    requires f.PostDirect? && Allowed(db, f) && i < |f.envelopes|
    requires d.devices == db.devices && d.messages == db.messages + [f.draft]
    requires row.msg == |db.messages| && row.device == f.envelopes[i].device
    requires row.user == if ActiveFor(db.devices, row.device, f.recipient) then f.recipient else f.draft.sender
    ensures WellAddressed(d.devices, d.messages, row)
  {
    hide BumpThread, ThreadOf, FindKey, CheckReply, Covers, NoTwins;
    assert MayAddress(db.devices, f.draft.sender, f.recipient, f.draft.device, f.envelopes[i].device);
  }

  // ----- fan-out -----

  /** A device is a target exactly when it is active, its owner is a member, and it did not send. */
  lemma {:induction false} TargetsAreTheOtherMembersDevices(devices: seq<Device>, members: set<(GroupId, UserId)>, g: GroupId, except: DeviceId)
    ensures forall d :: d in Targets(devices, members, g, except) <==>
                          0 <= d < |devices| && devices[d].active && (g, devices[d].user) in members && d != except
    ensures Sorted(Targets(devices, members, g, except))
  {
    if devices != [] {
      TargetsAreTheOtherMembersDevices(devices[..|devices| - 1], members, g, except);
      var rest := Targets(devices[..|devices| - 1], members, g, except);
      forall i | 0 <= i < |rest| ensures rest[i] < |devices| - 1 {
        assert rest[i] in rest;
      }
    }
  }

  /** Rows only for targets without one, numbered upwards, with the device owner as recipient. */
  ghost predicate NewRows(existing: seq<Envelope>, devices: seq<Device>, m: MessageId, targets: seq<DeviceId>,
                          next: nat, rows: seq<Envelope>) {
    && (forall i :: 0 <= i < |rows| ==>
          && rows[i].msg == m && rows[i].device in targets && rows[i].device < |devices|
          && rows[i].user == devices[rows[i].device].user && rows[i].status == Pending
          && next <= rows[i].sequence < next + |targets|
          && !HasRow(existing, m, rows[i].device))
    && (forall i, j :: 0 <= i < j < |rows| ==>
          rows[i].sequence < rows[j].sequence && rows[i].device < rows[j].device)
  }

  ghost predicate Sorted(targets: seq<DeviceId>) {
    forall i, j :: 0 <= i < j < |targets| ==> targets[i] < targets[j]
  }

  lemma {:induction false} SpreadRowsAreNew(existing: seq<Envelope>, devices: seq<Device>, m: MessageId,
                                            targets: seq<DeviceId>, cipher: Cipher, next: nat)
    requires Sorted(targets)
    ensures NewRows(existing, devices, m, targets, next, SpreadRows(existing, devices, m, targets, cipher, next))
  {
    hide FindEnvelope;
    if targets != [] {
      var n := |targets| - 1;
      SpreadRowsAreNew(existing, devices, m, targets[..n], cipher, next);
      var rest := SpreadRows(existing, devices, m, targets[..n], cipher, next);
      forall i | 0 <= i < |rest| ensures rest[i].device in targets && rest[i].device < targets[n] {
        assert rest[i].device in targets[..n];
      }
    }
  }

  lemma SpreadKeepsEnv(db: Db, f: Effect)
    requires f.Spread? && Allowed(db, f) && EnvInv(db)
    ensures EnvInv(Apply(db, f))
  {
    hide Ascending, SpreadRows, FindEnvelope, Targets, Affected;
    var m := db.messages[f.msg];
    TargetsAreTheOtherMembersDevices(db.devices, db.members, m.conv.group, m.device);
    SpreadRowsAreNew(db.envelopes, db.devices, f.msg, f.targets, f.cipher, db.nextSequence);
    var rows := SpreadRows(db.envelopes, db.devices, f.msg, f.targets, f.cipher, db.nextSequence);
    forall i | 0 <= i < |rows| ensures WellAddressed(db.devices, db.messages, rows[i]) {
      assert rows[i].device in f.targets;
    }
    AppendKeepsEnv(db, Apply(db, f), rows);
  }

  lemma StatusKeepsEnv(db: Db, f: Effect)
    requires f.Rewrite? || f.ReadMessage? || f.Deliver? || f.ReadAll?
    requires Allowed(db, f) && EnvInv(db)
    ensures EnvInv(Apply(db, f))
  {
    hide EnvInv;
    SameRowsKeepEnv(db, Apply(db, f));
  }

  lemma ApplyKeepsEnv(db: Db, f: Effect)
    requires Allowed(db, f) && EnvInv(db)
    ensures EnvInv(Apply(db, f))
  {
    hide EnvInv, BumpThread, Targets, Covers, AllAllowed, NoTwins, CheckReply, FindKey, ThreadOf;
    if f.PostDirect? {
      PostDirectKeepsEnv(db, f);
    } else if f.Spread? {
      SpreadKeepsEnv(db, f);
    } else if f.Rewrite? || f.ReadMessage? || f.Deliver? || f.ReadAll? {
      StatusKeepsEnv(db, f);
    } else {
      TableGrowthKeepsEnv(db, Apply(db, f));
    }
  }

  lemma {:induction false} RunKeepsEnv(db: Db, requests: seq<Request>)
    requires EnvInv(db)
    ensures EnvInv(RunFrom(db, requests))
  {
    hide Decide, Apply, EnvInv;
    if requests != [] {
      var n := |requests| - 1;
      RunKeepsEnv(db, requests[..n]);
      var d := RunFrom(db, requests[..n]);
      DecideIsAllowed(d, requests[n]);
      ApplyKeepsEnv(d, Decide(d, requests[n]).0);
    }
  }

  /** In every reachable state each envelope's recipient owns its device, the sending device never
      receives one, and no message has two envelopes for one device. */
  lemma EnvelopesAreWellAddressed(requests: seq<Request>)
    ensures EnvInv(RunFrom(Init(), requests))
  {
    RunKeepsEnv(Init(), requests);
  }

  /** A direct message has an envelope, addressed to the recipient, for every device that was active
      for the recipient when it was sent. */
  lemma DirectMessageReachesEveryDevice(db: Db, q: Request, dev: DeviceId)
    requires q.Send? && Decide(db, q).1.Created? && ActiveFor(db.devices, dev, q.recipient)
    ensures var d := Step(db, q);
            exists k :: |db.envelopes| <= k < |d.envelopes| && d.envelopes[k].msg == Decide(db, q).1.id
                        && d.envelopes[k].device == dev && d.envelopes[k].user == q.recipient
  {
    hide BumpThread, ThreadOf, FindKey, CheckReply;
    DecideIsAllowed(db, q);
    assert Addressed(q.envelopes, dev);
    var i :| 0 <= i < |q.envelopes| && q.envelopes[i].device == dev;
    var d := Step(db, q);
    assert d.envelopes[|db.envelopes| + i].device == dev;
  }

  // ----- envelopes over a run -----

  /** Rows keep their place and identity; new rows come after all old ones. */
  ghost predicate Evolves(some: seq<Envelope>, more: seq<Envelope>) {
    && |some| <= |more|
    && forall k :: 0 <= k < |some| ==> SameRow(some[k], more[k])
  }

  lemma ApplyEvolves(db: Db, f: Effect)
    requires Allowed(db, f)
    ensures Evolves(db.envelopes, Apply(db, f).envelopes)
  {
    hide BumpThread, ThreadOf, FindKey, CheckReply, Targets, SpreadRows, LastNumber, UnreadSet;
  }

  lemma {:induction false} RunEvolves(db: Db, requests: seq<Request>)
    ensures Evolves(db.envelopes, RunFrom(db, requests).envelopes)
  {
    hide Decide, Apply;
    if requests != [] {
      var n := |requests| - 1;
      RunEvolves(db, requests[..n]);
      var d := RunFrom(db, requests[..n]);
      DecideIsAllowed(d, requests[n]);
      ApplyEvolves(d, Decide(d, requests[n]).0);
    }
  }

  lemma {:induction false} RunSplit(db: Db, requests: seq<Request>, n: nat)
    requires n <= |requests|
    ensures RunFrom(db, requests) == RunFrom(RunFrom(db, requests[..n]), requests[n..])
  {
    hide Step;
    if n == |requests| {
      assert requests[..n] == requests && requests[n..] == [];
    } else {
      var k := |requests| - 1;
      RunSplit(db, requests[..k], n);
      assert requests[..k][..n] == requests[..n] && requests[..k][n..] == requests[n..][..k - n];
      assert requests[n..][k - n] == requests[k];
    }
  }

  ghost predicate HasEnvelope(envelopes: seq<Envelope>, m: MessageId, dev: DeviceId, u: UserId) {
    exists k :: 0 <= k < |envelopes| && envelopes[k].msg == m && envelopes[k].device == dev && envelopes[k].user == u
  }

  /** Request i created the message, and each device that was then active for its recipient has an
      envelope of it at the end of the run. */
  ghost predicate SentAt(requests: seq<Request>, id: MessageId, i: nat)
    requires i < |requests|
  {
    var d, q := RunFrom(Init(), requests[..i]), requests[i];
    && q.Send? && Decide(d, q).1 == Created(id)
    && forall dev :: ActiveFor(d.devices, dev, q.recipient) ==>
                       HasEnvelope(RunFrom(Init(), requests).envelopes, id, dev, q.recipient)
  }

  /** In every run each direct message of the log was created by one of the requests, and has an
      envelope for every device that was active for the recipient at that moment. */
  lemma {:induction false} DirectMessagesReachEveryDevice(requests: seq<Request>, id: MessageId)
    requires id < |RunFrom(Init(), requests).messages| && RunFrom(Init(), requests).messages[id].conv.Direct?
    ensures exists i :: 0 <= i < |requests| && SentAt(requests, id, i)
  {
    hide Step, Decide, HasEnvelope, ActiveFor, LogInv;
    assert requests != [];
    var n := |requests| - 1;
    var before := requests[..n];
    var db := RunFrom(Init(), before);
    StepAppends(db, requests[n]);
    if id < |db.messages| {
      assert Step(db, requests[n]).messages[..|db.messages|][id] == db.messages[id];
      DirectMessagesReachEveryDevice(before, id);
      var i :| 0 <= i < n && SentAt(before, id, i);
      assert before[..i] == requests[..i];
      forall dev, u | HasEnvelope(db.envelopes, id, dev, u)
        ensures HasEnvelope(RunFrom(Init(), requests).envelopes, id, dev, u)
      {
        EnvelopeStays(db, requests[n], id, dev, u);
      }
      assert SentAt(requests, id, i);
    } else {
      InitLog();
      RunKeepsLog(Init(), before);
      OnlySendsAddDirect(db, requests[n], id);
      forall dev | ActiveFor(db.devices, dev, requests[n].recipient)
        ensures HasEnvelope(Step(db, requests[n]).envelopes, id, dev, requests[n].recipient)
      {
        DirectMessageReachesEveryDevice(db, requests[n], dev);
        FoundEnvelope(db, requests[n], id, dev);
      }
      assert SentAt(requests, id, n);
    }
  }

  lemma FoundEnvelope(db: Db, q: Request, id: MessageId, dev: DeviceId)
    requires q.Send?
    requires exists k :: |db.envelopes| <= k < |Step(db, q).envelopes| && Step(db, q).envelopes[k].msg == id
                         && Step(db, q).envelopes[k].device == dev && Step(db, q).envelopes[k].user == q.recipient
    ensures HasEnvelope(Step(db, q).envelopes, id, dev, q.recipient)
  {
    hide Step;
  }

  lemma EnvelopeStays(db: Db, q: Request, id: MessageId, dev: DeviceId, u: UserId)
    requires HasEnvelope(db.envelopes, id, dev, u)
    ensures HasEnvelope(Step(db, q).envelopes, id, dev, u)
  {
    hide Decide, Apply;
    DecideIsAllowed(db, q);
    ApplyEvolves(db, Decide(db, q).0);
    var k :| 0 <= k < |db.envelopes| && db.envelopes[k].msg == id && db.envelopes[k].device == dev && db.envelopes[k].user == u;
    assert SameRow(db.envelopes[k], Step(db, q).envelopes[k]);
  }

  lemma OnlySendsAddDirect(db: Db, q: Request, id: MessageId)
    requires LogInv(db.messages, db.threads, db.tickets)
    requires |db.messages| <= id < |Step(db, q).messages| && Step(db, q).messages[id].conv.Direct?
    ensures q.Send? && Decide(db, q).1 == Created(id)
  {
    hide FindKey, ThreadOf, BumpThread, CheckReply, Targets, LastNumber, Numbered, ThreadsMatch, UniqueKeys, FlatReplies, Count;
    DecideIsAllowed(db, q);
  }

  // ----- repeating a fan-out -----

  predicate HasRow(envelopes: seq<Envelope>, m: MessageId, d: DeviceId) {
    FindEnvelope(envelopes, m, d) >= 0
  }

  lemma {:induction false} SpreadCovers(existing: seq<Envelope>, devices: seq<Device>, m: MessageId,
                                        targets: seq<DeviceId>, cipher: Cipher, next: nat, i: nat)
    requires i < |targets| && targets[i] < |devices|
    ensures HasRow(existing + SpreadRows(existing, devices, m, targets, cipher, next), m, targets[i])
  {
    hide FindEnvelope;
    var n := |targets| - 1;
    var rest := SpreadRows(existing, devices, m, targets[..n], cipher, next);
    var all := SpreadRows(existing, devices, m, targets, cipher, next);
    if i < n {
      SpreadCovers(existing, devices, m, targets[..n], cipher, next, i);
      RowsStay(existing + rest, existing + all, m, targets[i]);
    } else {
      if FindEnvelope(existing, m, targets[n]) >= 0 {
        RowsStay(existing, existing + all, m, targets[n]);
      } else {
        assert (existing + all)[|existing + all| - 1].device == targets[n];
      }
    }
  }

  lemma RowsStay(some: seq<Envelope>, more: seq<Envelope>, m: MessageId, d: DeviceId)
    requires |some| <= |more| && (forall k :: 0 <= k < |some| ==> more[k] == some[k])
    requires HasRow(some, m, d)
    ensures HasRow(more, m, d)
  {
    hide FindEnvelope;
    var k := FindEnvelope(some, m, d);
    assert more[k].msg == m && more[k].device == d;
  }

  lemma {:induction false} NothingMissingNothingAdded(existing: seq<Envelope>, devices: seq<Device>, m: MessageId,
                                                      targets: seq<DeviceId>, cipher: Cipher, next: nat)
    requires forall i :: 0 <= i < |targets| ==> HasRow(existing, m, targets[i])
    ensures SpreadRows(existing, devices, m, targets, cipher, next) == []
  {
    hide FindEnvelope;
    if targets != [] {
      NothingMissingNothingAdded(existing, devices, m, targets[..|targets| - 1], cipher, next);
      assert HasRow(existing, m, targets[|targets| - 1]);
    }
  }

  /** A fan-out job keeps every envelope there is, gives every target device one, and adds rows only
      for targets that had none. Run again, it adds nothing at all, whatever its ciphertext. */
  lemma FanoutIsRepeatable(db: Db, m: MessageId, cipher: Cipher, again: Cipher)
    requires m < |db.messages| && db.messages[m].conv.Group?
    ensures var targets := Targets(db.devices, db.members, db.messages[m].conv.group, db.messages[m].device);
            var d := Step(db, Fanout(m, cipher));
            && |db.envelopes| <= |d.envelopes| && d.envelopes[..|db.envelopes|] == db.envelopes
            && (forall k :: |db.envelopes| <= k < |d.envelopes| ==>
                  d.envelopes[k].msg == m && d.envelopes[k].device in targets
                  && !HasRow(db.envelopes, m, d.envelopes[k].device))
            && (forall i :: 0 <= i < |targets| ==> HasRow(d.envelopes, m, targets[i]))
            && Step(d, Fanout(m, again)).envelopes == d.envelopes
  {
    hide SpreadRows, Targets, FindEnvelope, Affected;
    var msg := db.messages[m];
    var targets := Targets(db.devices, db.members, msg.conv.group, msg.device);
    var d := Step(db, Fanout(m, cipher));
    TargetsAreTheOtherMembersDevices(db.devices, db.members, msg.conv.group, msg.device);
    SpreadRowsAreNew(db.envelopes, db.devices, m, targets, cipher, db.nextSequence);
    forall i | 0 <= i < |targets| ensures HasRow(d.envelopes, m, targets[i]) {
      assert targets[i] in targets;
      SpreadCovers(db.envelopes, db.devices, m, targets, cipher, db.nextSequence, i);
    }
    NothingMissingNothingAdded(d.envelopes, d.devices, m, targets, again, d.nextSequence);
  }

  // ----- the edit job -----

  /** How many envelopes of the message go to the listed devices: what `updateMany` reports. */
  function Matching(envelopes: seq<Envelope>, m: MessageId, targets: seq<DeviceId>): nat {
    if envelopes == [] then 0
    else
      var e := envelopes[|envelopes| - 1];
      Matching(envelopes[..|envelopes| - 1], m, targets) + (if e.msg == m && e.device in targets then 1 else 0)
  }

  ghost predicate Apart(some: seq<DeviceId>, more: seq<DeviceId>) {
    forall d :: d in some ==> d !in more
  }

  /** Updating two lists of devices one after the other is updating both at once. */
  lemma RewriteInTwoParts(envelopes: seq<Envelope>, m: MessageId, some: seq<DeviceId>, more: seq<DeviceId>, cipher: Cipher)
    requires Apart(some, more)
    ensures RewriteRows(RewriteRows(envelopes, m, some, cipher), m, more, cipher)
         == RewriteRows(envelopes, m, some + more, cipher)
  {
    var once := RewriteRows(envelopes, m, some, cipher);
    var twice := RewriteRows(once, m, more, cipher);
    var both := RewriteRows(envelopes, m, some + more, cipher);
    forall k | 0 <= k < |envelopes| ensures twice[k] == both[k] {
      assert envelopes[k].device in some + more <==> envelopes[k].device in some || envelopes[k].device in more;
    }
  }

  lemma {:induction false} MatchingInTwoParts(envelopes: seq<Envelope>, m: MessageId, some: seq<DeviceId>, more: seq<DeviceId>)
    requires Apart(some, more)
    ensures Matching(envelopes, m, some) + Matching(envelopes, m, more) == Matching(envelopes, m, some + more)
  {
    if envelopes != [] {
      MatchingInTwoParts(envelopes[..|envelopes| - 1], m, some, more);
      var d := envelopes[|envelopes| - 1].device;
      assert d in some + more <==> d in some || d in more;
    }
  }

  /** An update never changes which rows match. */
  lemma {:induction false} MatchingAfterRewrite(envelopes: seq<Envelope>, m: MessageId, some: seq<DeviceId>, cipher: Cipher, more: seq<DeviceId>)
    ensures Matching(RewriteRows(envelopes, m, some, cipher), m, more) == Matching(envelopes, m, more)
  {
    if envelopes != [] {
      var n := |envelopes| - 1;
      MatchingAfterRewrite(envelopes[..n], m, some, cipher, more);
      assert RewriteRows(envelopes, m, some, cipher)[..n] == RewriteRows(envelopes[..n], m, some, cipher);
    }
  }

  lemma RewriteNothing(envelopes: seq<Envelope>, m: MessageId, cipher: Cipher)
    ensures RewriteRows(envelopes, m, [], cipher) == envelopes
  {}

  lemma {:induction false} MatchingNothing(envelopes: seq<Envelope>, m: MessageId)
    ensures Matching(envelopes, m, []) == 0
  {
    if envelopes != [] {
      MatchingNothing(envelopes[..|envelopes| - 1], m);
    }
  }

  /** The loop of the edit job: chunks of 100 devices, one `updateMany` each. It has exactly the
      effect and the count of a single update of all targets. */
  method RewriteInChunks(envelopes: seq<Envelope>, m: MessageId, targets: seq<DeviceId>, cipher: Cipher)
    returns (r: seq<Envelope>, updatedCount: nat)
    requires forall i, j :: 0 <= i < j < |targets| ==> targets[i] != targets[j]
    ensures r == RewriteRows(envelopes, m, targets, cipher)
    ensures updatedCount == Matching(envelopes, m, targets)
    ensures forall k :: 0 <= k < |envelopes| && envelopes[k].msg == m && envelopes[k].device in targets ==>
                          r[k].version == envelopes[k].version + 1 && r[k].cipher == cipher
  {
    hide Matching, RewriteRows;
    var chunkSize := 100;
    r, updatedCount := envelopes, 0;
    RewriteNothing(envelopes, m, cipher);
    MatchingNothing(envelopes, m);
    var i := 0;
    while i < |targets|
      invariant 0 <= i
      invariant i <= |targets| ==> r == RewriteRows(envelopes, m, targets[..i], cipher)
      invariant i <= |targets| ==> updatedCount == Matching(envelopes, m, targets[..i])
      invariant i > |targets| ==> r == RewriteRows(envelopes, m, targets, cipher) && updatedCount == Matching(envelopes, m, targets)
    {
      var end := if i + chunkSize < |targets| then i + chunkSize else |targets|;
      var chunk := targets[i..end];
      assert Apart(targets[..i], chunk);
      assert targets[..i] + chunk == targets[..end];
      RewriteInTwoParts(envelopes, m, targets[..i], chunk, cipher);
      MatchingInTwoParts(envelopes, m, targets[..i], chunk);
      MatchingAfterRewrite(envelopes, m, targets[..i], cipher, chunk);
      var result := UpdateMany(r, m, chunk, cipher);
      r, updatedCount := result.0, updatedCount + result.1;
      i := i + chunkSize;
      assert targets[..|targets|] == targets;
    }
    assert targets[..|targets|] == targets;
  }

  /** One `updateMany`: the new rows and how many were touched. */
  function UpdateMany(envelopes: seq<Envelope>, m: MessageId, chunk: seq<DeviceId>, cipher: Cipher): (seq<Envelope>, nat) {
    (RewriteRows(envelopes, m, chunk, cipher), Matching(envelopes, m, chunk))
  }
}
