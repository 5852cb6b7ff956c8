/**
 What each call and job of the message core answers, and what it does to every table.
 */
module MessageCalls {
  import opened Prelude
  import opened Text
  import opened Messaging
  import opened MessageLaws
  import opened EnvelopeLaws

  ghost predicate KeyUsed(messages: seq<Message>, device: DeviceId, key: string) {
    exists i :: 0 <= i < |messages| && messages[i].device == device && messages[i].key == key
  }

  ghost predicate IsActive(devices: seq<Device>, d: DeviceId, u: UserId) {
    d < |devices| && devices[d].user == u && devices[d].active
  }

  ghost predicate Joins(t: Thread, u: UserId, v: UserId) {
    (t.a == u && t.b == v) || (t.a == v && t.b == u)
  }

  // ----- direct sends -----

  lemma FindThreadJoins(db: Db, u: UserId, v: UserId)
    requires ThreadsMatch(db.messages, db.threads) && u != v
    ensures var p := CanonicalPair(u, v);
            var k := FindThread(db.threads, p.0, p.1);
            && (k >= 0 ==> Joins(db.threads[k], u, v))
            && (forall t :: 0 <= t < |db.threads| && Joins(db.threads[t], u, v) ==> t == k)
  {
    hide Count, FindThread;
    var p := CanonicalPair(u, v);
    forall t | 0 <= t < |db.threads| && Joins(db.threads[t], u, v) ensures db.threads[t].a == p.0 && db.threads[t].b == p.1 {
      CanonicalPairIsUnordered(u, v, db.threads[t].a, db.threads[t].b);
    }
  }

  /** The conversation may be replied to in: the target exists, lies in this thread, and is no reply. */
  ghost predicate MayReplyDirect(db: Db, q: Request)
    requires q.Send?
  {
    q.replyTo.Some? ==>
      && q.replyTo.value < |db.messages| && db.messages[q.replyTo.value].replyTo == None
      && db.messages[q.replyTo.value].conv.Direct?
      && db.messages[q.replyTo.value].conv.thread < |db.threads|
      && Joins(db.threads[db.messages[q.replyTo.value].conv.thread], q.user, q.recipient)
  }

  /** Every active device of the recipient is addressed. */
  ghost predicate Complete(db: Db, q: Request)
    requires q.Send?
  {
    forall d :: IsActive(db.devices, d, q.recipient) ==> exists i :: 0 <= i < |q.envelopes| && q.envelopes[i].device == d
  }

  /** Only active devices of the recipient and other active devices of the sender are addressed. */
  ghost predicate OnlyParties(db: Db, q: Request)
    requires q.Send?
  {
    forall i :: 0 <= i < |q.envelopes| ==>
                  IsActive(db.devices, q.envelopes[i].device, q.recipient)
                  || (IsActive(db.devices, q.envelopes[i].device, q.user) && q.envelopes[i].device != q.device)
  }

  ghost predicate Reachable(db: Db, u: UserId) {
    exists d :: IsActive(db.devices, d, u)
  }

  /** A direct send under a key already used returns a message with that key. Otherwise it creates one
      exactly if the sending device is an active one of the sender, the recipient is somebody else, all
      their active devices, of which there are some, are addressed, nobody else's device is, no device
      twice, and reply target and attachments are fit; and each failure has its error. */
  lemma SendAnswers(db: Db, q: Request)
    requires q.Send? && ThreadsMatch(db.messages, db.threads)
    ensures var r, es := Decide(db, q).1, q.envelopes;
            && (r.Existing? <==> KeyUsed(db.messages, q.device, q.key))
            && (r.Existing? ==> r.id < |db.messages| && db.messages[r.id].device == q.device && db.messages[r.id].key == q.key)
            && (!r.Existing? ==>
                  r == if !IsActive(db.devices, q.device, q.user) then Forbidden
                       else if q.user == q.recipient then BadRequest
                       else if !Reachable(db, q.recipient) then NotFound
                       else if !Complete(db, q) || !OnlyParties(db, q) then BadRequest
                       else if q.replyTo.Some? && q.replyTo.value >= |db.messages| then NotFound
                       else if !MayReplyDirect(db, q) || !q.mediaOk then BadRequest
                       else if exists i, j :: 0 <= i < j < |es| && es[i].device == es[j].device then Failed
                       else Created(|db.messages|))
  {
    hide FindKey, ThreadsMatch, BumpThread, FindThread, CanonicalPair, Joins, Complete, Reachable, Covers, HasActiveDevice;
    if q.user != q.recipient {
      ReplyMeans(db, q);
    }
    SendGuards(db, q);
    assert AllAllowed(db.devices, q.user, q.recipient, q.device, q.envelopes) <==> OnlyParties(db, q);
  }

  lemma ReplyMeans(db: Db, q: Request)
    requires q.Send? && ThreadsMatch(db.messages, db.threads) && q.user != q.recipient
    ensures CheckReply(db.messages, Direct(ThreadOf(db.threads, q.user, q.recipient)), q.replyTo) == ReplyOk <==> MayReplyDirect(db, q)
  {
    hide Count, FindThread, CanonicalPair;
    FindThreadJoins(db, q.user, q.recipient);
  }

  lemma SendGuards(db: Db, q: Request)
    requires q.Send?
    ensures Covers(db.devices, q.recipient, q.envelopes) <==> Complete(db, q)
    ensures HasActiveDevice(db.devices, q.recipient) <==> Reachable(db, q.recipient)
  {
    if HasActiveDevice(db.devices, q.recipient) {
      var d :| 0 <= d < |db.devices| && ActiveFor(db.devices, d, q.recipient);
      assert IsActive(db.devices, d, q.recipient);
    }
    if d :| IsActive(db.devices, d, q.recipient) {
      assert ActiveFor(db.devices, d, q.recipient);
    }
    if Covers(db.devices, q.recipient, q.envelopes) {
      forall d | IsActive(db.devices, d, q.recipient) ensures exists i :: 0 <= i < |q.envelopes| && q.envelopes[i].device == d {
        assert ActiveFor(db.devices, d, q.recipient);
        assert Addressed(q.envelopes, d);
      }
    }
    if Complete(db, q) {
      forall d | 0 <= d < |db.devices| && ActiveFor(db.devices, d, q.recipient) ensures Addressed(q.envelopes, d) {
        assert IsActive(db.devices, d, q.recipient);
      }
    }
  }

  /** Whatever is not created changes nothing. */
  lemma RefusedSendChangesNothing(db: Db, q: Request)
    requires q.Send? && !Decide(db, q).1.Created?
    ensures Step(db, q) == db
  {
    hide FindKey, CheckReply, ThreadOf, BumpThread;
    DecideIsAllowed(db, q);
  }

  /** The rows that a created direct message adds: one message in the thread of the two users, under
      the next number of that thread, and one PENDING envelope of version 1 per addressed device, with
      the ciphertext meant for it, addressed to the device's owner. */
  lemma SendChanges(db: Db, q: Request)
    requires q.Send? && Decide(db, q).1.Created? && ThreadsMatch(db.messages, db.threads)
    ensures var d, es := Step(db, q), q.envelopes;
            && |d.messages| == |db.messages| + 1 && d.messages[|db.messages|].conv.Direct?
            && var t := d.messages[|db.messages|].conv.thread;
            && t < |d.threads| && Joins(d.threads[t], q.user, q.recipient)
            && d.messages == db.messages + [Message(Direct(t), q.user, q.device, q.key, d.threads[t].latest, q.replyTo, q.forwarded)]
            && d.threads == (if t < |db.threads| then db.threads[t := Thread(db.threads[t].a, db.threads[t].b, db.threads[t].latest + 1)]
                             else db.threads + [Thread(d.threads[t].a, d.threads[t].b, 1)])
            && d.recalc == db.recalc + {(q.recipient, Direct(t))}
            && d == db.(messages := d.messages, threads := d.threads, recalc := d.recalc, envelopes := d.envelopes,
                        nextSequence := db.nextSequence + |es|)
  {
    hide FindKey, CheckReply, FindThread, CanonicalPair, ThreadsMatch, Covers, AllAllowed, HasActiveDevice;
    DecideIsAllowed(db, q);
    assert q.user != q.recipient;
    FindThreadJoins(db, q.user, q.recipient);
    PairJoins(q.user, q.recipient);
  }

  lemma PairJoins(u: UserId, v: UserId)
    ensures var p := CanonicalPair(u, v); forall n :: Joins(Thread(p.0, p.1, n), u, v)
  {}

  lemma SendEnvelopes(db: Db, q: Request)
    requires q.Send? && Decide(db, q).1.Created?
    ensures var d, es := Step(db, q), q.envelopes;
            && |d.envelopes| == |db.envelopes| + |es| && d.envelopes[..|db.envelopes|] == db.envelopes
            && (forall i :: 0 <= i < |es| ==>
                  es[i].device < |db.devices| &&
                  d.envelopes[|db.envelopes| + i] == Envelope(|db.messages|, es[i].device, db.devices[es[i].device].user,
                                                              db.nextSequence + i, Pending, 1, es[i].cipher))
  {
    hide FindKey, CheckReply, ThreadOf, BumpThread, Covers, HasActiveDevice, NoTwins, DirectEnvelopes;
    DecideIsAllowed(db, q);
    var d, es := Step(db, q), q.envelopes;
    var rows := DirectEnvelopes(db.devices, |db.messages|, q.user, q.recipient, es, db.nextSequence);
    assert d.envelopes == db.envelopes + rows;
    forall i | 0 <= i < |es|
      ensures es[i].device < |db.devices|
      ensures rows[i] == Envelope(|db.messages|, es[i].device, db.devices[es[i].device].user, db.nextSequence + i, Pending, 1, es[i].cipher)
    {
      assert MayAddress(db.devices, q.user, q.recipient, q.device, es[i].device);
    }
    assert forall i :: 0 <= i < |es| ==> d.envelopes[|db.envelopes| + i] == rows[i];
  }

  // ----- group sends -----

  lemma {:induction false} LastNumberIsGreatest(messages: seq<Message>, c: Conv)
    ensures forall i :: 0 <= i < |messages| && messages[i].conv == c ==> messages[i].number <= LastNumber(messages, c)
    ensures LastNumber(messages, c) == 0 || exists i :: 0 <= i < |messages| && messages[i].conv == c && messages[i].number == LastNumber(messages, c)
  {
    if messages != [] {
      var n := |messages| - 1;
      LastNumberIsGreatest(messages[..n], c);
      assert forall i :: 0 <= i < n ==> messages[..n][i] == messages[i];
    }
  }

  /** One more than the greatest number of the conversation, or 1. */
  ghost predicate NextNumber(messages: seq<Message>, c: Conv, n: nat) {
    && n >= 1
    && (forall i :: 0 <= i < |messages| && messages[i].conv == c ==> messages[i].number < n)
    && (n == 1 || exists i :: 0 <= i < |messages| && messages[i].conv == c && messages[i].number == n - 1)
  }

  lemma LastIsNext(messages: seq<Message>, c: Conv)
    ensures NextNumber(messages, c, LastNumber(messages, c) + 1)
  {
    LastNumberIsGreatest(messages, c);
  }

  /** A group send begins only for members. A key already used is answered with its message; otherwise
      reply target and attachments are checked, and the next number of the group is read. */
  lemma BeginMeans(db: Db, q: Request)
    requires q.GroupBegin?
    ensures var (d, r) := (Step(db, q), Decide(db, q).1);
            var t := q.replyTo;
            && (r == Forbidden <==> (q.group, q.user) !in db.members)
            && (r.Existing? <==> (q.group, q.user) in db.members && KeyUsed(db.messages, q.device, q.key))
            && (r.Existing? ==> r.id < |db.messages| && db.messages[r.id].device == q.device && db.messages[r.id].key == q.key)
            && (r.Opened? <==>
                && (q.group, q.user) in db.members && !KeyUsed(db.messages, q.device, q.key) && q.mediaOk
                && (t.Some? ==> t.value < |db.messages| && db.messages[t.value].conv == Group(q.group) && db.messages[t.value].replyTo == None))
            && (r == NotFound <==>
                (q.group, q.user) in db.members && !KeyUsed(db.messages, q.device, q.key) && t.Some? && t.value >= |db.messages|)
            && (r.Forbidden? || r.Existing? || r.Opened? || r.NotFound? || r.BadRequest?)
            && (!r.Opened? ==> d == db)
            && (r.Opened? ==>
                  && r == Opened(|db.tickets|) && |d.tickets| == |db.tickets| + 1
                  && var n := d.tickets[|db.tickets|].draft.number;
                  && NextNumber(db.messages, Group(q.group), n)
                  && d == db.(tickets := db.tickets + [Ticket(Message(Group(q.group), q.user, q.device, q.key, n, q.replyTo, q.forwarded), true)]))
  {
    hide FindKey, LastNumber, NextNumber;
    DecideIsAllowed(db, q);
    LastIsNext(db.messages, Group(q.group));
  }

  /** A commit inserts the draft exactly if neither its key nor its number is taken by then; either way
      the ticket is used up. */
  lemma CommitMeans(db: Db, t: nat)
    ensures var (d, r) := (Step(db, GroupCommit(t)), Decide(db, GroupCommit(t)).1);
            if t >= |db.tickets| || !db.tickets[t].open then r == NotFound && d == db
            else
              var m := db.tickets[t].draft;
              var used := db.tickets[t := Ticket(m, false)];
              if m.device >= |db.devices| || KeyUsed(db.messages, m.device, m.key)
                 || exists i :: 0 <= i < |db.messages| && db.messages[i].conv == m.conv && db.messages[i].number == m.number
              then r == Failed && d == db.(tickets := used)
              else r == Created(|db.messages|) && d == db.(tickets := used, messages := db.messages + [m])
  {
    hide FindKey;
    DecideIsAllowed(db, GroupCommit(t));
  }

  // ----- forwards -----

  /** A target of a forward that is created is one message marked as forwarded, without a reply target,
      to that user or group. */
  lemma ForwardMeans(db: Db, user: UserId, device: DeviceId, key: string, target: ForwardTarget)
    requires LogInv(db.messages, db.threads, db.tickets) && ForwardOne(db, user, device, key, target).1.Created?
    ensures var (d, r) := ForwardOne(db, user, device, key, target);
            && r.id == |db.messages| && |d.messages| == |db.messages| + 1 && d.messages[..|db.messages|] == db.messages
            && var m := d.messages[|db.messages|];
            && m.sender == user && m.device == device && m.key == key && m.replyTo == None && m.forwarded
            && match target {
              case ToUser(recipient, _) => m.conv.Direct? && m.conv.thread < |d.threads| && Joins(d.threads[m.conv.thread], user, recipient)
              case ToGroup(g) => m.conv == Group(g)
            }
  {
    hide Decide, Step, Numbered, ThreadsMatch, TicketsMatch, UniqueKeys, FlatReplies, Joins, KeyUsed, NextNumber;
    match target
    case ToUser(recipient, envelopes) =>
      SendChanges(db, Send(user, recipient, device, key, envelopes, None, true, true));
      SendAnswers(db, Send(user, recipient, device, key, envelopes, None, true, true));
    case ToGroup(g) =>
      var q := GroupBegin(user, g, device, key, None, true, true);
      BeginMeans(db, q);
      if Decide(db, q).1.Opened? {
        CommitMeans(Step(db, q), Decide(db, q).1.ticket);
      }
  }

  /** A target goes through the same guards and writes as a send of its own, under the given key. */
  lemma ForwardOneIsASend(db: Db, user: UserId, device: DeviceId, key: string, target: ForwardTarget)
    ensures var (d, r) := ForwardOne(db, user, device, key, target);
            match target
            case ToUser(recipient, envelopes) =>
              var q := Send(user, recipient, device, key, envelopes, None, true, true);
              if envelopes == [] then d == db && r == BadRequest else d == Step(db, q) && r == Decide(db, q).1
            case ToGroup(g) =>
              var q := GroupBegin(user, g, device, key, None, true, true);
              match Decide(db, q).1 {
                case Opened(t) => d == Step(Step(db, q), GroupCommit(t)) && r == Decide(Step(db, q), GroupCommit(t)).1
                case other => d == Step(db, q) && r == other
              }
  {
    hide Decide, Step;
  }

  /** Target i is sent under the key `key:i` after the targets before it, whether those succeeded or
      not, and its answer stands at place i. */
  lemma {:induction false} ForwardEach(db: Db, user: UserId, device: DeviceId, key: string, targets: seq<ForwardTarget>, i: nat)
    requires i < |targets|
    ensures var sofar := ForwardAll(db, user, device, key, targets[..i]).0;
            var one := ForwardOne(sofar, user, device, key + ":" + Decimal(i), targets[i]);
            && |ForwardAll(db, user, device, key, targets).1| == |targets|
            && ForwardAll(db, user, device, key, targets).1[i] == one.1
            && ForwardAll(db, user, device, key, targets[..i + 1]).0 == one.0
  {
    hide ForwardOne, Decimal;
    ForwardReplies(db, user, device, key, targets);
    var n := |targets| - 1;
    ForwardReplies(db, user, device, key, targets[..n]);
    if i < n {
      ForwardEach(db, user, device, key, targets[..n], i);
      assert targets[..n][..i] == targets[..i] && targets[..n][..i + 1] == targets[..i + 1] && targets[..n][i] == targets[i];
    } else {
      assert targets[..i + 1] == targets;
    }
  }

  // ----- jobs -----

  /** An active device of a member of the group, other than `except`. */
  ghost predicate IsTarget(db: Db, g: GroupId, except: DeviceId, d: DeviceId) {
    d < |db.devices| && db.devices[d].active && (g, db.devices[d].user) in db.members && d != except
  }

  lemma TargetsMean(db: Db, g: GroupId, except: DeviceId)
    ensures forall d :: IsTarget(db, g, except, d) <==> d in Targets(db.devices, db.members, g, except)
    ensures Sorted(Targets(db.devices, db.members, g, except))
  {
    hide Targets;
    TargetsAreTheOtherMembersDevices(db.devices, db.members, g, except);
  }

  ghost predicate HasEnvelopeFor(envelopes: seq<Envelope>, m: MessageId, d: DeviceId) {
    exists k :: 0 <= k < |envelopes| && envelopes[k].msg == m && envelopes[k].device == d
  }

  /** A fresh envelope of the message for a target that has none. */
  ghost predicate FreshRow(existing: seq<Envelope>, devices: seq<Device>, m: MessageId, targets: seq<DeviceId>,
                           cipher: Cipher, low: nat, high: nat, e: Envelope) {
    && e.device in targets && e.device < |devices| && low <= e.sequence < high && !HasEnvelopeFor(existing, m, e.device)
    && e == Envelope(m, e.device, devices[e.device].user, e.sequence, Pending, 1, cipher)
  }

  lemma {:induction false} SpreadRowsHold(existing: seq<Envelope>, devices: seq<Device>, m: MessageId,
                                          targets: seq<DeviceId>, cipher: Cipher, next: nat)
    ensures forall e :: e in SpreadRows(existing, devices, m, targets, cipher, next) ==>
                          FreshRow(existing, devices, m, targets, cipher, next, next + |targets|, e)
  {
    hide FindEnvelope, HasEnvelopeFor;
    if targets != [] {
      var n := |targets| - 1;
      var rest := SpreadRows(existing, devices, m, targets[..n], cipher, next);
      SpreadRowsHold(existing, devices, m, targets[..n], cipher, next);
      NoRowNoEnvelope(existing, m, targets[n]);
      forall e | e in rest ensures FreshRow(existing, devices, m, targets, cipher, next, next + |targets|, e) {
        assert FreshRow(existing, devices, m, targets[..n], cipher, next, next + n, e);
      }
    }
  }

  lemma NoRowNoEnvelope(envelopes: seq<Envelope>, m: MessageId, d: DeviceId)
    ensures FindEnvelope(envelopes, m, d) < 0 ==> !HasEnvelopeFor(envelopes, m, d)
  {
    hide FindEnvelope;
  }

  /** A fan-out adds, for every target without an envelope, a PENDING one of version 1 with the given
      ciphertext, addressed to the device's owner, and none for anybody else; and it queues the counters
      of all targets' owners but the sender. */
  lemma FanoutMeans(db: Db, m: MessageId, cipher: Cipher)
    ensures Decide(db, Fanout(m, cipher)).1 == if m < |db.messages| && db.messages[m].conv.Group? then Done else NotFound
    ensures var d := Step(db, Fanout(m, cipher));
            if m < |db.messages| && db.messages[m].conv.Group? then
              var msg := db.messages[m];
              && |db.envelopes| <= |d.envelopes| && d.envelopes[..|db.envelopes|] == db.envelopes
              && (forall k :: |db.envelopes| <= k < |d.envelopes| ==>
                    var e := d.envelopes[k];
                    && IsTarget(db, msg.conv.group, msg.device, e.device) && !HasEnvelopeFor(db.envelopes, m, e.device)
                    && e == Envelope(m, e.device, db.devices[e.device].user, e.sequence, Pending, 1, cipher)
                    && db.nextSequence <= e.sequence < d.nextSequence)
              && (forall dev :: IsTarget(db, msg.conv.group, msg.device, dev) ==> HasEnvelopeFor(d.envelopes, m, dev))
              && (forall key :: key in d.recalc <==>
                    key in db.recalc || (exists dev: DeviceId :: IsTarget(db, msg.conv.group, msg.device, dev)
                                                       && db.devices[dev].user != msg.sender && key == (db.devices[dev].user, msg.conv)))
              && d == db.(envelopes := d.envelopes, nextSequence := d.nextSequence, recalc := d.recalc)
            else d == db
  {
    hide Targets, SpreadRows, FindEnvelope, HasEnvelopeFor;
    DecideIsAllowed(db, Fanout(m, cipher));
    if m < |db.messages| && db.messages[m].conv.Group? {
      var msg := db.messages[m];
      var targets := Targets(db.devices, db.members, msg.conv.group, msg.device);
      TargetsMean(db, msg.conv.group, msg.device);
      SpreadRowsHold(db.envelopes, db.devices, m, targets, cipher, db.nextSequence);
      FanoutIsRepeatable(db, m, cipher, cipher);
      var d := Step(db, Fanout(m, cipher));
      var rows := SpreadRows(db.envelopes, db.devices, m, targets, cipher, db.nextSequence);
      assert d.envelopes == db.envelopes + rows;
      forall k | |db.envelopes| <= k < |d.envelopes|
        ensures FreshRow(db.envelopes, db.devices, m, targets, cipher, db.nextSequence, db.nextSequence + |targets|, d.envelopes[k])
      {
        assert d.envelopes[k] == rows[k - |db.envelopes|];
        assert rows[k - |db.envelopes|] in rows;
      }
      AffectedMeans(db, targets, msg.sender, msg.conv);
      forall dev | IsTarget(db, msg.conv.group, msg.device, dev) ensures HasEnvelopeFor(d.envelopes, m, dev) {
        var i :| 0 <= i < |targets| && targets[i] == dev;
        RowIsThere(d.envelopes, m, targets[i]);
      }
    }
  }

  lemma AffectedMeans(db: Db, targets: seq<DeviceId>, sender: UserId, c: Conv)
    ensures forall key :: key in Affected(db.devices, targets, sender, c) <==>
              exists dev: DeviceId :: dev in targets && dev < |db.devices| && db.devices[dev].user != sender && key == (db.devices[dev].user, c)
  {}

  lemma RowIsThere(envelopes: seq<Envelope>, m: MessageId, d: DeviceId)
    requires HasRow(envelopes, m, d)
    ensures HasEnvelopeFor(envelopes, m, d)
  {
    hide FindEnvelope;
    var k := FindEnvelope(envelopes, m, d);
    assert envelopes[k].msg == m;
  }

  /** An edit fan-out gives the message's envelopes at target devices the new ciphertext and the next
      version, and touches no other envelope. */
  lemma EditMeans(db: Db, m: MessageId, from: DeviceId, cipher: Cipher)
    ensures Decide(db, EditFanout(m, from, cipher)).1 == if m < |db.messages| && db.messages[m].conv.Group? then Done else NotFound
    ensures var d := Step(db, EditFanout(m, from, cipher));
            && |d.envelopes| == |db.envelopes| && d == db.(envelopes := d.envelopes)
            && (forall k :: 0 <= k < |db.envelopes| ==>
                  var e := db.envelopes[k];
                  d.envelopes[k] == if m < |db.messages| && db.messages[m].conv.Group? && e.msg == m
                                       && IsTarget(db, db.messages[m].conv.group, from, e.device)
                                    then Envelope(e.msg, e.device, e.user, e.sequence, e.status, e.version + 1, cipher) else e)
  {
    hide Targets;
    DecideIsAllowed(db, EditFanout(m, from, cipher));
    if m < |db.messages| && db.messages[m].conv.Group? {
      TargetsMean(db, db.messages[m].conv.group, from);
    }
  }

  // ----- reading -----

  /** The row afterwards: READ if `hit`, otherwise as it was. */
  function MarkedIf(e: Envelope, hit: bool): Envelope {
    if hit then Envelope(e.msg, e.device, e.user, e.sequence, Read, e.version, e.cipher) else e
  }

  /** An ack needs an active device of the user that has an envelope of the message addressed to them.
      READ marks exactly the user's envelopes of that message and queues one counter; DELIVERED changes
      exactly the status of that one envelope. */
  lemma AckMeans(db: Db, q: Request)
    requires q.Ack? && NoTwinRows(db.envelopes)
    ensures var (d, r) := (Step(db, q), Decide(db, q).1);
            var found := q.msg < |db.messages|
                         && exists k :: 0 <= k < |db.envelopes| && db.envelopes[k].msg == q.msg && db.envelopes[k].device == q.device
                                        && db.envelopes[k].user == q.user;
            && (r == if !IsActive(db.devices, q.device, q.user) then Forbidden else if !found then NotFound else Done)
            && (r != Done ==> d == db)
            && (r == Done ==>
                  && q.msg < |db.messages| && |d.envelopes| == |db.envelopes|
                  && (forall k :: 0 <= k < |db.envelopes| ==>
                        var e := db.envelopes[k];
                        d.envelopes[k] ==
                        if q.read then MarkedIf(e, e.user == q.user && e.msg == q.msg)
                        else if e.msg == q.msg && e.device == q.device
                        then Envelope(e.msg, e.device, e.user, e.sequence, Delivered, e.version, e.cipher) else e)
                  && d.recalc == (if q.read then db.recalc + {(q.user, db.messages[q.msg].conv)} else db.recalc)
                  && d == db.(envelopes := d.envelopes, recalc := d.recalc))
  {
    hide FindEnvelope;
    DecideIsAllowed(db, q);
  }

  /** Marking a conversation read marks exactly the user's envelopes in it and sets exactly its counter
      to zero. */
  lemma MarkAllMeans(db: Db, q: Request)
    requires q.MarkAllRead?
    ensures var (d, r) := (Step(db, q), Decide(db, q).1);
            && (r == if IsActive(db.devices, q.device, q.user) then Done else Forbidden)
            && (r != Done ==> d == db)
            && (r == Done ==>
                  && |d.envelopes| == |db.envelopes|
                  && (forall k :: 0 <= k < |db.envelopes| ==>
                        var e := db.envelopes[k];
                        d.envelopes[k] == MarkedIf(e, e.user == q.user && e.msg < |db.messages| && db.messages[e.msg].conv == q.conv))
                  && d == db.(envelopes := d.envelopes, counters := db.counters[(q.user, q.conv) := 0]))
  {
    DecideIsAllowed(db, q);
  }

  /** The messages of the conversation from somebody else of which the user has an envelope not READ. */
  ghost function UnreadOf(db: Db, u: UserId, c: Conv): set<MessageId> {
    set m: MessageId | m < |db.messages| && db.messages[m].conv == c && db.messages[m].sender != u
                       && exists k :: 0 <= k < |db.envelopes| && db.envelopes[k].msg == m && db.envelopes[k].user == u
                                      && (db.envelopes[k].status == Pending || db.envelopes[k].status == Delivered)
  }

  lemma UnreadMeans(db: Db, u: UserId, c: Conv)
    ensures UnreadSet(db.messages, db.envelopes, (u, c)) == UnreadOf(db, u, c)
  {
    var s, s' := UnreadSet(db.messages, db.envelopes, (u, c)), UnreadOf(db, u, c);
    forall m | m in s ensures m in s' {
      var k :| 0 <= k < |db.envelopes| && Unread(db.messages, db.envelopes[k], (u, c)) && db.envelopes[k].msg == m;
      assert db.envelopes[k].status != Read;
    }
    forall m | m in s' ensures m in s {
      var k :| 0 <= k < |db.envelopes| && db.envelopes[k].msg == m && db.envelopes[k].user == u
               && (db.envelopes[k].status == Pending || db.envelopes[k].status == Delivered);
      assert Unread(db.messages, db.envelopes[k], (u, c));
    }
  }

  /** A queued recalculation sets exactly its counter, to the number of those messages, and leaves the
      queue. */
  lemma RecalcMeans(db: Db, u: UserId, c: Conv)
    ensures var q := Recalc((u, c));
            && (Decide(db, q).1 == if (u, c) in db.recalc then Done else NotFound)
            && Step(db, q) == if (u, c) in db.recalc
                              then db.(counters := db.counters[(u, c) := |UnreadOf(db, u, c)|], recalc := db.recalc - {(u, c)}) else db
  {
    hide UnreadSet, UnreadOf;
    DecideIsAllowed(db, Recalc((u, c)));
    UnreadMeans(db, u, c);
  }

  // ----- devices and members -----

  lemma DevicesMean(db: Db, q: Request)
    requires q.RegisterDevice? || q.DeactivateDevice? || q.SetMember?
    ensures var (d, r) := (Step(db, q), Decide(db, q).1);
            match q
            case RegisterDevice(u, known, underCap) =>
              if known.Some? && known.value < |db.devices| then
                if db.devices[known.value].user == u then r == Done && d == db.(devices := db.devices[known.value := Device(u, true)])
                else r == Forbidden && d == db
              else if underCap then r == Done && d == db.(devices := db.devices + [Device(u, true)])
              else r == Conflict && d == db
            case DeactivateDevice(u, dev) =>
              if dev >= |db.devices| then r == NotFound && d == db
              else if db.devices[dev].user == u then r == Done && d == db.(devices := db.devices[dev := Device(u, false)])
              else r == Forbidden && d == db
            case SetMember(g, u, present) =>
              r == Done && d == db.(members := if present then db.members + {(g, u)} else db.members - {(g, u)})
            case _ => true
  {
    DecideIsAllowed(db, q);
  }
}
