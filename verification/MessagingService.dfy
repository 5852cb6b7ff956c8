/**
 The messaging services as they run, with their tables updated in place. Every method is proved to
 take exactly the step of the transition system its request stands for.
 */
module MessagingServices {
  import opened Prelude
  import opened Text
  import opened Messaging
  import opened MessageLaws
  import opened EnvelopeLaws
  import opened UnreadLaws

  ghost predicate Sound(db: Db) {
    LogInv(db.messages, db.threads, db.tickets) && EnvInv(db)
  }

  lemma StepKeepsSound(db: Db, q: Request)
    requires Sound(db)
    ensures Sound(Step(db, q))
  {
    hide LogInv, EnvInv, Decide, Apply;
    DecideIsAllowed(db, q);
    ApplyKeepsLog(db, Decide(db, q).0);
    ApplyKeepsEnv(db, Decide(db, q).0);
  }

  class MessagingService {
    var devices: seq<Device>
    var members: set<(GroupId, UserId)>
    var threads: seq<Thread>
    var messages: seq<Message>
    var envelopes: seq<Envelope>
    var nextSequence: nat
    var counters: map<CounterKey, nat>
    var recalc: set<CounterKey>
    var tickets: seq<Ticket>

    ghost function View(): Db
      reads this
    {
      Db(devices, members, threads, messages, envelopes, nextSequence, counters, recalc, tickets)
    }

    ghost predicate Valid()
      reads this
    {
      Sound(View())
    }

    constructor ()
      ensures Valid() && View() == Init()
    {
      devices, members, threads, messages := [], {}, [], [];
      envelopes, nextSequence, counters, recalc, tickets := [], 1, map[], {}, [];
    }

    // ----- the checks of a direct send -----

    method HasActive(user: UserId) returns (b: bool)
      ensures b == HasActiveDevice(devices, user)
    {
      b := false;
      for d := 0 to |devices|
        invariant b <==> exists i :: 0 <= i < d && ActiveFor(devices, i, user)
      {
        if devices[d].active && devices[d].user == user {
          assert ActiveFor(devices, d, user);
          b := true;
        }
      }
    }

    method IsAddressed(dtos: seq<EnvelopeDto>, d: DeviceId) returns (b: bool)
      ensures b == Addressed(dtos, d)
    {
      b := false;
      for i := 0 to |dtos|
        invariant b <==> exists j :: 0 <= j < i && dtos[j].device == d
      {
        if dtos[i].device == d {
          b := true;
        }
      }
    }

    /** `Missing envelope for active recipient device`. */
    method CoversAll(recipient: UserId, dtos: seq<EnvelopeDto>) returns (ok: bool)
      ensures ok == Covers(devices, recipient, dtos)
    {
      ok := true;
      for d := 0 to |devices|
        invariant ok <==> forall i :: 0 <= i < d && ActiveFor(devices, i, recipient) ==> Addressed(dtos, i)
      {
        if devices[d].active && devices[d].user == recipient {
          var there := IsAddressed(dtos, d);
          assert ActiveFor(devices, d, recipient);
          ok := ok && there;
        }
      }
    }

    /** `Envelope recipient device is not part of this direct message`. */
    method OnlyParticipants(sender: UserId, recipient: UserId, from: DeviceId, dtos: seq<EnvelopeDto>) returns (ok: bool)
      ensures ok == AllAllowed(devices, sender, recipient, from, dtos)
    {
      ok := true;
      for i := 0 to |dtos|
        invariant ok <==> forall j :: 0 <= j < i ==> MayAddress(devices, sender, recipient, from, dtos[j].device)
      {
        var d := dtos[i].device;
        var isRecipient := d < |devices| && devices[d].active && devices[d].user == recipient;
        var isSync := d < |devices| && devices[d].active && devices[d].user == sender && d != from;
        ok := ok && (isRecipient || isSync);
      }
    }

    /** `send`, and `forwardToDirect` when `forwarded`. */
    method SendDirect(user: UserId, recipient: UserId, device: DeviceId, key: string, dtos: seq<EnvelopeDto>,
                      replyTo: Option<MessageId>, mediaOk: bool, forwarded: bool) returns (r: Reply)
      requires Valid()
      modifies this
      ensures Valid()
      ensures View() == Step(old(View()), Send(user, recipient, device, key, dtos, replyTo, mediaOk, forwarded))
      ensures r == Decide(old(View()), Send(user, recipient, device, key, dtos, replyTo, mediaOk, forwarded)).1
    {
      hide Sound, FindKey, ThreadOf, BumpThread, CheckReply, Covers, AllAllowed, NoTwins, HasActiveDevice;
      StepKeepsSound(View(), Send(user, recipient, device, key, dtos, replyTo, mediaOk, forwarded));
      var existing := FindKey(messages, device, key);
      var hasDevice := HasActive(recipient);
      var covered := CoversAll(recipient, dtos);
      var allowed := OnlyParticipants(user, recipient, device, dtos);
      var thread := ThreadOf(threads, user, recipient);
      var check := CheckReply(messages, Direct(thread), replyTo);
      if existing >= 0 {
        return Existing(existing);
      }
      if !(device < |devices| && devices[device].active && devices[device].user == user) {
        return Forbidden;
      }
      if user == recipient {
        return BadRequest;
      }
      if !hasDevice {
        return NotFound;
      }
      if !covered || !allowed {
        return BadRequest;
      }
      if check == ReplyMissing {
        return NotFound;
      }
      if check != ReplyOk || !mediaOk {
        return BadRequest;
      }
      if !NoTwins(dtos) {
        return Failed;
      }
      ThreadFits(threads, user, recipient);
      InsertDirect(user, recipient, device, key, dtos, replyTo, forwarded);
      r := Created(|messages| - 1);
    }

    static lemma ThreadFits(threads: seq<Thread>, u: UserId, v: UserId)
      ensures ThreadOf(threads, u, v) < |BumpThread(threads, u, v)|
    {}

    /** The writes of the transaction: thread, message, envelopes, and the recalculation job. */
    method InsertDirect(user: UserId, recipient: UserId, device: DeviceId, key: string, dtos: seq<EnvelopeDto>,
                        replyTo: Option<MessageId>, forwarded: bool)
      requires ThreadOf(threads, user, recipient) < |BumpThread(threads, user, recipient)|
      modifies this
      ensures View() ==
              var t := ThreadOf(old(threads), user, recipient);
              var bumped := BumpThread(old(threads), user, recipient);
              old(View()).(threads := bumped,
                messages := old(messages) + [Message(Direct(t), user, device, key, bumped[t].latest, replyTo, forwarded)],
                envelopes := old(envelopes) + DirectEnvelopes(old(devices), |old(messages)|, user, recipient, dtos, old(nextSequence)),
                nextSequence := old(nextSequence) + |dtos|,
                recalc := old(recalc) + {(recipient, Direct(t))})
    {
      hide FindThread;
      var pair := CanonicalPair(user, recipient);
      var t := FindThread(threads, pair.0, pair.1);
      if t < 0 {
        t := |threads|;
        threads := threads + [Thread(pair.0, pair.1, 0)];
      }
      threads := threads[t := threads[t].(latest := threads[t].latest + 1)];
      assert threads == BumpThread(old(threads), user, recipient);
      var id := |messages|;
      messages := messages + [Message(Direct(t), user, device, key, threads[t].latest, replyTo, forwarded)];
      var rows := [];
      for i := 0 to |dtos|
        invariant |rows| == i
        invariant rows == DirectEnvelopes(devices, id, user, recipient, dtos, nextSequence)[..i]
      {
        var d := dtos[i].device;
        var isRecipient := d < |devices| && devices[d].active && devices[d].user == recipient;
        rows := rows + [Envelope(id, d, if isRecipient then recipient else user, nextSequence + i, Pending, 1, dtos[i].cipher)];
      }
      envelopes := envelopes + rows;
      nextSequence := nextSequence + |dtos|;
      recalc := recalc + {(recipient, Direct(t))};
    }

    /** `queueGroupMessage` or `forwardToGroup` up to and including the read of the last number. */
    method BeginGroupSend(user: UserId, group: GroupId, device: DeviceId, key: string, replyTo: Option<MessageId>,
                          mediaOk: bool, forwarded: bool) returns (r: Reply)
      requires Valid()
      modifies this
      ensures Valid()
      ensures View() == Step(old(View()), GroupBegin(user, group, device, key, replyTo, mediaOk, forwarded))
      ensures r == Decide(old(View()), GroupBegin(user, group, device, key, replyTo, mediaOk, forwarded)).1
    {
      hide Sound, FindKey, CheckReply, LastNumber;
      StepKeepsSound(View(), GroupBegin(user, group, device, key, replyTo, mediaOk, forwarded));
      if (group, user) !in members {
        return Forbidden;
      }
      var existing := FindKey(messages, device, key);
      if existing >= 0 {
        return Existing(existing);
      }
      var last := FindLastNumber(Group(group));
      var check := CheckReply(messages, Group(group), replyTo);
      if check == ReplyMissing {
        return NotFound;
      }
      if check != ReplyOk || !mediaOk {
        return BadRequest;
      }
      r := Opened(|tickets|);
      tickets := tickets + [Ticket(Message(Group(group), user, device, key, last + 1, replyTo, forwarded), true)];
    }

    /** `findFirst ... orderBy threadSequence desc`. */
    method FindLastNumber(c: Conv) returns (last: nat)
      ensures last == LastNumber(messages, c)
    {
      last := 0;
      for i := 0 to |messages|
        invariant last == LastNumber(messages[..i], c)
      {
        assert messages[..i + 1][..i] == messages[..i];
        if messages[i].conv == c && messages[i].number > last {
          last := messages[i].number;
        }
      }
      assert messages[..|messages|] == messages;
    }

    /** The insert of a group send, which the unique keys may refuse. */
    method CommitGroupSend(ticket: nat) returns (r: Reply)
      requires Valid()
      modifies this
      ensures Valid()
      ensures View() == Step(old(View()), GroupCommit(ticket))
      ensures r == Decide(old(View()), GroupCommit(ticket)).1
    {
      hide Sound, FindKey;
      StepKeepsSound(View(), GroupCommit(ticket));
      if ticket >= |tickets| || !tickets[ticket].open {
        return NotFound;
      }
      var draft := tickets[ticket].draft;
      tickets := tickets[ticket := tickets[ticket].(open := false)];
      var taken := false;
      for i := 0 to |messages|
        invariant taken <==> exists j :: 0 <= j < i && messages[j].conv == draft.conv && messages[j].number == draft.number
        invariant View() == old(View()).(tickets := old(tickets)[ticket := Ticket(draft, false)])
      {
        if messages[i].conv == draft.conv && messages[i].number == draft.number {
          taken := true;
        }
      }
      if draft.device >= |devices| || FindKey(messages, draft.device, draft.key) >= 0 || taken {
        return Failed;
      }
      messages := messages + [draft];
      r := Created(|messages| - 1);
    }

    /** The loop of `forward` over its targets. A target that fails leaves no trace and does not stop
        the others. */
    method Forward(user: UserId, device: DeviceId, key: string, targets: seq<ForwardTarget>) returns (results: seq<Reply>)
      requires Valid()
      modifies this
      ensures Valid()
      ensures (View(), results) == ForwardAll(old(View()), user, device, key, targets)
    {
      hide Sound, Step, Decide, DerivedKey, ForwardOne;
      results := [];
      for i := 0 to |targets|
        invariant Valid()
        invariant (View(), results) == ForwardAll(old(View()), user, device, key, targets[..i])
      {
        assert targets[..i + 1][..i] == targets[..i];
        var r := ForwardTo(user, device, DerivedKey(key, i), targets[i]);
        results := results + [r];
      }
      assert targets[..|targets|] == targets;
    }

    method ForwardTo(user: UserId, device: DeviceId, key: string, target: ForwardTarget) returns (r: Reply)
      requires Valid()
      modifies this
      ensures Valid()
      ensures (View(), r) == ForwardOne(old(View()), user, device, key, target)
    {
      hide Sound, Step, Decide;
      match target {
        case ToUser(recipient, dtos) =>
          if dtos == [] {
            return BadRequest;
          }
          r := SendDirect(user, recipient, device, key, dtos, None, true, true);
        case ToGroup(group) =>
          r := BeginGroupSend(user, group, device, key, None, true, true);
          if r.Opened? {
            r := CommitGroupSend(r.ticket);
          }
      }
    }

    // ----- the group jobs -----

    method FindTargets(group: GroupId, except: DeviceId) returns (targets: seq<DeviceId>)
      ensures targets == Targets(devices, members, group, except)
    {
      targets := [];
      for d := 0 to |devices|
        invariant targets == Targets(devices[..d], members, group, except)
      {
        assert devices[..d + 1][..d] == devices[..d];
        if devices[d].active && (group, devices[d].user) in members && d != except {
          targets := targets + [d];
        }
      }
      assert devices[..|devices|] == devices;
    }

    /** The fan-out job: an envelope for every target that has none, a recalculation per recipient. */
    method FanOut(m: MessageId, cipher: Cipher) returns (r: Reply)
      requires Valid()
      modifies this
      ensures Valid()
      ensures View() == Step(old(View()), Fanout(m, cipher))
      ensures r == Decide(old(View()), Fanout(m, cipher)).1
    {
      hide Sound, SpreadRows, Targets;
      StepKeepsSound(View(), Fanout(m, cipher));
      if m >= |messages| || !messages[m].conv.Group? {
        return NotFound;
      }
      var msg := messages[m];
      var targets := FindTargets(msg.conv.group, msg.device);
      var rows := MissingRows(m, targets, cipher);
      envelopes := envelopes + rows;
      nextSequence := nextSequence + |targets|;
      recalc := recalc + set d | d in targets && d < |devices| && devices[d].user != msg.sender :: (devices[d].user, msg.conv);
      r := Done;
    }

    method MissingRows(m: MessageId, targets: seq<DeviceId>, cipher: Cipher) returns (rows: seq<Envelope>)
      ensures rows == SpreadRows(envelopes, devices, m, targets, cipher, nextSequence)
    {
      hide FindEnvelope;
      rows := [];
      for i := 0 to |targets|
        invariant rows == SpreadRows(envelopes, devices, m, targets[..i], cipher, nextSequence)
      {
        assert targets[..i + 1][..i] == targets[..i];
        var d := targets[i];
        if d < |devices| && FindEnvelope(envelopes, m, d) < 0 {
          rows := rows + [Envelope(m, d, devices[d].user, nextSequence + i, Pending, 1, cipher)];
        }
      }
      assert targets[..|targets|] == targets;
    }

    /** The edit job, in chunks of 100 devices. `from` is the device the edit was made on. */
    method EditFanOut(m: MessageId, from: DeviceId, cipher: Cipher) returns (r: Reply, updatedCount: nat)
      requires Valid()
      modifies this
      ensures Valid()
      ensures View() == Step(old(View()), EditFanout(m, from, cipher))
      ensures r == Decide(old(View()), EditFanout(m, from, cipher)).1
      ensures r == Done ==>
                m < |messages| && messages[m].conv.Group? &&
                updatedCount == Matching(old(envelopes), m, Targets(devices, members, messages[m].conv.group, from))
    {
      hide Sound, RewriteRows, Targets, Matching;
      StepKeepsSound(View(), EditFanout(m, from, cipher));
      updatedCount := 0;
      if m >= |messages| || !messages[m].conv.Group? {
        return NotFound, 0;
      }
      TargetsAreTheOtherMembersDevices(devices, members, messages[m].conv.group, from);
      var targets := FindTargets(messages[m].conv.group, from);
      envelopes, updatedCount := RewriteInChunks(envelopes, m, targets, cipher);
      r := Done;
    }

    // ----- reading -----

    method AckMessage(user: UserId, m: MessageId, device: DeviceId, read: bool) returns (r: Reply)
      requires Valid()
      modifies this
      ensures Valid()
      ensures View() == Step(old(View()), Ack(user, m, device, read))
      ensures r == Decide(old(View()), Ack(user, m, device, read)).1
    {
      hide Sound, FindEnvelope, ReadMessageRows;
      StepKeepsSound(View(), Ack(user, m, device, read));
      if !(device < |devices| && devices[device].active && devices[device].user == user) {
        return Forbidden;
      }
      var k := FindEnvelope(envelopes, m, device);
      if k < 0 || envelopes[k].user != user || m >= |messages| {
        return NotFound;
      }
      if read {
        MarkRead(user, m);
        recalc := recalc + {(user, messages[m].conv)};
      } else {
        envelopes := envelopes[k := envelopes[k].(status := Delivered)];
      }
      r := Done;
    }

    /** `updateMany` over the user's envelopes of one message. */
    method MarkRead(user: UserId, m: MessageId)
      modifies `envelopes
      ensures envelopes == ReadMessageRows(old(envelopes), user, m)
    {
      var was := envelopes;
      for k := 0 to |was|
        invariant |envelopes| == |was|
        invariant forall i :: 0 <= i < k ==> envelopes[i] == ReadRow(was[i], was[i].user == user && was[i].msg == m)
        invariant forall i :: k <= i < |was| ==> envelopes[i] == was[i]
      {
        if envelopes[k].user == user && envelopes[k].msg == m && envelopes[k].status != Read {
          envelopes := envelopes[k := envelopes[k].(status := Read)];
        }
      }
      assert envelopes == ReadMessageRows(was, user, m);
    }

    method MarkThreadRead(user: UserId, device: DeviceId, conv: Conv) returns (r: Reply)
      requires Valid()
      modifies this
      ensures Valid()
      ensures View() == Step(old(View()), MarkAllRead(user, device, conv))
      ensures r == Decide(old(View()), MarkAllRead(user, device, conv)).1
    {
      hide Sound, ReadAllRows;
      StepKeepsSound(View(), MarkAllRead(user, device, conv));
      if !(device < |devices| && devices[device].active && devices[device].user == user) {
        return Forbidden;
      }
      MarkConvRead(user, conv);
      counters := counters[(user, conv) := 0];
      r := Done;
    }

    method MarkConvRead(user: UserId, conv: Conv)
      modifies `envelopes
      ensures envelopes == ReadAllRows(old(envelopes), messages, user, conv)
    {
      var was := envelopes;
      for k := 0 to |was|
        invariant |envelopes| == |was|
        invariant forall i :: 0 <= i < k ==>
                                envelopes[i] == ReadRow(was[i], was[i].user == user && InConv(messages, was[i].msg, conv))
        invariant forall i :: k <= i < |was| ==> envelopes[i] == was[i]
      {
        if envelopes[k].user == user && InConv(messages, envelopes[k].msg, conv) && envelopes[k].status != Read {
          envelopes := envelopes[k := envelopes[k].(status := Read)];
        }
      }
      assert envelopes == ReadAllRows(was, messages, user, conv);
    }

    /** The recalculation job for one key: count, then overwrite the counter. */
    method Recalculate(key: CounterKey) returns (r: Reply)
      requires Valid()
      modifies this
      ensures Valid() && View() == Step(old(View()), Recalc(key))
      ensures r == Decide(old(View()), Recalc(key)).1
      ensures r == Done ==> Exact(View(), key)
    {
      hide Sound, UnreadSet;
      StepKeepsSound(View(), Recalc(key));
      if key !in recalc {
        return NotFound;
      }
      var unread := CountUnread(key);
      counters := counters[key := unread];
      recalc := recalc - {key};
      r := Done;
    }

    /** `COUNT(DISTINCT messageId)`: the distinct messages are collected row by row. */
    method CountUnread(key: CounterKey) returns (n: nat)
      ensures n == |UnreadSet(messages, envelopes, key)|
    {
      var seen: set<MessageId> := {};
      for k := 0 to |envelopes|
        invariant seen == UnreadSet(messages, envelopes[..k], key)
      {
        UnreadGrows(messages, envelopes, k, key);
        if Unread(messages, envelopes[k], key) {
          seen := seen + {envelopes[k].msg};
        }
      }
      assert envelopes[..|envelopes|] == envelopes;
      n := |seen|;
    }

    static lemma UnreadGrows(messages: seq<Message>, envelopes: seq<Envelope>, k: nat, key: CounterKey)
      requires k < |envelopes|
      ensures UnreadSet(messages, envelopes[..k + 1], key)
           == UnreadSet(messages, envelopes[..k], key)
              + (if Unread(messages, envelopes[k], key) then {envelopes[k].msg} else {})
    {
      hide Unread;
      var some, more := envelopes[..k], envelopes[..k + 1];
      forall m | m in UnreadSet(messages, some, key) ensures m in UnreadSet(messages, more, key) {
        var i :| 0 <= i < |some| && Unread(messages, some[i], key) && some[i].msg == m;
        assert more[i] == some[i];
      }
      forall m | m in UnreadSet(messages, more, key)
        ensures m in UnreadSet(messages, some, key) || (Unread(messages, envelopes[k], key) && m == envelopes[k].msg)
      {
        var i :| 0 <= i < |more| && Unread(messages, more[i], key) && more[i].msg == m;
        if i < k {
          assert some[i] == more[i];
        }
      }
      assert more[k] == envelopes[k];
    }

    /** Work off the whole recalculation queue. */
    method Drain()
      requires Valid() && (forall key :: Fresh(View(), key))
      modifies this
      ensures Valid() && recalc == {}
      ensures forall key :: Exact(View(), key)
      ensures View() == old(View()).(counters := counters, recalc := {})
    {
      hide Sound, Step, Exact, UnreadSet;
      while recalc != {}
        invariant Valid() && (forall key :: Fresh(View(), key))
        invariant View() == old(View()).(counters := counters, recalc := recalc)
        decreases recalc
      {
        var key :| key in recalc;
        ghost var before := View();
        RecalcStep(before, key);
        var r := Recalculate(key);
        RecalcFrame(before, key);
        forall other ensures Fresh(View(), other) {
          assert Fresh(before, other);
          OthersStayExact(before, View(), key, other);
        }
      }
      forall key ensures Exact(View(), key) {
        assert Fresh(View(), key);
      }
    }

    static lemma OthersStayExact(db: Db, d: Db, key: CounterKey, other: CounterKey)
      requires d.messages == db.messages && d.envelopes == db.envelopes
      requires forall o :: o != key ==> Counter(d.counters, o) == Counter(db.counters, o)
      ensures other != key && Exact(db, other) ==> Exact(d, other)
    {
      hide UnreadSet;
    }

    static lemma RecalcFrame(db: Db, key: CounterKey)
      requires key in db.recalc
      ensures var d := Step(db, Recalc(key)); d == db.(counters := d.counters, recalc := db.recalc - {key})
      ensures Exact(Step(db, Recalc(key)), key)
    {
      hide UnreadSet;
    }

    // ----- devices -----

    method Register(user: UserId, known: Option<DeviceId>, underCap: bool) returns (r: Reply)
      requires Valid()
      modifies this
      ensures Valid()
      ensures View() == Step(old(View()), RegisterDevice(user, known, underCap))
      ensures r == Decide(old(View()), RegisterDevice(user, known, underCap)).1
      ensures var registered := known.Some? && known.value < |old(devices)|;
              && (r == Done <==> if registered then old(devices)[known.value].user == user else underCap)
              && devices == if r != Done then old(devices)
                            else if registered then old(devices)[known.value := Device(user, true)]
                            else old(devices) + [Device(user, true)]
    {
      hide Sound;
      StepKeepsSound(View(), RegisterDevice(user, known, underCap));
      if known.Some? && known.value < |devices| {
        if devices[known.value].user != user {
          return Forbidden;
        }
        devices := devices[known.value := devices[known.value].(active := true)];
        return Done;
      }
      if !underCap {
        return Conflict;
      }
      devices := devices + [Device(user, true)];
      r := Done;
    }

    method Deactivate(user: UserId, device: DeviceId) returns (r: Reply)
      requires Valid()
      modifies this
      ensures Valid()
      ensures View() == Step(old(View()), DeactivateDevice(user, device))
      ensures r == Decide(old(View()), DeactivateDevice(user, device)).1
      ensures r == Done <==> device < |devices| && devices[device].user == user
      ensures r == Done ==> !devices[device].active
    {
      hide Sound;
      StepKeepsSound(View(), DeactivateDevice(user, device));
      if device >= |devices| {
        return NotFound;
      }
      if devices[device].user != user {
        return Forbidden;
      }
      devices := devices[device := devices[device].(active := false)];
      r := Done;
    }
  }
}
