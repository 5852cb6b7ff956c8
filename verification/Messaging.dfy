/**
 The message core as one transition system: devices, group membership, direct threads, the message
 log, envelopes, unread counters and the recalculation queue. It models `MessagesService.send`, both
 kinds of forward target, `GroupsService.queueGroupMessage`, the fan-out and edit fan-out jobs, `ack`,
 `markAllRead` and the unread recalculation job.

 A group send is two steps, because the program reads the last sequence number first and inserts
 later, guarded only by unique keys: `GroupBegin` opens a ticket holding the number read, and
 `GroupCommit` inserts or fails. Every other call is one step. Ids of devices, threads, messages and
 tickets are the positions of their rows, which are never removed.
 */
module Messaging {
  import opened Prelude
  import opened Text

  type UserId = string
  type DeviceId = nat
  type GroupId = nat
  type MessageId = nat
  type Cipher = nat

  datatype Device = Device(user: UserId, active: bool)

  datatype Thread = Thread(a: UserId, b: UserId, latest: nat)

  datatype Conv = Direct(thread: nat) | Group(group: GroupId)

  datatype Message = Message(conv: Conv, sender: UserId, device: DeviceId, key: string, number: nat,
                             replyTo: Option<MessageId>, forwarded: bool)

  datatype Status = Pending | Delivered | Read

  datatype Envelope = Envelope(msg: MessageId, device: DeviceId, user: UserId, sequence: nat, status: Status,
                               version: nat, cipher: Cipher)

  /** A group send in flight; `number` is the sequence number it will try to insert. */
  datatype Ticket = Ticket(draft: Message, open: bool)

  type CounterKey = (UserId, Conv)

  datatype Db = Db(devices: seq<Device>, members: set<(GroupId, UserId)>, threads: seq<Thread>,
                   messages: seq<Message>, envelopes: seq<Envelope>, nextSequence: nat,
                   counters: map<CounterKey, nat>, recalc: set<CounterKey>, tickets: seq<Ticket>)

  datatype EnvelopeDto = EnvelopeDto(device: DeviceId, cipher: Cipher)

  datatype Request =
    | RegisterDevice(user: UserId, known: Option<DeviceId>, underCap: bool)
    | DeactivateDevice(user: UserId, device: DeviceId)
    | SetMember(group: GroupId, user: UserId, present: bool)
    | Send(user: UserId, recipient: UserId, device: DeviceId, key: string, envelopes: seq<EnvelopeDto>,
           replyTo: Option<MessageId>, mediaOk: bool, forwarded: bool)
    | GroupBegin(user: UserId, group: GroupId, device: DeviceId, key: string, replyTo: Option<MessageId>,
                 mediaOk: bool, forwarded: bool)
    | GroupCommit(ticket: nat)
    | Fanout(msg: MessageId, cipher: Cipher)
    | EditFanout(msg: MessageId, from: DeviceId, cipher: Cipher)
    | Ack(user: UserId, msg: MessageId, device: DeviceId, read: bool)
    | MarkAllRead(user: UserId, device: DeviceId, conv: Conv)
    | Recalc(counter: CounterKey)

  datatype Reply = Created(id: MessageId) | Existing(id: MessageId) | Opened(ticket: nat) | Done
                 | Forbidden | BadRequest | NotFound | Conflict | Failed

  // ----- queries -----

  /** Lookup by the unique key (sender device, idempotency key); -1 when there is none. */
  function FindKey(messages: seq<Message>, device: DeviceId, key: string): (k: int)
    ensures -1 <= k < |messages|
    ensures k >= 0 ==> messages[k].device == device && messages[k].key == key
    ensures k == -1 ==> forall i :: 0 <= i < |messages| ==> !(messages[i].device == device && messages[i].key == key)
  {
    if messages == [] then -1
    else if messages[|messages| - 1].device == device && messages[|messages| - 1].key == key then |messages| - 1
    else FindKey(messages[..|messages| - 1], device, key)
  }

  /** The greatest sequence number of a conversation, 0 when it is empty. */
  function LastNumber(messages: seq<Message>, c: Conv): nat {
    if messages == [] then 0
    else
      var rest, last := LastNumber(messages[..|messages| - 1], c), messages[|messages| - 1];
      if last.conv == c && last.number > rest then last.number else rest
  }

  /** The messages of a conversation. */
  function Count(messages: seq<Message>, c: Conv): nat {
    if messages == [] then 0
    else Count(messages[..|messages| - 1], c) + (if messages[|messages| - 1].conv == c then 1 else 0)
  }

  function FindThread(threads: seq<Thread>, a: UserId, b: UserId): (k: int)
    ensures -1 <= k < |threads|
    ensures k >= 0 ==> threads[k].a == a && threads[k].b == b
    ensures k == -1 ==> forall i :: 0 <= i < |threads| ==> !(threads[i].a == a && threads[i].b == b)
  {
    if threads == [] then -1
    else if threads[|threads| - 1].a == a && threads[|threads| - 1].b == b then |threads| - 1
    else FindThread(threads[..|threads| - 1], a, b)
  }

  /** The id the upsert yields: the existing thread of the pair, or the next free one. */
  function ThreadOf(threads: seq<Thread>, u: UserId, v: UserId): nat {
    var p := CanonicalPair(u, v);
    var k := FindThread(threads, p.0, p.1);
    if k < 0 then |threads| else k
  }

  function BumpThread(threads: seq<Thread>, u: UserId, v: UserId): seq<Thread> {
    var p := CanonicalPair(u, v);
    var k := FindThread(threads, p.0, p.1);
    if k < 0 then threads + [Thread(p.0, p.1, 1)] else threads[k := threads[k].(latest := threads[k].latest + 1)]
  }

  function FindEnvelope(envelopes: seq<Envelope>, m: MessageId, d: DeviceId): (k: int)
    ensures -1 <= k < |envelopes|
    ensures k >= 0 ==> envelopes[k].msg == m && envelopes[k].device == d
    ensures k == -1 ==> forall i :: 0 <= i < |envelopes| ==> !(envelopes[i].msg == m && envelopes[i].device == d)
  {
    if envelopes == [] then -1
    else if envelopes[|envelopes| - 1].msg == m && envelopes[|envelopes| - 1].device == d then |envelopes| - 1
    else FindEnvelope(envelopes[..|envelopes| - 1], m, d)
  }

  predicate ActiveFor(devices: seq<Device>, d: DeviceId, u: UserId) {
    d < |devices| && devices[d] == Device(u, true)
  }

  predicate HasActiveDevice(devices: seq<Device>, u: UserId) {
    exists d :: 0 <= d < |devices| && ActiveFor(devices, d, u)
  }

  /** Every active device of the recipient is addressed. */
  predicate Covers(devices: seq<Device>, recipient: UserId, envelopes: seq<EnvelopeDto>) {
    forall d :: 0 <= d < |devices| && ActiveFor(devices, d, recipient) ==> Addressed(envelopes, d)
  }

  predicate Addressed(envelopes: seq<EnvelopeDto>, d: DeviceId) {
    exists i :: 0 <= i < |envelopes| && envelopes[i].device == d
  }

  predicate MayAddress(devices: seq<Device>, sender: UserId, recipient: UserId, from: DeviceId, d: DeviceId) {
    ActiveFor(devices, d, recipient) || (ActiveFor(devices, d, sender) && d != from)
  }

  /** Every envelope goes to an active device of the recipient or another one of the sender. */
  predicate AllAllowed(devices: seq<Device>, sender: UserId, recipient: UserId, from: DeviceId, envelopes: seq<EnvelopeDto>) {
    forall i :: 0 <= i < |envelopes| ==> MayAddress(devices, sender, recipient, from, envelopes[i].device)
  }

  /** No device twice: otherwise the unique key (message, device) makes the insert fail. */
  predicate NoTwins(envelopes: seq<EnvelopeDto>) {
    forall i, j :: 0 <= i < j < |envelopes| ==> envelopes[i].device != envelopes[j].device
  }

  /** The devices a group job addresses, in table order: active devices of members except one. */
  function Targets(devices: seq<Device>, members: set<(GroupId, UserId)>, g: GroupId, except: DeviceId): seq<DeviceId> {
    if devices == [] then []
    else
      var n := |devices| - 1;
      var rest := Targets(devices[..n], members, g, except);
      if devices[n].active && (g, devices[n].user) in members && n != except then rest + [n] else rest
  }

  // ----- reply targets -----

  datatype ReplyCheck = ReplyOk | ReplyMissing | ReplyElsewhere | ReplyNested

  function CheckReply(messages: seq<Message>, c: Conv, replyTo: Option<MessageId>): ReplyCheck {
    if replyTo.None? then ReplyOk
    else if replyTo.value >= |messages| then ReplyMissing
    else if messages[replyTo.value].conv != c then ReplyElsewhere
    else if messages[replyTo.value].replyTo.Some? then ReplyNested
    else ReplyOk
  }

  // ----- what a committed transaction writes -----

  datatype Effect =
    | Nothing
    | AddDevice(user: UserId)
    | SetActive(device: DeviceId, active: bool)
    | EditMember(group: GroupId, user: UserId, present: bool)
    | PostDirect(recipient: UserId, draft: Message, envelopes: seq<EnvelopeDto>)
    | OpenTicket(draft: Message)
    | CloseTicket(ticket: nat)
    | PostGroup(ticket: nat)
    | Spread(msg: MessageId, targets: seq<DeviceId>, cipher: Cipher)
    | Rewrite(msg: MessageId, targets: seq<DeviceId>, cipher: Cipher)
    | ReadMessage(user: UserId, msg: MessageId)
    | Deliver(k: nat)
    | ReadAll(user: UserId, conv: Conv)
    | Recount(counter: CounterKey)

  function DirectEnvelopes(devices: seq<Device>, m: MessageId, sender: UserId, recipient: UserId,
                           envelopes: seq<EnvelopeDto>, next: nat): (r: seq<Envelope>)
    ensures |r| == |envelopes|
    ensures forall i :: 0 <= i < |r| ==>
                          r[i] == Envelope(m, envelopes[i].device,
                                           if ActiveFor(devices, envelopes[i].device, recipient) then recipient else sender,
                                           next + i, Pending, 1, envelopes[i].cipher)
  {
    seq(|envelopes|, i requires 0 <= i < |envelopes| =>
      Envelope(m, envelopes[i].device,
               if ActiveFor(devices, envelopes[i].device, recipient) then recipient else sender,
               next + i, Pending, 1, envelopes[i].cipher))
  }

  /** `createMany` with `skipDuplicates`: a row per target that has none yet; skipped rows still use
      up their sequence number. */
  function SpreadRows(existing: seq<Envelope>, devices: seq<Device>, m: MessageId, targets: seq<DeviceId>,
                      cipher: Cipher, next: nat): seq<Envelope> {
    if targets == [] then []
    else
      var n := |targets| - 1;
      var rest := SpreadRows(existing, devices, m, targets[..n], cipher, next);
      if FindEnvelope(existing, m, targets[n]) >= 0 || targets[n] >= |devices| then rest
      else rest + [Envelope(m, targets[n], devices[targets[n]].user, next + n, Pending, 1, cipher)]
  }

  /** The counters to recalculate after a fan-out: every addressed user except the sender. */
  function Affected(devices: seq<Device>, targets: seq<DeviceId>, sender: UserId, c: Conv): set<CounterKey> {
    set d | d in targets && d < |devices| && devices[d].user != sender :: (devices[d].user, c)
  }

  function RewriteRow(e: Envelope, m: MessageId, targets: seq<DeviceId>, cipher: Cipher): Envelope {
    if e.msg == m && e.device in targets then e.(cipher := cipher, version := e.version + 1) else e
  }

  function RewriteRows(envelopes: seq<Envelope>, m: MessageId, targets: seq<DeviceId>, cipher: Cipher): (r: seq<Envelope>)
    ensures |r| == |envelopes|
    ensures forall i :: 0 <= i < |r| ==> r[i] == RewriteRow(envelopes[i], m, targets, cipher)
  {
    seq(|envelopes|, i requires 0 <= i < |envelopes| => RewriteRow(envelopes[i], m, targets, cipher))
  }

  predicate InConv(messages: seq<Message>, m: MessageId, c: Conv) {
    m < |messages| && messages[m].conv == c
  }

  function ReadRow(e: Envelope, pick: bool): Envelope {
    if pick then e.(status := Read) else e
  }

  function ReadMessageRows(envelopes: seq<Envelope>, u: UserId, m: MessageId): (r: seq<Envelope>)
    ensures |r| == |envelopes|
    ensures forall i :: 0 <= i < |r| ==> r[i] == ReadRow(envelopes[i], envelopes[i].user == u && envelopes[i].msg == m)
  {
    seq(|envelopes|, i requires 0 <= i < |envelopes| =>
      ReadRow(envelopes[i], envelopes[i].user == u && envelopes[i].msg == m))
  }

  function ReadAllRows(envelopes: seq<Envelope>, messages: seq<Message>, u: UserId, c: Conv): (r: seq<Envelope>)
    ensures |r| == |envelopes|
    ensures forall i :: 0 <= i < |r| ==>
                          r[i] == ReadRow(envelopes[i], envelopes[i].user == u && InConv(messages, envelopes[i].msg, c))
  {
    seq(|envelopes|, i requires 0 <= i < |envelopes| =>
      ReadRow(envelopes[i], envelopes[i].user == u && InConv(messages, envelopes[i].msg, c)))
  }

  // ----- unread messages -----

  predicate Unread(messages: seq<Message>, e: Envelope, key: CounterKey) {
    && e.user == key.0 && e.status != Read
    && InConv(messages, e.msg, key.1) && messages[e.msg].sender != key.0
  }

  /** COUNT(DISTINCT messageId) of the recalculation query counts this set. */
  function UnreadSet(messages: seq<Message>, envelopes: seq<Envelope>, key: CounterKey): set<MessageId> {
    set k | 0 <= k < |envelopes| && Unread(messages, envelopes[k], key) :: envelopes[k].msg
  }

  function Counter(counters: map<CounterKey, nat>, key: CounterKey): nat {
    if key in counters then counters[key] else 0
  }

  // ----- guards -----

  function DraftOf(q: Request, c: Conv, number: nat): Message
    requires q.Send? || q.GroupBegin?
  {
    Message(c, q.user, q.device, q.key, number, q.replyTo, q.forwarded)
  }

  function DecideSend(db: Db, q: Request): (Effect, Reply)
    requires q.Send?
  {
    var existing := FindKey(db.messages, q.device, q.key);
    var thread := ThreadOf(db.threads, q.user, q.recipient);
    var check := CheckReply(db.messages, Direct(thread), q.replyTo);
    if existing >= 0 then (Nothing, Existing(existing))
    else if !ActiveFor(db.devices, q.device, q.user) then (Nothing, Forbidden)
    else if q.user == q.recipient then (Nothing, BadRequest)
    else if !HasActiveDevice(db.devices, q.recipient) then (Nothing, NotFound)
    else if !Covers(db.devices, q.recipient, q.envelopes) then (Nothing, BadRequest)
    else if !AllAllowed(db.devices, q.user, q.recipient, q.device, q.envelopes) then (Nothing, BadRequest)
    else if check == ReplyMissing then (Nothing, NotFound)
    else if check != ReplyOk then (Nothing, BadRequest)
    else if !q.mediaOk then (Nothing, BadRequest)
    else if !NoTwins(q.envelopes) then (Nothing, Failed)
    else
      var number := BumpThread(db.threads, q.user, q.recipient)[thread].latest;
      (PostDirect(q.recipient, DraftOf(q, Direct(thread), number), q.envelopes), Created(|db.messages|))
  }

  function DecideGroupBegin(db: Db, q: Request): (Effect, Reply)
    requires q.GroupBegin?
  {
    var existing := FindKey(db.messages, q.device, q.key);
    var check := CheckReply(db.messages, Group(q.group), q.replyTo);
    if (q.group, q.user) !in db.members then (Nothing, Forbidden)
    else if existing >= 0 then (Nothing, Existing(existing))
    else if check == ReplyMissing then (Nothing, NotFound)
    else if check != ReplyOk then (Nothing, BadRequest)
    else if !q.mediaOk then (Nothing, BadRequest)
    else (OpenTicket(DraftOf(q, Group(q.group), LastNumber(db.messages, Group(q.group)) + 1)), Opened(|db.tickets|))
  }

  /** Some message already carries the ticket's (group, sequence number). */
  predicate NumberTaken(messages: seq<Message>, c: Conv, number: nat) {
    exists i :: 0 <= i < |messages| && messages[i].conv == c && messages[i].number == number
  }

  function DecideGroupCommit(db: Db, q: Request): (Effect, Reply)
    requires q.GroupCommit?
  {
    if q.ticket >= |db.tickets| || !db.tickets[q.ticket].open then (Nothing, NotFound)
    else
      var d := db.tickets[q.ticket].draft;
      if d.device >= |db.devices| || FindKey(db.messages, d.device, d.key) >= 0 || NumberTaken(db.messages, d.conv, d.number)
      then (CloseTicket(q.ticket), Failed)
      else (PostGroup(q.ticket), Created(|db.messages|))
  }

  function DecideJob(db: Db, q: Request): (Effect, Reply)
    requires q.Fanout? || q.EditFanout?
  {
    if q.msg >= |db.messages| || !db.messages[q.msg].conv.Group? then (Nothing, NotFound)
    else
      var m := db.messages[q.msg];
      var targets := Targets(db.devices, db.members, m.conv.group, if q.Fanout? then m.device else q.from);
      if q.Fanout? then (Spread(q.msg, targets, q.cipher), Done) else (Rewrite(q.msg, targets, q.cipher), Done)
  }

  function DecideRead(db: Db, q: Request): (Effect, Reply)
    requires q.Ack? || q.MarkAllRead?
  {
    if !ActiveFor(db.devices, q.device, q.user) then (Nothing, Forbidden)
    else if q.MarkAllRead? then (ReadAll(q.user, q.conv), Done)
    else
      var k := FindEnvelope(db.envelopes, q.msg, q.device);
      if k < 0 || db.envelopes[k].user != q.user || q.msg >= |db.messages| then (Nothing, NotFound)
      else if q.read then (ReadMessage(q.user, q.msg), Done)
      else (Deliver(k), Done)
  }

  function DecideRest(db: Db, q: Request): (Effect, Reply)
    requires q.RegisterDevice? || q.DeactivateDevice? || q.SetMember? || q.Recalc?
  {
    match q
    case RegisterDevice(u, known, underCap) =>
      if known.Some? && known.value < |db.devices| then
        if db.devices[known.value].user != u then (Nothing, Forbidden) else (SetActive(known.value, true), Done)
      else if !underCap then (Nothing, Conflict)
      else (AddDevice(u), Done)
    case DeactivateDevice(u, d) =>
      if d >= |db.devices| then (Nothing, NotFound)
      else if db.devices[d].user != u then (Nothing, Forbidden)
      else (SetActive(d, false), Done)
    case SetMember(g, u, present) => (EditMember(g, u, present), Done)
    case Recalc(key) => if key in db.recalc then (Recount(key), Done) else (Nothing, NotFound)
  }

  function Decide(db: Db, q: Request): (Effect, Reply) {
    if q.Send? then DecideSend(db, q)
    else if q.GroupBegin? then DecideGroupBegin(db, q)
    else if q.GroupCommit? then DecideGroupCommit(db, q)
    else if q.Fanout? || q.EditFanout? then DecideJob(db, q)
    else if q.Ack? || q.MarkAllRead? then DecideRead(db, q)
    else DecideRest(db, q)
  }

  // ----- commit -----

  /** What the guards establish about the effect they choose. */
  ghost predicate Allowed(db: Db, f: Effect) {
    match f
    case Nothing => true
    case AddDevice(_) => true
    case SetActive(d, _) => d < |db.devices|
    case EditMember(_, _, _) => true
    case PostDirect(recipient, m, es) =>
      && m.sender != recipient
      && m.conv == Direct(ThreadOf(db.threads, m.sender, recipient))
      && m.number == BumpThread(db.threads, m.sender, recipient)[m.conv.thread].latest
      && CheckReply(db.messages, m.conv, m.replyTo) == ReplyOk
      && FindKey(db.messages, m.device, m.key) < 0
      && ActiveFor(db.devices, m.device, m.sender)
      && Covers(db.devices, recipient, es) && AllAllowed(db.devices, m.sender, recipient, m.device, es) && NoTwins(es)
    case OpenTicket(m) =>
      && m.conv.Group? && m.number == LastNumber(db.messages, m.conv) + 1
      && CheckReply(db.messages, m.conv, m.replyTo) == ReplyOk
    case CloseTicket(t) => t < |db.tickets|
    case PostGroup(t) =>
      && t < |db.tickets| && db.tickets[t].open && db.tickets[t].draft.device < |db.devices|
      && FindKey(db.messages, db.tickets[t].draft.device, db.tickets[t].draft.key) < 0
      && !NumberTaken(db.messages, db.tickets[t].draft.conv, db.tickets[t].draft.number)
    case Spread(m, targets, _) =>
      && m < |db.messages| && db.messages[m].conv.Group?
      && targets == Targets(db.devices, db.members, db.messages[m].conv.group, db.messages[m].device)
    case Rewrite(_, _, _) => true
    case ReadMessage(_, m) => m < |db.messages|
    case Deliver(k) => k < |db.envelopes|
    case ReadAll(_, _) => true
    case Recount(key) => key in db.recalc
  }

  function Apply(db: Db, f: Effect): Db
    requires Allowed(db, f)
  {
    match f
    case Nothing => db
    case AddDevice(u) => db.(devices := db.devices + [Device(u, true)])
    case SetActive(d, active) => db.(devices := db.devices[d := db.devices[d].(active := active)])
    case EditMember(g, u, present) => db.(members := if present then db.members + {(g, u)} else db.members - {(g, u)})
    case PostDirect(recipient, m, es) =>
      db.(threads := BumpThread(db.threads, m.sender, recipient),
          messages := db.messages + [m],
          envelopes := db.envelopes + DirectEnvelopes(db.devices, |db.messages|, m.sender, recipient, es, db.nextSequence),
          nextSequence := db.nextSequence + |es|,
          recalc := db.recalc + {(recipient, m.conv)})
    case OpenTicket(m) => db.(tickets := db.tickets + [Ticket(m, true)])
    case CloseTicket(t) => db.(tickets := db.tickets[t := db.tickets[t].(open := false)])
    case PostGroup(t) =>
      db.(messages := db.messages + [db.tickets[t].draft], tickets := db.tickets[t := db.tickets[t].(open := false)])
    case Spread(m, targets, cipher) =>
      db.(envelopes := db.envelopes + SpreadRows(db.envelopes, db.devices, m, targets, cipher, db.nextSequence),
          nextSequence := db.nextSequence + |targets|,
          recalc := db.recalc + Affected(db.devices, targets, db.messages[m].sender, db.messages[m].conv))
    case Rewrite(m, targets, cipher) => db.(envelopes := RewriteRows(db.envelopes, m, targets, cipher))
    case ReadMessage(u, m) =>
      db.(envelopes := ReadMessageRows(db.envelopes, u, m), recalc := db.recalc + {(u, db.messages[m].conv)})
    case Deliver(k) => db.(envelopes := db.envelopes[k := db.envelopes[k].(status := Delivered)])
    case ReadAll(u, c) =>
      db.(envelopes := ReadAllRows(db.envelopes, db.messages, u, c), counters := db.counters[(u, c) := 0])
    case Recount(key) =>
      db.(counters := db.counters[key := |UnreadSet(db.messages, db.envelopes, key)|], recalc := db.recalc - {key})
  }

  lemma DecideIsAllowed(db: Db, q: Request)
    ensures Allowed(db, Decide(db, q).0)
  {
    hide FindKey, LastNumber, Targets, BumpThread, ThreadOf, CanonicalPair;
  }

  function Step(db: Db, q: Request): Db {
    DecideIsAllowed(db, q);
    Apply(db, Decide(db, q).0)
  }

  function Init(): Db {
    Db([], {}, [], [], [], 1, map[], {}, [])
  }

  function RunFrom(db: Db, requests: seq<Request>): Db {
    if requests == [] then db
    else Step(RunFrom(db, requests[..|requests| - 1]), requests[|requests| - 1])
  }
}
