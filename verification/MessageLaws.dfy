/**
 The message log in every run, under every interleaving of group sends: sequence numbers without gap
 or repeat, one thread per pair of users, one message per idempotency key, replies one level deep.
 */
module MessageLaws {
  import opened Prelude
  import opened Text
  import opened Messaging

  /** Each message carries one more than the number of earlier messages of its conversation. */
  ghost predicate Numbered(messages: seq<Message>) {
    forall i :: 0 <= i < |messages| ==> messages[i].number == Count(messages[..i], messages[i].conv) + 1
  }

  /** A thread is a canonical pair of two users, no pair has two threads, and `latestSequence` is the
      number of messages of the thread. */
  ghost predicate ThreadsMatch(messages: seq<Message>, threads: seq<Thread>) {
    && (forall t :: 0 <= t < |threads| ==>
          threads[t].a != threads[t].b && CanonicalPair(threads[t].a, threads[t].b) == (threads[t].a, threads[t].b))
    && (forall t :: 0 <= t < |threads| ==> threads[t].latest == Count(messages, Direct(t)))
    && (forall s, t :: 0 <= s < t < |threads| ==> threads[s].a != threads[t].a || threads[s].b != threads[t].b)
    && (forall i :: 0 <= i < |messages| && messages[i].conv.Direct? ==> messages[i].conv.thread < |threads|)
  }

  /** A ticket's number was free or already outrun when read, and its reply target is fit. */
  ghost predicate TicketsMatch(messages: seq<Message>, tickets: seq<Ticket>) {
    forall t :: 0 <= t < |tickets| ==>
                  && tickets[t].draft.conv.Group?
                  && 1 <= tickets[t].draft.number <= Count(messages, tickets[t].draft.conv) + 1
                  && CheckReply(messages, tickets[t].draft.conv, tickets[t].draft.replyTo) == ReplyOk
  }

  ghost predicate UniqueKeys(messages: seq<Message>) {
    forall i, j :: 0 <= i < j < |messages| ==> messages[i].device != messages[j].device || messages[i].key != messages[j].key
  }

  /** A reply targets an earlier message of the same conversation that is not itself a reply. */
  ghost predicate FlatReplies(messages: seq<Message>) {
    forall i :: 0 <= i < |messages| && messages[i].replyTo.Some? ==>
                  && messages[i].replyTo.value < i
                  && messages[messages[i].replyTo.value].conv == messages[i].conv
                  && messages[messages[i].replyTo.value].replyTo.None?
  }

  ghost predicate LogInv(messages: seq<Message>, threads: seq<Thread>, tickets: seq<Ticket>) {
    && Numbered(messages) && ThreadsMatch(messages, threads) && TicketsMatch(messages, tickets)
    && UniqueKeys(messages) && FlatReplies(messages)
  }

  // ----- counting -----

  lemma CountAppend(messages: seq<Message>, m: Message, c: Conv)
    ensures Count(messages + [m], c) == Count(messages, c) + (if m.conv == c then 1 else 0)
  {
    assert (messages + [m])[..|messages|] == messages;
  }

  lemma {:induction false} CountGrows(messages: seq<Message>, n: nat, c: Conv)
    requires n <= |messages|
    ensures Count(messages[..n], c) <= Count(messages, c)
  {
    if n == |messages| {
      assert messages[..n] == messages;
    } else {
      var k := |messages| - 1;
      assert messages[..k][..n] == messages[..n];
      CountGrows(messages[..k], n, c);
    }
  }

  lemma NumberedPrefix(messages: seq<Message>, n: nat)
    requires Numbered(messages) && n <= |messages|
    ensures Numbered(messages[..n])
  {
    hide Count;
    forall i | 0 <= i < n ensures messages[..n][i].number == Count(messages[..n][..i], messages[..n][i].conv) + 1 {
      assert messages[..n][..i] == messages[..i];
    }
  }

  /** Later messages of a conversation carry greater numbers. */
  lemma NumbersIncrease(messages: seq<Message>, i: nat, j: nat)
    requires Numbered(messages) && i < j < |messages| && messages[i].conv == messages[j].conv
    ensures messages[i].number < messages[j].number
  {
    var c := messages[i].conv;
    assert messages[..i + 1] == messages[..i] + [messages[i]];
    CountAppend(messages[..i], messages[i], c);
    assert messages[..j][..i + 1] == messages[..i + 1];
    CountGrows(messages[..j], i + 1, c);
  }

  /** Every number from 1 to the size of the conversation is carried by some message. */
  lemma {:induction false} NumberIsCarried(messages: seq<Message>, c: Conv, n: nat) returns (i: nat)
    requires Numbered(messages) && 1 <= n <= Count(messages, c)
    ensures i < |messages| && messages[i].conv == c && messages[i].number == n
  {
    var k := |messages| - 1;
    if messages[k].conv == c && n == Count(messages, c) {
      i := k;
    } else {
      NumberedPrefix(messages, k);
      i := NumberIsCarried(messages[..k], c, n);
    }
  }

  lemma NumberInRange(messages: seq<Message>, i: nat)
    requires Numbered(messages) && i < |messages|
    ensures 1 <= messages[i].number <= Count(messages, messages[i].conv)
  {
    assert messages[..i + 1] == messages[..i] + [messages[i]];
    CountAppend(messages[..i], messages[i], messages[i].conv);
    CountGrows(messages, i + 1, messages[i].conv);
  }

  /** `orderBy threadSequence desc` finds exactly the size of the conversation. */
  lemma {:induction false} LastNumberIsCount(messages: seq<Message>, c: Conv)
    requires Numbered(messages)
    ensures LastNumber(messages, c) == Count(messages, c)
  {
    if messages != [] {
      NumberedPrefix(messages, |messages| - 1);
      LastNumberIsCount(messages[..|messages| - 1], c);
    }
  }

  // ----- appending a message -----

  lemma AppendKeepsNumbered(messages: seq<Message>, m: Message)
    requires Numbered(messages) && m.number == Count(messages, m.conv) + 1
    ensures Numbered(messages + [m])
  {
    hide Count;
    var after := messages + [m];
    forall i | 0 <= i < |after| ensures after[i].number == Count(after[..i], after[i].conv) + 1 {
      assert after[..i] == messages[..i];
      assert messages[..|messages|] == messages;
    }
  }

  lemma AppendKeepsReplies(messages: seq<Message>, m: Message)
    requires FlatReplies(messages) && CheckReply(messages, m.conv, m.replyTo) == ReplyOk
    ensures FlatReplies(messages + [m])
  {}

  lemma AppendKeepsKeys(messages: seq<Message>, m: Message)
    requires UniqueKeys(messages) && FindKey(messages, m.device, m.key) < 0
    ensures UniqueKeys(messages + [m])
  {
    hide FindKey;
  }

  lemma AppendKeepsTickets(messages: seq<Message>, tickets: seq<Ticket>, m: Message)
    requires TicketsMatch(messages, tickets)
    ensures TicketsMatch(messages + [m], tickets)
  {
    hide Count;
    forall t | 0 <= t < |tickets|
      ensures Count(messages, tickets[t].draft.conv) <= Count(messages + [m], tickets[t].draft.conv)
    {
      CountAppend(messages, m, tickets[t].draft.conv);
    }
  }

  lemma AppendGroupKeepsThreads(messages: seq<Message>, threads: seq<Thread>, m: Message)
    requires ThreadsMatch(messages, threads) && m.conv.Group?
    ensures ThreadsMatch(messages + [m], threads)
  {
    hide Count, CanonicalPair;
    forall t | 0 <= t < |threads| ensures threads[t].latest == Count(messages + [m], Direct(t)) {
      CountAppend(messages, m, Direct(t));
    }
  }

  lemma {:induction false} NoMessagesYet(messages: seq<Message>, threads: seq<Thread>)
    requires forall i :: 0 <= i < |messages| && messages[i].conv.Direct? ==> messages[i].conv.thread < |threads|
    ensures Count(messages, Direct(|threads|)) == 0
  {
    if messages != [] {
      NoMessagesYet(messages[..|messages| - 1], threads);
    }
  }

  lemma AppendDirectKeepsThreads(messages: seq<Message>, threads: seq<Thread>, m: Message, recipient: UserId)
    requires ThreadsMatch(messages, threads) && m.sender != recipient
    requires m.conv == Direct(ThreadOf(threads, m.sender, recipient))
    requires m.number == BumpThread(threads, m.sender, recipient)[m.conv.thread].latest
    ensures ThreadsMatch(messages + [m], BumpThread(threads, m.sender, recipient))
    ensures m.number == Count(messages, m.conv) + 1
  {
    hide Count, CanonicalPair, FindThread;
    var p := CanonicalPair(m.sender, recipient);
    PairIsCanonical(m.sender, recipient);
    NoMessagesYet(messages, threads);
    var after := BumpThread(threads, m.sender, recipient);
    forall t | 0 <= t < |after| ensures after[t].latest == Count(messages + [m], Direct(t)) {
      CountAppend(messages, m, Direct(t));
    }
  }

  lemma PairIsCanonical(u: UserId, v: UserId)
    requires u != v
    ensures var p := CanonicalPair(u, v); p.0 != p.1 && CanonicalPair(p.0, p.1) == p
  {
    var p := CanonicalPair(u, v);
    CanonicalPairIsUnordered(u, v, p.0, p.1);
  }

  // ----- every step keeps the log in order -----

  lemma PostDirectKeepsLog(db: Db, f: Effect)
    requires f.PostDirect? && Allowed(db, f) && LogInv(db.messages, db.threads, db.tickets)
    ensures var d := Apply(db, f); LogInv(d.messages, d.threads, d.tickets)
  {
    hide Numbered, ThreadsMatch, TicketsMatch, UniqueKeys, FlatReplies, FindKey, BumpThread, ThreadOf, CheckReply;
    AppendDirectKeepsThreads(db.messages, db.threads, f.draft, f.recipient);
    AppendKeepsNumbered(db.messages, f.draft);
    AppendKeepsReplies(db.messages, f.draft);
    AppendKeepsKeys(db.messages, f.draft);
    AppendKeepsTickets(db.messages, db.tickets, f.draft);
  }

  lemma OpenTicketKeepsLog(db: Db, f: Effect)
    requires f.OpenTicket? && Allowed(db, f) && LogInv(db.messages, db.threads, db.tickets)
    ensures var d := Apply(db, f); LogInv(d.messages, d.threads, d.tickets)
  {
    hide Numbered, ThreadsMatch, UniqueKeys, FlatReplies, Count, LastNumber;
    LastNumberIsCount(db.messages, f.draft.conv);
  }

  lemma CloseKeepsTickets(messages: seq<Message>, tickets: seq<Ticket>, t: nat)
    requires t < |tickets| && TicketsMatch(messages, tickets)
    ensures TicketsMatch(messages, tickets[t := tickets[t].(open := false)])
  {}

  /** The heart of the interleaving argument: a ticket's number is at most one past the end of the
      group's log, every number up to the end is taken, and the unique key lets only a free number
      in. So a commit that succeeds extends the log by exactly one. */
  lemma FreeNumberIsNext(messages: seq<Message>, tickets: seq<Ticket>, t: nat)
    requires Numbered(messages) && TicketsMatch(messages, tickets) && t < |tickets|
    requires !NumberTaken(messages, tickets[t].draft.conv, tickets[t].draft.number)
    ensures tickets[t].draft.number == Count(messages, tickets[t].draft.conv) + 1
  {
    hide Count;
    var d := tickets[t].draft;
    if d.number <= Count(messages, d.conv) {
      var i := NumberIsCarried(messages, d.conv, d.number);
    }
  }

  lemma PostGroupKeepsLog(db: Db, f: Effect)
    requires f.PostGroup? && Allowed(db, f) && LogInv(db.messages, db.threads, db.tickets)
    ensures var d := Apply(db, f); LogInv(d.messages, d.threads, d.tickets)
  {
    hide Numbered, ThreadsMatch, UniqueKeys, FlatReplies, FindKey, Count;
    var draft := db.tickets[f.ticket].draft;
    FreeNumberIsNext(db.messages, db.tickets, f.ticket);
    AppendKeepsNumbered(db.messages, draft);
    AppendKeepsReplies(db.messages, draft);
    AppendKeepsKeys(db.messages, draft);
    AppendGroupKeepsThreads(db.messages, db.threads, draft);
    AppendKeepsTickets(db.messages, db.tickets, draft);
    CloseKeepsTickets(db.messages + [draft], db.tickets, f.ticket);
  }

  lemma OthersKeepLog(db: Db, f: Effect)
    requires Allowed(db, f) && !f.PostDirect? && !f.OpenTicket? && !f.CloseTicket? && !f.PostGroup?
    ensures var d := Apply(db, f); d.messages == db.messages && d.threads == db.threads && d.tickets == db.tickets
  {}

  lemma ApplyKeepsLog(db: Db, f: Effect)
    requires Allowed(db, f) && LogInv(db.messages, db.threads, db.tickets)
    ensures var d := Apply(db, f); LogInv(d.messages, d.threads, d.tickets)
  {
    hide Numbered, ThreadsMatch, TicketsMatch, UniqueKeys, FlatReplies;
    if f.PostDirect? {
      PostDirectKeepsLog(db, f);
    } else if f.OpenTicket? {
      OpenTicketKeepsLog(db, f);
    } else if f.CloseTicket? {
      CloseKeepsTickets(db.messages, db.tickets, f.ticket);
    } else if f.PostGroup? {
      PostGroupKeepsLog(db, f);
    } else {
      OthersKeepLog(db, f);
    }
  }

  lemma {:induction false} RunKeepsLog(db: Db, requests: seq<Request>)
    requires LogInv(db.messages, db.threads, db.tickets)
    ensures var d := RunFrom(db, requests); LogInv(d.messages, d.threads, d.tickets)
  {
    hide Decide, Apply, LogInv;
    if requests != [] {
      var n := |requests| - 1;
      RunKeepsLog(db, requests[..n]);
      var d := RunFrom(db, requests[..n]);
      DecideIsAllowed(d, requests[n]);
      ApplyKeepsLog(d, Decide(d, requests[n]).0);
    }
  }

  lemma InitLog()
    ensures LogInv(Init().messages, Init().threads, Init().tickets)
  {}

  /** Under every interleaving, the messages of a conversation carry exactly the numbers 1..n: each
      of those numbers is carried by one message and by no other, and no other number occurs. */
  lemma NumbersAreGapless(requests: seq<Request>, c: Conv, number: nat)
    ensures var messages := RunFrom(Init(), requests).messages;
            && (1 <= number <= Count(messages, c) <==>
                exists i :: 0 <= i < |messages| && messages[i].conv == c && messages[i].number == number)
            && (forall i, j :: 0 <= i < j < |messages| && messages[i].conv == messages[j].conv == c ==>
                                 messages[i].number < messages[j].number)
  {
    hide Step;
    InitLog();
    RunKeepsLog(Init(), requests);
    var messages := RunFrom(Init(), requests).messages;
    Gapless(messages, c, number);
  }

  lemma Gapless(messages: seq<Message>, c: Conv, number: nat)
    requires Numbered(messages)
    ensures 1 <= number <= Count(messages, c) <==>
            exists i :: 0 <= i < |messages| && messages[i].conv == c && messages[i].number == number
    ensures forall i, j :: 0 <= i < j < |messages| && messages[i].conv == messages[j].conv == c ==>
                             messages[i].number < messages[j].number
  {
    hide Count, Numbered;
    if 1 <= number <= Count(messages, c) {
      var i := NumberIsCarried(messages, c, number);
    }
    forall i | 0 <= i < |messages| && messages[i].conv == c
      ensures 1 <= messages[i].number <= Count(messages, c)
    {
      NumberInRange(messages, i);
    }
    forall i, j | 0 <= i < j < |messages| && messages[i].conv == messages[j].conv == c
      ensures messages[i].number < messages[j].number
    {
      NumbersIncrease(messages, i, j);
    }
  }

  /** `latestSequence` of a thread is the size of its log, and no two threads join the same two users,
      in either order. */
  lemma OneThreadPerPair(requests: seq<Request>, s: nat, t: nat)
    requires s < |RunFrom(Init(), requests).threads| && t < |RunFrom(Init(), requests).threads|
    ensures var db := RunFrom(Init(), requests);
            && db.threads[t].latest == Count(db.messages, Direct(t))
            && (s != t ==> !(db.threads[s].a == db.threads[t].a && db.threads[s].b == db.threads[t].b)
                           && !(db.threads[s].a == db.threads[t].b && db.threads[s].b == db.threads[t].a))
  {
    hide Step, Count, CanonicalPair;
    InitLog();
    RunKeepsLog(Init(), requests);
    var x, y := RunFrom(Init(), requests).threads[s], RunFrom(Init(), requests).threads[t];
    CanonicalPairIsUnordered(x.a, x.b, y.a, y.b);
  }

  /** At most one message exists per device and idempotency key, and replies are one level deep. */
  lemma KeysAreUniqueRepliesAreFlat(requests: seq<Request>)
    ensures var messages := RunFrom(Init(), requests).messages; UniqueKeys(messages) && FlatReplies(messages)
  {
    hide Step, Numbered, ThreadsMatch, TicketsMatch, UniqueKeys, FlatReplies;
    InitLog();
    RunKeepsLog(Init(), requests);
  }

  // ----- idempotency -----

  lemma StepAppends(db: Db, q: Request)
    ensures |db.messages| <= |Step(db, q).messages| && Step(db, q).messages[..|db.messages|] == db.messages
  {
    hide Decide;
    DecideIsAllowed(db, q);
  }

  lemma {:induction false} LogIsAppendOnly(db: Db, requests: seq<Request>)
    ensures |db.messages| <= |RunFrom(db, requests).messages|
    ensures RunFrom(db, requests).messages[..|db.messages|] == db.messages
  {
    hide Step;
    if requests == [] {
      assert db.messages[..|db.messages|] == db.messages;
    } else {
      var n := |requests| - 1;
      LogIsAppendOnly(db, requests[..n]);
      var d := RunFrom(db, requests[..n]);
      StepAppends(d, requests[n]);
      assert Step(d, requests[n]).messages[..|d.messages|][..|db.messages|] == Step(d, requests[n]).messages[..|db.messages|];
    }
  }

  lemma KeyFound(messages: seq<Message>, i: nat)
    requires UniqueKeys(messages) && i < |messages|
    ensures FindKey(messages, messages[i].device, messages[i].key) == i
  {}

  /** Whatever ran in between, a direct send repeated with the same device and key, even with other
      contents, returns the message the key already has and changes nothing. */
  lemma RetryReturnsOriginal(db: Db, id: MessageId, between: seq<Request>, retry: Request)
    requires LogInv(db.messages, db.threads, db.tickets) && id < |db.messages|
    requires retry.Send? && retry.device == db.messages[id].device && retry.key == db.messages[id].key
    ensures var d := RunFrom(db, between); Decide(d, retry).1 == Existing(id) && Step(d, retry) == d
  {
    hide Decide, Apply, FindKey, Numbered, ThreadsMatch, TicketsMatch, FlatReplies, CheckReply, ThreadOf;
    var d := RunFrom(db, between);
    RunKeepsLog(db, between);
    LogIsAppendOnly(db, between);
    assert d.messages[..|db.messages|][id] == d.messages[id];
    KeyFound(d.messages, id);
    KnownKeySendsNothing(d, retry, id);
  }

  lemma KnownKeySendsNothing(db: Db, q: Request, id: MessageId)
    requires (q.Send? || q.GroupBegin?) && FindKey(db.messages, q.device, q.key) == id
    ensures Step(db, q) == db
    ensures q.Send? ==> Decide(db, q).1 == Existing(id)
    ensures q.GroupBegin? ==> Decide(db, q).1 == if (q.group, q.user) in db.members then Existing(id) else Forbidden
  {
    hide FindKey, ThreadOf, BumpThread, CheckReply, LastNumber;
    DecideIsAllowed(db, q);
  }

  /** A send that creates a message creates it under its own key, at the id it returns. */
  lemma SendCreates(db: Db, q: Request)
    requires q.Send? && Decide(db, q).1.Created?
    ensures var d := Step(db, q);
            && Decide(db, q).1 == Created(|db.messages|) && |d.messages| == |db.messages| + 1
            && d.messages[|db.messages|].device == q.device && d.messages[|db.messages|].key == q.key
  {
    hide FindKey, ThreadOf, BumpThread, CheckReply;
    DecideIsAllowed(db, q);
  }

  // ----- forwards -----

  datatype ForwardTarget =
    | ToUser(recipient: UserId, envelopes: seq<EnvelopeDto>)
    | ToGroup(group: GroupId)

  /** One target of a forward: a direct send, or a group send whose two steps run back to back. */
  function ForwardOne(db: Db, user: UserId, device: DeviceId, key: string, target: ForwardTarget): (Db, Reply) {
    match target
    case ToUser(recipient, envelopes) =>
      var q := Send(user, recipient, device, key, envelopes, None, true, true);
      if envelopes == [] then (db, BadRequest) else (Step(db, q), Decide(db, q).1)
    case ToGroup(g) =>
      var q := GroupBegin(user, g, device, key, None, true, true);
      var r := Decide(db, q).1;
      var d := Step(db, q);
      if r.Opened? then (Step(d, GroupCommit(r.ticket)), Decide(d, GroupCommit(r.ticket)).1) else (d, r)
  }

  /** The loop of `forward`: target i uses the key `key:i`, and a failing target stops nothing. */
  function ForwardAll(db: Db, user: UserId, device: DeviceId, key: string, targets: seq<ForwardTarget>): (Db, seq<Reply>) {
    if targets == [] then (db, [])
    else
      var n := |targets| - 1;
      var before := ForwardAll(db, user, device, key, targets[..n]);
      var last := ForwardOne(before.0, user, device, DerivedKey(key, n), targets[n]);
      (last.0, before.1 + [last.1])
  }

  /** Replaying a target whose key is in the log adds nothing: it answers with the old message, or it
      fails because the caller left the group or sent no envelopes. */
  lemma ReplayedTargetAddsNothing(db: Db, user: UserId, device: DeviceId, key: string, target: ForwardTarget, id: MessageId)
    requires FindKey(db.messages, device, key) == id
    ensures ForwardOne(db, user, device, key, target).0 == db
    ensures var r := ForwardOne(db, user, device, key, target).1; r == Existing(id) || r == Forbidden || r == BadRequest
  {
    hide Decide, Apply, FindKey;
    match target
    case ToUser(recipient, envelopes) =>
      KnownKeySendsNothing(db, Send(user, recipient, device, key, envelopes, None, true, true), id);
    case ToGroup(g) =>
      KnownKeySendsNothing(db, GroupBegin(user, g, device, key, None, true, true), id);
  }

  /** Whatever ran in between, replaying target i of a forward that succeeded once adds no message. */
  lemma ForwardReplayIsIdempotent(db: Db, id: MessageId, between: seq<Request>, user: UserId, device: DeviceId,
                                  key: string, i: nat, target: ForwardTarget)
    requires LogInv(db.messages, db.threads, db.tickets) && id < |db.messages|
    requires db.messages[id].device == device && db.messages[id].key == DerivedKey(key, i)
    ensures var d := RunFrom(db, between); ForwardOne(d, user, device, DerivedKey(key, i), target).0 == d
  {
    hide Step, Decide, FindKey, Numbered, ThreadsMatch, TicketsMatch, FlatReplies, DerivedKey;
    var d := RunFrom(db, between);
    RunKeepsLog(db, between);
    LogIsAppendOnly(db, between);
    assert d.messages[..|db.messages|][id] == d.messages[id];
    KeyFound(d.messages, id);
    ReplayedTargetAddsNothing(d, user, device, DerivedKey(key, i), target, id);
  }

  predicate Succeeded(r: Reply) {
    r.Created? || r.Existing?
  }

  predicate HasKey(messages: seq<Message>, device: DeviceId, key: string) {
    FindKey(messages, device, key) >= 0
  }

  lemma KeyStays(db: Db, q: Request, device: DeviceId, key: string)
    ensures HasKey(db.messages, device, key) ==> HasKey(Step(db, q).messages, device, key)
  {
    hide Step, FindKey;
    StepAppends(db, q);
    if HasKey(db.messages, device, key) {
      var i := FindKey(db.messages, device, key);
      var after := Step(db, q).messages;
      assert after[..|db.messages|][i] == after[i];
    }
  }

  lemma GroupSendRecords(db: Db, q: Request)
    requires q.GroupBegin? && Decide(db, q).1.Opened?
    ensures var t, d := Decide(db, q).1.ticket, Step(db, q);
            d.messages == db.messages && t < |d.tickets| && d.tickets[t].open
            && d.tickets[t].draft.device == q.device && d.tickets[t].draft.key == q.key
  {
    hide FindKey, CheckReply, LastNumber;
    DecideIsAllowed(db, q);
  }

  lemma CommitRecords(db: Db, t: nat)
    requires Decide(db, GroupCommit(t)).1.Created?
    ensures t < |db.tickets|
    ensures HasKey(Step(db, GroupCommit(t)).messages, db.tickets[t].draft.device, db.tickets[t].draft.key)
  {
    hide FindKey, NumberTaken;
    DecideIsAllowed(db, GroupCommit(t));
    var after := Step(db, GroupCommit(t)).messages;
    assert after[|db.messages|] == db.tickets[t].draft;
  }

  /** A commit either creates a message or fails; it never finds an old one. */
  lemma CommitReplies(db: Db, t: nat)
    ensures !Decide(db, GroupCommit(t)).1.Existing?
  {
    hide FindKey, NumberTaken;
  }

  lemma TargetRecords(db: Db, user: UserId, device: DeviceId, key: string, target: ForwardTarget)
    requires Succeeded(ForwardOne(db, user, device, key, target).1)
    ensures HasKey(ForwardOne(db, user, device, key, target).0.messages, device, key)
  {
    hide Step, Decide, FindKey;
    match target
    case ToUser(recipient, envelopes) =>
      var q := Send(user, recipient, device, key, envelopes, None, true, true);
      SendRecords(db, q);
      KeyStays(db, q, device, key);
    case ToGroup(g) =>
      var q := GroupBegin(user, g, device, key, None, true, true);
      if Decide(db, q).1.Opened? {
        var t, d := Decide(db, q).1.ticket, Step(db, q);
        GroupSendRecords(db, q);
        CommitReplies(d, t);
        CommitRecords(d, t);
      } else {
        BeginRecords(db, q);
        KeyStays(db, q, device, key);
      }
  }

  lemma SendRecords(db: Db, q: Request)
    requires q.Send? && Succeeded(Decide(db, q).1)
    ensures HasKey(Step(db, q).messages, q.device, q.key)
  {
    hide Step, FindKey, ThreadOf, BumpThread, CheckReply;
    if Decide(db, q).1.Created? {
      SendCreates(db, q);
    } else {
      KeyStays(db, q, q.device, q.key);
    }
  }

  lemma BeginRecords(db: Db, q: Request)
    requires q.GroupBegin? && Succeeded(Decide(db, q).1)
    ensures HasKey(db.messages, q.device, q.key)
  {
    hide FindKey, CheckReply, LastNumber;
  }

  lemma TargetKeepsKeys(db: Db, user: UserId, device: DeviceId, key: string, target: ForwardTarget, other: string)
    ensures HasKey(db.messages, device, other) ==>
              HasKey(ForwardOne(db, user, device, key, target).0.messages, device, other)
  {
    hide Step, Decide, FindKey;
    match target
    case ToUser(recipient, envelopes) =>
      KeyStays(db, Send(user, recipient, device, key, envelopes, None, true, true), device, other);
    case ToGroup(g) =>
      var q := GroupBegin(user, g, device, key, None, true, true);
      KeyStays(db, q, device, other);
      if Decide(db, q).1.Opened? {
        KeyStays(Step(db, q), GroupCommit(Decide(db, q).1.ticket), device, other);
      }
  }

  /** After a forward, every target that succeeded has its key in the log. */
  lemma {:induction false} ForwardRecords(db: Db, user: UserId, device: DeviceId, key: string, targets: seq<ForwardTarget>, i: nat)
    requires i < |targets|
    ensures |ForwardAll(db, user, device, key, targets).1| == |targets|
    ensures var r := ForwardAll(db, user, device, key, targets).1[i];
            r.Created? || r.Existing? ==>
              HasKey(ForwardAll(db, user, device, key, targets).0.messages, device, DerivedKey(key, i))
  {
    hide ForwardOne, FindKey, DerivedKey, HasKey;
    var n := |targets| - 1;
    var before := ForwardAll(db, user, device, key, targets[..n]);
    ForwardReplies(db, user, device, key, targets[..n]);
    if i < n {
      ForwardRecords(db, user, device, key, targets[..n], i);
      TargetKeepsKeys(before.0, user, device, DerivedKey(key, n), targets[n], DerivedKey(key, i));
    } else if Succeeded(ForwardOne(before.0, user, device, DerivedKey(key, n), targets[n]).1) {
      TargetRecords(before.0, user, device, DerivedKey(key, n), targets[n]);
    }
  }

  lemma {:induction false} ForwardReplies(db: Db, user: UserId, device: DeviceId, key: string, targets: seq<ForwardTarget>)
    ensures |ForwardAll(db, user, device, key, targets).1| == |targets|
  {
    hide ForwardOne;
    if targets != [] {
      ForwardReplies(db, user, device, key, targets[..|targets| - 1]);
    }
  }

  /** Replaying a forward all of whose keys are in the log leaves the whole state as it is. */
  lemma {:induction false} ReplayedForwardAddsNothing(db: Db, user: UserId, device: DeviceId, key: string, targets: seq<ForwardTarget>)
    requires forall i :: 0 <= i < |targets| ==> HasKey(db.messages, device, DerivedKey(key, i))
    ensures ForwardAll(db, user, device, key, targets).0 == db
  {
    hide ForwardOne, FindKey, DerivedKey;
    if targets != [] {
      var n := |targets| - 1;
      ReplayedForwardAddsNothing(db, user, device, key, targets[..n]);
      var k := DerivedKey(key, n);
      assert HasKey(db.messages, device, k);
      ReplayedTargetAddsNothing(db, user, device, k, targets[n], FindKey(db.messages, device, k));
    }
  }

  lemma {:induction false} RunKeepsKey(db: Db, requests: seq<Request>, device: DeviceId, key: string)
    requires HasKey(db.messages, device, key)
    ensures HasKey(RunFrom(db, requests).messages, device, key)
  {
    hide Step, HasKey;
    if requests != [] {
      RunKeepsKey(db, requests[..|requests| - 1], device, key);
      KeyStays(RunFrom(db, requests[..|requests| - 1]), requests[|requests| - 1], device, key);
    }
  }

  /** A forward whose targets all succeeded can be replayed at any later time, whatever ran in
      between and whatever the new targets say: nothing is sent again. */
  lemma SuccessfulForwardReplaysToNothing(db: Db, user: UserId, device: DeviceId, key: string,
                                          targets: seq<ForwardTarget>, between: seq<Request>, again: seq<ForwardTarget>)
    requires |again| <= |targets|
    requires forall r :: r in ForwardAll(db, user, device, key, targets).1 ==> r.Created? || r.Existing?
    ensures var d := RunFrom(ForwardAll(db, user, device, key, targets).0, between);
            ForwardAll(d, user, device, key, again).0 == d
  {
    hide Step, ForwardOne, HasKey, DerivedKey;
    var first := ForwardAll(db, user, device, key, targets);
    var d := RunFrom(first.0, between);
    forall i | 0 <= i < |again| ensures HasKey(d.messages, device, DerivedKey(key, i)) {
      ForwardRecords(db, user, device, key, targets, i);
      assert first.1[i] in first.1;
      RunKeepsKey(first.0, between, device, DerivedKey(key, i));
    }
    ReplayedForwardAddsNothing(d, user, device, key, again);
  }
}
