/**
 The unread counters: a cached index over the envelopes, brought up to date by jobs that are queued
 at most once per key. In every run a counter is exact or its job is queued.
 */
module UnreadLaws {
  import opened Prelude
  import opened Text
  import opened Messaging
  import opened EnvelopeLaws

  ghost predicate Exact(db: Db, key: CounterKey) {
    Counter(db.counters, key) == |UnreadSet(db.messages, db.envelopes, key)|
  }

  /** The counter of the key is right, or a recalculation of it is queued. */
  ghost predicate Fresh(db: Db, key: CounterKey) {
    key in db.recalc || Exact(db, key)
  }

  // ----- when the set of unread messages does not change -----

  lemma UnreadSame(messages: seq<Message>, envelopes: seq<Envelope>, messages': seq<Message>, envelopes': seq<Envelope>, key: CounterKey)
    requires |envelopes'| == |envelopes|
    requires forall k :: 0 <= k < |envelopes| ==> envelopes'[k].msg == envelopes[k].msg
    requires forall k :: 0 <= k < |envelopes| ==> (Unread(messages', envelopes'[k], key) <==> Unread(messages, envelopes[k], key))
    ensures UnreadSet(messages', envelopes', key) == UnreadSet(messages, envelopes, key)
  {
    hide Unread;
    var s, s' := UnreadSet(messages, envelopes, key), UnreadSet(messages', envelopes', key);
    forall m | m in s ensures m in s' {
      var k :| 0 <= k < |envelopes| && Unread(messages, envelopes[k], key) && envelopes[k].msg == m;
      assert Unread(messages', envelopes'[k], key);
    }
    forall m | m in s' ensures m in s {
      var k :| 0 <= k < |envelopes'| && Unread(messages', envelopes'[k], key) && envelopes'[k].msg == m;
      assert Unread(messages, envelopes[k], key);
    }
  }

  lemma UnreadAppend(messages: seq<Message>, envelopes: seq<Envelope>, rows: seq<Envelope>, key: CounterKey)
    requires forall i :: 0 <= i < |rows| ==> !Unread(messages, rows[i], key)
    ensures UnreadSet(messages, envelopes + rows, key) == UnreadSet(messages, envelopes, key)
  {
    hide Unread;
    var all := envelopes + rows;
    forall k | |envelopes| <= k < |all| ensures !Unread(messages, all[k], key) {
      assert all[k] == rows[k - |envelopes|];
    }
    forall m | m in UnreadSet(messages, envelopes, key) ensures m in UnreadSet(messages, all, key) {
      var k :| 0 <= k < |envelopes| && Unread(messages, envelopes[k], key) && envelopes[k].msg == m;
      assert all[k] == envelopes[k];
    }
    forall m | m in UnreadSet(messages, all, key) ensures m in UnreadSet(messages, envelopes, key) {
      var k :| 0 <= k < |all| && Unread(messages, all[k], key) && all[k].msg == m;
      assert all[k] == envelopes[k];
    }
  }

  lemma UnreadIgnoresNewMessages(messages: seq<Message>, m: Message, envelopes: seq<Envelope>, key: CounterKey)
    requires forall k :: 0 <= k < |envelopes| ==> envelopes[k].msg < |messages|
    ensures UnreadSet(messages + [m], envelopes, key) == UnreadSet(messages, envelopes, key)
  {
    UnreadSame(messages, envelopes, messages + [m], envelopes, key);
  }

  lemma KnowsMessages(db: Db)
    requires EnvInv(db)
    ensures forall k :: 0 <= k < |db.envelopes| ==> db.envelopes[k].msg < |db.messages|
  {
    hide Ascending, NoTwinRows;
    forall k | 0 <= k < |db.envelopes| ensures db.envelopes[k].msg < |db.messages| {
      assert WellAddressed(db.devices, db.messages, db.envelopes[k]);
    }
  }

  // ----- one lemma per kind of write -----

  lemma PostDirectKeepsFresh(db: Db, f: Effect, key: CounterKey)
    requires f.PostDirect? && Allowed(db, f) && EnvInv(db) && Fresh(db, key)
    ensures Fresh(Apply(db, f), key)
  {
    hide EnvInv, UnreadSet, BumpThread, ThreadOf, FindKey, CheckReply, Covers, AllAllowed, NoTwins;
    KnowsMessages(db);
    UnreadIgnoresNewMessages(db.messages, f.draft, db.envelopes, key);
    if key != (f.recipient, f.draft.conv) {
      var rows := DirectEnvelopes(db.devices, |db.messages|, f.draft.sender, f.recipient, f.envelopes, db.nextSequence);
      UnreadAppend(db.messages + [f.draft], db.envelopes, rows, key);
    }
  }

  lemma PostGroupKeepsFresh(db: Db, f: Effect, key: CounterKey)
    requires f.PostGroup? && Allowed(db, f) && EnvInv(db) && Fresh(db, key)
    ensures Fresh(Apply(db, f), key)
  {
    hide EnvInv, UnreadSet, FindKey, NumberTaken;
    KnowsMessages(db);
    UnreadIgnoresNewMessages(db.messages, db.tickets[f.ticket].draft, db.envelopes, key);
  }

  lemma SpreadKeepsFresh(db: Db, f: Effect, key: CounterKey)
    requires f.Spread? && Allowed(db, f) && Fresh(db, key)
    ensures Fresh(Apply(db, f), key)
  {
    hide UnreadSet, SpreadRows, Targets, HasRow;
    var m := db.messages[f.msg];
    TargetsAreTheOtherMembersDevices(db.devices, db.members, m.conv.group, m.device);
    SpreadRowsAreNew(db.envelopes, db.devices, f.msg, f.targets, f.cipher, db.nextSequence);
    var rows := SpreadRows(db.envelopes, db.devices, f.msg, f.targets, f.cipher, db.nextSequence);
    if key !in Apply(db, f).recalc {
      forall i | 0 <= i < |rows| ensures !Unread(db.messages, rows[i], key) {
        var dev := rows[i].device;
        assert dev in f.targets;
        assert db.devices[dev].user != m.sender ==>
                 (db.devices[dev].user, m.conv) in Affected(db.devices, f.targets, m.sender, m.conv);
      }
      UnreadAppend(db.messages, db.envelopes, rows, key);
    }
  }

  lemma StatusKeepsFresh(db: Db, f: Effect, key: CounterKey)
    requires f.Rewrite? || f.ReadMessage? || f.ReadAll?
    requires Allowed(db, f) && Fresh(db, key)
    ensures Fresh(Apply(db, f), key)
  {
    hide UnreadSet;
    var d := Apply(db, f);
    if f.ReadAll? && key == (f.user, f.conv) {
      EmptyAfterReadAll(db.messages, db.envelopes, f.user, f.conv);
    } else if key !in d.recalc {
      UnreadSame(db.messages, db.envelopes, d.messages, d.envelopes, key);
    }
  }

  lemma EmptyAfterReadAll(messages: seq<Message>, envelopes: seq<Envelope>, u: UserId, c: Conv)
    ensures UnreadSet(messages, ReadAllRows(envelopes, messages, u, c), (u, c)) == {}
  {}

  lemma OthersKeepFresh(db: Db, f: Effect, key: CounterKey)
    requires Allowed(db, f) && Fresh(db, key)
    requires !f.PostDirect? && !f.PostGroup? && !f.Spread? && !f.Rewrite? && !f.ReadMessage? && !f.Deliver? && !f.ReadAll?
    ensures Fresh(Apply(db, f), key)
  {
    hide UnreadSet, LastNumber, CheckReply;
  }

  // ----- late delivery receipts -----

  /** A DELIVERED receipt on an envelope that is READ, by which a message from somebody else becomes
      unread again for its reader, while no recalculation is queued. */
  ghost predicate TooLate(db: Db, k: int, key: CounterKey) {
    && 0 <= k < |db.envelopes| && db.envelopes[k].msg < |db.messages| && db.envelopes[k].status == Read
    && key == (db.envelopes[k].user, db.messages[db.envelopes[k].msg].conv) && key !in db.recalc
    && db.messages[db.envelopes[k].msg].sender != key.0
    && db.envelopes[k].msg !in UnreadSet(db.messages, db.envelopes, key)
  }

  /** A receipt leaves a counter right if and only if it is not too late in this sense. */
  lemma LateReceiptBreaksCounterIff(db: Db, k: nat, key: CounterKey)
    requires k < |db.envelopes| && db.envelopes[k].msg < |db.messages| && Fresh(db, key)
    ensures Fresh(Apply(db, Deliver(k)), key) <==> !TooLate(db, k, key)
  {
    hide UnreadSet;
    var e, d := db.envelopes[k], Apply(db, Deliver(k));
    if key != (e.user, db.messages[e.msg].conv) || db.messages[e.msg].sender == e.user {
      UnreadSame(db.messages, db.envelopes, d.messages, d.envelopes, key);
    } else {
      DeliveredUnread(db.messages, db.envelopes, k);
      var s := UnreadSet(db.messages, db.envelopes, key);
      assert e.msg in s ==> s + {e.msg} == s;
      assert e.msg !in s ==> |s + {e.msg}| == |s| + 1;
    }
  }

  lemma {:induction false} DeliveredUnread(messages: seq<Message>, envelopes: seq<Envelope>, k: nat)
    requires k < |envelopes| && envelopes[k].msg < |messages|
    ensures var e := envelopes[k];
            var key := (e.user, messages[e.msg].conv);
            && (messages[e.msg].sender != e.user ==>
                  (UnreadSet(messages, envelopes[k := e.(status := Delivered)], key)
                   == UnreadSet(messages, envelopes, key) + {e.msg}))
            && (messages[e.msg].sender != e.user && e.status != Read ==> e.msg in UnreadSet(messages, envelopes, key))
  {
    var e := envelopes[k];
    var key := (e.user, messages[e.msg].conv);
    if messages[e.msg].sender != e.user {
      var after := envelopes[k := e.(status := Delivered)];
      assert after[k].msg == e.msg && Unread(messages, after[k], key);
      forall m | m in UnreadSet(messages, envelopes, key) ensures m in UnreadSet(messages, after, key) {
        var i :| 0 <= i < |envelopes| && Unread(messages, envelopes[i], key) && envelopes[i].msg == m;
        assert Unread(messages, after[i], key) && after[i].msg == m;
      }
      forall m | m in UnreadSet(messages, after, key) ensures m in UnreadSet(messages, envelopes, key) + {e.msg} {
        var i :| 0 <= i < |after| && Unread(messages, after[i], key) && after[i].msg == m;
        if i != k {
          assert Unread(messages, envelopes[i], key);
        }
      }
    }
  }

  lemma ApplyFreshIff(db: Db, f: Effect, key: CounterKey)
    requires Allowed(db, f) && EnvInv(db) && Fresh(db, key)
    ensures Fresh(Apply(db, f), key) <==> !(f.Deliver? && TooLate(db, f.k, key))
  {
    hide Apply, EnvInv, Fresh, TooLate;
    if f.PostDirect? {
      PostDirectKeepsFresh(db, f, key);
    } else if f.PostGroup? {
      PostGroupKeepsFresh(db, f, key);
    } else if f.Spread? {
      SpreadKeepsFresh(db, f, key);
    } else if f.Deliver? {
      KnowsMessages(db);
      LateReceiptBreaksCounterIff(db, f.k, key);
    } else if f.Rewrite? || f.ReadMessage? || f.ReadAll? {
      StatusKeepsFresh(db, f, key);
    } else {
      OthersKeepFresh(db, f, key);
    }
  }

  // ----- all runs -----

  /** A DELIVERED ack that goes through and comes too late for the counter. */
  ghost predicate Breaks(db: Db, q: Request, key: CounterKey) {
    q.Ack? && !q.read && Decide(db, q).1 == Done && TooLate(db, FindEnvelope(db.envelopes, q.msg, q.device), key)
  }

  lemma StepFreshIff(db: Db, q: Request, key: CounterKey)
    requires EnvInv(db) && Fresh(db, key)
    ensures Fresh(Step(db, q), key) <==> !Breaks(db, q, key)
  {
    hide Apply, EnvInv, Fresh, TooLate, Allowed, FindKey, ThreadOf, BumpThread, CheckReply, Targets, LastNumber, FindEnvelope;
    DecideIsAllowed(db, q);
    ApplyFreshIff(db, Decide(db, q).0, key);
  }

  /** The exact law of a run: all along it the counter equals the number of distinct unread messages
      from others, or its recalculation is queued, if and only if no DELIVERED ack comes too late. */
  lemma {:induction false} CountersExactOrQueued(requests: seq<Request>, key: CounterKey)
    ensures (forall i :: 0 <= i <= |requests| ==> Fresh(RunFrom(Init(), requests[..i]), key)) <==>
            (forall i :: 0 <= i < |requests| ==> !Breaks(RunFrom(Init(), requests[..i]), requests[i], key))
  {
    hide Step, Breaks, EnvInv, Fresh;
    NothingUnreadYet(key);
    if requests != [] {
      var n := |requests| - 1;
      var before := requests[..n];
      assert forall i :: 0 <= i <= n ==> before[..i] == requests[..i];
      assert forall i :: 0 <= i < n ==> before[i] == requests[i];
      assert requests[..n + 1] == requests;
      CountersExactOrQueued(before, key);
      var db := RunFrom(Init(), before);
      EnvelopesAreWellAddressed(before);
      if Fresh(db, key) {
        StepFreshIff(db, requests[n], key);
      }
    }
  }

  lemma NothingUnreadYet(key: CounterKey)
    ensures Fresh(Init(), key)
  {}

  function Recalcs(order: seq<CounterKey>): seq<Request> {
    seq(|order|, i requires 0 <= i < |order| => Recalc(order[i]))
  }

  lemma RecalcStep(db: Db, key: CounterKey)
    ensures var d := Step(db, Recalc(key));
            && d.recalc == db.recalc - {key} && d.messages == db.messages && d.envelopes == db.envelopes
            && (key in db.recalc ==> Exact(d, key))
            && (key !in db.recalc ==> d == db)
            && (forall other :: other != key ==> Counter(d.counters, other) == Counter(db.counters, other))
  {
    hide UnreadSet;
  }

  /** Running every queued job once, in any order, leaves an empty queue and every counter exact. */
  lemma {:induction false} DrainMakesExact(db: Db, order: seq<CounterKey>, key: CounterKey)
    requires Fresh(db, key)
    ensures var d := RunFrom(db, Recalcs(order));
            && d.messages == db.messages && d.envelopes == db.envelopes
            && d.recalc == db.recalc - (set k | k in order)
            && (key !in d.recalc ==> Exact(d, key))
  {
    hide Step, UnreadSet;
    if order != [] {
      var n := |order| - 1;
      assert Recalcs(order)[..n] == Recalcs(order[..n]);
      DrainMakesExact(db, order[..n], key);
      RecalcStep(RunFrom(db, Recalcs(order[..n])), order[n]);
      assert (set k | k in order) == (set k | k in order[..n]) + {order[n]};
    }
  }

  // ----- a run with a late receipt -----

  const Reader: CounterKey := ("b", Direct(0))

  /** The state after one direct message from "a" to "b". */
  function OneMessage(status: Status, counters: map<CounterKey, nat>, recalc: set<CounterKey>): Db {
    Db([Device("a", true), Device("b", true)], {}, [Thread("a", "b", 1)],
       [Message(Direct(0), "a", 0, "k", 1, None, false)], [Envelope(0, 1, "b", 1, status, 1, 9)], 2, counters, recalc, [])
  }

  lemma TwoDevices()
    ensures Step(Step(Init(), RegisterDevice("a", None, true)), RegisterDevice("b", None, true))
         == Init().(devices := [Device("a", true), Device("b", true)])
  {}

  lemma SendOne()
    ensures var db := Init().(devices := [Device("a", true), Device("b", true)]);
            Step(db, Send("a", "b", 0, "k", [EnvelopeDto(1, 9)], None, true, false)) == OneMessage(Pending, map[], {Reader})
  {
    var db := Init().(devices := [Device("a", true), Device("b", true)]);
    var q := Send("a", "b", 0, "k", [EnvelopeDto(1, 9)], None, true, false);
    assert ActiveFor(db.devices, 1, "b") && Addressed(q.envelopes, 1) by { assert q.envelopes[0].device == 1; }
    assert Less("a", "b") && CanonicalPair("a", "b") == ("a", "b");
    assert FindThread(db.threads, "a", "b") == -1 && ThreadOf(db.threads, "a", "b") == 0;
    assert Decide(db, q).1 == Created(0);
  }

  lemma OneUnread(status: Status, counters: map<CounterKey, nat>, recalc: set<CounterKey>)
    ensures var db := OneMessage(status, counters, recalc);
            UnreadSet(db.messages, db.envelopes, Reader) == if status == Read then {} else {0}
  {
    var db := OneMessage(status, counters, recalc);
    assert Unread(db.messages, db.envelopes[0], Reader) <==> status != Read;
    assert db.envelopes[0].msg == 0;
  }

  lemma RecountOne(status: Status, counters: map<CounterKey, nat>)
    ensures Step(OneMessage(status, counters, {Reader}), Recalc(Reader))
         == OneMessage(status, counters[Reader := if status == Read then 0 else 1], {})
  {
    OneUnread(status, counters, {Reader});
  }

  lemma AckOne(status: Status, counters: map<CounterKey, nat>, read: bool)
    ensures Step(OneMessage(status, counters, {}), Ack("b", 0, 1, read))
         == if read then OneMessage(Read, counters, {Reader}) else OneMessage(Delivered, counters, {})
  {
    var db := OneMessage(status, counters, {});
    assert FindEnvelope(db.envelopes, 0, 1) == 0;
    assert ReadMessageRows(db.envelopes, "b", 0) == [db.envelopes[0].(status := Read)];
  }

  /** Such a run exists: a message is sent, read and counted, and then a DELIVERED ack arrives. The
      counter says 0, the message is unread, and nothing is queued. */
  lemma LateReceiptRun()
    ensures var d1 := Step(Step(Init(), RegisterDevice("a", None, true)), RegisterDevice("b", None, true));
            var d2 := Step(d1, Send("a", "b", 0, "k", [EnvelopeDto(1, 9)], None, true, false));
            var d3 := Step(Step(d2, Recalc(Reader)), Ack("b", 0, 1, true));
            !Fresh(Step(Step(d3, Recalc(Reader)), Ack("b", 0, 1, false)), Reader)
  {
    hide Step, UnreadSet;
    TwoDevices();
    SendOne();
    var counted: map<CounterKey, nat> := map[Reader := 1];
    var settled: map<CounterKey, nat> := map[Reader := 0];
    RecountOne(Pending, map[]);
    assert map[][Reader := 1] == counted && counted[Reader := 0] == settled;
    AckOne(Pending, counted, true);
    RecountOne(Read, counted);
    AckOne(Read, settled, false);
    OneUnread(Delivered, settled, {});
  }
}
