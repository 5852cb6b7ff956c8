/**
 Pending sync: `MessagesService.getPending` and the client loop that pages through it by the last
 envelope sequence it saw, with other requests running between the pages.
 */
module PendingSync {
  import opened Messaging
  import opened EnvelopeLaws

  predicate Waiting(e: Envelope, device: DeviceId, after: nat) {
    e.device == device && e.status != Read && e.sequence > after
  }

  /** The filtered rows in envelope-sequence order, without a limit. */
  function Backlog(envelopes: seq<Envelope>, device: DeviceId, after: nat): seq<Envelope> {
    if envelopes == [] then []
    else
      var rest := Backlog(envelopes[..|envelopes| - 1], device, after);
      var e := envelopes[|envelopes| - 1];
      if Waiting(e, device, after) then rest + [e] else rest
  }

  function Take(s: seq<Envelope>, limit: nat): seq<Envelope> {
    if |s| <= limit then s else s[..limit]
  }

  /** One page: the first `limit` rows of the backlog; `hasMore` when it is full. */
  function Page(envelopes: seq<Envelope>, device: DeviceId, after: nat, limit: nat): (seq<Envelope>, bool) {
    var p := Take(Backlog(envelopes, device, after), limit);
    (p, |p| == limit)
  }

  // ----- the backlog -----

  ghost predicate Rising(s: seq<Envelope>) {
    forall i, j :: 0 <= i < j < |s| ==> s[i].sequence < s[j].sequence
  }

  lemma {:induction false} BacklogIsTheWaitingRows(envelopes: seq<Envelope>, device: DeviceId, after: nat)
    requires Rising(envelopes)
    ensures forall e :: e in Backlog(envelopes, device, after) <==> e in envelopes && Waiting(e, device, after)
    ensures Rising(Backlog(envelopes, device, after))
  {
    if envelopes != [] {
      var n := |envelopes| - 1;
      BacklogIsTheWaitingRows(envelopes[..n], device, after);
      var rest := Backlog(envelopes[..n], device, after);
      forall i | 0 <= i < |rest| ensures rest[i].sequence < envelopes[n].sequence {
        assert rest[i] in rest;
      }
      assert envelopes == envelopes[..n] + [envelopes[n]];
    }
  }

  /** What a page leaves behind lies beyond its last row. */
  lemma PageIsTheFrontOfTheBacklog(envelopes: seq<Envelope>, device: DeviceId, after: nat, limit: nat)
    requires Rising(envelopes) && limit >= 1
    ensures var p := Page(envelopes, device, after, limit).0;
            && |p| <= limit && Rising(p) && (Page(envelopes, device, after, limit).1 <==> |p| == limit)
            && (forall e :: e in p ==>
                  e in envelopes && e.device == device && (e.status == Pending || e.status == Delivered) && e.sequence > after)
            && (forall e :: e in envelopes && e.device == device && (e.status == Pending || e.status == Delivered) && e.sequence > after ==>
                              e in p || (|p| == limit && e.sequence > p[|p| - 1].sequence))
  {
    hide Backlog;
    var b := Backlog(envelopes, device, after);
    var p := Page(envelopes, device, after, limit).0;
    BacklogIsTheWaitingRows(envelopes, device, after);
    forall e | e in p ensures e in b {}
    forall e | e in envelopes && Waiting(e, device, after)
      ensures e in p || (|p| == limit && e.sequence > p[|p| - 1].sequence)
    {
      var i :| 0 <= i < |b| && b[i] == e;
      if i < |p| {
        assert p[i] == e;
      }
    }
  }

  // ----- the paging loop -----

  /** The pages a client gets: page i is read from `states[i]` with the cursor that the earlier pages
      left; reading stops at the first page that is not full. */
  function Pages(states: seq<Db>, device: DeviceId, limit: nat): seq<Envelope> {
    if states == [] then []
    else
      var got := Pages(states[..|states| - 1], device, limit);
      got + Page(states[|states| - 1].envelopes, device, Cursor(got), limit).0
  }

  function Cursor(got: seq<Envelope>): nat {
    if got == [] then 0 else got[|got| - 1].sequence
  }

  /** Every page but the last was full, so the client went on; the last one was not. */
  ghost predicate Finished(states: seq<Db>, device: DeviceId, limit: nat) {
    && states != []
    && (forall i :: 0 <= i < |states| ==>
          (Page(states[i].envelopes, device, Cursor(Pages(states[..i], device, limit)), limit).1 <==> i < |states| - 1))
  }

  /** What the states of one run have in common, whatever requests run between each two pages. */
  ghost predicate OnOneRun(states: seq<Db>) {
    && (forall i :: 0 <= i < |states| ==> EnvInv(states[i]))
    && (forall i, j :: 0 <= i < j < |states| ==> Evolves(states[i].envelopes, states[j].envelopes))
  }

  /** Any run, cut anywhere into stretches between page reads, yields such states. */
  lemma CutsOfARun(requests: seq<Request>, cuts: seq<nat>, states: seq<Db>)
    requires |states| == |cuts|
    requires forall i :: 0 <= i < |cuts| ==> cuts[i] <= |requests| && states[i] == RunFrom(Init(), requests[..cuts[i]])
    requires forall i, j :: 0 <= i < j < |cuts| ==> cuts[i] <= cuts[j]
    ensures OnOneRun(states)
  {
    hide Step, EnvInv, Evolves;
    forall i | 0 <= i < |states| ensures EnvInv(states[i]) {
      EnvelopesAreWellAddressed(requests[..cuts[i]]);
    }
    forall i, j | 0 <= i < j < |states| ensures Evolves(states[i].envelopes, states[j].envelopes) {
      var later := requests[..cuts[j]];
      assert later[..cuts[i]] == requests[..cuts[i]];
      RunSplit(Init(), later, cuts[i]);
      RunEvolves(states[i], later[cuts[i]..]);
    }
  }

  lemma RisingRows(db: Db)
    requires EnvInv(db)
    ensures Rising(db.envelopes)
    ensures forall k :: 0 <= k < |db.envelopes| ==> db.envelopes[k].sequence >= 1
  {
    hide NoTwinRows, WellAddressed;
  }

  /** The pages together rise strictly, so nothing is handed out twice. */
  lemma {:induction false} PagesRise(states: seq<Db>, device: DeviceId, limit: nat)
    requires limit >= 1 && (forall i :: 0 <= i < |states| ==> EnvInv(states[i]))
    ensures Rising(Pages(states, device, limit))
  {
    hide EnvInv, Backlog;
    if states != [] {
      var n := |states| - 1;
      PagesRise(states[..n], device, limit);
      var got := Pages(states[..n], device, limit);
      RisingRows(states[n]);
      PageIsTheFrontOfTheBacklog(states[n].envelopes, device, Cursor(got), limit);
      var p := Page(states[n].envelopes, device, Cursor(got), limit).0;
      RisingConcat(got, p);
    }
  }

  lemma RisingConcat(s: seq<Envelope>, t: seq<Envelope>)
    requires Rising(s) && Rising(t)
    requires forall e :: e in t ==> e.sequence > Cursor(s)
    ensures Rising(s + t)
  {
    forall i, j | 0 <= i < j < |s + t| ensures (s + t)[i].sequence < (s + t)[j].sequence {
      if i < |s| <= j {
        assert t[j - |s|] in t;
      }
    }
  }

  /** The row with this sequence number waits for the device in the given state. */
  ghost predicate WaitsIn(db: Db, device: DeviceId, sequence: nat) {
    exists e :: e in db.envelopes && e.sequence == sequence && Waiting(e, device, 0)
  }

  ghost predicate HandedOut(got: seq<Envelope>, sequence: nat) {
    exists i :: 0 <= i < |got| && got[i].sequence == sequence
  }

  /** While the pages are full, a row that waits in every state read so far is already handed out
      or still lies ahead of the cursor. */
  lemma {:induction false} HandedOutOrAhead(states: seq<Db>, device: DeviceId, limit: nat, sequence: nat)
    requires limit >= 1 && (forall i :: 0 <= i < |states| ==> EnvInv(states[i]))
    requires forall i :: 0 <= i < |states| ==> WaitsIn(states[i], device, sequence)
    ensures var got := Pages(states, device, limit);
            HandedOut(got, sequence) || (states == [] || Cursor(got) < sequence)
    ensures var got := Pages(states, device, limit);
            states != [] && |Page(states[|states| - 1].envelopes, device, Cursor(Pages(states[..|states| - 1], device, limit)), limit).0| < limit
            ==> HandedOut(got, sequence)
  {
    hide EnvInv, Backlog, Page;
    if states != [] {
      var n := |states| - 1;
      HandedOutOrAhead(states[..n], device, limit, sequence);
      var got := Pages(states[..n], device, limit);
      var p := Page(states[n].envelopes, device, Cursor(got), limit).0;
      OnePageOn(states[n], device, limit, sequence, got, p);
    }
  }

  lemma OnePageOn(db: Db, device: DeviceId, limit: nat, sequence: nat, got: seq<Envelope>, p: seq<Envelope>)
    requires limit >= 1 && EnvInv(db) && WaitsIn(db, device, sequence)
    requires p == Page(db.envelopes, device, Cursor(got), limit).0
    requires HandedOut(got, sequence) || got == [] || Cursor(got) < sequence
    ensures HandedOut(got + p, sequence) || (|p| == limit && Cursor(got + p) < sequence)
  {
    hide EnvInv, Backlog, Page;
    RisingRows(db);
    PageIsTheFrontOfTheBacklog(db.envelopes, device, Cursor(got), limit);
    if HandedOut(got, sequence) {
      var i :| 0 <= i < |got| && got[i].sequence == sequence;
      assert (got + p)[i].sequence == sequence;
    } else {
      var e :| e in db.envelopes && e.sequence == sequence && Waiting(e, device, 0);
      assert e.sequence >= 1;
      assert Waiting(e, device, Cursor(got));
      if e in p {
        var i :| 0 <= i < |p| && p[i] == e;
        assert (got + p)[|got| + i].sequence == sequence;
      }
    }
  }

  /** Paging to the end. Whatever acks, sends and fan-outs run between the pages, the rows handed out
      rise strictly in envelope sequence, and every row that waits for the device in all the states
      read is handed out, exactly once. */
  lemma PagingMissesNothing(states: seq<Db>, device: DeviceId, limit: nat, sequence: nat)
    requires limit >= 1 && OnOneRun(states) && Finished(states, device, limit)
    requires forall i :: 0 <= i < |states| ==> WaitsIn(states[i], device, sequence)
    ensures var got := Pages(states, device, limit);
            && Rising(got)
            && (exists i :: 0 <= i < |got| && got[i].sequence == sequence)
            && (forall i, j :: 0 <= i < |got| && 0 <= j < |got| && got[i].sequence == got[j].sequence == sequence ==> i == j)
  {
    hide EnvInv, Backlog, Evolves;
    PagesRise(states, device, limit);
    HandedOutOrAhead(states, device, limit, sequence);
    var n := |states| - 1;
    var p := Page(states[n].envelopes, device, Cursor(Pages(states[..n], device, limit)), limit).0;
    RisingRows(states[n]);
    PageIsTheFrontOfTheBacklog(states[n].envelopes, device, Cursor(Pages(states[..n], device, limit)), limit);
    assert HandedOut(Pages(states, device, limit), sequence);
  }

  // ----- a store at rest -----

  /** Taking a page off the backlog and asking again after its last row continues the backlog. */
  lemma {:induction false} BacklogAfter(envelopes: seq<Envelope>, device: DeviceId, after: nat, k: nat)
    requires Rising(envelopes) && k < |Backlog(envelopes, device, after)|
    ensures Backlog(envelopes, device, Backlog(envelopes, device, after)[k].sequence) == Backlog(envelopes, device, after)[k + 1..]
  {
    var n := |envelopes| - 1;
    var b := Backlog(envelopes, device, after);
    BacklogIsTheWaitingRows(envelopes, device, after);
    var rest := Backlog(envelopes[..n], device, after);
    if k < |rest| {
      BacklogAfter(envelopes[..n], device, after, k);
      BacklogIsTheWaitingRows(envelopes[..n], device, after);
      assert rest[k] == b[k] && rest[k] in envelopes[..n];
      var e, seen := envelopes[n], b[k].sequence;
      assert after < seen < e.sequence;
      assert Waiting(e, device, seen) <==> Waiting(e, device, after);
      assert b[k + 1..] == if Waiting(e, device, after) then rest[k + 1..] + [e] else rest[k + 1..];
    } else {
      assert b[k] == envelopes[n];
      NothingAfter(envelopes, device, b[k].sequence);
    }
  }

  lemma {:induction false} NothingAfter(envelopes: seq<Envelope>, device: DeviceId, after: nat)
    requires forall i :: 0 <= i < |envelopes| ==> envelopes[i].sequence <= after
    ensures Backlog(envelopes, device, after) == []
  {
    if envelopes != [] {
      NothingAfter(envelopes[..|envelopes| - 1], device, after);
    }
  }

  datatype PendingReply = DeviceNotActive | PageOf(rows: seq<Envelope>, hasMore: bool)

  /** The client loop of the API reference against a store at rest: it terminates, and for an active
      device of the user the pages together are the whole filtered list; any other device is refused. */
  method SyncAll(devices: seq<Device>, user: UserId, envelopes: seq<Envelope>, device: DeviceId, limit: nat)
    returns (served: bool, got: seq<Envelope>)
    requires limit >= 1 && Rising(envelopes)
    requires forall k :: 0 <= k < |envelopes| ==> envelopes[k].sequence >= 1
    ensures served <==> ActiveFor(devices, device, user)
    ensures served ==> got == Backlog(envelopes, device, 0)
    ensures served ==> forall e :: e in got <==> e in envelopes && e.device == device && e.status != Read
    ensures !served ==> got == []
  {
    hide Backlog, ActiveFor;
    ghost var all := Backlog(envelopes, device, 0);
    BacklogIsTheWaitingRows(envelopes, device, 0);
    served, got := true, [];
    var after, hasMore := 0, true;
    while hasMore
      invariant |got| <= |all| && got == all[..|got|]
      invariant got != [] || !hasMore ==> ActiveFor(devices, device, user)
      invariant hasMore ==> Backlog(envelopes, device, after) == all[|got|..]
      invariant !hasMore ==> got == all
      decreases if hasMore then 1 + |all| - |got| else 0
    {
      var r := GetPending(devices, user, envelopes, device, after, limit);
      if r.DeviceNotActive? {
        return false, [];
      }
      got, hasMore := got + r.rows, r.hasMore;
      if hasMore {
        after := r.rows[|r.rows| - 1].sequence;
        BacklogAfter(envelopes, device, 0, |got| - 1);
        assert all[|got| - 1] == r.rows[|r.rows| - 1];
      }
    }
  }

  /** `getPending`: refused unless the device is an active one of the user; otherwise one page. */
  method GetPending(devices: seq<Device>, user: UserId, envelopes: seq<Envelope>, device: DeviceId, after: nat, limit: nat)
    returns (r: PendingReply)
    ensures r.PageOf? <==> ActiveFor(devices, device, user)
    ensures r.PageOf? ==> (r.rows, r.hasMore) == Page(envelopes, device, after, limit)
  {
    if !(device < |devices| && devices[device].user == user && devices[device].active) {
      return DeviceNotActive;
    }
    var found := FindWaiting(envelopes, device, after);
    var page := if |found| <= limit then found else found[..limit];
    r := PageOf(page, |page| == limit);
  }

  /** The query without its limit: filter, ascending order. */
  method FindWaiting(envelopes: seq<Envelope>, device: DeviceId, after: nat) returns (found: seq<Envelope>)
    ensures found == Backlog(envelopes, device, after)
  {
    found := [];
    for k := 0 to |envelopes|
      invariant found == Backlog(envelopes[..k], device, after)
    {
      assert envelopes[..k + 1][..k] == envelopes[..k];
      var e := envelopes[k];
      if e.device == device && e.status != Read && e.sequence > after {
        found := found + [e];
      }
    }
    assert envelopes[..|envelopes|] == envelopes;
  }
}
