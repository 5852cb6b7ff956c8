/**
 Message media: `MediaService`, the attachment part of sends and forwards, the clean-up after a
 delete, and the job that reclaims stale uploads. Media rows bind to messages, forwards share the
 storage key of their source, and a storage key is handed to deletion when the last reference goes.

 Media ids and storage keys are random in the program; here both come from one counter.
 */
module Media {
  import opened Prelude

  type UserId = nat
  type MediaId = nat
  type MessageId = nat
  type BlobKey = nat

  datatype Row = Row(user: UserId, message: Option<MessageId>, key: BlobKey, complete: bool, createdAt: int)

  /** The media table, one `deleted` flag per message, and every key ever handed to deletion. */
  datatype Store = Store(rows: map<MediaId, Row>, next: nat, deleted: seq<bool>, handed: set<BlobKey>)

  datatype Config = Config(maxAttachments: nat, pendingTimeout: nat)

  datatype Request =
    | InitUpload(user: UserId, now: int)
    | CompleteUpload(user: UserId, id: MediaId, uploaded: bool)
    | SendWith(user: UserId, attachments: seq<MediaId>)
    | ForwardFrom(user: UserId, source: MessageId, now: int)
    | DeleteForEveryone(message: MessageId)
    | Tombstone(message: MessageId)
    | Untombstone(message: MessageId)
    | ReclaimStale(now: int, failing: set<BlobKey>)

  datatype Reply = Ok | BadRequest | Forbidden | NotFound | Conflict

  // ----- checks -----

  predicate Distinct(ids: seq<MediaId>) {
    forall i, j :: 0 <= i < j < |ids| ==> ids[i] != ids[j]
  }

  function CheckRow(rows: map<MediaId, Row>, user: UserId, id: MediaId): Reply
    requires id in rows
  {
    if rows[id].user != user then Forbidden
    else if rows[id].message.Some? then BadRequest
    else if !rows[id].complete then BadRequest
    else Ok
  }

  /** The first complaint of the loop over the attached rows. */
  function CheckRows(rows: map<MediaId, Row>, user: UserId, ids: seq<MediaId>): (r: Reply)
    requires forall i :: 0 <= i < |ids| ==> ids[i] in rows
    ensures r == Ok <==> forall i :: 0 <= i < |ids| ==> CheckRow(rows, user, ids[i]) == Ok
  {
    if ids == [] then Ok
    else
      var before := CheckRows(rows, user, ids[..|ids| - 1]);
      if before != Ok then before else CheckRow(rows, user, ids[|ids| - 1])
  }

  /** `assertAttachmentsOwned`. */
  function CheckAttachments(cfg: Config, rows: map<MediaId, Row>, user: UserId, ids: seq<MediaId>): Reply {
    if ids == [] then Ok
    else if |ids| > cfg.maxAttachments then BadRequest
    else if !Distinct(ids) then BadRequest
    else if exists i :: 0 <= i < |ids| && ids[i] !in rows then BadRequest
    else CheckRows(rows, user, ids)
  }

  // ----- writes -----

  function Bind(rows: map<MediaId, Row>, ids: seq<MediaId>, m: MessageId): (r: map<MediaId, Row>)
    ensures r.Keys == rows.Keys
  {
    map id | id in rows :: if id in ids && rows[id].message.None? then rows[id].(message := Some(m)) else rows[id]
  }

  /** The media rows of a message, oldest first; ids are handed out in creation order. */
  function RowsOf(rows: map<MediaId, Row>, m: MessageId, below: nat): (ids: seq<MediaId>)
    ensures forall i :: 0 <= i < |ids| ==> ids[i] in rows && rows[ids[i]].message == Some(m)
  {
    if below == 0 then []
    else
      var rest := RowsOf(rows, m, below - 1);
      if below - 1 in rows && rows[below - 1].message == Some(m) then rest + [below - 1] else rest
  }

  /** `cloneMediaForForward`: a COMPLETE row per source row, same storage key, bound to the new message. */
  function CloneAll(rows: map<MediaId, Row>, sources: seq<MediaId>, user: UserId, m: MessageId, now: int, first: nat)
    : map<MediaId, Row>
    requires forall i :: 0 <= i < |sources| ==> sources[i] in rows
  {
    if sources == [] then rows
    else
      var n := |sources| - 1;
      CloneAll(rows, sources[..n], user, m, now, first)[first + n := Row(user, Some(m), rows[sources[n]].key, true, now)]
  }

  /** Rows of other messages with this key; SQL's `<>` leaves unbound rows out. */
  predicate OtherReference(rows: map<MediaId, Row>, m: MessageId, key: BlobKey) {
    exists id :: id in rows && rows[id].key == key && rows[id].message.Some? && rows[id].message != Some(m)
  }

  /** The keys `cleanupMessageMedia` hands to deletion. */
  function Unreferenced(rows: map<MediaId, Row>, m: MessageId): set<BlobKey> {
    set id | id in rows && rows[id].message == Some(m) && !OtherReference(rows, m, rows[id].key) :: rows[id].key
  }

  predicate Stale(row: Row, cutoff: int) {
    !row.complete && row.createdAt < cutoff
  }

  function StaleKeys(rows: map<MediaId, Row>, cutoff: int, failing: set<BlobKey>): set<BlobKey> {
    set id | id in rows && Stale(rows[id], cutoff) && rows[id].key !in failing :: rows[id].key
  }

  function Remaining(rows: map<MediaId, Row>, cutoff: int, failing: set<BlobKey>): map<MediaId, Row> {
    map id | id in rows && !(Stale(rows[id], cutoff) && rows[id].key !in failing) :: rows[id]
  }

  function SetDeleted(s: Store, m: MessageId, deleted: bool): Store
    requires m < |s.deleted|
  {
    s.(deleted := s.deleted[m := deleted])
  }

  function Step(cfg: Config, s: Store, q: Request): (Store, Reply) {
    match q
    case InitUpload(user, now) =>
      (s.(rows := s.rows[s.next := Row(user, None, s.next, false, now)], next := s.next + 1), Ok)
    case CompleteUpload(user, id, uploaded) =>
      if id !in s.rows then (s, NotFound)
      else if s.rows[id].user != user then (s, Forbidden)
      else if s.rows[id].complete || !uploaded then (s, BadRequest)
      else (s.(rows := s.rows[id := s.rows[id].(complete := true)]), Ok)
    case SendWith(user, ids) =>
      var r := CheckAttachments(cfg, s.rows, user, ids);
      if r != Ok then (s, r)
      else (s.(rows := Bind(s.rows, ids, |s.deleted|), deleted := s.deleted + [false]), Ok)
    case ForwardFrom(user, source, now) =>
      if source >= |s.deleted| then (s, NotFound)
      else if s.deleted[source] then (s, Forbidden)
      else
        var sources := RowsOf(s.rows, source, s.next);
        (s.(rows := CloneAll(s.rows, sources, user, |s.deleted|, now, s.next), next := s.next + |sources|,
            deleted := s.deleted + [false]), Ok)
    case DeleteForEveryone(m) =>
      if m >= |s.deleted| then (s, NotFound)
      else (SetDeleted(s, m, true).(handed := s.handed + Unreferenced(s.rows, m)), Ok)
    case Tombstone(m) =>
      if m >= |s.deleted| then (s, NotFound)
      else if s.deleted[m] then (s, Conflict)
      else (SetDeleted(s, m, true), Ok)
    case Untombstone(m) =>
      if m >= |s.deleted| then (s, NotFound)
      else if !s.deleted[m] then (s, BadRequest)
      else (SetDeleted(s, m, false), Ok)
    case ReclaimStale(now, failing) =>
      var cutoff := now - cfg.pendingTimeout;
      (s.(rows := Remaining(s.rows, cutoff, failing), handed := s.handed + StaleKeys(s.rows, cutoff, failing)), Ok)
  }

  function Init(): Store {
    Store(map[], 0, [], {})
  }

  function RunFrom(cfg: Config, s: Store, requests: seq<Request>): Store {
    if requests == [] then s
    else Step(cfg, RunFrom(cfg, s, requests[..|requests| - 1]), requests[|requests| - 1]).0
  }

  // ----- invariants -----

  /** Names are used up in order; a bound row is COMPLETE; an unbound row's key is its own. */
  ghost predicate Tidy(s: Store) {
    && (forall id :: id in s.rows ==> id < s.next && s.rows[id].key < s.next)
    && (forall id :: id in s.rows && s.rows[id].message.Some? ==> s.rows[id].complete && s.rows[id].message.value < |s.deleted|)
    && (forall id, other :: id in s.rows && other in s.rows && id != other && s.rows[id].message.None? ==>
                              s.rows[id].key != s.rows[other].key)
    && (forall id :: id in s.rows && s.rows[id].message.None? ==> s.rows[id].key !in s.handed)
    && (forall k :: k in s.handed ==> k < s.next)
  }

  /** If the key was handed to deletion, it is referenced by tombstoned messages only. */
  ghost predicate Safe(s: Store, key: BlobKey) {
    key in s.handed ==>
      forall id :: id in s.rows && s.rows[id].key == key ==>
                     s.rows[id].message.Some? && s.rows[id].message.value < |s.deleted| && s.deleted[s.rows[id].message.value]
  }

  /** The request restores no message that carries the key once that was handed to deletion. */
  ghost predicate Harmless(s: Store, q: Request, key: BlobKey) {
    q.Untombstone? && key in s.handed ==> forall id :: id in s.rows && s.rows[id].message == Some(q.message) ==> s.rows[id].key != key
  }

  lemma {:induction false} RowsOfListsAll(rows: map<MediaId, Row>, m: MessageId, below: nat)
    ensures forall id :: id in rows && id < below && rows[id].message == Some(m) ==> id in RowsOf(rows, m, below)
  {
    if below > 0 {
      RowsOfListsAll(rows, m, below - 1);
    }
  }

  lemma InitUploadKeeps(cfg: Config, s: Store, q: Request)
    requires q.InitUpload? && Tidy(s)
    ensures Tidy(Step(cfg, s, q).0) && (forall key :: Safe(s, key) ==> Safe(Step(cfg, s, q).0, key))
  {}

  lemma CompleteUploadKeeps(cfg: Config, s: Store, q: Request)
    requires q.CompleteUpload? && Tidy(s)
    ensures Tidy(Step(cfg, s, q).0) && (forall key :: Safe(s, key) ==> Safe(Step(cfg, s, q).0, key))
  {
    hide CheckAttachments, Bind, RowsOf, CloneAll, Unreferenced, StaleKeys, Remaining;
  }

  lemma SendKeeps(cfg: Config, s: Store, q: Request)
    requires q.SendWith? && Tidy(s)
    ensures Tidy(Step(cfg, s, q).0) && (forall key :: Safe(s, key) ==> Safe(Step(cfg, s, q).0, key))
  {
    hide CheckRows, Distinct;
    var s' := Step(cfg, s, q).0;
    if CheckAttachments(cfg, s.rows, q.user, q.attachments) == Ok {
      forall id | id in s.rows && id in q.attachments ensures s.rows[id].complete && s.rows[id].message.None? {
        var i :| 0 <= i < |q.attachments| && q.attachments[i] == id;
        assert CheckRow(s.rows, q.user, q.attachments[i]) == Ok;
      }
    }
  }

  lemma ForwardKeeps(cfg: Config, s: Store, q: Request)
    requires q.ForwardFrom? && Tidy(s)
    ensures Tidy(Step(cfg, s, q).0) && (forall key :: Safe(s, key) ==> Safe(Step(cfg, s, q).0, key))
  {
    hide RowsOf, CloneAll, Tidy, Safe;
    if q.source < |s.deleted| && !s.deleted[q.source] {
      var sources := RowsOf(s.rows, q.source, s.next);
      CloneAllKeeps(s, q.source, sources, q.user, q.now);
    }
  }

  /** A copy of a live message's row, under a fresh id, for the message just created. */
  lemma CloneKeeps(s: Store, source: MediaId, user: UserId, now: int)
    requires Tidy(s) && source in s.rows && s.rows[source].message.Some? && |s.deleted| > 0
    requires !s.deleted[s.rows[source].message.value] && !s.deleted[|s.deleted| - 1]
    ensures var s' := s.(rows := s.rows[s.next := Row(user, Some(|s.deleted| - 1), s.rows[source].key, true, now)], next := s.next + 1);
            Tidy(s') && (forall key :: Safe(s, key) ==> Safe(s', key))
  {}

  lemma NewMessageKeeps(s: Store)
    requires Tidy(s)
    ensures Tidy(s.(deleted := s.deleted + [false])) && (forall key :: Safe(s, key) ==> Safe(s.(deleted := s.deleted + [false]), key))
  {}

  lemma NamesAreUsed(s: Store)
    requires Tidy(s)
    ensures forall id :: id in s.rows ==> id < s.next
  {}

  /** Forwarding touches no existing row, and adds one row per source under the next ids. */
  lemma {:induction false} ClonedRows(rows: map<MediaId, Row>, sources: seq<MediaId>, user: UserId, m: MessageId, now: int, first: nat)
    requires forall i :: 0 <= i < |sources| ==> sources[i] in rows
    requires forall id :: id in rows ==> id < first
    ensures forall id :: id in rows ==> id in CloneAll(rows, sources, user, m, now, first)
                                        && CloneAll(rows, sources, user, m, now, first)[id] == rows[id]
    ensures forall id :: id in CloneAll(rows, sources, user, m, now, first) && id !in rows ==> first <= id < first + |sources|
    ensures forall id :: first <= id < first + |sources| ==>
                           id in CloneAll(rows, sources, user, m, now, first)
                           && CloneAll(rows, sources, user, m, now, first)[id] == Row(user, Some(m), rows[sources[id - first]].key, true, now)
  {
    if sources != [] {
      ClonedRows(rows, sources[..|sources| - 1], user, m, now, first);
    }
  }

  lemma {:induction false} CloneAllKeeps(s: Store, m: MessageId, sources: seq<MediaId>, user: UserId, now: int)
    requires Tidy(s) && m < |s.deleted| && !s.deleted[m]
    requires forall i :: 0 <= i < |sources| ==> sources[i] in s.rows && s.rows[sources[i]].message == Some(m)
    ensures var s' := s.(rows := CloneAll(s.rows, sources, user, |s.deleted|, now, s.next), next := s.next + |sources|,
                         deleted := s.deleted + [false]);
            Tidy(s') && (forall key :: Safe(s, key) ==> Safe(s', key))
  {
    hide Safe, Tidy;
    if sources == [] {
      NewMessageKeeps(s);
    } else {
      var n := |sources| - 1;
      CloneAllKeeps(s, m, sources[..n], user, now);
      var s1 := s.(rows := CloneAll(s.rows, sources[..n], user, |s.deleted|, now, s.next), next := s.next + n,
                   deleted := s.deleted + [false]);
      NamesAreUsed(s);
      ClonedRows(s.rows, sources[..n], user, |s.deleted|, now, s.next);
      assert s1.rows[sources[n]] == s.rows[sources[n]];
      CloneKeeps(s1, sources[n], user, now);
    }
  }

  lemma DeleteKeeps(cfg: Config, s: Store, q: Request)
    requires q.DeleteForEveryone? && Tidy(s)
    ensures Tidy(Step(cfg, s, q).0) && (forall key :: Safe(s, key) ==> Safe(Step(cfg, s, q).0, key))
  {
    hide OtherReference;
    if q.message < |s.deleted| {
      var k := Unreferenced(s.rows, q.message);
      forall id | id in s.rows && s.rows[id].key in k ensures s.rows[id].message == Some(q.message) {
        var id' :| id' in s.rows && s.rows[id'].message == Some(q.message)
                   && !OtherReference(s.rows, q.message, s.rows[id'].key) && s.rows[id'].key == s.rows[id].key;
        LastReference(s.rows, q.message, id', id);
      }
    }
  }

  lemma LastReference(rows: map<MediaId, Row>, m: MessageId, id: MediaId, other: MediaId)
    requires id in rows && other in rows && rows[id].key == rows[other].key
    requires rows[id].message == Some(m) && !OtherReference(rows, m, rows[id].key)
    ensures rows[other].message.Some? ==> rows[other].message == Some(m)
  {}

  lemma TombstoneKeeps(cfg: Config, s: Store, q: Request)
    requires q.Tombstone? && Tidy(s)
    ensures Tidy(Step(cfg, s, q).0) && (forall key :: Safe(s, key) ==> Safe(Step(cfg, s, q).0, key))
  {
    hide CheckAttachments, Bind, RowsOf, CloneAll, Unreferenced, StaleKeys, Remaining;
  }

  /** Restoring a message keeps a blob safe exactly when the message does not carry it or it was not
      handed over. */
  lemma RestoreIsSafeIffBlobsRemain(cfg: Config, s: Store, q: Request)
    requires q.Untombstone? && Tidy(s)
    ensures Tidy(Step(cfg, s, q).0)
    ensures forall key :: Safe(s, key) ==>
              (Safe(Step(cfg, s, q).0, key) <==>
               (key in s.handed ==> forall id :: id in s.rows && s.rows[id].message == Some(q.message) ==> s.rows[id].key != key))
  {
    hide CheckAttachments, Bind, RowsOf, CloneAll, Unreferenced, StaleKeys, Remaining;
    var s' := Step(cfg, s, q).0;
    assert s'.rows == s.rows && s'.handed == s.handed;
    forall key, id | Safe(s, key) && Safe(s', key) && key in s.handed && id in s.rows && s.rows[id].message == Some(q.message)
      ensures s.rows[id].key != key
    {
      assert id in s'.rows;
    }
  }

  lemma ReclaimKeeps(cfg: Config, s: Store, q: Request)
    requires q.ReclaimStale? && Tidy(s)
    ensures Tidy(Step(cfg, s, q).0) && (forall key :: Safe(s, key) ==> Safe(Step(cfg, s, q).0, key))
    ensures var gone := StaleKeys(s.rows, q.now - cfg.pendingTimeout, q.failing);
            forall id :: id in Step(cfg, s, q).0.rows ==> s.rows[id].key !in gone
  {
    var cutoff := q.now - cfg.pendingTimeout;
    forall gone, id | gone in s.rows && Stale(s.rows[gone], cutoff) && id in s.rows && id != gone
      ensures s.rows[gone].key != s.rows[id].key
    {
      assert s.rows[gone].message.None?;
    }
  }

  /** Every step keeps the table tidy, and it keeps a blob safe exactly when it restores no message that
      carries the blob once that was handed over. */
  lemma StepKeeps(cfg: Config, s: Store, q: Request)
    requires Tidy(s)
    ensures Tidy(Step(cfg, s, q).0)
    ensures forall key :: Safe(s, key) ==> (Safe(Step(cfg, s, q).0, key) <==> Harmless(s, q, key))
  {
    hide Tidy, Safe, Step;
    match q
    case InitUpload(_, _) => InitUploadKeeps(cfg, s, q);
    case CompleteUpload(_, _, _) => CompleteUploadKeeps(cfg, s, q);
    case SendWith(_, _) => SendKeeps(cfg, s, q);
    case ForwardFrom(_, _, _) => ForwardKeeps(cfg, s, q);
    case DeleteForEveryone(_) => DeleteKeeps(cfg, s, q);
    case Tombstone(_) => TombstoneKeeps(cfg, s, q);
    case Untombstone(_) => RestoreIsSafeIffBlobsRemain(cfg, s, q);
    case ReclaimStale(_, _) => ReclaimKeeps(cfg, s, q);
  }

  ghost predicate HarmlessRun(cfg: Config, s: Store, requests: seq<Request>, key: BlobKey) {
    forall i :: 0 <= i < |requests| ==> Harmless(RunFrom(cfg, s, requests[..i]), requests[i], key)
  }

  lemma {:induction false} RunKeepsTidy(cfg: Config, s: Store, requests: seq<Request>)
    requires Tidy(s)
    ensures Tidy(RunFrom(cfg, s, requests))
  {
    hide Step, Tidy, Safe, Harmless;
    if requests != [] {
      var n := |requests| - 1;
      RunKeepsTidy(cfg, s, requests[..n]);
      StepKeeps(cfg, RunFrom(cfg, s, requests[..n]), requests[n]);
    }
  }

  /** For each blob: a run never leaves a live message, forwarded or not, at the deleted blob exactly
      when it restores no message that carries the blob once that is gone. */
  lemma {:induction false} SafeThroughoutIffHarmless(cfg: Config, s: Store, requests: seq<Request>, key: BlobKey)
    requires Tidy(s) && Safe(s, key)
    ensures (forall i :: 0 <= i <= |requests| ==> Safe(RunFrom(cfg, s, requests[..i]), key)) <==> HarmlessRun(cfg, s, requests, key)
  {
    hide Step, Tidy, Safe, Harmless;
    if requests != [] {
      var n := |requests| - 1;
      var before := requests[..n];
      assert forall i :: 0 <= i <= n ==> before[..i] == requests[..i];
      assert forall i :: 0 <= i < n ==> before[i] == requests[i];
      assert requests[..n + 1] == requests;
      SafeThroughoutIffHarmless(cfg, s, before, key);
      RunKeepsTidy(cfg, s, before);
      StepKeeps(cfg, RunFrom(cfg, s, before), requests[n]);
      assert HarmlessRun(cfg, s, requests, key) <==>
             HarmlessRun(cfg, s, before, key) && Harmless(RunFrom(cfg, s, before), requests[n], key);
    }
  }

  /** In every run that restores no message with the blob once that is gone: if its storage key was
      handed to deletion, it is referenced only by tombstoned messages or by no row. */
  lemma DeletedBlobsAreUnreferenced(cfg: Config, requests: seq<Request>, key: BlobKey)
    requires HarmlessRun(cfg, Init(), requests, key)
    ensures Safe(RunFrom(cfg, Init(), requests), key)
  {
    hide RunFrom, Tidy, Safe, Harmless;
    EmptyStore();
    SafeThroughoutIffHarmless(cfg, Init(), requests, key);
    assert requests[..|requests|] == requests;
  }

  lemma EmptyStore()
    ensures Tidy(Init()) && forall key :: Safe(Init(), key)
  {}

  lemma NoRestoresIsHarmless(cfg: Config, s: Store, requests: seq<Request>)
    requires forall i :: 0 <= i < |requests| ==> !requests[i].Untombstone?
    ensures forall key :: HarmlessRun(cfg, s, requests, key)
  {
    hide Step;
  }

  lemma {:induction false} RunOnlyHandsOver(cfg: Config, s: Store, requests: seq<Request>)
    ensures s.handed <= RunFrom(cfg, s, requests).handed
  {
    if requests != [] {
      RunOnlyHandsOver(cfg, s, requests[..|requests| - 1]);
    }
  }

  /** From the moment a key is handed to deletion: after any further requests that restore no message
      with it, every row that carries it belongs to a tombstoned message. */
  lemma HandedStaysHanded(cfg: Config, s: Store, requests: seq<Request>, key: BlobKey)
    requires Tidy(s) && Safe(s, key) && key in s.handed && HarmlessRun(cfg, s, requests, key)
    ensures var s' := RunFrom(cfg, s, requests);
            && key in s'.handed
            && (forall id :: id in s'.rows && s'.rows[id].key == key ==>
                  s'.rows[id].message.Some? && s'.rows[id].message.value < |s'.deleted| && s'.deleted[s'.rows[id].message.value])
  {
    hide RunFrom, Tidy, Harmless;
    SafeThroughoutIffHarmless(cfg, s, requests, key);
    RunOnlyHandsOver(cfg, s, requests);
    assert requests[..|requests|] == requests;
  }

  lemma RunSnoc(cfg: Config, s: Store, requests: seq<Request>, q: Request)
    ensures RunFrom(cfg, s, requests + [q]) == Step(cfg, RunFrom(cfg, s, requests), q).0
  {
    hide Step;
    assert (requests + [q])[..|requests|] == requests;
  }

  /** One uploaded file, and the message it is then attached to. */
  function OneFile(attached: Option<MessageId>, complete: bool, deleted: seq<bool>, handed: set<BlobKey>): Store {
    Store(map[0 := Row(7, attached, 0, complete, 0)], 1, deleted, handed)
  }

  lemma SendOneFile(cfg: Config)
    requires cfg.maxAttachments >= 1
    ensures Step(cfg, OneFile(None, true, [], {}), SendWith(7, [0])).0 == OneFile(Some(0), true, [false], {})
  {
    var rows := OneFile(None, true, [], {}).rows;
    assert CheckRow(rows, 7, 0) == Ok;
    assert CheckAttachments(cfg, rows, 7, [0]) == Ok;
    assert Bind(rows, [0], 0) == OneFile(Some(0), true, [false], {}).rows;
  }

  lemma DeleteOneFile(cfg: Config)
    ensures Step(cfg, OneFile(Some(0), true, [false], {}), DeleteForEveryone(0)).0 == OneFile(Some(0), true, [true], {0})
  {
    var rows := OneFile(Some(0), true, [false], {}).rows;
    assert rows[0].message == Some(0) && !OtherReference(rows, 0, 0);
    assert Unreferenced(rows, 0) == {0};
  }

  lemma UploadOneFile(cfg: Config)
    ensures Step(cfg, Init(), InitUpload(7, 0)).0 == OneFile(None, false, [], {})
    ensures Step(cfg, OneFile(None, false, [], {}), CompleteUpload(7, 0, true)).0 == OneFile(None, true, [], {})
  {}

  lemma RestoreOneFile(cfg: Config)
    ensures Step(cfg, OneFile(Some(0), true, [true], {0}), Untombstone(0)).0 == OneFile(Some(0), true, [false], {0})
    ensures !Safe(OneFile(Some(0), true, [false], {0}), 0)
  {
    assert 0 in OneFile(Some(0), true, [false], {0}).rows;
  }

  /** Without that condition the law fails: a message deleted for everyone and then restored by an
      administrator points at a blob that was handed to deletion. */
  lemma RestoreCanLoseABlob(cfg: Config)
    requires cfg.maxAttachments >= 1
    ensures !Safe(RunFrom(cfg, Init(), [InitUpload(7, 0)] + [CompleteUpload(7, 0, true)] + [SendWith(7, [0])]
                                       + [DeleteForEveryone(0)] + [Untombstone(0)]), 0)
  {
    hide Step, Safe, OneFile;
    var first := [InitUpload(7, 0)];
    UploadOneFile(cfg);
    SendOneFile(cfg);
    DeleteOneFile(cfg);
    RestoreOneFile(cfg);
    RunSnoc(cfg, Init(), [], first[0]);
    assert [] + first == first;
    RunSnoc(cfg, Init(), first, CompleteUpload(7, 0, true));
    RunSnoc(cfg, Init(), first + [CompleteUpload(7, 0, true)], SendWith(7, [0]));
    RunSnoc(cfg, Init(), first + [CompleteUpload(7, 0, true)] + [SendWith(7, [0])], DeleteForEveryone(0));
    RunSnoc(cfg, Init(), first + [CompleteUpload(7, 0, true)] + [SendWith(7, [0])] + [DeleteForEveryone(0)], Untombstone(0));
  }

  /** The new message of a forward carries exactly the blobs of its source. */
  lemma ForwardCarriesEveryBlob(cfg: Config, s: Store, q: Request)
    requires Tidy(s) && q.ForwardFrom? && q.source < |s.deleted| && !s.deleted[q.source]
    ensures var s' := Step(cfg, s, q).0;
            && (forall id :: id in s.rows ==> id in s'.rows && s'.rows[id] == s.rows[id])
            && (set id | id in s'.rows && s'.rows[id].message == Some(|s.deleted|) :: s'.rows[id].key)
               == (set id | id in s.rows && s.rows[id].message == Some(q.source) :: s.rows[id].key)
  {
    hide RowsOf, CloneAll, Tidy;
    var sources := RowsOf(s.rows, q.source, s.next);
    NamesAreUsed(s);
    MessagesExist(s);
    RowsOfListsAll(s.rows, q.source, s.next);
    ClonedRows(s.rows, sources, q.user, |s.deleted|, q.now, s.next);
    var rows' := CloneAll(s.rows, sources, q.user, |s.deleted|, q.now, s.next);
    assert Step(cfg, s, q).0.rows == rows';
    CopiesMatch(s.rows, rows', q.source, |s.deleted|, sources, s.next);
  }

  lemma MessagesExist(s: Store)
    requires Tidy(s)
    ensures forall id :: id in s.rows && s.rows[id].message.Some? ==> s.rows[id].message.value < |s.deleted|
  {}

  lemma CopiesMatch(rows: map<MediaId, Row>, rows': map<MediaId, Row>, source: MessageId, m: MessageId, sources: seq<MediaId>, first: nat)
    requires forall i :: 0 <= i < |sources| ==> sources[i] in rows && rows[sources[i]].message == Some(source)
    requires forall id :: id in rows && rows[id].message == Some(source) ==> id in sources
    requires forall id :: id in rows ==> id in rows' && rows'[id] == rows[id] && rows[id].message != Some(m)
    requires forall id :: id in rows' && id !in rows ==> first <= id < first + |sources|
    requires forall id :: first <= id < first + |sources| ==>
                            id in rows' && rows'[id].key == rows[sources[id - first]].key && rows'[id].message == Some(m)
    ensures (set id | id in rows' && rows'[id].message == Some(m) :: rows'[id].key)
         == (set id | id in rows && rows[id].message == Some(source) :: rows[id].key)
  {
    var there := set id | id in rows' && rows'[id].message == Some(m) :: rows'[id].key;
    var here := set id | id in rows && rows[id].message == Some(source) :: rows[id].key;
    forall id | id in rows && rows[id].message == Some(source) ensures rows[id].key in there {
      var i :| 0 <= i < |sources| && sources[i] == id;
      assert rows'[first + i].key == rows[id].key;
    }
    forall id | id in rows' && rows'[id].message == Some(m) ensures rows'[id].key in here {
      var i := id - first;
      assert rows'[first + i].key == rows[sources[i]].key;
    }
  }

  // ----- a row binds once -----

  /** The row keeps its key, and its message once it has one; a bound row is never removed, and a
      removed row never comes back. */
  ghost predicate RowKept(s: Store, s': Store, id: MediaId) {
    && s.next <= s'.next
    && (id < s.next && id !in s.rows ==> id !in s'.rows)
    && (id in s.rows && s.rows[id].message.Some? ==> id in s'.rows)
    && (id in s.rows && id in s'.rows ==>
          && s'.rows[id].key == s.rows[id].key
          && (s.rows[id].message.Some? ==> s'.rows[id].message == s.rows[id].message)
          && (s.rows[id].message.None? && s'.rows[id].message.Some? ==> s.rows[id].complete))
  }

  lemma StepKeepsRow(cfg: Config, s: Store, q: Request, id: MediaId)
    requires Tidy(s)
    ensures RowKept(s, Step(cfg, s, q).0, id)
  {
    hide CheckRows, RowsOf, Distinct, OtherReference, CloneAll;
    if q.ForwardFrom? {
      ClonedRows(s.rows, RowsOf(s.rows, q.source, s.next), q.user, |s.deleted|, q.now, s.next);
    }
    if q.SendWith? && CheckAttachments(cfg, s.rows, q.user, q.attachments) == Ok && id in s.rows && id in q.attachments {
      var i :| 0 <= i < |q.attachments| && q.attachments[i] == id;
      assert CheckRow(s.rows, q.user, q.attachments[i]) == Ok;
    }
  }

  lemma BoundIsComplete(s: Store, id: MediaId)
    requires Tidy(s)
    ensures id in s.rows && s.rows[id].message.Some? ==> s.rows[id].complete
  {}

  /** Over any run whatever, a media row binds to at most one message, and only when it is COMPLETE;
      once bound it stays, and once removed it never comes back. */
  lemma {:induction false} RowBindsOnce(cfg: Config, s: Store, requests: seq<Request>, id: MediaId)
    requires Tidy(s) && id < s.next
    ensures var s' := RunFrom(cfg, s, requests);
            && s.next <= s'.next
            && (id !in s.rows ==> id !in s'.rows)
            && (id in s.rows && s.rows[id].message.Some? ==>
                  id in s'.rows && s'.rows[id].message == s.rows[id].message && s'.rows[id].key == s.rows[id].key)
            && (id in s'.rows && s'.rows[id].message.Some? ==> s'.rows[id].complete)
  {
    hide Step, Tidy, Safe, Harmless;
    RunKeepsTidy(cfg, s, requests);
    BoundIsComplete(RunFrom(cfg, s, requests), id);
    if requests != [] {
      var n := |requests| - 1;
      RowBindsOnce(cfg, s, requests[..n], id);
      RunKeepsTidy(cfg, s, requests[..n]);
      StepKeepsRow(cfg, RunFrom(cfg, s, requests[..n]), requests[n], id);
    }
  }

  // ----- which blobs can ever be reclaimed -----

  /** Rows of two different messages carry the key. */
  ghost predicate Shared(rows: map<MediaId, Row>, key: BlobKey, id: MediaId, other: MediaId) {
    && id in rows && other in rows && rows[id].key == key == rows[other].key
    && rows[id].message.Some? && rows[other].message.Some? && rows[id].message != rows[other].message
  }

  lemma SharedIsNotUnreferenced(rows: map<MediaId, Row>, key: BlobKey, id: MediaId, other: MediaId, m: MessageId)
    requires Shared(rows, key, id, other)
    ensures OtherReference(rows, m, key)
  {}

  lemma SharedIsNotStale(s: Store, key: BlobKey, id: MediaId, other: MediaId, cutoff: int, failing: set<BlobKey>)
    requires Tidy(s) && Shared(s.rows, key, id, other)
    ensures key !in StaleKeys(s.rows, cutoff, failing)
  {
    forall gone | gone in s.rows && Stale(s.rows[gone], cutoff) ensures s.rows[gone].key != key {
      assert s.rows[gone].message.None?;
    }
  }

  lemma StepKeepsShared(cfg: Config, s: Store, q: Request, key: BlobKey, id: MediaId, other: MediaId)
    requires Tidy(s) && Shared(s.rows, key, id, other) && key !in s.handed
    ensures var s' := Step(cfg, s, q).0; Shared(s'.rows, key, id, other) && key !in s'.handed
  {
    hide Tidy, OtherReference, StaleKeys, Remaining, RowsOf, CloneAll, Bind, CheckAttachments;
    StepKeepsRow(cfg, s, q, id);
    StepKeepsRow(cfg, s, q, other);
    if q.DeleteForEveryone? {
      SharedIsNotUnreferenced(s.rows, key, id, other, q.message);
    }
    if q.ReclaimStale? {
      SharedIsNotStale(s, key, id, other, q.now - cfg.pendingTimeout, q.failing);
    }
  }

  /** A blob that two messages share is never reclaimed: whatever runs, deletes of both messages and
      restores included, both rows stay and the key is not handed to deletion. */
  lemma {:induction false} SharedBlobStays(cfg: Config, s: Store, requests: seq<Request>, key: BlobKey, id: MediaId, other: MediaId)
    requires Tidy(s) && Shared(s.rows, key, id, other) && key !in s.handed
    ensures var s' := RunFrom(cfg, s, requests); Shared(s'.rows, key, id, other) && key !in s'.handed
  {
    hide Step, Tidy, Shared;
    if requests != [] {
      var n := |requests| - 1;
      SharedBlobStays(cfg, s, requests[..n], key, id, other);
      RunKeepsTidy(cfg, s, requests[..n]);
      StepKeepsShared(cfg, RunFrom(cfg, s, requests[..n]), requests[n], key, id, other);
    }
  }

  /** The blob of an attachment can ever be reclaimed, by some run, exactly when no other message
      carries it; and then the delete of its message reclaims it at once. */
  lemma ReclaimableIffUnshared(cfg: Config, s: Store, id: MediaId, m: MessageId)
    requires Tidy(s) && id in s.rows && s.rows[id].message == Some(m) && s.rows[id].key !in s.handed
    ensures (exists requests :: s.rows[id].key in RunFrom(cfg, s, requests).handed) <==> !OtherReference(s.rows, m, s.rows[id].key)
    ensures s.rows[id].key in Step(cfg, s, DeleteForEveryone(m)).0.handed <==> !OtherReference(s.rows, m, s.rows[id].key)
  {
    hide RunFrom, Step, Tidy;
    var key := s.rows[id].key;
    if OtherReference(s.rows, m, key) {
      var other :| other in s.rows && s.rows[other].key == key && s.rows[other].message.Some? && s.rows[other].message != Some(m);
      assert Shared(s.rows, key, id, other);
      forall requests ensures key !in RunFrom(cfg, s, requests).handed {
        SharedBlobStays(cfg, s, requests, key, id, other);
      }
      StepKeepsShared(cfg, s, DeleteForEveryone(m), key, id, other);
    } else {
      DeleteReclaims(cfg, s, id, m);
      OneStep(cfg, s, DeleteForEveryone(m));
    }
  }

  lemma DeleteReclaims(cfg: Config, s: Store, id: MediaId, m: MessageId)
    requires Tidy(s) && id in s.rows && s.rows[id].message == Some(m) && !OtherReference(s.rows, m, s.rows[id].key)
    ensures s.rows[id].key in Step(cfg, s, DeleteForEveryone(m)).0.handed
  {
    hide OtherReference;
    assert m < |s.deleted|;
  }

  lemma OneStep(cfg: Config, s: Store, q: Request)
    ensures RunFrom(cfg, s, [q]) == Step(cfg, s, q).0
  {
    RunSnoc(cfg, s, [], q);
    assert [] + [q] == [q];
  }

  /** So no blob that was forwarded before it was handed over is ever reclaimed, even when all messages
      with it are deleted. */
  lemma ForwardedBlobStays(cfg: Config, s: Store, q: Request, id: MediaId, later: seq<Request>)
    requires Tidy(s) && q.ForwardFrom? && q.source < |s.deleted| && !s.deleted[q.source]
    requires id in s.rows && s.rows[id].message == Some(q.source) && s.rows[id].key !in s.handed
    ensures s.rows[id].key !in RunFrom(cfg, Step(cfg, s, q).0, later).handed
  {
    hide RunFrom, RowsOf, CloneAll;
    var s', key := Step(cfg, s, q).0, s.rows[id].key;
    StepKeeps(cfg, s, q);
    ForwardCarriesEveryBlob(cfg, s, q);
    var here := set i | i in s.rows && s.rows[i].message == Some(q.source) :: s.rows[i].key;
    assert key in here;
    var copy :| copy in s'.rows && s'.rows[copy].message == Some(|s.deleted|) && s'.rows[copy].key == key;
    SharedBlobStays(cfg, s', later, key, id, copy);
  }

  // ----- the service -----

  class MediaService {
    const cfg: Config
    var rows: map<MediaId, Row>
    var next: nat
    var deleted: seq<bool>
    var handed: set<BlobKey>

    ghost function View(): Store
      reads this
    {
      Store(rows, next, deleted, handed)
    }

    ghost predicate Valid()
      reads this
    {
      Tidy(View())
    }

    constructor (cfg: Config)
      ensures Valid() && this.cfg == cfg && View() == Init()
    {
      this.cfg := cfg;
      rows, next, deleted, handed := map[], 0, [], {};
    }

    method Initiate(user: UserId, now: int) returns (id: MediaId)
      requires Valid()
      modifies this
      ensures Valid() && View() == Step(cfg, old(View()), InitUpload(user, now)).0
      ensures id in rows && !rows[id].complete && rows[id].message.None? && id !in old(rows)
    {
      InitUploadKeeps(cfg, View(), InitUpload(user, now));
      id := next;
      rows := rows[id := Row(user, None, id, false, now)];
      next := next + 1;
    }

    method Complete(user: UserId, id: MediaId, uploaded: bool) returns (r: Reply)
      requires Valid()
      modifies this
      ensures Valid() && (View(), r) == Step(cfg, old(View()), CompleteUpload(user, id, uploaded))
    {
      CompleteUploadKeeps(cfg, View(), CompleteUpload(user, id, uploaded));
      if id !in rows {
        return NotFound;
      }
      if rows[id].user != user {
        return Forbidden;
      }
      if rows[id].complete || !uploaded {
        return BadRequest;
      }
      rows := rows[id := rows[id].(complete := true)];
      r := Ok;
    }

    /** `assertAttachmentsOwned`: existence of all rows first, then the loop over them. */
    method AssertAttachmentsOwned(user: UserId, ids: seq<MediaId>) returns (r: Reply)
      ensures r == CheckAttachments(cfg, rows, user, ids)
    {
      if |ids| == 0 {
        return Ok;
      }
      if |ids| > cfg.maxAttachments || !Distinct(ids) {
        return BadRequest;
      }
      for i := 0 to |ids|
        invariant forall j :: 0 <= j < i ==> ids[j] in rows
      {
        if ids[i] !in rows {
          return BadRequest;
        }
      }
      r := Ok;
      for i := 0 to |ids|
        invariant r == CheckRows(rows, user, ids[..i])
      {
        assert ids[..i + 1][..i] == ids[..i];
        if r == Ok {
          var row := rows[ids[i]];
          if row.user != user {
            r := Forbidden;
          } else if row.message.Some? || !row.complete {
            r := BadRequest;
          }
        }
      }
      assert ids[..|ids|] == ids;
    }

    /** A send with attachments: check, create the message, bind the rows. */
    method SendAttached(user: UserId, ids: seq<MediaId>) returns (r: Reply)
      requires Valid()
      modifies this
      ensures Valid() && (View(), r) == Step(cfg, old(View()), SendWith(user, ids))
    {
      hide Tidy, Safe, CheckAttachments, Bind;
      SendKeeps(cfg, View(), SendWith(user, ids));
      r := AssertAttachmentsOwned(user, ids);
      if r == Ok {
        rows := Bind(rows, ids, |deleted|);
        deleted := deleted + [false];
      }
    }

    /** A forward: the source must not be deleted; its media are cloned for the new message. */
    method ForwardMessage(user: UserId, source: MessageId, now: int) returns (r: Reply)
      requires Valid()
      modifies this
      ensures Valid() && (View(), r) == Step(cfg, old(View()), ForwardFrom(user, source, now))
    {
      hide Tidy, Safe, RowsOf, CloneAll;
      ForwardKeeps(cfg, View(), ForwardFrom(user, source, now));
      if source >= |deleted| {
        return NotFound;
      }
      if deleted[source] {
        return Forbidden;
      }
      var sources := RowsOf(rows, source, next);
      NamesAreUsed(View());
      CloneMedia(user, |deleted|, sources, now);
      deleted := deleted + [false];
      r := Ok;
    }

    method CloneMedia(user: UserId, m: MessageId, sources: seq<MediaId>, now: int)
      requires forall i :: 0 <= i < |sources| ==> sources[i] in rows
      requires forall id :: id in rows ==> id < next
      modifies `rows, `next
      ensures rows == CloneAll(old(rows), sources, user, m, now, old(next))
      ensures next == old(next) + |sources|
    {
      var first := next;
      ghost var was := rows;
      for i := 0 to |sources|
        invariant next == first + i
        invariant rows == CloneAll(was, sources[..i], user, m, now, first)
        invariant forall id :: id in was ==> id in rows && rows[id] == was[id]
      {
        assert sources[..i + 1][..i] == sources[..i];
        rows := rows[next := Row(user, Some(m), rows[sources[i]].key, true, now)];
        next := next + 1;
      }
      assert sources[..|sources|] == sources;
    }

    /** `delete` for everyone, with `cleanupMessageMedia`. */
    method Delete(m: MessageId) returns (r: Reply)
      requires Valid()
      modifies this
      ensures Valid() && (View(), r) == Step(cfg, old(View()), DeleteForEveryone(m))
    {
      hide Tidy, Safe, Unreferenced;
      DeleteKeeps(cfg, View(), DeleteForEveryone(m));
      if m >= |deleted| {
        return NotFound;
      }
      deleted := deleted[m := true];
      CleanupMessageMedia(m);
      r := Ok;
    }

    /** The platform tombstone and its restoration, as far as they concern media. */
    method SetTombstone(m: MessageId) returns (r: Reply)
      requires Valid()
      modifies this
      ensures Valid() && (View(), r) == Step(cfg, old(View()), Request.Tombstone(m))
    {
      hide Tidy, Safe;
      StepKeeps(cfg, View(), Request.Tombstone(m));
      if m >= |deleted| {
        return NotFound;
      }
      if deleted[m] {
        return Conflict;
      }
      deleted := deleted[m := true];
      r := Ok;
    }

    method Restore(m: MessageId) returns (r: Reply)
      requires Valid()
      modifies this
      ensures Valid() && (View(), r) == Step(cfg, old(View()), Request.Untombstone(m))
    {
      hide Tidy, Safe;
      StepKeeps(cfg, View(), Request.Untombstone(m));
      if m >= |deleted| {
        return NotFound;
      }
      if !deleted[m] {
        return BadRequest;
      }
      deleted := deleted[m := false];
      r := Ok;
    }

    /** The loop over the message's rows: count the other references to each key. */
    method CleanupMessageMedia(m: MessageId)
      modifies `handed
      ensures handed == old(handed) + Unreferenced(rows, m)
    {
      var todo := set id | id in rows && rows[id].message == Some(m);
      ghost var all := todo;
      while todo != {}
        invariant todo <= all
        invariant handed == old(handed) + (set id | id in all - todo && !OtherReference(rows, m, rows[id].key) :: rows[id].key)
        decreases todo
      {
        ghost var before := todo;
        var id :| id in todo;
        todo := todo - {id};
        assert all - todo == (all - before) + {id};
        var key := rows[id].key;
        var others := set o | o in rows && rows[o].key == key && rows[o].message.Some? && rows[o].message != Some(m);
        assert others == {} <==> !OtherReference(rows, m, key) by {
          if OtherReference(rows, m, key) {
            var o :| o in rows && rows[o].key == key && rows[o].message.Some? && rows[o].message != Some(m);
            assert o in others;
          }
        }
        if others == {} {
          handed := handed + {key};
        }
        CleanedOneMore(rows, m, all - before, id);
      }
      assert (set id | id in all && !OtherReference(rows, m, rows[id].key) :: rows[id].key) == Unreferenced(rows, m);
      assert all - todo == all;
    }

    static lemma CleanedOneMore(rows: map<MediaId, Row>, m: MessageId, done: set<MediaId>, id: MediaId)
      requires done <= rows.Keys && id in rows
      ensures (set i | i in done + {id} && !OtherReference(rows, m, rows[i].key) :: rows[i].key)
           == (set i | i in done && !OtherReference(rows, m, rows[i].key) :: rows[i].key)
              + (if OtherReference(rows, m, rows[id].key) then {} else {rows[id].key})
    {
      hide OtherReference;
    }

    /** The stale-upload job. Objects whose deletion fails keep their rows for the next run. */
    method Reclaim(now: int, failing: set<BlobKey>) returns (deletedObjects: nat)
      requires Valid()
      modifies this
      ensures Valid() && View() == Step(cfg, old(View()), ReclaimStale(now, failing)).0
      ensures deletedObjects == |old(rows)| - |rows|
    {
      hide Tidy, Safe, Stale;
      ReclaimKeeps(cfg, View(), ReclaimStale(now, failing));
      var cutoff := now - cfg.pendingTimeout;
      var reclaimable, keys;
      reclaimable, keys, deletedObjects := DeleteStaleObjects(cutoff, failing);
      handed := handed + keys;
      Reclaimed(rows, reclaimable);
      rows := rows - reclaimable;
      assert rows == Remaining(old(rows), cutoff, failing);
    }

    static lemma Reclaimed(rows: map<MediaId, Row>, gone: set<MediaId>)
      requires gone <= rows.Keys
      ensures |rows - gone| == |rows| - |gone|
    {
      assert (rows - gone).Keys == rows.Keys - gone;
    }

    /** The loop over the stale rows, one object deletion each. */
    method DeleteStaleObjects(cutoff: int, failing: set<BlobKey>)
      returns (reclaimable: set<MediaId>, keys: set<BlobKey>, deletedObjects: nat)
      ensures reclaimable == set id | id in rows && Stale(rows[id], cutoff) && rows[id].key !in failing
      ensures keys == StaleKeys(rows, cutoff, failing)
      ensures deletedObjects == |reclaimable|
    {
      hide Stale;
      var stale := set id | id in rows && Stale(rows[id], cutoff);
      var todo := stale;
      reclaimable, keys, deletedObjects := {}, {}, 0;
      while todo != {}
        invariant todo <= stale && reclaimable <= stale - todo
        invariant forall id :: id in stale - todo ==> (id in reclaimable <==> rows[id].key !in failing)
        invariant forall id :: id in reclaimable ==> rows[id].key in keys
        invariant forall k :: k in keys ==> exists id :: id in reclaimable && rows[id].key == k
        invariant deletedObjects == |reclaimable|
        decreases todo
      {
        ghost var sofar := keys;
        var id :| id in todo;
        todo := todo - {id};
        if rows[id].key !in failing {
          reclaimable := reclaimable + {id};
          keys := keys + {rows[id].key};
          deletedObjects := deletedObjects + 1;
        }
      }
    }
  }
}
