/**
 What each media call answers, and what it does to every media row, message and storage key.
 */
module MediaCalls {
  import opened Prelude
  import opened Media

  /** An upload starts as one PENDING row of the user, bound to no message, with a key of its own. */
  lemma InitMeans(cfg: Config, s: Store, user: UserId, now: int)
    ensures Step(cfg, s, InitUpload(user, now)) ==
            (s.(rows := s.rows[s.next := Row(user, None, s.next, false, now)], next := s.next + 1), Ok)
  {}

  /** An upload is completed by its owner only, once, and when the object is there; nothing but the
      status of that row changes. */
  lemma CompleteMeans(cfg: Config, s: Store, user: UserId, id: MediaId, uploaded: bool)
    ensures var (d, r) := Step(cfg, s, CompleteUpload(user, id, uploaded));
            && (r == if id !in s.rows then NotFound else if s.rows[id].user != user then Forbidden
                     else if s.rows[id].complete || !uploaded then BadRequest else Ok)
            && (d == if r == Ok then s.(rows := s.rows[id := Row(user, s.rows[id].message, s.rows[id].key, true, s.rows[id].createdAt)])
                     else s)
  {}

  /** The row may be attached by the user. */
  ghost predicate Attachable(s: Store, user: UserId, id: MediaId) {
    id in s.rows && s.rows[id].user == user && s.rows[id].message == None && s.rows[id].complete
  }

  /** A send with attachments goes through exactly if they are not too many, distinct, existing, the
      sender's own, unbound and complete. Then exactly these rows are bound to the new message. */
  lemma SendMeans(cfg: Config, s: Store, user: UserId, ids: seq<MediaId>)
    ensures var (d, r) := Step(cfg, s, SendWith(user, ids));
            && (r == Ok <==>
                && (ids == [] || |ids| <= cfg.maxAttachments)
                && (forall i, j :: 0 <= i < j < |ids| ==> ids[i] != ids[j])
                && (forall i :: 0 <= i < |ids| ==> Attachable(s, user, ids[i])))
            && (r != Ok ==> d == s)
            && (r == Ok ==>
                  && d.deleted == s.deleted + [false] && d.rows.Keys == s.rows.Keys
                  && (forall id :: id in s.rows ==>
                        d.rows[id] == if id in ids then Row(user, Some(|s.deleted|), s.rows[id].key, true, s.rows[id].createdAt) else s.rows[id])
                  && d == s.(rows := d.rows, deleted := d.deleted))
  {
    hide CheckRows;
    var r := CheckAttachments(cfg, s.rows, user, ids);
    if forall i :: 0 <= i < |ids| ==> ids[i] in s.rows {
      AllPass(s, user, ids);
    }
    if r == Ok {
      forall id | id in s.rows && id in ids ensures Attachable(s, user, id) {
        var i :| 0 <= i < |ids| && ids[i] == id;
        assert CheckRow(s.rows, user, ids[i]) == Ok;
      }
    }
  }

  lemma AllPass(s: Store, user: UserId, ids: seq<MediaId>)
    requires forall i :: 0 <= i < |ids| ==> ids[i] in s.rows
    ensures CheckRows(s.rows, user, ids) == Ok <==> forall i :: 0 <= i < |ids| ==> Attachable(s, user, ids[i])
  {
    assert forall i :: 0 <= i < |ids| ==> (CheckRow(s.rows, user, ids[i]) == Ok <==> Attachable(s, user, ids[i]));
  }

  /** The first row at fault is somebody else's, and the rows before it are fit. */
  ghost predicate ForeignFirst(s: Store, user: UserId, ids: seq<MediaId>, i: int) {
    0 <= i < |ids| && ids[i] in s.rows && s.rows[ids[i]].user != user && forall j :: 0 <= j < i ==> Attachable(s, user, ids[j])
  }

  /** Too many, repeated or unknown attachments are a bad request. Otherwise the first row at fault
      decides: somebody else's is forbidden, one that is bound or incomplete is a bad request. */
  lemma SendComplaints(cfg: Config, s: Store, user: UserId, ids: seq<MediaId>)
    ensures var r := Step(cfg, s, SendWith(user, ids)).1;
            && (r == Ok || r == BadRequest || r == Forbidden)
            && (r == Forbidden <==>
                && |ids| <= cfg.maxAttachments && (forall i, j :: 0 <= i < j < |ids| ==> ids[i] != ids[j])
                && (forall i :: 0 <= i < |ids| ==> ids[i] in s.rows) && exists i :: ForeignFirst(s, user, ids, i))
  {
    hide CheckRows, ForeignFirst;
    if forall i :: 0 <= i < |ids| ==> ids[i] in s.rows {
      FirstComplaint(s, user, ids);
    }
    if ids == [] {
      forall i ensures !ForeignFirst(s, user, ids, i) {
        NoneIsForeign(s, user, i);
      }
    }
  }

  lemma NoneIsForeign(s: Store, user: UserId, i: int)
    ensures !ForeignFirst(s, user, [], i)
  {}

  lemma {:induction false} FirstComplaint(s: Store, user: UserId, ids: seq<MediaId>)
    requires forall i :: 0 <= i < |ids| ==> ids[i] in s.rows
    ensures var r := CheckRows(s.rows, user, ids);
            && (r == Ok || r == BadRequest || r == Forbidden)
            && (r == Forbidden <==> exists i :: ForeignFirst(s, user, ids, i))
  {
    if ids != [] {
      var n := |ids| - 1;
      FirstComplaint(s, user, ids[..n]);
      AllPass(s, user, ids[..n]);
      assert forall i :: 0 <= i < n ==> ids[..n][i] == ids[i];
      forall i | 0 <= i < n ensures ForeignFirst(s, user, ids, i) <==> ForeignFirst(s, user, ids[..n], i) {}
      assert ForeignFirst(s, user, ids, n) <==> CheckRows(s.rows, user, ids[..n]) == Ok && s.rows[ids[n]].user != user;
    }
  }

  /** A forward of a deleted message is refused. Otherwise the new message gets one complete row of the
      forwarding user per row of the source, with the same key, and no existing row changes. */
  lemma ForwardMeans(cfg: Config, s: Store, user: UserId, source: MessageId, now: int)
    requires Tidy(s)
    ensures var (d, r) := Step(cfg, s, ForwardFrom(user, source, now));
            && (r == if source >= |s.deleted| then NotFound else if s.deleted[source] then Forbidden else Ok)
            && (r != Ok ==> d == s)
            && (r == Ok ==>
                  && d.deleted == s.deleted + [false] && d.handed == s.handed && s.next <= d.next
                  && (forall id :: id in s.rows ==> id in d.rows && d.rows[id] == s.rows[id])
                  && (forall id :: id in d.rows && id !in s.rows ==>
                        s.next <= id < d.next && Copied(s, d.rows[id], user, source, now))
                  && (forall id :: id in s.rows && s.rows[id].message == Some(source) ==>
                        exists copy :: copy in d.rows && copy !in s.rows && d.rows[copy].key == s.rows[id].key)
                  && d.next - s.next == |set id | id in s.rows && s.rows[id].message == Some(source)|)
  {
    hide RowsOf, CloneAll, Tidy;
    if source < |s.deleted| && !s.deleted[source] {
      var sources := RowsOf(s.rows, source, s.next);
      var d := Step(cfg, s, ForwardFrom(user, source, now)).0;
      NamesAreUsed(s);
      RowsOfListsAll(s.rows, source, s.next);
      ClonedRows(s.rows, sources, user, |s.deleted|, now, s.next);
      SourcesCounted(s.rows, source, s.next);
      forall id | id in d.rows && id !in s.rows ensures s.next <= id < d.next && Copied(s, d.rows[id], user, source, now) {
        assert sources[id - s.next] in s.rows;
      }
      forall id | id in s.rows && s.rows[id].message == Some(source)
        ensures exists copy :: copy in d.rows && copy !in s.rows && d.rows[copy].key == s.rows[id].key
      {
        var i :| 0 <= i < |sources| && sources[i] == id;
        var copy := s.next + i;
        assert copy in d.rows && copy !in s.rows && d.rows[copy].key == s.rows[sources[copy - s.next]].key;
      }
    }
  }

  ghost predicate Copied(s: Store, row: Row, user: UserId, source: MessageId, now: int) {
    && row == Row(user, Some(|s.deleted|), row.key, true, now)
    && exists id :: id in s.rows && s.rows[id].message == Some(source) && s.rows[id].key == row.key
  }

  lemma SourcesCounted(rows: map<MediaId, Row>, m: MessageId, below: nat)
    requires forall id :: id in rows ==> id < below || rows[id].message != Some(m)
    ensures |RowsOf(rows, m, below)| == |set id | id in rows && rows[id].message == Some(m)|
  {
    SourcesBelow(rows, m, below);
    assert (set id | id in rows && rows[id].message == Some(m)) == (set id | id in rows && id < below && rows[id].message == Some(m));
  }

  lemma {:induction false} SourcesBelow(rows: map<MediaId, Row>, m: MessageId, below: nat)
    ensures |RowsOf(rows, m, below)| == |set id | id in rows && id < below && rows[id].message == Some(m)|
  {
    var here := set id | id in rows && id < below && rows[id].message == Some(m);
    if below == 0 {
      assert here == {};
    } else {
      SourcesBelow(rows, m, below - 1);
      var before := set id | id in rows && id < below - 1 && rows[id].message == Some(m);
      assert here == before + if below - 1 in rows && rows[below - 1].message == Some(m) then {below - 1} else {};
    }
  }

  /** A delete marks the message and hands over exactly the keys of its rows that no row bound to
      another message carries; no row changes. */
  lemma DeleteMeans(cfg: Config, s: Store, m: MessageId)
    ensures var (d, r) := Step(cfg, s, DeleteForEveryone(m));
            && (r == if m < |s.deleted| then Ok else NotFound)
            && (r != Ok ==> d == s)
            && (r == Ok ==>
                  && d == s.(deleted := s.deleted[m := true], handed := d.handed)
                  && (forall k :: k in d.handed <==>
                        k in s.handed
                        || ((exists id :: id in s.rows && s.rows[id].key == k && s.rows[id].message == Some(m))
                            && forall id :: id in s.rows && s.rows[id].key == k ==> s.rows[id].message == None || s.rows[id].message == Some(m))))
  {
    if m < |s.deleted| {
      var d := Step(cfg, s, DeleteForEveryone(m)).0;
      forall k
        ensures k in Unreferenced(s.rows, m) <==>
                (exists id :: id in s.rows && s.rows[id].key == k && s.rows[id].message == Some(m))
                && forall id :: id in s.rows && s.rows[id].key == k ==> s.rows[id].message == None || s.rows[id].message == Some(m)
      {
        HandsOver(s.rows, m, k);
      }
    }
  }

  lemma HandsOver(rows: map<MediaId, Row>, m: MessageId, k: BlobKey)
    ensures k in Unreferenced(rows, m) <==>
            (exists id :: id in rows && rows[id].key == k && rows[id].message == Some(m))
            && forall id :: id in rows && rows[id].key == k ==> rows[id].message == None || rows[id].message == Some(m)
  {
    hide OtherReference;
    OthersMean(rows, m, k);
  }

  lemma OthersMean(rows: map<MediaId, Row>, m: MessageId, k: BlobKey)
    ensures OtherReference(rows, m, k) <==> !(forall id :: id in rows && rows[id].key == k ==> rows[id].message == None || rows[id].message == Some(m))
  {
    if id :| id in rows && rows[id].key == k && !(rows[id].message == None || rows[id].message == Some(m)) {
      assert rows[id].message.Some?;
    }
  }

  lemma FlagsMean(cfg: Config, s: Store, m: MessageId)
    ensures Step(cfg, s, Tombstone(m)) ==
            if m >= |s.deleted| then (s, NotFound) else if s.deleted[m] then (s, Conflict) else (s.(deleted := s.deleted[m := true]), Ok)
    ensures Step(cfg, s, Untombstone(m)) ==
            if m >= |s.deleted| then (s, NotFound) else if !s.deleted[m] then (s, BadRequest) else (s.(deleted := s.deleted[m := false]), Ok)
  {}

  /** The reclaim job removes exactly the PENDING rows older than the timeout whose object could be
      deleted, and hands over exactly their keys. */
  lemma ReclaimMeans(cfg: Config, s: Store, now: int, failing: set<BlobKey>)
    ensures var d := Step(cfg, s, ReclaimStale(now, failing)).0;
            && (forall id :: id in d.rows <==> id in s.rows && !Gone(cfg, s, now, failing, id))
            && (forall id :: id in d.rows ==> d.rows[id] == s.rows[id])
            && (forall k :: k in d.handed <==> k in s.handed || exists id :: Gone(cfg, s, now, failing, id) && s.rows[id].key == k)
            && d == s.(rows := d.rows, handed := d.handed)
  {
    var cutoff := now - cfg.pendingTimeout;
    forall k ensures k in StaleKeys(s.rows, cutoff, failing) <==> exists id :: Gone(cfg, s, now, failing, id) && s.rows[id].key == k {
      if k in StaleKeys(s.rows, cutoff, failing) {
        var id :| id in s.rows && Stale(s.rows[id], cutoff) && s.rows[id].key !in failing && s.rows[id].key == k;
        assert Gone(cfg, s, now, failing, id);
      }
    }
  }

  ghost predicate Gone(cfg: Config, s: Store, now: int, failing: set<BlobKey>, id: MediaId) {
    id in s.rows && !s.rows[id].complete && s.rows[id].createdAt < now - cfg.pendingTimeout && s.rows[id].key !in failing
  }
}
