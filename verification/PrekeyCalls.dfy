/**
 What each prekey call answers, and what it does to every key.
 */
module PrekeyCalls {
  import opened Prelude
  import opened Prekeys

  /** `assertDeviceOwner`. */
  function OwnerReply(s: Store, user: UserId, d: DeviceId): Reply {
    if d >= |s.devices| || !s.devices[d].active then NotFound
    else if s.devices[d].user != user then Forbidden else Done
  }

  ghost function StockSet(rows: seq<Prekey>, d: DeviceId): set<nat> {
    set i: nat | i < |rows| && rows[i].device == d && !rows[i].consumed
  }

  lemma {:induction false} StockCounts(rows: seq<Prekey>, d: DeviceId)
    ensures Stock(rows, d) == |StockSet(rows, d)|
  {
    if rows == [] {
      assert StockSet(rows, d) == {};
    } else {
      var n := |rows| - 1;
      StockCounts(rows[..n], d);
      assert StockSet(rows, d) == StockSet(rows[..n], d) + if rows[n].device == d && !rows[n].consumed then {n} else {};
    }
  }

  // ----- refill -----

  ghost predicate Stored(rows: seq<Prekey>, d: DeviceId, keyId: int) {
    exists i :: 0 <= i < |rows| && rows[i].device == d && rows[i].keyId == keyId
  }

  /** The upload is the first of the batch with its key id. */
  ghost predicate First(keys: seq<Upload>, k: int) {
    0 <= k < |keys| && forall j :: 0 <= j < k ==> keys[j].keyId != keys[k].keyId
  }

  /** The new rows of a refill: each is an unconsumed key of the device, made now, and holds the public
      key uploaded first under its key id, which no row had before. */
  ghost predicate NewKey(rows: seq<Prekey>, d: DeviceId, keys: seq<Upload>, now: int, p: Prekey) {
    exists k :: First(keys, k) && !Stored(rows, d, keys[k].keyId) && p == Prekey(d, keys[k].keyId, keys[k].publicKey, now, false)
  }

  lemma KnownIsStored(rows: seq<Prekey>, d: DeviceId, keyId: int)
    ensures Known(rows, KeyName(d, keyId)) <==> Stored(rows, d, keyId)
  {
    if Stored(rows, d, keyId) {
      var i :| 0 <= i < |rows| && rows[i].device == d && rows[i].keyId == keyId;
      assert Name(rows[i]) == KeyName(d, keyId);
    }
  }

  lemma {:induction false} InsertMeans(rows: seq<Prekey>, d: DeviceId, keys: seq<Upload>, now: int)
    ensures var r := Insert(rows, d, keys, now);
            && |rows| <= |r| && r[..|rows|] == rows
            && (forall i :: |rows| <= i < |r| ==> NewKey(rows, d, keys, now, r[i]))
            && (forall id :: Stored(r, d, id) <==> Stored(rows, d, id) || exists k :: 0 <= k < |keys| && keys[k].keyId == id)
  {
    hide Known, Stored;
    InsertExtends(rows, d, keys, now);
    if keys != [] {
      var n := |keys| - 1;
      InsertMeans(rows, d, keys[..n], now);
      var before, after := Insert(rows, d, keys[..n], now), Insert(rows, d, keys, now);
      KnownIsStored(before, d, keys[n].keyId);
      assert forall k :: 0 <= k < n ==> keys[..n][k] == keys[k];
      forall i | |rows| <= i < |before| ensures NewKey(rows, d, keys, now, before[i]) {
        assert NewKey(rows, d, keys[..n], now, before[i]);
        var k :| First(keys[..n], k) && !Stored(rows, d, keys[..n][k].keyId)
                 && before[i] == Prekey(d, keys[..n][k].keyId, keys[..n][k].publicKey, now, false);
        assert First(keys, k);
      }
      if !Stored(before, d, keys[n].keyId) {
        assert First(keys, n);
        assert NewKey(rows, d, keys, now, after[|before|]);
        StoredAppend(before, after[|before|], d);
      }
    }
  }

  lemma StoredAppend(rows: seq<Prekey>, p: Prekey, d: DeviceId)
    ensures forall id :: Stored(rows + [p], d, id) <==> Stored(rows, d, id) || (p.device == d && p.keyId == id)
  {
    var more := rows + [p];
    assert more[|rows|] == p;
    forall id | Stored(rows, d, id) ensures Stored(more, d, id) {
      var i :| 0 <= i < |rows| && rows[i].device == d && rows[i].keyId == id;
      assert more[i] == rows[i];
    }
  }

  /** A refill is for the owner of an active device, and refused when it would exceed the maximum. It
      keeps all rows, and adds a row for exactly the key ids that the device did not have. */
  lemma RefillMeans(max: nat, s: Store, user: UserId, d: DeviceId, keys: seq<Upload>)
    ensures var (t, r) := Step(max, s, Refill(user, d, keys));
            && (r.Inserted? <==> OwnerReply(s, user, d) == Done && |StockSet(s.prekeys, d)| + |keys| <= max)
            && (!r.Inserted? ==> t == s && r == if OwnerReply(s, user, d) != Done then OwnerReply(s, user, d) else BadRequest)
            && (r.Inserted? ==>
                  && |s.prekeys| <= |t.prekeys| && t.prekeys[..|s.prekeys|] == s.prekeys && r.count == |t.prekeys| - |s.prekeys|
                  && (forall i :: |s.prekeys| <= i < |t.prekeys| ==> NewKey(s.prekeys, d, keys, s.clock, t.prekeys[i]))
                  && (forall k :: 0 <= k < |keys| ==> Stored(t.prekeys, d, keys[k].keyId))
                  && t == s.(prekeys := t.prekeys))
  {
    hide Insert, Stock, StockSet, Stored, NewKey;
    StockCounts(s.prekeys, d);
    InsertExtends(s.prekeys, d, keys, s.clock);
    InsertMeans(s.prekeys, d, keys, s.clock);
  }

  // ----- rotation -----

  /** A rotation is for the owner of an active device. Afterwards the device's row of that key id is
      active with the given key, its other rows are inactive, and no other device's row changes. */
  lemma RotateMeans(max: nat, s: Store, user: UserId, d: DeviceId, key: Upload)
    requires OneActive(s.signed)
    ensures var (t, r) := Step(max, s, Rotate(user, d, key));
            && r == OwnerReply(s, user, d)
            && (r != Done ==> t == s)
            && (r == Done ==>
                  && t == s.(signed := t.signed)
                  && |s.signed| <= |t.signed| <= |s.signed| + 1
                  && (|t.signed| == |s.signed| <==> exists i :: 0 <= i < |s.signed| && s.signed[i].device == d && s.signed[i].keyId == key.keyId)
                  && (|t.signed| > |s.signed| ==> t.signed[|s.signed|] == Signed(d, key.keyId, key.publicKey, true, s.clock))
                  && (forall i :: 0 <= i < |s.signed| ==>
                        t.signed[i] == if s.signed[i].device != d then s.signed[i]
                                       else if s.signed[i].keyId == key.keyId then Signed(d, key.keyId, key.publicKey, true, s.clock)
                                       else Signed(d, s.signed[i].keyId, s.signed[i].publicKey, false, s.signed[i].createdAt)))
  {
    hide FindSigned;
    var off := Deactivated(s.signed, d);
    assert forall i :: 0 <= i < |off| ==> off[i].device == s.signed[i].device && off[i].keyId == s.signed[i].keyId;
  }

  // ----- bundles -----

  /** The first unconsumed row of its device. */
  ghost predicate IsNext(rows: seq<Prekey>, i: int) {
    0 <= i < |rows| && !rows[i].consumed && forall j :: 0 <= j < i ==> !(rows[j].device == rows[i].device && !rows[j].consumed)
  }

  ghost predicate ActiveFor(s: Store, user: UserId, d: DeviceId) {
    d < |s.devices| && s.devices[d].user == user && s.devices[d].active
  }

  lemma NextIsOldest(rows: seq<Prekey>, i: int)
    requires 0 <= i < |rows|
    ensures IsNext(rows, i) <==> Oldest(rows, rows[i].device, |rows|) == Some(i)
  {
    hide Oldest;
    assert forall j :: 0 <= j < |rows| ==> (InStock(rows[j], rows[i].device) <==> rows[j].device == rows[i].device && !rows[j].consumed);
  }

  /** A fetch for a user without active devices is refused. Otherwise it consumes exactly the first
      unconsumed row of each active device of the user. */
  lemma FetchMeans(max: nat, s: Store, user: UserId)
    ensures var (t, r) := Step(max, s, Fetch(user));
            && (r == NotFound <==> forall d :: !ActiveFor(s, user, d))
            && (r == NotFound || r.Bundles?)
            && (r == NotFound ==> t == s)
            && (r.Bundles? ==>
                  && |t.prekeys| == |s.prekeys|
                  && (forall i :: 0 <= i < |s.prekeys| ==>
                        var p := s.prekeys[i];
                        t.prekeys[i] == if ActiveFor(s, user, p.device) && IsNext(s.prekeys, i)
                                        then Prekey(p.device, p.keyId, p.publicKey, p.createdAt, true) else p)
                  && t == s.(prekeys := t.prekeys, handed := t.handed))
  {
    hide Oldest, IsNext, Carried, BundlesOf, Targets;
    forall i | 0 <= i < |s.prekeys| ensures IsNext(s.prekeys, i) <==> Oldest(s.prekeys, s.prekeys[i].device, |s.prekeys|) == Some(i) {
      NextIsOldest(s.prekeys, i);
    }
    forall d | ActiveFor(s, user, d) ensures d in Targets(s.devices, user, |s.devices|) {
      OwnedIsTarget(s.devices, user, d);
    }
    var targets := Targets(s.devices, user, |s.devices|);
    if targets != [] {
      assert ActiveFor(s, user, targets[0]);
    }
  }

  /** There is a bundle for each active device of the user and for no other. It carries the device's
      active signed prekey, if there is one, and its next one-time key, if one is left. */
  lemma BundleMeans(max: nat, s: Store, user: UserId)
    requires OneActive(s.signed)
    ensures var r := Step(max, s, Fetch(user)).1;
            r.Bundles? ==>
              && (forall d :: ActiveFor(s, user, d) <==> exists b :: 0 <= b < |r.bundles| && r.bundles[b].device == d)
              && (forall b :: 0 <= b < |r.bundles| ==> BundleFor(s, r.bundles[b]))
  {
    hide Current, Oldest, Carried, OneActive, BundleFor, Consume;
    var targets := Targets(s.devices, user, |s.devices|);
    BundlesCoverDevices(s, user);
    forall d ensures ActiveFor(s, user, d) <==> Owned(s.devices, user, d) {}
    forall b | 0 <= b < |targets| ensures BundleFor(s, BundleOf(s, targets[b])) {
      BundleIsRight(s, targets[b]);
    }
  }

  /** The names of exactly the one-time keys in the response are recorded as handed out. */
  lemma HandedMeans(max: nat, s: Store, user: UserId)
    ensures var (t, r) := Step(max, s, Fetch(user));
            r.Bundles? ==>
              && |s.handed| <= |t.handed| && t.handed[..|s.handed|] == s.handed
              && (forall k :: k in t.handed[|s.handed|..] <==>
                    exists b :: 0 <= b < |r.bundles| && r.bundles[b].oneTime.Some?
                                && k == KeyName(r.bundles[b].oneTime.value.device, r.bundles[b].oneTime.value.keyId))
  {
    hide BundlesOf, Carried, Consume, Targets;
    CarriedFrom(BundlesOf(s, Targets(s.devices, user, |s.devices|)));
  }

  ghost predicate BundleFor(s: Store, b: Bundle) {
    && (forall i :: 0 <= i < |s.signed| && s.signed[i].device == b.device && s.signed[i].active ==> b.signed == Some(s.signed[i]))
    && (b.signed.Some? ==> b.signed.value in s.signed && b.signed.value.device == b.device && b.signed.value.active)
    && (forall i :: 0 <= i < |s.prekeys| && IsNext(s.prekeys, i) && s.prekeys[i].device == b.device ==> b.oneTime == Some(s.prekeys[i]))
    && (b.oneTime.Some? ==> exists i :: 0 <= i < |s.prekeys| && IsNext(s.prekeys, i) && s.prekeys[i].device == b.device && b.oneTime == Some(s.prekeys[i]))
  }

  lemma BundleIsRight(s: Store, d: DeviceId)
    requires OneActive(s.signed)
    ensures BundleFor(s, BundleOf(s, d))
  {
    hide Current, Oldest, OneActive, IsNext;
    forall i | 0 <= i < |s.signed| && s.signed[i].device == d && s.signed[i].active ensures BundleOf(s, d).signed == Some(s.signed[i]) {
      CurrentIsTheActive(s.signed, d, i, |s.signed|);
    }
    forall i | 0 <= i < |s.prekeys| && IsNext(s.prekeys, i) && s.prekeys[i].device == d ensures Oldest(s.prekeys, d, |s.prekeys|) == Some(i) {
      NextIsOldest(s.prekeys, i);
    }
    var r := Oldest(s.prekeys, d, |s.prekeys|);
    if r.Some? {
      assert InStock(s.prekeys[r.value], d);
      NextIsOldest(s.prekeys, r.value);
    }
  }

  lemma DevicesMean(max: nat, s: Store, user: UserId, d: DeviceId, active: bool, elapsed: nat)
    ensures Step(max, s, NewDevice(user)) == (s.(devices := s.devices + [Device(user, true)]), Done)
    ensures Step(max, s, SetActive(d, active)) ==
            if d < |s.devices| then (s.(devices := s.devices[d := Device(s.devices[d].user, active)]), Done) else (s, NotFound)
    ensures Step(max, s, Tick(elapsed)) == (s.(clock := s.clock + elapsed), Done)
  {}
}
