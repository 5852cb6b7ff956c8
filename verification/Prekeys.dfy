/**
 Key material of devices: `PreKeysService.refill` and `rotateSignedPrekey`, and the allocation of
 one-time prekeys by `UsersService.getDeviceKeyBundles`.

 Tables are sequences in insertion order, and a device's id is its index. Section 3.3 of the X3DH
 specification asks that the server give out each one-time prekey once and then delete it; this
 server keeps the row and marks it consumed.
 */
module Prekeys {
  import opened Prelude

  type UserId = nat
  type DeviceId = nat
  type PublicKey = string

  datatype Device = Device(user: UserId, active: bool)

  datatype Prekey = Prekey(device: DeviceId, keyId: int, publicKey: PublicKey, createdAt: int, consumed: bool)

  datatype Signed = Signed(device: DeviceId, keyId: int, publicKey: PublicKey, active: bool, createdAt: int)

  datatype Bundle = Bundle(device: DeviceId, signed: Option<Signed>, oneTime: Option<Prekey>)

  datatype KeyName = KeyName(device: DeviceId, keyId: int)

  /** The tables, the time, and the names of all one-time keys that went out in a bundle. */
  datatype Store = Store(devices: seq<Device>, prekeys: seq<Prekey>, signed: seq<Signed>, clock: int, handed: seq<KeyName>)

  datatype Upload = Upload(keyId: int, publicKey: PublicKey)

  datatype Request =
    | NewDevice(user: UserId)
    | SetActive(device: DeviceId, active: bool)
    | Refill(user: UserId, device: DeviceId, keys: seq<Upload>)
    | Rotate(user: UserId, device: DeviceId, key: Upload)
    | Fetch(user: UserId)
    | Tick(elapsed: nat)

  datatype Reply = Done | Inserted(count: nat) | Bundles(bundles: seq<Bundle>) | NotFound | Forbidden | BadRequest

  // ----- one-time prekeys -----

  function Name(p: Prekey): KeyName {
    KeyName(p.device, p.keyId)
  }

  predicate InStock(p: Prekey, d: DeviceId) {
    p.device == d && !p.consumed
  }

  function Stock(rows: seq<Prekey>, d: DeviceId): nat {
    if rows == [] then 0
    else Stock(rows[..|rows| - 1], d) + if InStock(rows[|rows| - 1], d) then 1 else 0
  }

  predicate Known(rows: seq<Prekey>, name: KeyName) {
    exists i :: 0 <= i < |rows| && Name(rows[i]) == name
  }

  /** `createMany` with `skipDuplicates`: also within the batch. */
  function Insert(rows: seq<Prekey>, d: DeviceId, keys: seq<Upload>, now: int): seq<Prekey> {
    if keys == [] then rows
    else
      var n := |keys| - 1;
      var before := Insert(rows, d, keys[..n], now);
      if Known(before, KeyName(d, keys[n].keyId)) then before
      else before + [Prekey(d, keys[n].keyId, keys[n].publicKey, now, false)]
  }

  /** The first unconsumed row of the device among the first `n`. */
  function Oldest(rows: seq<Prekey>, d: DeviceId, n: nat): (r: Option<nat>)
    requires n <= |rows|
    ensures r.Some? ==> r.value < n && InStock(rows[r.value], d) && forall j :: 0 <= j < r.value ==> !InStock(rows[j], d)
    ensures r.None? ==> forall j :: 0 <= j < n ==> !InStock(rows[j], d)
  {
    if n == 0 then None
    else
      var before := Oldest(rows, d, n - 1);
      if before.None? && InStock(rows[n - 1], d) then Some(n - 1) else before
  }

  function OldestKey(rows: seq<Prekey>, d: DeviceId): Option<Prekey> {
    match Oldest(rows, d, |rows|)
    case None => None
    case Some(i) => Some(rows[i])
  }

  predicate Owned(devices: seq<Device>, user: UserId, d: DeviceId) {
    d < |devices| && devices[d].user == user && devices[d].active
  }

  /** Marks the oldest key of every active device of the user. */
  function Consume(rows: seq<Prekey>, devices: seq<Device>, user: UserId): (r: seq<Prekey>)
    ensures |r| == |rows|
  {
    seq(|rows|, i requires 0 <= i < |rows| =>
      if Owned(devices, user, rows[i].device) && Oldest(rows, rows[i].device, |rows|) == Some(i)
      then rows[i].(consumed := true) else rows[i])
  }

  // ----- signed prekeys -----

  function Deactivated(signed: seq<Signed>, d: DeviceId): (r: seq<Signed>)
    ensures |r| == |signed|
  {
    seq(|signed|, i requires 0 <= i < |signed| => if signed[i].device == d then signed[i].(active := false) else signed[i])
  }

  function FindSigned(signed: seq<Signed>, d: DeviceId, keyId: int, n: nat): (r: Option<nat>)
    requires n <= |signed|
    ensures r.Some? ==> r.value < n && signed[r.value].device == d && signed[r.value].keyId == keyId
    ensures r.None? ==> forall i :: 0 <= i < n ==> !(signed[i].device == d && signed[i].keyId == keyId)
  {
    if n == 0 then None
    else if signed[n - 1].device == d && signed[n - 1].keyId == keyId then Some(n - 1)
    else FindSigned(signed, d, keyId, n - 1)
  }

  function Upsert(signed: seq<Signed>, d: DeviceId, key: Upload, now: int): seq<Signed> {
    var row := Signed(d, key.keyId, key.publicKey, true, now);
    match FindSigned(signed, d, key.keyId, |signed|)
    case Some(i) => signed[i := row]
    case None => signed + [row]
  }

  /** The newest active signed prekey of the device. */
  function Current(signed: seq<Signed>, d: DeviceId, n: nat): (r: Option<Signed>)
    requires n <= |signed|
    ensures r.Some? ==> r.value.device == d && r.value.active && exists i :: 0 <= i < n && signed[i] == r.value
    ensures r.None? ==> forall i :: 0 <= i < n ==> !(signed[i].device == d && signed[i].active)
  {
    if n == 0 then None
    else
      var before := Current(signed, d, n - 1);
      if signed[n - 1].device == d && signed[n - 1].active && (before.None? || before.value.createdAt < signed[n - 1].createdAt)
      then Some(signed[n - 1]) else before
  }

  // ----- requests -----

  /** The user's active devices, oldest first. */
  function Targets(devices: seq<Device>, user: UserId, n: nat): (r: seq<DeviceId>)
    requires n <= |devices|
    ensures forall i :: 0 <= i < |r| ==> r[i] < n && Owned(devices, user, r[i])
    ensures forall i, j :: 0 <= i < j < |r| ==> r[i] < r[j]
    ensures forall d :: 0 <= d < n && Owned(devices, user, d) ==> d in r
  {
    if n == 0 then []
    else if Owned(devices, user, n - 1) then Targets(devices, user, n - 1) + [n - 1]
    else Targets(devices, user, n - 1)
  }

  function BundleOf(s: Store, d: DeviceId): Bundle {
    Bundle(d, Current(s.signed, d, |s.signed|), OldestKey(s.prekeys, d))
  }

  function BundlesOf(s: Store, targets: seq<DeviceId>): (r: seq<Bundle>)
    ensures |r| == |targets| && forall i :: 0 <= i < |r| ==> r[i] == BundleOf(s, targets[i])
  {
    if targets == [] then [] else BundlesOf(s, targets[..|targets| - 1]) + [BundleOf(s, targets[|targets| - 1])]
  }

  /** The names of the one-time keys in a response. */
  function Carried(bundles: seq<Bundle>): seq<KeyName> {
    if bundles == [] then []
    else
      var last := bundles[|bundles| - 1];
      Carried(bundles[..|bundles| - 1]) + if last.oneTime.Some? then [Name(last.oneTime.value)] else []
  }

  function CheckOwner(devices: seq<Device>, user: UserId, d: DeviceId): (r: Reply)
    ensures r == Done <==> Owned(devices, user, d)
  {
    if d >= |devices| || !devices[d].active then NotFound
    else if devices[d].user != user then Forbidden
    else Done
  }

  function Step(max: nat, s: Store, q: Request): (Store, Reply) {
    match q
    case NewDevice(user) => (s.(devices := s.devices + [Device(user, true)]), Done)
    case SetActive(d, active) =>
      if d >= |s.devices| then (s, NotFound)
      else (s.(devices := s.devices[d := s.devices[d].(active := active)]), Done)
    case Refill(user, d, keys) =>
      var r := CheckOwner(s.devices, user, d);
      if r != Done then (s, r)
      else if Stock(s.prekeys, d) + |keys| > max then (s, BadRequest)
      else
        InsertExtends(s.prekeys, d, keys, s.clock);
        var rows := Insert(s.prekeys, d, keys, s.clock);
        (s.(prekeys := rows), Inserted(|rows| - |s.prekeys|))
    case Rotate(user, d, key) =>
      var r := CheckOwner(s.devices, user, d);
      if r != Done then (s, r)
      else (s.(signed := Upsert(Deactivated(s.signed, d), d, key, s.clock)), Done)
    case Fetch(user) =>
      var targets := Targets(s.devices, user, |s.devices|);
      if targets == [] then (s, NotFound)
      else
        var bundles := BundlesOf(s, targets);
        (s.(prekeys := Consume(s.prekeys, s.devices, user), handed := s.handed + Carried(bundles)), Bundles(bundles))
    case Tick(elapsed) => (s.(clock := s.clock + elapsed), Done)
  }

  function Init(): Store {
    Store([], [], [], 0, [])
  }

  function RunFrom(max: nat, s: Store, requests: seq<Request>): Store {
    if requests == [] then s
    else Step(max, RunFrom(max, s, requests[..|requests| - 1]), requests[|requests| - 1]).0
  }

  // ----- invariants -----

  ghost predicate NamesUnique(rows: seq<Prekey>) {
    forall i, j :: 0 <= i < j < |rows| ==> Name(rows[i]) != Name(rows[j])
  }

  ghost predicate InOrder(rows: seq<Prekey>, clock: int) {
    && (forall i, j :: 0 <= i < j < |rows| ==> rows[i].createdAt <= rows[j].createdAt)
    && (forall i :: 0 <= i < |rows| ==> rows[i].createdAt <= clock)
  }

  /** A key was handed out exactly when its row is consumed, and only once. */
  ghost predicate Ledger(rows: seq<Prekey>, handed: seq<KeyName>) {
    && (forall k :: k in handed <==> exists i :: 0 <= i < |rows| && rows[i].consumed && Name(rows[i]) == k)
    && (forall i, j :: 0 <= i < j < |handed| ==> handed[i] != handed[j])
  }

  ghost predicate WithinCap(rows: seq<Prekey>, max: nat) {
    forall d :: Stock(rows, d) <= max
  }

  ghost predicate OneActive(signed: seq<Signed>) {
    && (forall i, j :: 0 <= i < j < |signed| && signed[i].device == signed[j].device ==> !(signed[i].active && signed[j].active))
    && (forall i, j :: 0 <= i < j < |signed| && signed[i].device == signed[j].device ==> signed[i].keyId != signed[j].keyId)
  }

  ghost predicate Inv(max: nat, s: Store) {
    NamesUnique(s.prekeys) && InOrder(s.prekeys, s.clock) && Ledger(s.prekeys, s.handed)
    && WithinCap(s.prekeys, max) && OneActive(s.signed)
  }

  // ----- refill -----

  lemma {:induction false} InsertExtends(rows: seq<Prekey>, d: DeviceId, keys: seq<Upload>, now: int)
    ensures |rows| <= |Insert(rows, d, keys, now)| <= |rows| + |keys|
    ensures Insert(rows, d, keys, now)[..|rows|] == rows
    ensures forall i :: |rows| <= i < |Insert(rows, d, keys, now)| ==>
                          var p := Insert(rows, d, keys, now)[i]; p.device == d && p.createdAt == now && !p.consumed
  {
    if keys != [] {
      InsertExtends(rows, d, keys[..|keys| - 1], now);
    }
  }

  /** After a refill every uploaded name is in the table. */
  lemma {:induction false} InsertCovers(rows: seq<Prekey>, d: DeviceId, keys: seq<Upload>, now: int)
    ensures forall k :: 0 <= k < |keys| ==> Known(Insert(rows, d, keys, now), KeyName(d, keys[k].keyId))
  {
    if keys != [] {
      var n := |keys| - 1;
      InsertCovers(rows, d, keys[..n], now);
      var before := Insert(rows, d, keys[..n], now);
      var after := Insert(rows, d, keys, now);
      forall k | 0 <= k < |keys| ensures Known(after, KeyName(d, keys[k].keyId)) {
        if k < n {
          assert keys[..n][k] == keys[k];
          var i :| 0 <= i < |before| && Name(before[i]) == KeyName(d, keys[k].keyId);
          assert after[i] == before[i];
        } else if !Known(before, KeyName(d, keys[n].keyId)) {
          assert Name(after[|before|]) == KeyName(d, keys[n].keyId);
        }
      }
    }
  }

  lemma {:induction false} InsertKeepsUnique(rows: seq<Prekey>, d: DeviceId, keys: seq<Upload>, now: int)
    requires NamesUnique(rows)
    ensures NamesUnique(Insert(rows, d, keys, now))
  {
    if keys != [] {
      InsertKeepsUnique(rows, d, keys[..|keys| - 1], now);
    }
  }

  lemma {:induction false} InsertCounts(rows: seq<Prekey>, d: DeviceId, keys: seq<Upload>, now: int, e: DeviceId)
    ensures Stock(Insert(rows, d, keys, now), e) == Stock(rows, e) + if d == e then |Insert(rows, d, keys, now)| - |rows| else 0
  {
    if keys != [] {
      var n := |keys| - 1;
      InsertCounts(rows, d, keys[..n], now, e);
      var before := Insert(rows, d, keys[..n], now);
      var p := Prekey(d, keys[n].keyId, keys[n].publicKey, now, false);
      assert (before + [p])[..|before|] == before;
    }
  }

  lemma RefillKeeps(max: nat, s: Store, q: Request)
    requires q.Refill? && Inv(max, s)
    ensures Inv(max, Step(max, s, q).0)
  {
    hide Insert, Stock, NamesUnique, OneActive;
    var rows, rows' := s.prekeys, Step(max, s, q).0.prekeys;
    InsertExtends(rows, q.device, q.keys, s.clock);
    InsertKeepsUnique(rows, q.device, q.keys, s.clock);
    forall e ensures Stock(rows', e) <= max {
      InsertCounts(rows, q.device, q.keys, s.clock, e);
    }
    assert forall i :: 0 <= i < |rows| ==> rows'[i] == rows'[..|rows|][i];
    assert Ledger(rows', s.handed) by {
      forall k ensures k in s.handed <==> exists i :: 0 <= i < |rows'| && rows'[i].consumed && Name(rows'[i]) == k {
        if k in s.handed {
          var i :| 0 <= i < |rows| && rows[i].consumed && Name(rows[i]) == k;
          assert rows'[i] == rows[i];
        }
      }
    }
  }

  // ----- fetch -----

  lemma {:induction false} CarriedFrom(bundles: seq<Bundle>)
    ensures forall k :: k in Carried(bundles) <==> exists i :: 0 <= i < |bundles| && bundles[i].oneTime.Some? && Name(bundles[i].oneTime.value) == k
  {
    if bundles != [] {
      var n := |bundles| - 1;
      CarriedFrom(bundles[..n]);
      forall k | k in Carried(bundles[..n])
        ensures exists i :: 0 <= i < |bundles| && bundles[i].oneTime.Some? && Name(bundles[i].oneTime.value) == k
      {
        var i :| 0 <= i < n && bundles[..n][i].oneTime.Some? && Name(bundles[..n][i].oneTime.value) == k;
        assert bundles[i] == bundles[..n][i];
      }
      forall i | 0 <= i < n && bundles[i].oneTime.Some? ensures Name(bundles[i].oneTime.value) in Carried(bundles[..n]) {
        assert bundles[..n][i] == bundles[i];
      }
    }
  }

  /** Bundles of different devices carry different keys. */
  lemma {:induction false} CarriedOnce(bundles: seq<Bundle>)
    requires forall i :: 0 <= i < |bundles| && bundles[i].oneTime.Some? ==> bundles[i].oneTime.value.device == bundles[i].device
    requires forall i, j :: 0 <= i < j < |bundles| ==> bundles[i].device != bundles[j].device
    ensures forall i, j :: 0 <= i < j < |Carried(bundles)| ==> Carried(bundles)[i] != Carried(bundles)[j]
  {
    if bundles != [] {
      var n := |bundles| - 1;
      CarriedOnce(bundles[..n]);
      CarriedFrom(bundles[..n]);
      if bundles[n].oneTime.Some? {
        forall k | k in Carried(bundles[..n]) ensures k.device != bundles[n].device {
          var i :| 0 <= i < n && bundles[..n][i].oneTime.Some? && Name(bundles[..n][i].oneTime.value) == k;
          assert bundles[i] == bundles[..n][i];
        }
      }
    }
  }

  ghost predicate NewlySpent(rows: seq<Prekey>, rows': seq<Prekey>, k: KeyName)
    requires |rows| == |rows'|
  {
    exists i :: 0 <= i < |rows| && rows'[i].consumed && !rows[i].consumed && Name(rows'[i]) == k
  }

  /** The row of a key that a response carries is marked. */
  lemma CarriedIsConsumed(s: Store, user: UserId, k: KeyName)
    requires k in Carried(BundlesOf(s, Targets(s.devices, user, |s.devices|)))
    ensures NewlySpent(s.prekeys, Consume(s.prekeys, s.devices, user), k)
  {
    hide Carried, Current, Owned, Targets, Consume;
    var targets := Targets(s.devices, user, |s.devices|);
    var bundles := BundlesOf(s, targets);
    CarriedFrom(bundles);
    var b :| 0 <= b < |bundles| && bundles[b].oneTime.Some? && Name(bundles[b].oneTime.value) == k;
    assert bundles[b] == BundleOf(s, targets[b]);
    var i := Oldest(s.prekeys, targets[b], |s.prekeys|).value;
    ConsumeMarksOldest(s, user, targets[b], i);
  }

  lemma ConsumeMarksOldest(s: Store, user: UserId, d: DeviceId, i: nat)
    requires Owned(s.devices, user, d) && Oldest(s.prekeys, d, |s.prekeys|) == Some(i)
    ensures Consume(s.prekeys, s.devices, user)[i] == s.prekeys[i].(consumed := true)
  {
    hide Owned;
  }

  /** A row that a fetch marks is the row of a key its response carries. */
  lemma ConsumedIsCarried(s: Store, user: UserId, k: KeyName)
    requires NewlySpent(s.prekeys, Consume(s.prekeys, s.devices, user), k)
    ensures k in Carried(BundlesOf(s, Targets(s.devices, user, |s.devices|)))
  {
    hide Carried, Current, Owned, Targets;
    var rows := Consume(s.prekeys, s.devices, user);
    var i :| 0 <= i < |rows| && rows[i].consumed && !s.prekeys[i].consumed && Name(rows[i]) == k;
    var targets := Targets(s.devices, user, |s.devices|);
    OwnedIsTarget(s.devices, user, s.prekeys[i].device);
    var b :| 0 <= b < |targets| && targets[b] == s.prekeys[i].device;
    var bundles := BundlesOf(s, targets);
    assert bundles[b] == BundleOf(s, targets[b]);
    CarriedFrom(bundles);
  }

  lemma OwnedIsTarget(devices: seq<Device>, user: UserId, d: DeviceId)
    requires Owned(devices, user, d)
    ensures d in Targets(devices, user, |devices|)
  {}

  lemma FetchLedger(s: Store, user: UserId)
    requires NamesUnique(s.prekeys) && Ledger(s.prekeys, s.handed)
    ensures Ledger(Consume(s.prekeys, s.devices, user), s.handed + Carried(BundlesOf(s, Targets(s.devices, user, |s.devices|))))
  {
    hide Owned, Current, Oldest, Targets, BundlesOf, Carried, NamesUnique;
    var bundles := BundlesOf(s, Targets(s.devices, user, |s.devices|));
    var more := Carried(bundles);
    var rows := Consume(s.prekeys, s.devices, user);
    CarriedOnce(bundles);
    forall k ensures k in more <==> NewlySpent(s.prekeys, rows, k) {
      if k in more {
        CarriedIsConsumed(s, user, k);
      }
      if NewlySpent(s.prekeys, rows, k) {
        ConsumedIsCarried(s, user, k);
      }
    }
    ConsumeOnlyMarks(s, user);
    LedgerGrows(s.prekeys, rows, s.handed, more);
  }

  lemma ConsumeOnlyMarks(s: Store, user: UserId)
    ensures var rows := Consume(s.prekeys, s.devices, user);
            forall i :: 0 <= i < |rows| ==> rows[i] == s.prekeys[i] || rows[i] == s.prekeys[i].(consumed := true)
  {}

  lemma LedgerGrows(rows: seq<Prekey>, rows': seq<Prekey>, handed: seq<KeyName>, more: seq<KeyName>)
    requires NamesUnique(rows) && Ledger(rows, handed) && |rows| == |rows'|
    requires forall i :: 0 <= i < |rows| ==> rows'[i] == rows[i] || rows'[i] == rows[i].(consumed := true)
    requires forall k :: k in more <==> NewlySpent(rows, rows', k)
    requires forall i, j :: 0 <= i < j < |more| ==> more[i] != more[j]
    ensures Ledger(rows', handed + more)
  {
    forall k ensures k in handed + more <==> exists i :: 0 <= i < |rows'| && rows'[i].consumed && Name(rows'[i]) == k {
      if k in handed {
        var i :| 0 <= i < |rows| && rows[i].consumed && Name(rows[i]) == k;
        assert rows'[i].consumed && Name(rows'[i]) == k;
      }
    }
    forall k | k in more ensures k !in handed {
      var i :| 0 <= i < |rows| && rows'[i].consumed && !rows[i].consumed && Name(rows'[i]) == k;
      assert Name(rows[i]) == k;
    }
    AppendDistinct(handed, more);
  }

  lemma AppendDistinct(a: seq<KeyName>, b: seq<KeyName>)
    requires forall i, j :: 0 <= i < j < |a| ==> a[i] != a[j]
    requires forall i, j :: 0 <= i < j < |b| ==> b[i] != b[j]
    requires forall k :: k in b ==> k !in a
    ensures forall i, j :: 0 <= i < j < |a + b| ==> (a + b)[i] != (a + b)[j]
  {
    forall i, j | 0 <= i < j < |a + b| ensures (a + b)[i] != (a + b)[j] {
      if i < |a| <= j {
        assert b[j - |a|] in b;
      }
    }
  }

  lemma {:induction false} StockShrinks(rows: seq<Prekey>, rows': seq<Prekey>, d: DeviceId)
    requires |rows| == |rows'|
    requires forall i :: 0 <= i < |rows| ==> (InStock(rows'[i], d) ==> InStock(rows[i], d))
    ensures Stock(rows', d) <= Stock(rows, d)
  {
    if rows != [] {
      StockShrinks(rows[..|rows| - 1], rows'[..|rows| - 1], d);
    }
  }

  lemma FetchKeeps(max: nat, s: Store, q: Request)
    requires q.Fetch? && Inv(max, s)
    ensures Inv(max, Step(max, s, q).0)
  {
    hide Owned, Current, Oldest, Targets, BundlesOf, Carried, Stock, OneActive, Ledger, Consume;
    FetchLedger(s, q.user);
    ConsumeOnlyMarks(s, q.user);
    var rows := Consume(s.prekeys, s.devices, q.user);
    forall d ensures Stock(rows, d) <= max {
      StockShrinks(s.prekeys, rows, d);
    }
  }

  // ----- rotation -----

  lemma RotateKeeps(signed: seq<Signed>, d: DeviceId, key: Upload, now: int)
    requires OneActive(signed)
    ensures OneActive(Upsert(Deactivated(signed, d), d, key, now))
  {
    hide FindSigned;
    var off := Deactivated(signed, d);
    assert forall i :: 0 <= i < |signed| ==> off[i].device == signed[i].device && off[i].keyId == signed[i].keyId;
    assert forall i :: 0 <= i < |signed| && signed[i].device == d ==> !off[i].active;
  }

  lemma {:induction false} CurrentIsTheActive(signed: seq<Signed>, d: DeviceId, i: nat, n: nat)
    requires OneActive(signed) && i < |signed| && n <= |signed| && signed[i].device == d && signed[i].active
    ensures Current(signed, d, n) == if i < n then Some(signed[i]) else None
  {
    if n > 0 {
      CurrentIsTheActive(signed, d, i, n - 1);
    }
  }

  /** A rotation makes its key the one that bundles of the device carry. */
  lemma RotationTakesEffect(signed: seq<Signed>, d: DeviceId, key: Upload, now: int)
    requires OneActive(signed)
    ensures var after := Upsert(Deactivated(signed, d), d, key, now);
            Current(after, d, |after|) == Some(Signed(d, key.keyId, key.publicKey, true, now))
  {
    hide Current, Deactivated;
    RotateKeeps(signed, d, key, now);
    var off := Deactivated(signed, d);
    var after := Upsert(off, d, key, now);
    var i := match FindSigned(off, d, key.keyId, |off|) case Some(i) => i case None => |off|;
    CurrentIsTheActive(after, d, i, |after|);
  }

  lemma {:induction false} CurrentSame(a: seq<Signed>, b: seq<Signed>, d: DeviceId, n: nat)
    requires n <= |a| && n <= |b|
    requires forall i :: 0 <= i < n ==> a[i] == b[i] || (a[i].device != d && b[i].device != d)
    ensures Current(a, d, n) == Current(b, d, n)
  {
    if n > 0 {
      CurrentSame(a, b, d, n - 1);
    }
  }

  lemma RotationSparesOthers(signed: seq<Signed>, d: DeviceId, key: Upload, now: int, e: DeviceId)
    requires d != e
    ensures var after := Upsert(Deactivated(signed, d), d, key, now);
            Current(after, e, |after|) == Current(signed, e, |signed|)
  {
    var after := Upsert(Deactivated(signed, d), d, key, now);
    CurrentSame(signed, after, e, |signed|);
  }

  // ----- every run -----

  lemma StepKeepsInv(max: nat, s: Store, q: Request)
    requires Inv(max, s)
    ensures Inv(max, Step(max, s, q).0)
  {
    hide Stock, Insert, Consume, Carried, BundlesOf, Targets, Upsert, Deactivated, Ledger, NamesUnique, OneActive, WithinCap;
    match q
    case Refill(_, _, _) => RefillKeeps(max, s, q);
    case Fetch(_) => FetchKeeps(max, s, q);
    case Rotate(_, d, key) => RotateKeeps(s.signed, d, key, s.clock);
    case NewDevice(_) =>
    case SetActive(_, _) =>
    case Tick(_) =>
  }

  lemma EmptyInv(max: nat)
    ensures Inv(max, Init())
  {}

  lemma {:induction false} RunKeepsInv(max: nat, requests: seq<Request>)
    ensures Inv(max, RunFrom(max, Init(), requests))
  {
    hide Inv, Step;
    EmptyInv(max);
    if requests != [] {
      RunKeepsInv(max, requests[..|requests| - 1]);
      StepKeepsInv(max, RunFrom(max, Init(), requests[..|requests| - 1]), requests[|requests| - 1]);
    }
  }

  /** No one-time prekey goes out twice, in any run; and the keys that went out are those whose rows
      are consumed. */
  lemma NeverHandedOutTwice(max: nat, requests: seq<Request>)
    ensures var s := RunFrom(max, Init(), requests);
            && (forall i, j :: 0 <= i < j < |s.handed| ==> s.handed[i] != s.handed[j])
            && (forall k :: k in s.handed <==> exists i :: 0 <= i < |s.prekeys| && s.prekeys[i].consumed && Name(s.prekeys[i]) == k)
  {
    hide RunFrom, NamesUnique, InOrder, WithinCap, OneActive;
    RunKeepsInv(max, requests);
  }

  /** In any run no device has more than the maximum of unconsumed keys. */
  lemma StockNeverExceedsCap(max: nat, requests: seq<Request>, d: DeviceId)
    ensures Stock(RunFrom(max, Init(), requests).prekeys, d) <= max
  {
    hide RunFrom, Stock, NamesUnique, InOrder, Ledger, OneActive;
    RunKeepsInv(max, requests);
  }

  /** In any run a device has at most one active signed prekey. */
  lemma {:induction false} OneSignedPrekeyIsActive(max: nat, requests: seq<Request>, i: nat, j: nat)
    requires var signed := RunFrom(max, Init(), requests).signed; i < |signed| && j < |signed|
    requires var signed := RunFrom(max, Init(), requests).signed;
             signed[i].device == signed[j].device && signed[i].active && signed[j].active
    ensures i == j
  {
    hide RunFrom, NamesUnique, InOrder, Ledger, WithinCap;
    RunKeepsInv(max, requests);
  }

  /** What a bundle says about a device: the key was unconsumed, nothing older was, and there is no
      key only when the device has none left. */
  ghost predicate Fair(rows: seq<Prekey>, b: Bundle) {
    match b.oneTime
    case Some(p) => p in rows && InStock(p, b.device) && forall i :: 0 <= i < |rows| && InStock(rows[i], b.device) ==> p.createdAt <= rows[i].createdAt
    case None => forall i :: 0 <= i < |rows| ==> !InStock(rows[i], b.device)
  }

  /** A fetch after any run: one bundle per active device of the user, each fair. */
  lemma BundlesAreFair(max: nat, requests: seq<Request>, user: UserId)
    ensures var s := RunFrom(max, Init(), requests);
            match Step(max, s, Fetch(user)).1
            case Bundles(bundles) =>
              && (forall d :: Owned(s.devices, user, d) <==> exists i :: 0 <= i < |bundles| && bundles[i].device == d)
              && (forall i, j :: 0 <= i < j < |bundles| ==> bundles[i].device < bundles[j].device)
              && (forall i :: 0 <= i < |bundles| ==> Fair(s.prekeys, bundles[i]))
            case NotFound => forall d :: !Owned(s.devices, user, d)
            case _ => false
  {
    hide RunFrom, NamesUnique, InOrder, Ledger, WithinCap, OneActive, Owned, BundlesOf, Targets, Fair, Carried, Consume;
    var s := RunFrom(max, Init(), requests);
    RunKeepsInv(max, requests);
    var targets := Targets(s.devices, user, |s.devices|);
    BundlesCoverDevices(s, user);
    forall i | 0 <= i < |targets| ensures Fair(s.prekeys, BundleOf(s, targets[i])) {
      OldestIsFair(s, targets[i]);
    }
  }

  lemma BundlesCoverDevices(s: Store, user: UserId)
    ensures var bundles := BundlesOf(s, Targets(s.devices, user, |s.devices|));
            && (forall d :: Owned(s.devices, user, d) <==> exists i :: 0 <= i < |bundles| && bundles[i].device == d)
            && (forall i, j :: 0 <= i < j < |bundles| ==> bundles[i].device < bundles[j].device)
  {
    hide Owned, Current, OldestKey;
    var targets := Targets(s.devices, user, |s.devices|);
    var bundles := BundlesOf(s, targets);
    assert forall i :: 0 <= i < |bundles| ==> bundles[i].device == targets[i];
    forall d | Owned(s.devices, user, d) ensures exists i :: 0 <= i < |bundles| && bundles[i].device == d {
      OwnedIsTarget(s.devices, user, d);
      var i :| 0 <= i < |targets| && targets[i] == d;
      assert bundles[i].device == d;
    }
  }

  lemma OldestIsFair(s: Store, d: DeviceId)
    requires InOrder(s.prekeys, s.clock)
    ensures Fair(s.prekeys, BundleOf(s, d))
  {
    hide InStock, Current;
    var rows := s.prekeys;
    var r := Oldest(rows, d, |rows|);
    if r.Some? {
      forall i | 0 <= i < |rows| && InStock(rows[i], d) ensures rows[r.value].createdAt <= rows[i].createdAt {
        assert i >= r.value;
      }
    }
  }

  /** After a rotation, and any later requests but rotations of that device, the device's bundle
      still carries that signed prekey. */
  lemma {:induction false} RotatedKeyIsServed(max: nat, s: Store, q: Request, later: seq<Request>)
    requires Inv(max, s) && q.Rotate? && Owned(s.devices, q.user, q.device)
    requires forall i :: 0 <= i < |later| ==> !(later[i].Rotate? && later[i].device == q.device)
    ensures var s' := RunFrom(max, Step(max, s, q).0, later);
            BundleOf(s', q.device).signed == Some(Signed(q.device, q.key.keyId, q.key.publicKey, true, s.clock))
  {
    hide Inv, Current, Upsert, Deactivated, Stock, Insert, Consume, Carried, BundlesOf, Targets, OldestKey, Owned;
    if later == [] {
      SignedIsSound(max, s);
      RotationTakesEffect(s.signed, q.device, q.key, s.clock);
    } else {
      var n := |later| - 1;
      RotatedKeyIsServed(max, s, q, later[..n]);
      var s1 := RunFrom(max, Step(max, s, q).0, later[..n]);
      if later[n].Rotate? {
        RotationSparesOthers(s1.signed, later[n].device, later[n].key, s1.clock, q.device);
      }
    }
  }

  lemma SignedIsSound(max: nat, s: Store)
    requires Inv(max, s)
    ensures OneActive(s.signed)
  {}

  // ----- conservation -----

  function RowsFor(rows: seq<Prekey>, d: DeviceId): nat {
    if rows == [] then 0
    else RowsFor(rows[..|rows| - 1], d) + if rows[|rows| - 1].device == d then 1 else 0
  }

  function HandedFor(handed: seq<KeyName>, d: DeviceId): nat {
    if handed == [] then 0
    else HandedFor(handed[..|handed| - 1], d) + if handed[|handed| - 1].device == d then 1 else 0
  }

  /** The names of a device's consumed rows. */
  ghost function SpentNames(rows: seq<Prekey>, d: DeviceId): set<KeyName> {
    set i | 0 <= i < |rows| && rows[i].device == d && rows[i].consumed :: Name(rows[i])
  }

  lemma {:induction false} SpentCount(rows: seq<Prekey>, d: DeviceId)
    requires NamesUnique(rows)
    ensures RowsFor(rows, d) == Stock(rows, d) + |SpentNames(rows, d)|
  {
    if rows == [] {
      assert SpentNames(rows, d) == {};
    } else {
      hide SpentNames;
      var n := |rows| - 1;
      SpentCount(rows[..n], d);
      SpentGrows(rows[..n], rows[n], d);
      assert rows == rows[..n] + [rows[n]];
      NewName(rows, d);
    }
  }

  lemma SpentGrows(rows: seq<Prekey>, p: Prekey, d: DeviceId)
    ensures SpentNames(rows + [p], d) == SpentNames(rows, d) + (if p.device == d && p.consumed then {Name(p)} else {})
  {
    var more := rows + [p];
    assert more[|rows|] == p;
    forall k | k in SpentNames(rows, d) ensures k in SpentNames(more, d) {
      var i :| 0 <= i < |rows| && rows[i].device == d && rows[i].consumed && Name(rows[i]) == k;
      assert more[i] == rows[i];
    }
  }

  lemma NewName(rows: seq<Prekey>, d: DeviceId)
    requires NamesUnique(rows) && rows != []
    ensures Name(rows[|rows| - 1]) !in SpentNames(rows[..|rows| - 1], d)
  {}

  lemma {:induction false} HandedCount(handed: seq<KeyName>, d: DeviceId, names: set<KeyName>)
    requires forall i, j :: 0 <= i < j < |handed| ==> handed[i] != handed[j]
    requires forall k :: k in names <==> k in handed && k.device == d
    ensures |names| == HandedFor(handed, d)
  {
    if handed == [] {
      assert names == {};
    } else {
      var n := |handed| - 1;
      HandedCount(handed[..n], d, names - {handed[n]});
    }
  }

  /** Every key a device ever stored was handed out once or is still in stock. */
  lemma KeysAreConserved(max: nat, requests: seq<Request>, d: DeviceId)
    ensures var s := RunFrom(max, Init(), requests);
            RowsFor(s.prekeys, d) == Stock(s.prekeys, d) + HandedFor(s.handed, d)
  {
    hide RunFrom, RowsFor, Stock, HandedFor, NamesUnique, InOrder, WithinCap, OneActive;
    RunKeepsInv(max, requests);
    var s := RunFrom(max, Init(), requests);
    SpentCount(s.prekeys, d);
    HandedCount(s.handed, d, SpentNames(s.prekeys, d));
  }

  // ----- the services -----

  class PrekeyService {
    const maxTotal: nat
    var devices: seq<Device>
    var prekeys: seq<Prekey>
    var signed: seq<Signed>
    var clock: int
    ghost var handed: seq<KeyName>

    ghost function View(): Store
      reads this
    {
      Store(devices, prekeys, signed, clock, handed)
    }

    ghost predicate Valid()
      reads this
    {
      Inv(maxTotal, View())
    }

    constructor (maxTotal: nat)
      ensures Valid() && this.maxTotal == maxTotal && View() == Init()
    {
      this.maxTotal := maxTotal;
      devices, prekeys, signed, clock, handed := [], [], [], 0, [];
      new;
      EmptyInv(maxTotal);
    }

    method CountStock(d: DeviceId) returns (n: nat)
      ensures n == Stock(prekeys, d)
    {
      n := 0;
      for i := 0 to |prekeys|
        invariant n == Stock(prekeys[..i], d)
      {
        assert prekeys[..i + 1][..i] == prekeys[..i];
        if InStock(prekeys[i], d) {
          n := n + 1;
        }
      }
      assert prekeys[..|prekeys|] == prekeys;
    }

    method RefillKeys(user: UserId, d: DeviceId, keys: seq<Upload>) returns (r: Reply)
      requires Valid()
      modifies this
      ensures Valid() && (View(), r) == Step(maxTotal, old(View()), Refill(user, d, keys))
    {
      hide Inv, Stock, Insert, Known;
      StepKeepsInv(maxTotal, View(), Refill(user, d, keys));
      r := CheckOwner(devices, user, d);
      if r != Done {
        return;
      }
      var current := CountStock(d);
      if current + |keys| > maxTotal {
        return BadRequest;
      }
      InsertExtends(prekeys, d, keys, clock);
      var before := |prekeys|;
      CreateMany(d, keys);
      r := Inserted(|prekeys| - before);
    }

    method CreateMany(d: DeviceId, keys: seq<Upload>)
      modifies `prekeys
      ensures prekeys == Insert(old(prekeys), d, keys, clock)
    {
      hide Known;
      ghost var was := prekeys;
      for k := 0 to |keys|
        invariant prekeys == Insert(was, d, keys[..k], clock)
      {
        assert keys[..k + 1][..k] == keys[..k];
        if !Known(prekeys, KeyName(d, keys[k].keyId)) {
          prekeys := prekeys + [Prekey(d, keys[k].keyId, keys[k].publicKey, clock, false)];
        }
      }
      assert keys[..|keys|] == keys;
    }

    method RotateSignedPrekey(user: UserId, d: DeviceId, key: Upload) returns (r: Reply)
      requires Valid()
      modifies this
      ensures Valid() && (View(), r) == Step(maxTotal, old(View()), Rotate(user, d, key))
      ensures r == Done ==> Current(signed, d, |signed|) == Some(Signed(d, key.keyId, key.publicKey, true, clock))
    {
      hide Inv, Deactivated, Upsert, Current;
      StepKeepsInv(maxTotal, View(), Rotate(user, d, key));
      SignedIsSound(maxTotal, View());
      r := CheckOwner(devices, user, d);
      if r == Done {
        RotationTakesEffect(signed, d, key, clock);
        DeactivateAll(d);
        signed := Upsert(signed, d, key, clock);
      }
    }

    method DeactivateAll(d: DeviceId)
      modifies `signed
      ensures signed == Deactivated(old(signed), d)
    {
      ghost var was := signed;
      for i := 0 to |signed|
        invariant |signed| == |was|
        invariant forall j :: 0 <= j < i ==> signed[j] == Deactivated(was, d)[j]
        invariant forall j :: i <= j < |was| ==> signed[j] == was[j]
      {
        if signed[i].device == d && signed[i].active {
          signed := signed[i := signed[i].(active := false)];
        }
      }
      assert signed == Deactivated(was, d);
    }

    /** `getDeviceKeyBundles`: one bundle per active device, each taking that device's oldest key. */
    method GetDeviceKeyBundles(user: UserId) returns (r: Reply)
      requires Valid()
      modifies this
      ensures Valid() && (View(), r) == Step(maxTotal, old(View()), Fetch(user))
    {
      hide Inv, Targets, Consume, Carried, BundlesOf;
      StepKeepsInv(maxTotal, View(), Fetch(user));
      var targets := Targets(devices, user, |devices|);
      if targets == [] {
        return NotFound;
      }
      var chosen := ChooseKeys(user);
      var bundles := MakeBundles(targets, chosen);
      handed := handed + Carried(bundles);
      MarkConsumed(user, chosen);
      r := Bundles(bundles);
    }

    /** The loop over unconsumed rows, oldest first: the first row seen of each device wins. */
    method ChooseKeys(user: UserId) returns (chosen: map<DeviceId, nat>)
      ensures Chosen(prekeys, devices, user, |prekeys|, chosen)
    {
      hide Owned;
      chosen := map[];
      for i := 0 to |prekeys|
        invariant Chosen(prekeys, devices, user, i, chosen)
      {
        var d := prekeys[i].device;
        if Owned(devices, user, d) && !prekeys[i].consumed && d !in chosen {
          chosen := chosen[d := i];
        }
      }
    }

    /** `chosen` maps each active device of the user to its oldest unconsumed row among the first `n`. */
    static ghost predicate Chosen(rows: seq<Prekey>, devices: seq<Device>, user: UserId, n: nat, chosen: map<DeviceId, nat>)
      requires n <= |rows|
    {
      && (forall d :: d in chosen ==> Owned(devices, user, d) && Oldest(rows, d, n) == Some(chosen[d]))
      && (forall d :: Owned(devices, user, d) && d !in chosen ==> Oldest(rows, d, n) == None)
    }

    method MakeBundles(targets: seq<DeviceId>, chosen: map<DeviceId, nat>) returns (bundles: seq<Bundle>)
      requires forall i :: 0 <= i < |targets| && targets[i] in chosen ==> Oldest(prekeys, targets[i], |prekeys|) == Some(chosen[targets[i]])
      requires forall i :: 0 <= i < |targets| && targets[i] !in chosen ==> Oldest(prekeys, targets[i], |prekeys|) == None
      ensures bundles == BundlesOf(View(), targets)
    {
      hide Oldest, Current;
      bundles := [];
      for i := 0 to |targets|
        invariant bundles == BundlesOf(View(), targets[..i])
      {
        assert targets[..i + 1][..i] == targets[..i];
        var d := targets[i];
        var key := if d in chosen then Some(prekeys[chosen[d]]) else None;
        bundles := bundles + [Bundle(d, Current(signed, d, |signed|), key)];
      }
      assert targets[..|targets|] == targets;
    }

    method MarkConsumed(user: UserId, chosen: map<DeviceId, nat>)
      requires Chosen(prekeys, devices, user, |prekeys|, chosen)
      modifies `prekeys
      ensures prekeys == Consume(old(prekeys), devices, user)
    {
      hide Owned, Oldest, Consume, Chosen;
      ghost var was := prekeys;
      ConsumeAsChosen(prekeys, devices, user, chosen);
      for i := 0 to |prekeys|
        invariant |prekeys| == |was|
        invariant forall j :: 0 <= j < i ==> prekeys[j] == Consume(was, devices, user)[j]
        invariant forall j :: i <= j < |was| ==> prekeys[j] == was[j]
      {
        var d := prekeys[i].device;
        if d in chosen && chosen[d] == i {
          prekeys := prekeys[i := prekeys[i].(consumed := true)];
        }
      }
    }

    static lemma ConsumeAsChosen(rows: seq<Prekey>, devices: seq<Device>, user: UserId, chosen: map<DeviceId, nat>)
      requires Chosen(rows, devices, user, |rows|, chosen)
      ensures forall i :: 0 <= i < |rows| ==>
                            Consume(rows, devices, user)[i] ==
                            if rows[i].device in chosen && chosen[rows[i].device] == i then rows[i].(consumed := true) else rows[i]
    {
      hide Owned, Oldest;
    }
  }
}
