/**
 Reactions: `ReactionsService.toggle`, `remove` and `getAggregated` with its five-minute cache.

 The reaction table is a sequence in row order, which is also the order in which the counting
 loop sees the rows. `assertMessageAccess` reads tables outside this model, so each request
 carries its verdict.
 */
module Reactions {
  import opened Prelude

  type UserId = nat
  type MessageId = nat
  type Emoji = string

  datatype Reaction = Reaction(user: UserId, message: MessageId, emoji: Emoji)

  datatype Count = Count(emoji: Emoji, count: nat)

  datatype Shown = Shown(emoji: Emoji, count: nat, reacted: bool)

  datatype Cached = Cached(counts: seq<Count>, expiresAt: int)

  datatype Store = Store(rows: seq<Reaction>, cache: map<MessageId, Cached>, clock: int)

  datatype Access = Granted | NoMessage | NotAllowed

  datatype Request =
    | Toggle(user: UserId, message: MessageId, emoji: Emoji, access: Access)
    | Remove(user: UserId, message: MessageId, access: Access)
    | Read(user: UserId, message: MessageId, access: Access)
    | Evict(message: MessageId)
    | Tick(elapsed: nat)

  datatype Reply =
    | Added(emoji: Emoji)
    | TakenBack(emoji: Emoji)
    | Removed(removed: bool)
    | Counts(counts: seq<Shown>)
    | NotFound
    | Forbidden
    | Silent

  /** Lifetime of a cache entry, in seconds. */
  const Lifetime: int := 300

  // ----- the table -----

  function Find(rows: seq<Reaction>, user: UserId, m: MessageId): (r: Option<nat>)
    ensures r.Some? ==> r.value < |rows| && rows[r.value].user == user && rows[r.value].message == m
    ensures r.None? ==> forall i :: 0 <= i < |rows| ==> !(rows[i].user == user && rows[i].message == m)
  {
    if rows == [] then None
    else
      var n := |rows| - 1;
      if rows[n].user == user && rows[n].message == m then Some(n) else Find(rows[..n], user, m)
  }

  function EmojiOf(rows: seq<Reaction>, user: UserId, m: MessageId): Option<Emoji> {
    match Find(rows, user, m)
    case None => None
    case Some(i) => Some(rows[i].emoji)
  }

  function Without(rows: seq<Reaction>, i: nat): seq<Reaction>
    requires i < |rows|
  {
    rows[..i] + rows[i + 1..]
  }

  function Toggled(rows: seq<Reaction>, user: UserId, m: MessageId, emoji: Emoji): seq<Reaction> {
    match Find(rows, user, m)
    case None => rows + [Reaction(user, m, emoji)]
    case Some(i) => if rows[i].emoji == emoji then Without(rows, i) else rows[i := rows[i].(emoji := emoji)]
  }

  function Dropped(rows: seq<Reaction>, user: UserId, m: MessageId): seq<Reaction> {
    match Find(rows, user, m)
    case None => rows
    case Some(i) => Without(rows, i)
  }

  // ----- counting -----

  function IndexOf(tally: seq<Count>, e: Emoji): (r: Option<nat>)
    ensures r.Some? ==> r.value < |tally| && tally[r.value].emoji == e
    ensures r.None? ==> forall i :: 0 <= i < |tally| ==> tally[i].emoji != e
  {
    if tally == [] then None
    else if tally[|tally| - 1].emoji == e then Some(|tally| - 1)
    else IndexOf(tally[..|tally| - 1], e)
  }

  /** One more of an emoji; a new emoji goes to the end, as in a JavaScript Map. */
  function Bump(tally: seq<Count>, e: Emoji): seq<Count> {
    match IndexOf(tally, e)
    case Some(i) => tally[i := Count(e, tally[i].count + 1)]
    case None => tally + [Count(e, 1)]
  }

  function Lookup(tally: seq<Count>, e: Emoji): nat {
    match IndexOf(tally, e)
    case Some(i) => tally[i].count
    case None => 0
  }

  function Tally(rows: seq<Reaction>, m: MessageId): seq<Count> {
    if rows == [] then []
    else
      var n := |rows| - 1;
      if rows[n].message == m then Bump(Tally(rows[..n], m), rows[n].emoji) else Tally(rows[..n], m)
  }

  /** The response for a user: each count with whether the user chose that emoji. */
  function Show(tally: seq<Count>, own: Option<Emoji>): (r: seq<Shown>)
    ensures |r| == |tally|
    ensures forall i :: 0 <= i < |r| ==> r[i] == Shown(tally[i].emoji, tally[i].count, own == Some(tally[i].emoji))
  {
    if tally == [] then []
    else
      var n := |tally| - 1;
      Show(tally[..n], own) + [Shown(tally[n].emoji, tally[n].count, own == Some(tally[n].emoji))]
  }

  // ----- the service without a cache -----

  function Verdict(access: Access): Reply {
    match access
    case NoMessage => NotFound
    case NotAllowed => Forbidden
    case Granted => Silent
  }

  function Plain(rows: seq<Reaction>, q: Request): (seq<Reaction>, Reply) {
    match q
    case Toggle(user, m, emoji, access) =>
      if access != Granted then (rows, Verdict(access))
      else (Toggled(rows, user, m, emoji), if EmojiOf(rows, user, m) == Some(emoji) then TakenBack(emoji) else Added(emoji))
    case Remove(user, m, access) =>
      if access != Granted then (rows, Verdict(access))
      else (Dropped(rows, user, m), Removed(EmojiOf(rows, user, m).Some?))
    case Read(user, m, access) =>
      if access != Granted then (rows, Verdict(access))
      else (rows, Counts(Show(Tally(rows, m), EmojiOf(rows, user, m))))
    case Evict(_) => (rows, Silent)
    case Tick(_) => (rows, Silent)
  }

  // ----- the service with its cache -----

  /** An entry that has not expired. */
  predicate Hit(s: Store, m: MessageId) {
    m in s.cache && s.clock < s.cache[m].expiresAt
  }

  function Step(s: Store, q: Request): (Store, Reply) {
    match q
    case Toggle(user, m, emoji, access) =>
      if access != Granted then (s, Verdict(access))
      else
        (s.(rows := Toggled(s.rows, user, m, emoji), cache := s.cache - {m}),
         if EmojiOf(s.rows, user, m) == Some(emoji) then TakenBack(emoji) else Added(emoji))
    case Remove(user, m, access) =>
      if access != Granted then (s, Verdict(access))
      else if EmojiOf(s.rows, user, m).None? then (s, Removed(false))
      else (s.(rows := Dropped(s.rows, user, m), cache := s.cache - {m}), Removed(true))
    case Read(user, m, access) =>
      if access != Granted then (s, Verdict(access))
      else if Hit(s, m) then (s, Counts(Show(s.cache[m].counts, EmojiOf(s.rows, user, m))))
      else
        var tally := Tally(s.rows, m);
        (s.(cache := s.cache[m := Cached(tally, s.clock + Lifetime)]), Counts(Show(tally, EmojiOf(s.rows, user, m))))
    case Evict(m) => (s.(cache := s.cache - {m}), Silent)
    case Tick(elapsed) => (s.(clock := s.clock + elapsed), Silent)
  }

  function Init(): Store {
    Store([], map[], 0)
  }

  function RunFrom(s: Store, requests: seq<Request>): (Store, seq<Reply>) {
    if requests == [] then (s, [])
    else
      var n := |requests| - 1;
      var (s1, replies) := RunFrom(s, requests[..n]);
      var (s2, reply) := Step(s1, requests[n]);
      (s2, replies + [reply])
  }

  function PlainRun(rows: seq<Reaction>, requests: seq<Request>): (seq<Reaction>, seq<Reply>) {
    if requests == [] then (rows, [])
    else
      var n := |requests| - 1;
      var (rows1, replies) := PlainRun(rows, requests[..n]);
      var (rows2, reply) := Plain(rows1, requests[n]);
      (rows2, replies + [reply])
  }

  // ----- the cache changes no answer -----

  /** Every cached tally, expired or not, is the current one. */
  ghost predicate Coherent(s: Store) {
    forall m :: m in s.cache ==> s.cache[m].counts == Tally(s.rows, m)
  }

  lemma {:induction false} TallyWithout(rows: seq<Reaction>, i: nat, m: MessageId)
    requires i < |rows| && rows[i].message != m
    ensures Tally(Without(rows, i), m) == Tally(rows, m)
  {
    var n := |rows| - 1;
    var less := Without(rows, i);
    if i == n {
      assert less == rows[..n];
    } else {
      TallyWithout(rows[..n], i, m);
      assert less[..|less| - 1] == Without(rows[..n], i);
      assert less[|less| - 1] == rows[n];
    }
  }

  lemma {:induction false} TallyUpdated(rows: seq<Reaction>, i: nat, e: Emoji, m: MessageId)
    requires i < |rows| && rows[i].message != m
    ensures Tally(rows[i := rows[i].(emoji := e)], m) == Tally(rows, m)
  {
    var n := |rows| - 1;
    var other := rows[i := rows[i].(emoji := e)];
    if i == n {
      assert other[..n] == rows[..n];
    } else {
      TallyUpdated(rows[..n], i, e, m);
      assert other[..n] == rows[..n][i := rows[i].(emoji := e)];
    }
  }

  lemma TallyOfOthers(rows: seq<Reaction>, user: UserId, m: MessageId, e: Emoji, other: MessageId)
    requires other != m
    ensures Tally(Toggled(rows, user, m, e), other) == Tally(rows, other)
    ensures Tally(Dropped(rows, user, m), other) == Tally(rows, other)
  {
    hide Find, Bump, Without;
    match Find(rows, user, m)
    case None =>
      assert (rows + [Reaction(user, m, e)])[..|rows|] == rows;
    case Some(i) =>
      TallyWithout(rows, i, other);
      TallyUpdated(rows, i, e, other);
  }

  lemma StepIsPlain(s: Store, q: Request)
    requires Coherent(s)
    ensures Coherent(Step(s, q).0)
    ensures (Step(s, q).0.rows, Step(s, q).1) == Plain(s.rows, q)
  {
    hide Find, Tally, Toggled, Show, Without;
    if (q.Toggle? || q.Remove?) && q.access == Granted {
      forall m | m in s.cache && m != q.message
        ensures Tally(Step(s, q).0.rows, m) == Tally(s.rows, m)
      {
        TallyOfOthers(s.rows, q.user, q.message, if q.Toggle? then q.emoji else "", m);
      }
    }
  }

  /** In every run of toggles, removals, reads, evictions and passing time, each reply is the one a
      service without a cache gives. */
  lemma {:induction false} CacheIsTransparent(s: Store, requests: seq<Request>)
    requires Coherent(s)
    ensures Coherent(RunFrom(s, requests).0)
    ensures RunFrom(s, requests).0.rows == PlainRun(s.rows, requests).0
    ensures RunFrom(s, requests).1 == PlainRun(s.rows, requests).1
  {
    hide Coherent, Step, Plain;
    if requests != [] {
      var n := |requests| - 1;
      CacheIsTransparent(s, requests[..n]);
      StepIsPlain(RunFrom(s, requests[..n]).0, requests[n]);
    }
  }

  // ----- one reaction per user and message -----

  ghost predicate OnePerUser(rows: seq<Reaction>) {
    forall i, j :: 0 <= i < j < |rows| ==> !(rows[i].user == rows[j].user && rows[i].message == rows[j].message)
  }

  lemma PlainKeepsOne(rows: seq<Reaction>, q: Request)
    requires OnePerUser(rows)
    ensures OnePerUser(Plain(rows, q).0)
  {
    hide Find, Tally, Show;
  }

  lemma {:induction false} PlainRunKeepsOne(requests: seq<Request>)
    ensures OnePerUser(PlainRun([], requests).0)
  {
    hide Plain;
    if requests != [] {
      PlainRunKeepsOne(requests[..|requests| - 1]);
      PlainKeepsOne(PlainRun([], requests[..|requests| - 1]).0, requests[|requests| - 1]);
    }
  }

  /** In every run of the service, cache included, a user has at most one reaction per message. */
  lemma RunKeepsOnePerUser(requests: seq<Request>)
    ensures OnePerUser(RunFrom(Init(), requests).0.rows)
  {
    hide RunFrom, PlainRun, OnePerUser, Coherent;
    CoherentInit();
    CacheIsTransparent(Init(), requests);
    PlainRunKeepsOne(requests);
  }

  lemma OwnEmoji(rows: seq<Reaction>, i: nat)
    requires OnePerUser(rows) && i < |rows|
    ensures EmojiOf(rows, rows[i].user, rows[i].message) == Some(rows[i].emoji)
  {
    hide OnePerUser;
    OnlyRow(rows, i, Find(rows, rows[i].user, rows[i].message).value);
  }

  lemma OnlyRow(rows: seq<Reaction>, i: nat, j: nat)
    requires OnePerUser(rows) && i < |rows| && j < |rows|
    requires rows[i].user == rows[j].user && rows[i].message == rows[j].message
    ensures i == j
  {}

  /** A toggle takes back the same emoji and otherwise sets the new one; a removal clears; nobody
      else's reaction changes. */
  lemma ToggleMeaning(rows: seq<Reaction>, user: UserId, m: MessageId, e: Emoji, who: UserId, at: MessageId)
    requires OnePerUser(rows)
    ensures EmojiOf(Toggled(rows, user, m, e), who, at) ==
            if (who, at) != (user, m) then EmojiOf(rows, who, at)
            else if EmojiOf(rows, user, m) == Some(e) then None else Some(e)
    ensures EmojiOf(Dropped(rows, user, m), who, at) == if (who, at) != (user, m) then EmojiOf(rows, who, at) else None
  {
    hide Find;
    match Find(rows, user, m)
    case None =>
      var q := Toggle(user, m, e, Granted);
      PlainKeepsOne(rows, q);
      Preserved(rows, Toggled(rows, user, m, e), who, at, user, m);
      OwnEmoji(Toggled(rows, user, m, e), |rows|);
    case Some(i) =>
      PlainKeepsOne(rows, Toggle(user, m, e, Granted));
      PlainKeepsOne(rows, Remove(user, m, Granted));
      WithoutRow(rows, i);
      Preserved(rows, Without(rows, i), who, at, user, m);
      var set' := rows[i := rows[i].(emoji := e)];
      UpdatedRow(rows, i, e);
      Preserved(rows, set', who, at, user, m);
      if rows[i].emoji != e {
        OwnEmoji(set', i);
      }
  }

  lemma WithoutRow(rows: seq<Reaction>, i: nat)
    requires OnePerUser(rows) && i < |rows|
    ensures forall r :: r in rows && !(r.user == rows[i].user && r.message == rows[i].message) <==> r in Without(rows, i)
  {
    hide OnePerUser;
    var less := Without(rows, i);
    forall r | r in rows && r != rows[i] ensures r in less {
      var j :| 0 <= j < |rows| && rows[j] == r;
      assert less[if j < i then j else j - 1] == r;
    }
    forall r | r in less ensures r in rows && !(r.user == rows[i].user && r.message == rows[i].message) {
      var j :| 0 <= j < |less| && less[j] == r;
      var k := if j < i then j else j + 1;
      assert rows[k] == r;
      if r.user == rows[i].user && r.message == rows[i].message {
        OnlyRow(rows, k, i);
      }
    }
  }

  lemma UpdatedRow(rows: seq<Reaction>, i: nat, e: Emoji)
    requires i < |rows|
    ensures forall r: Reaction :: (r.user, r.message) != (rows[i].user, rows[i].message) ==>
                                    (r in rows <==> r in rows[i := rows[i].(emoji := e)])
  {
    var other := rows[i := rows[i].(emoji := e)];
    forall r: Reaction | (r.user, r.message) != (rows[i].user, rows[i].message) ensures r in rows <==> r in other {
      if r in rows {
        var j :| 0 <= j < |rows| && rows[j] == r;
        assert other[j] == r;
      }
    }
  }

  /** Two tables that hold the same rows but for one user and message give everyone else the same. */
  lemma Preserved(a: seq<Reaction>, b: seq<Reaction>, who: UserId, at: MessageId, user: UserId, m: MessageId)
    requires OnePerUser(a)
    requires forall r: Reaction :: (r.user, r.message) != (user, m) ==> (r in a <==> r in b)
    ensures (who, at) != (user, m) ==> EmojiOf(a, who, at) == EmojiOf(b, who, at)
  {
    hide Find, OnePerUser;
    if (who, at) != (user, m) {
      var i, j := Find(a, who, at), Find(b, who, at);
      if i.Some? {
        assert a[i.value] in b;
      }
      if j.Some? {
        assert b[j.value] in a;
        var k :| 0 <= k < |a| && a[k] == b[j.value];
        OnlyRow(a, k, i.value);
      }
    }
  }

  // ----- the counts -----

  function UsersWith(rows: seq<Reaction>, m: MessageId, e: Emoji): set<UserId> {
    set i | 0 <= i < |rows| && rows[i].message == m && rows[i].emoji == e :: rows[i].user
  }

  function UsersOf(rows: seq<Reaction>, m: MessageId): set<UserId> {
    set i | 0 <= i < |rows| && rows[i].message == m :: rows[i].user
  }

  function Total(tally: seq<Count>): nat {
    if tally == [] then 0 else Total(tally[..|tally| - 1]) + tally[|tally| - 1].count
  }

  function ShownTotal(shown: seq<Shown>): nat {
    if shown == [] then 0 else ShownTotal(shown[..|shown| - 1]) + shown[|shown| - 1].count
  }

  lemma {:induction false} ShownTotalIsTotal(tally: seq<Count>, own: Option<Emoji>)
    ensures ShownTotal(Show(tally, own)) == Total(tally)
  {
    if tally != [] {
      var n := |tally| - 1;
      ShownTotalIsTotal(tally[..n], own);
      assert Show(tally, own)[..n] == Show(tally[..n], own);
    }
  }

  ghost predicate Proper(tally: seq<Count>) {
    && (forall i :: 0 <= i < |tally| ==> tally[i].count > 0)
    && (forall i, j :: 0 <= i < j < |tally| ==> tally[i].emoji != tally[j].emoji)
  }

  lemma LookupFinds(tally: seq<Count>)
    requires Proper(tally)
    ensures forall i :: 0 <= i < |tally| ==> Lookup(tally, tally[i].emoji) == tally[i].count
    ensures forall e :: Lookup(tally, e) > 0 ==> exists i :: 0 <= i < |tally| && tally[i].emoji == e
  {
    hide IndexOf;
  }

  lemma {:induction false} TotalUpdated(tally: seq<Count>, i: nat, c: Count)
    requires i < |tally|
    ensures Total(tally[i := c]) == Total(tally) - tally[i].count + c.count
  {
    var n := |tally| - 1;
    if i == n {
      assert tally[i := c][..n] == tally[..n];
    } else {
      TotalUpdated(tally[..n], i, c);
      assert tally[i := c][..n] == tally[..n][i := c];
    }
  }

  lemma BumpLaws(tally: seq<Count>, e: Emoji, x: Emoji)
    requires Proper(tally)
    ensures Proper(Bump(tally, e))
    ensures Lookup(Bump(tally, e), x) == Lookup(tally, x) + if x == e then 1 else 0
    ensures Total(Bump(tally, e)) == Total(tally) + 1
  {
    hide IndexOf, Total, Proper, Lookup, Bump;
    BumpStaysProper(tally, e);
    BumpCountsOne(tally, e, x);
    BumpAddsOne(tally, e);
  }

  lemma BumpStaysProper(tally: seq<Count>, e: Emoji)
    requires Proper(tally)
    ensures Proper(Bump(tally, e))
  {
    hide IndexOf;
  }

  lemma BumpAddsOne(tally: seq<Count>, e: Emoji)
    ensures Total(Bump(tally, e)) == Total(tally) + 1
  {
    hide IndexOf;
    match IndexOf(tally, e)
    case Some(i) =>
      TotalUpdated(tally, i, Count(e, tally[i].count + 1));
    case None =>
      assert (tally + [Count(e, 1)])[..|tally|] == tally;
  }

  lemma BumpCountsOne(tally: seq<Count>, e: Emoji, x: Emoji)
    requires Proper(tally)
    ensures Lookup(Bump(tally, e), x) == Lookup(tally, x) + if x == e then 1 else 0
  {
    hide IndexOf;
    BumpStaysProper(tally, e);
    var after := Bump(tally, e);
    LookupFinds(after);
    match IndexOf(tally, x)
    case Some(i) =>
      assert after[i].emoji == x;
    case None =>
      if x == e {
        assert after[|tally|] == Count(e, 1);
      }
  }

  lemma {:induction false} TallyLaws(rows: seq<Reaction>, m: MessageId, e: Emoji)
    requires OnePerUser(rows)
    ensures Proper(Tally(rows, m))
    ensures Lookup(Tally(rows, m), e) == |UsersWith(rows, m, e)|
    ensures Total(Tally(rows, m)) == |UsersOf(rows, m)|
  {
    hide Bump, Lookup, Total, Proper;
    if rows == [] {
      EmptyTally();
      assert UsersWith(rows, m, e) == {} && UsersOf(rows, m) == {};
    } else {
      var n := |rows| - 1;
      TallyLaws(rows[..n], m, e);
      UsersGrow(rows, m, e);
      if rows[n].message == m {
        BumpLaws(Tally(rows[..n], m), rows[n].emoji, e);
      }
    }
  }

  lemma EmptyTally()
    ensures Proper([]) && Total([]) == 0 && forall e :: Lookup([], e) == 0
  {}

  lemma UsersGrow(rows: seq<Reaction>, m: MessageId, e: Emoji)
    requires OnePerUser(rows) && rows != []
    ensures var n := |rows| - 1;
            && |UsersWith(rows, m, e)| == |UsersWith(rows[..n], m, e)| + (if rows[n].message == m && rows[n].emoji == e then 1 else 0)
            && |UsersOf(rows, m)| == |UsersOf(rows[..n], m)| + (if rows[n].message == m then 1 else 0)
  {
    hide UsersWith, UsersOf, OnePerUser;
    var n := |rows| - 1;
    assert rows == rows[..n] + [rows[n]];
    UsersAppend(rows[..n], rows[n], m, e);
    if rows[n].message == m {
      NewcomerReacted(rows, m, e);
    }
  }

  lemma NewcomerReacted(rows: seq<Reaction>, m: MessageId, e: Emoji)
    requires OnePerUser(rows) && rows != [] && rows[|rows| - 1].message == m
    ensures rows[|rows| - 1].user !in UsersOf(rows[..|rows| - 1], m)
    ensures rows[|rows| - 1].user !in UsersWith(rows[..|rows| - 1], m, e)
  {}

  lemma UsersAppend(rows: seq<Reaction>, r: Reaction, m: MessageId, e: Emoji)
    ensures UsersWith(rows + [r], m, e) == UsersWith(rows, m, e) + (if r.message == m && r.emoji == e then {r.user} else {})
    ensures UsersOf(rows + [r], m) == UsersOf(rows, m) + (if r.message == m then {r.user} else {})
  {
    var more := rows + [r];
    assert more[|rows|] == r;
    forall u | u in UsersWith(rows, m, e) ensures u in UsersWith(more, m, e) {
      var i :| 0 <= i < |rows| && rows[i].message == m && rows[i].emoji == e && rows[i].user == u;
      assert more[i] == rows[i];
    }
    forall u | u in UsersOf(rows, m) ensures u in UsersOf(more, m) {
      var i :| 0 <= i < |rows| && rows[i].message == m && rows[i].user == u;
      assert more[i] == rows[i];
    }
  }

  /** What a read returns after any run, said about the table alone: one entry per emoji in use,
      counting the users who chose it; the counts add up to the users who reacted; the flag is set on
      exactly the reader's own emoji. */
  lemma ReadIsExact(requests: seq<Request>, user: UserId, m: MessageId)
    ensures var s := RunFrom(Init(), requests).0;
            match Step(s, Read(user, m, Granted)).1
            case Counts(shown) =>
              && (forall i, j :: 0 <= i < j < |shown| ==> shown[i].emoji != shown[j].emoji)
              && (forall i :: 0 <= i < |shown| ==> shown[i].count == |UsersWith(s.rows, m, shown[i].emoji)| > 0)
              && (forall i :: 0 <= i < |shown| ==> (shown[i].reacted <==> user in UsersWith(s.rows, m, shown[i].emoji)))
              && (forall e :: UsersWith(s.rows, m, e) != {} ==> exists i :: 0 <= i < |shown| && shown[i].emoji == e)
              && ShownTotal(shown) == |UsersOf(s.rows, m)|
            case _ => false
  {
    hide RunFrom, PlainRun, Tally, Step, Coherent, EmojiOf, Lookup, Total, ShownTotal, UsersWith, UsersOf, OnePerUser;
    CoherentInit();
    CacheIsTransparent(Init(), requests);
    RunKeepsOnePerUser(requests);
    var s := RunFrom(Init(), requests).0;
    StepIsPlain(s, Read(user, m, Granted));
    var t := Tally(s.rows, m);
    TallyLaws(s.rows, m, "");
    LookupFinds(t);
    ShownTotalIsTotal(t, EmojiOf(s.rows, user, m));
    forall i | 0 <= i < |t|
      ensures t[i].count == |UsersWith(s.rows, m, t[i].emoji)|
      ensures EmojiOf(s.rows, user, m) == Some(t[i].emoji) <==> user in UsersWith(s.rows, m, t[i].emoji)
    {
      TallyLaws(s.rows, m, t[i].emoji);
      ChoseIt(s.rows, user, m, t[i].emoji);
    }
    forall e | UsersWith(s.rows, m, e) != {} ensures exists i :: 0 <= i < |t| && t[i].emoji == e {
      TallyLaws(s.rows, m, e);
    }
  }

  lemma CoherentInit()
    ensures Coherent(Init()) && Init().rows == []
  {}

  lemma ChoseIt(rows: seq<Reaction>, user: UserId, m: MessageId, e: Emoji)
    requires OnePerUser(rows)
    ensures EmojiOf(rows, user, m) == Some(e) <==> user in UsersWith(rows, m, e)
  {
    hide Find, OnePerUser;
    if user in UsersWith(rows, m, e) {
      var i :| 0 <= i < |rows| && rows[i].message == m && rows[i].emoji == e && rows[i].user == user;
      OwnEmoji(rows, i);
    }
  }

  // ----- the service -----

  class ReactionsService {
    var rows: seq<Reaction>
    var cache: map<MessageId, Cached>
    var clock: int

    ghost function View(): Store
      reads this
    {
      Store(rows, cache, clock)
    }

    ghost predicate Valid()
      reads this
    {
      Coherent(View()) && OnePerUser(rows)
    }

    constructor ()
      ensures Valid() && View() == Init()
    {
      rows, cache, clock := [], map[], 0;
    }

    method ToggleReaction(user: UserId, m: MessageId, emoji: Emoji, access: Access) returns (r: Reply)
      requires Valid()
      modifies this
      ensures Valid() && (View(), r) == Step(old(View()), Toggle(user, m, emoji, access))
    {
      hide Coherent, OnePerUser, Find;
      StepIsPlain(View(), Toggle(user, m, emoji, access));
      PlainKeepsOne(rows, Toggle(user, m, emoji, access));
      if access != Granted {
        return Verdict(access);
      }
      var existing := Find(rows, user, m);
      if existing.Some? && rows[existing.value].emoji == emoji {
        rows := Without(rows, existing.value);
        r := TakenBack(emoji);
      } else {
        if existing.Some? {
          rows := rows[existing.value := rows[existing.value].(emoji := emoji)];
        } else {
          rows := rows + [Reaction(user, m, emoji)];
        }
        r := Added(emoji);
      }
      cache := cache - {m};
    }

    method RemoveReaction(user: UserId, m: MessageId, access: Access) returns (r: Reply)
      requires Valid()
      modifies this
      ensures Valid() && (View(), r) == Step(old(View()), Remove(user, m, access))
    {
      hide Coherent, OnePerUser, Find;
      StepIsPlain(View(), Remove(user, m, access));
      PlainKeepsOne(rows, Remove(user, m, access));
      if access != Granted {
        return Verdict(access);
      }
      var existing := Find(rows, user, m);
      if existing.None? {
        return Removed(false);
      }
      rows := Without(rows, existing.value);
      cache := cache - {m};
      r := Removed(true);
    }

    method GetAggregated(user: UserId, m: MessageId, access: Access) returns (r: Reply)
      requires Valid()
      modifies `cache
      ensures Valid() && (View(), r) == Step(old(View()), Read(user, m, access))
      ensures r == Plain(rows, Read(user, m, access)).1
    {
      hide Coherent, OnePerUser, Find, Tally;
      StepIsPlain(View(), Read(user, m, access));
      if access != Granted {
        return Verdict(access);
      }
      var own := EmojiOf(rows, user, m);
      if m in cache && clock < cache[m].expiresAt {
        return Counts(Show(cache[m].counts, own));
      }
      var tally := CountReactions(m);
      cache := cache[m := Cached(tally, clock + Lifetime)];
      r := Counts(Show(tally, own));
    }

    /** The counting loop: a map from emoji to count that remembers the order of first insertion. */
    method CountReactions(m: MessageId) returns (tally: seq<Count>)
      ensures tally == Tally(rows, m)
    {
      hide Bump;
      var order: seq<Emoji> := [];
      var counts: map<Emoji, nat> := map[];
      for i := 0 to |rows|
        invariant Listed(order, counts)
        invariant Tally(rows[..i], m) == Entries(order, counts)
      {
        assert rows[..i + 1][..i] == rows[..i];
        if rows[i].message == m {
          var e := rows[i].emoji;
          BumpEntries(order, counts, e);
          if e !in counts {
            order := order + [e];
          }
          counts := counts[e := (if e in counts then counts[e] else 0) + 1];
        }
      }
      assert rows[..|rows|] == rows;
      tally := Entries(order, counts);
    }

    static ghost predicate Listed(order: seq<Emoji>, counts: map<Emoji, nat>) {
      && (forall i :: 0 <= i < |order| ==> order[i] in counts)
      && (forall e :: e in counts ==> e in order && counts[e] > 0)
      && (forall i, j :: 0 <= i < j < |order| ==> order[i] != order[j])
    }

    static function Entries(order: seq<Emoji>, counts: map<Emoji, nat>): (r: seq<Count>)
      requires forall i :: 0 <= i < |order| ==> order[i] in counts
      ensures |r| == |order| && forall i :: 0 <= i < |r| ==> r[i] == Count(order[i], counts[order[i]])
    {
      if order == [] then []
      else
        var n := |order| - 1;
        Entries(order[..n], counts) + [Count(order[n], counts[order[n]])]
    }

    /** Setting a key of the insertion-ordered map is one bump of its entries. */
    static lemma BumpEntries(order: seq<Emoji>, counts: map<Emoji, nat>, e: Emoji)
      requires Listed(order, counts)
      ensures var counts' := counts[e := (if e in counts then counts[e] else 0) + 1];
              var order' := if e in counts then order else order + [e];
              && Listed(order', counts')
              && Bump(Entries(order, counts), e) == Entries(order', counts')
    {
      hide IndexOf, Entries, Bump, Listed;
      if e in counts {
        BumpKnown(order, counts, e);
      } else {
        BumpNew(order, counts, e);
      }
    }

    static lemma BumpKnown(order: seq<Emoji>, counts: map<Emoji, nat>, e: Emoji)
      requires Listed(order, counts) && e in counts
      ensures Listed(order, counts[e := counts[e] + 1])
      ensures Bump(Entries(order, counts), e) == Entries(order, counts[e := counts[e] + 1])
    {
      hide IndexOf, Entries;
      var i :| 0 <= i < |order| && order[i] == e;
      assert Entries(order, counts)[i].emoji == e;
    }

    static lemma BumpNew(order: seq<Emoji>, counts: map<Emoji, nat>, e: Emoji)
      requires Listed(order, counts) && e !in counts
      ensures Listed(order + [e], counts[e := 1])
      ensures Bump(Entries(order, counts), e) == Entries(order + [e], counts[e := 1])
    {
      hide IndexOf, Entries;
      var order', counts' := order + [e], counts[e := 1];
      assert order'[|order|] == e;
      assert forall i :: 0 <= i < |order| ==> order'[i] == order[i] && order[i] != e;
      assert forall x :: x in counts ==> x in order' by {
        assert forall x :: x in order ==> x in order';
      }
    }
  }
}
