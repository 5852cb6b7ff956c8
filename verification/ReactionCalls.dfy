/**
 What each reaction call answers, and what it does to the cache.
 */
module ReactionCalls {
  import opened Prelude
  import opened Reactions

  ghost predicate Reacts(rows: seq<Reaction>, user: UserId, m: MessageId, e: Emoji) {
    Reaction(user, m, e) in rows
  }

  lemma EmojiMeans(rows: seq<Reaction>, user: UserId, m: MessageId)
    requires OnePerUser(rows)
    ensures forall e :: EmojiOf(rows, user, m) == Some(e) <==> Reacts(rows, user, m, e)
  {
    hide Find, OnePerUser;
    forall e | Reacts(rows, user, m, e) ensures EmojiOf(rows, user, m) == Some(e) {
      var i :| 0 <= i < |rows| && rows[i] == Reaction(user, m, e);
      OwnEmoji(rows, i);
    }
    forall e | EmojiOf(rows, user, m) == Some(e) ensures Reacts(rows, user, m, e) {
      var i := Find(rows, user, m).value;
      assert rows[i] == Reaction(user, m, e);
    }
  }

  lemma RefusedMeans(s: Store, q: Request)
    requires (q.Toggle? || q.Remove? || q.Read?) && q.access != Granted
    ensures Step(s, q) == (s, if q.access == NoMessage then NotFound else Forbidden)
  {}

  /** A toggle answers what it did, gives the user exactly that emoji or none, leaves everybody else's
      reactions alone, and forgets exactly the message's cached tally. */
  lemma ToggleMeans(s: Store, user: UserId, m: MessageId, e: Emoji)
    requires OnePerUser(s.rows)
    ensures var (d, r) := Step(s, Toggle(user, m, e, Granted));
            && r == (if Reacts(s.rows, user, m, e) then TakenBack(e) else Added(e))
            && OnePerUser(d.rows) && d.clock == s.clock && d.cache == s.cache - {m}
            && (forall who: UserId, at: MessageId, x :: Reacts(d.rows, who, at, x) <==>
                  if (who, at) == (user, m) then x == e && !Reacts(s.rows, user, m, e) else Reacts(s.rows, who, at, x))
  {
    hide Find, Tally, Show, EmojiOf, OnePerUser, Reacts, Toggled;
    var q := Toggle(user, m, e, Granted);
    PlainKeepsOne(s.rows, q);
    EmojiMeans(s.rows, user, m);
    forall who: UserId, at: MessageId, x
      ensures Reacts(Step(s, q).0.rows, who, at, x) <==>
              if (who, at) == (user, m) then x == e && !Reacts(s.rows, user, m, e) else Reacts(s.rows, who, at, x)
    {
      ToggleMeaning(s.rows, user, m, e, who, at);
      EmojiMeans(s.rows, who, at);
      EmojiMeans(Step(s, q).0.rows, who, at);
    }
  }

  /** A removal answers whether there was a reaction, and clears exactly that one; without one, not
      even the cache changes. */
  lemma RemoveMeans(s: Store, user: UserId, m: MessageId)
    requires OnePerUser(s.rows)
    ensures var (d, r) := Step(s, Remove(user, m, Granted));
            var had := exists x :: Reacts(s.rows, user, m, x);
            && r == Removed(had) && (!had ==> d == s)
            && OnePerUser(d.rows) && d.clock == s.clock && (had ==> d.cache == s.cache - {m})
            && (forall who: UserId, at: MessageId, x :: Reacts(d.rows, who, at, x) <==> Reacts(s.rows, who, at, x) && (who, at) != (user, m))
  {
    hide Find, Tally, Show, EmojiOf, OnePerUser, Reacts, Dropped;
    var q := Remove(user, m, Granted);
    PlainKeepsOne(s.rows, q);
    EmojiMeans(s.rows, user, m);
    if EmojiOf(s.rows, user, m).Some? {
      assert Reacts(s.rows, user, m, EmojiOf(s.rows, user, m).value);
      forall who: UserId, at: MessageId, x
        ensures Reacts(Step(s, q).0.rows, who, at, x) <==> Reacts(s.rows, who, at, x) && (who, at) != (user, m)
      {
        ToggleMeaning(s.rows, user, m, "", who, at);
        EmojiMeans(s.rows, who, at);
        EmojiMeans(Step(s, q).0.rows, who, at);
      }
    }
  }

  /** A read changes no reaction. It uses an entry younger than 300 seconds, and otherwise stores one. */
  lemma ReadCaches(s: Store, user: UserId, m: MessageId)
    ensures var d := Step(s, Read(user, m, Granted)).0;
            && d.rows == s.rows && d.clock == s.clock
            && (if m in s.cache && s.clock < s.cache[m].expiresAt then d.cache == s.cache
                else m in d.cache && d.cache[m].expiresAt == s.clock + 300 && d.cache - {m} == s.cache - {m})
  {
    hide Tally, Find;
  }
}
