/**
 What each OTP call answers, and what it changes, said about the table alone.
 */
module OtpCalls {
  import opened Otps

  // ----- codes -----

  /** The code, filled up on the left with zeros to six characters. */
  ghost predicate Padded(code: string, p: string) {
    && |p| == (if |code| < 6 then 6 else |code|)
    && p[|p| - |code|..] == code
    && forall i :: 0 <= i < |p| - |code| ==> p[i] == '0'
  }

  ghost predicate SameCode(a: string, b: string) {
    exists p :: Padded(a, p) && Padded(b, p)
  }

  function From(s: string, least: char): nat {
    if s == [] then 0 else From(s[..|s| - 1], least) + if s[|s| - 1] >= least then 1 else 0
  }

  /** Bytes in UTF-8: one per character, and one more from each of three code points on. */
  function Bytes(s: string): nat {
    |s| + From(s, '\U{80}') + From(s, '\U{800}') + From(s, '\U{10000}')
  }

  /** As many characters but not as many bytes: the constant-time comparison throws. */
  ghost predicate Incomparable(a: string, b: string) {
    exists p, q :: Padded(a, p) && Padded(b, q) && |p| == |q| && Bytes(p) != Bytes(q)
  }

  lemma PadIsPadded(code: string, p: string)
    ensures Padded(code, p) <==> p == PadStart(code)
  {
    var s := PadStart(code);
    assert Padded(code, s);
    if Padded(code, p) {
      assert p[..|p| - |code|] == s[..|s| - |code|];
      assert p == p[..|p| - |code|] + p[|p| - |code|..];
      assert s == s[..|s| - |code|] + s[|s| - |code|..];
    }
  }

  lemma {:induction false} BytesAreCounted(s: string)
    ensures ByteLength(s) == Bytes(s)
  {
    if s != [] {
      BytesAreCounted(s[..|s| - 1]);
    }
  }

  lemma ComparisonMeans(a: string, b: string)
    ensures Compare(a, b) == Same <==> SameCode(a, b)
    ensures Compare(a, b) == Throws <==> Incomparable(a, b)
  {
    hide PadStart, ByteLength, Bytes, Padded;
    forall p ensures Padded(a, p) <==> p == PadStart(a) { PadIsPadded(a, p); }
    forall p ensures Padded(b, p) <==> p == PadStart(b) { PadIsPadded(b, p); }
    assert Padded(a, PadStart(a)) && Padded(b, PadStart(b));
    BytesAreCounted(PadStart(a));
    BytesAreCounted(PadStart(b));
  }

  /** Six ASCII characters, such as the codes the service sends, are the same code only if equal, and
      always comparable. */
  lemma SixDigitCodes(a: string, b: string)
    requires |a| == 6 == |b|
    requires forall i :: 0 <= i < 6 ==> a[i] < '\U{80}' && b[i] < '\U{80}'
    ensures SameCode(a, b) <==> a == b
    ensures !Incomparable(a, b)
  {
    hide Bytes;
    forall p ensures Padded(a, p) <==> p == a { PadIsPadded(a, p); }
    forall p ensures Padded(b, p) <==> p == b { PadIsPadded(b, p); }
    assert Padded(a, a) && Padded(b, b);
    AsciiBytes(a);
    AsciiBytes(b);
  }

  lemma AsciiBytes(s: string)
    requires forall i :: 0 <= i < |s| ==> s[i] < '\U{80}'
    ensures Bytes(s) == |s|
  {
    NoneFrom(s, '\U{80}');
    NoneFrom(s, '\U{800}');
    NoneFrom(s, '\U{10000}');
  }

  lemma {:induction false} NoneFrom(s: string, least: char)
    requires forall i :: 0 <= i < |s| ==> s[i] < least
    ensures From(s, least) == 0
  {
    if s != [] {
      NoneFrom(s[..|s| - 1], least);
    }
  }

  // ----- verifying -----

  ghost predicate IsNewest(rows: seq<Otp>, phone: Phone, k: int) {
    && 0 <= k < |rows| && rows[k].phone == phone && rows[k].status == Unused
    && forall i :: k < i < |rows| ==> !(rows[i].phone == phone && rows[i].status == Unused)
  }

  lemma NewestIsNewest(rows: seq<Otp>, phone: Phone, k: int)
    ensures IsNewest(rows, phone, k) <==> 0 <= k && k == Newest(rows, phone)
  {
    hide Newest;
  }

  /** The newest UNUSED code of the phone, if the phone is not locked out and the code has not expired. */
  ghost predicate OnTrial(cfg: Config, rows: seq<Otp>, now: int, phone: Phone, k: int) {
    Attempts(rows, phone, now - cfg.lockout) < cfg.maxAttempts && IsNewest(rows, phone, k) && rows[k].expiresAt > now
  }

  /** Exactly when a verification gives which answer. In particular it succeeds exactly for the code of
      the newest UNUSED, unexpired row of a phone that is not locked out. */
  lemma VerifyAnswers(cfg: Config, rows: seq<Otp>, now: int, phone: Phone, code: string)
    ensures var r := VerifyReply(cfg, rows, now, Verify(phone, code));
            var total := Attempts(rows, phone, now - cfg.lockout);
            && (r == LockedOut <==> total >= cfg.maxAttempts)
            && (r == NoActiveOtp <==> total < cfg.maxAttempts && forall k :: !IsNewest(rows, phone, k))
            && (r == Expired <==> total < cfg.maxAttempts && exists k :: IsNewest(rows, phone, k) && rows[k].expiresAt <= now)
            && (r == Verified <==> exists k :: OnTrial(cfg, rows, now, phone, k) && SameCode(code, rows[k].code))
            && (r == CompareError <==> exists k :: OnTrial(cfg, rows, now, phone, k) && Incomparable(code, rows[k].code))
            && (r == WrongNowLocked <==> total + 1 == cfg.maxAttempts && exists k :: IsWrongCode(cfg, rows, now, phone, code, k))
            && (r == WrongRemaining(cfg.maxAttempts - total - 1)
                <==> total + 1 < cfg.maxAttempts && exists k :: IsWrongCode(cfg, rows, now, phone, code, k))
            && (r.WrongRemaining? ==> r.remaining == cfg.maxAttempts - total - 1)
  {
    hide Attempts, Newest, Compare, SameCode, Incomparable, IsNewest;
    forall k ensures IsNewest(rows, phone, k) <==> 0 <= k && k == Newest(rows, phone) { NewestIsNewest(rows, phone, k); }
    var k := Newest(rows, phone);
    if 0 <= k {
      ComparisonMeans(code, rows[k].code);
      assert IsNewest(rows, phone, k);
      assert OnTrial(cfg, rows, now, phone, k) <==> Attempts(rows, phone, now - cfg.lockout) < cfg.maxAttempts && rows[k].expiresAt > now;
      assert IsWrongCode(cfg, rows, now, phone, code, k) <==>
             OnTrial(cfg, rows, now, phone, k) && !SameCode(code, rows[k].code) && !Incomparable(code, rows[k].code);
    } else {
      assert forall j :: !IsNewest(rows, phone, j);
    }
  }

  ghost predicate IsWrongCode(cfg: Config, rows: seq<Otp>, now: int, phone: Phone, code: string, k: int) {
    OnTrial(cfg, rows, now, phone, k) && !SameCode(code, rows[k].code) && !Incomparable(code, rows[k].code)
  }

  /** What a verification changes: a wrong code costs the row on trial one attempt, the right one uses
      it up, and nothing else happens to the table. */
  lemma VerifyChanges(cfg: Config, w: World, now: int, phone: Phone, code: string)
    ensures var d := Step(cfg, w, At(now, Verify(phone, code)));
            var r := VerifyReply(cfg, w.rows, now, Verify(phone, code));
            var wrong := r == WrongNowLocked || r.WrongRemaining?;
            && d.clock == now && |d.rows| == |w.rows|
            && (forall i :: 0 <= i < |w.rows| ==>
                  d.rows[i] == if !IsNewest(w.rows, phone, i) then w.rows[i]
                               else if wrong then w.rows[i].(attempts := w.rows[i].attempts + 1)
                               else if r == Verified then w.rows[i].(status := Used)
                               else w.rows[i])
            && (forall k :: IsNewest(w.rows, phone, k) ==>
                  d.log == w.log + if wrong then [Entry(phone, now, WrongCode(w.rows[k].createdAt))]
                                   else if r == Verified then [Entry(phone, now, Redeemed)] else [])
            && (!wrong && r != Verified ==> d.log == w.log)
  {
    hide Attempts, Newest, Compare, IsNewest;
    forall k ensures IsNewest(w.rows, phone, k) <==> 0 <= k && k == Newest(w.rows, phone) { NewestIsNewest(w.rows, phone, k); }
  }

  // ----- requesting -----

  ghost predicate Cooling(cfg: Config, rows: seq<Otp>, now: int, phone: Phone, k: int) {
    IsNewest(rows, phone, k) && rows[k].createdAt >= now - cfg.cooldown
  }

  /** A request is refused without a link, and answered with the time at which a new code may be sent
      while the newest UNUSED one is younger than the cooldown; otherwise a code goes out. */
  lemma RequestAnswers(cfg: Config, rows: seq<Otp>, now: int, phone: Phone, linked: bool, devBypass: bool, code: string)
    ensures var r := RequestReply(cfg, rows, now, Request(phone, linked, devBypass, code));
            && (r == LinkRequired <==> !linked && !devBypass)
            && (r.AlreadySent? <==> (linked || devBypass) && exists k :: Cooling(cfg, rows, now, phone, k))
            && (r == Sent <==> (linked || devBypass) && forall k :: !Cooling(cfg, rows, now, phone, k))
            && (r.AlreadySent? ==> exists k :: Cooling(cfg, rows, now, phone, k) && r.canResendAt == rows[k].createdAt + cfg.cooldown)
  {
    hide Newest, IsNewest;
    forall k ensures IsNewest(rows, phone, k) <==> 0 <= k && k == Newest(rows, phone) { NewestIsNewest(rows, phone, k); }
    var k := Newest(rows, phone);
    if 0 <= k {
      assert Cooling(cfg, rows, now, phone, k) <==> rows[k].createdAt >= now - cfg.cooldown;
    }
  }

  /** In a reachable table it makes no difference whether one looks at the newest UNUSED code only. */
  lemma CoolingIsAny(cfg: Config, w: World, now: int, phone: Phone)
    requires Inv(cfg, w)
    ensures (exists k :: Cooling(cfg, w.rows, now, phone, k)) <==>
            exists i :: 0 <= i < |w.rows| && w.rows[i].phone == phone && w.rows[i].status == Unused
                        && w.rows[i].createdAt >= now - cfg.cooldown
  {
    hide Newest, Spaced;
    if i :| 0 <= i < |w.rows| && w.rows[i].phone == phone && w.rows[i].status == Unused && w.rows[i].createdAt >= now - cfg.cooldown {
      var k := Newest(w.rows, phone);
      assert i <= k;
      assert Cooling(cfg, w.rows, now, phone, k);
    }
  }

  /** A sent code is one new row, UNUSED, without attempts, that lives for the ttl. */
  lemma RequestChanges(cfg: Config, w: World, now: int, phone: Phone, linked: bool, devBypass: bool, code: string)
    ensures var q := Request(phone, linked, devBypass, code);
            Step(cfg, w, At(now, q)) == if RequestReply(cfg, w.rows, now, q) == Sent
                                        then World(w.rows + [Otp(phone, code, Unused, 0, now, now + cfg.ttl)],
                                                   w.log + [Entry(phone, now, Created)], now)
                                        else World(w.rows, w.log, now)
  {
    hide Newest;
  }

  // ----- pruning -----

  /** A prune keeps exactly the UNUSED rows that have not expired, as often and in the order they stand. */
  lemma PruneChanges(cfg: Config, w: World, now: int) returns (at: seq<nat>)
    ensures var d := Step(cfg, w, At(now, Prune));
            && d.log == w.log && d.clock == now
            && |at| == |d.rows| && (forall i, j :: 0 <= i < j < |at| ==> at[i] < at[j])
            && (forall i :: 0 <= i < |at| ==> at[i] < |w.rows| && d.rows[i] == w.rows[at[i]])
            && (forall k: nat :: k in at <==> k < |w.rows| && w.rows[k].status == Unused && w.rows[k].expiresAt >= now)
  {
    hide Kept;
    at := KeptWhere(w.rows, now);
  }

  lemma {:induction false} KeptWhere(rows: seq<Otp>, now: int) returns (at: seq<nat>)
    ensures |at| == |Kept(rows, now)| && (forall i, j :: 0 <= i < j < |at| ==> at[i] < at[j])
    ensures forall i :: 0 <= i < |at| ==> at[i] < |rows| && Kept(rows, now)[i] == rows[at[i]]
    ensures forall k: nat :: k in at <==> k < |rows| && rows[k].status == Unused && rows[k].expiresAt >= now
  {
    at := [];
    if rows != [] {
      var n := |rows| - 1;
      var before := KeptWhere(rows[..n], now);
      assert forall i :: 0 <= i < |before| ==> rows[..n][before[i]] == rows[before[i]];
      assert forall k: nat :: k in before <==> k < n && rows[k].status == Unused && rows[k].expiresAt >= now;
      if Pruned(rows[n], now) {
        at := before;
      } else {
        at := before + [n];
      }
    }
  }
}
