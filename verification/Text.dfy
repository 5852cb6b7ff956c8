/**
 String facts the message log relies on: the canonical order of a user pair and the derived
 idempotency keys of a forward.
 */
module Text {

  /** The string order of the host language: by characters, a proper prefix first. */
  predicate Less(a: string, b: string) {
    if b == [] then false
    else if a == [] then true
    else a[0] < b[0] || (a[0] == b[0] && Less(a[1..], b[1..]))
  }

  lemma {:induction false} LessIsTotal(a: string, b: string)
    ensures (Less(a, b) && a != b && !Less(b, a)) || (a == b && !Less(a, b) && !Less(b, a)) || (Less(b, a) && a != b && !Less(a, b))
  {
    if a != [] && b != [] {
      LessIsTotal(a[1..], b[1..]);
      assert a == [a[0]] + a[1..] && b == [b[0]] + b[1..];
    }
  }

  /** `canonicalDirectPair`. */
  function CanonicalPair(a: string, b: string): (string, string) {
    if a == b then (a, b) else if Less(a, b) then (a, b) else (b, a)
  }

  /** Two calls agree exactly when they are about the same unordered pair. */
  lemma CanonicalPairIsUnordered(a: string, b: string, c: string, d: string)
    ensures CanonicalPair(a, b) == CanonicalPair(c, d) <==> (a == c && b == d) || (a == d && b == c)
  {
    LessIsTotal(a, b);
    LessIsTotal(c, d);
  }

  function Digit(n: nat): char
    requires n < 10
  {
    '0' + n as char
  }

  /** Decimal numeral, as a template literal prints a number. */
  function Decimal(n: nat): (s: string)
    ensures s != [] && ':' !in s
  {
    if n < 10 then [Digit(n)] else Decimal(n / 10) + [Digit(n % 10)]
  }

  lemma {:induction false} DecimalIsInjective(m: nat, n: nat)
    requires Decimal(m) == Decimal(n)
    ensures m == n
  {
    var s := Decimal(m);
    OneDigit(m);
    OneDigit(n);
    if m < 10 {
      assert s[0] == Digit(m) && s[0] == Digit(n);
    } else {
      var k := |s| - 1;
      assert s[..k] == Decimal(m / 10) && s[..k] == Decimal(n / 10);
      assert s[k] == Digit(m % 10) && s[k] == Digit(n % 10);
      DecimalIsInjective(m / 10, n / 10);
    }
  }

  /** The number a numeral denotes, read from the left. */
  function Value(s: string): int {
    if s == [] then 0 else 10 * Value(s[..|s| - 1]) + (s[|s| - 1] as int - '0' as int)
  }

  /** Numerals are decimal: digits only, no leading zero, and they denote their number. */
  lemma {:induction false} DecimalDenotes(n: nat)
    ensures Value(Decimal(n)) == n
    ensures forall i :: 0 <= i < |Decimal(n)| ==> '0' <= Decimal(n)[i] <= '9'
    ensures Decimal(n)[0] == '0' ==> n == 0
  {
    if n >= 10 {
      DecimalDenotes(n / 10);
      assert Decimal(n)[..|Decimal(n)| - 1] == Decimal(n / 10);
    } else {
      assert Decimal(n)[..0] == [];
    }
  }

  lemma OneDigit(n: nat)
    ensures |Decimal(n)| == 1 <==> n < 10
  {}

  /** The idempotency key of the i-th target of a forward: `key:i`. */
  function DerivedKey(key: string, i: nat): string {
    key + ":" + Decimal(i)
  }

  /** Derived keys determine the request key and the target, so two different forwards of a device,
      or two targets of one forward, never share a key: the last colon separates the two parts. */
  lemma DerivedKeyIsInjective(key: string, i: nat, key': string, i': nat)
    requires DerivedKey(key, i) == DerivedKey(key', i')
    ensures key == key' && i == i'
  {
    var s := DerivedKey(key, i);
    LastColon(key, i);
    LastColon(key', i');
    assert s[..|key|] == key && s[..|key'|] == key';
    assert s[|key| + 1..] == Decimal(i) && s[|key'| + 1..] == Decimal(i');
    DecimalIsInjective(i, i');
  }

  lemma LastColon(key: string, i: nat)
    ensures |key| < |DerivedKey(key, i)| && DerivedKey(key, i)[|key|] == ':'
    ensures forall p :: |key| < p < |DerivedKey(key, i)| ==> DerivedKey(key, i)[p] != ':'
  {
    var s := DerivedKey(key, i);
    forall p | |key| < p < |s| ensures s[p] != ':' {
      assert s[p] == Decimal(i)[p - |key| - 1];
    }
  }
}
