/**
  Rust's ordering of `str` values, used by `>=` in src/bridge.rs. Rust compares
  the UTF-8 bytes lexicographically; UTF-8 preserves code-point order, so on
  strings of Unicode scalar values (Dafny's `char`) this is lexicographic
  order on characters, where a proper prefix comes first.
*/
module StrOrder {

  /** `a` is a proper prefix of `b`. */
  ghost predicate ProperPrefix(a: string, b: string) {
    |a| < |b| && a == b[..|a|]
  }

  /** `a` and `b` agree before index `k`, and `a` has the smaller character at `k`. */
  ghost predicate BelowAt(a: string, b: string, k: nat) {
    k < |a| && k < |b| && a[..k] == b[..k] && a[k] < b[k]
  }

  /**
    `a < b` on Rust strings: `a` is a proper prefix of `b`, or the two first
    differ at a position where `a` has the smaller character.
  */
  predicate Less(a: string, b: string)
    ensures Less(a, b) <==> ProperPrefix(a, b) || exists k: nat :: BelowAt(a, b, k)
    decreases |a|
  {
    if b == [] then false
    else if a == [] then true
    else if a[0] != b[0] then
      FirstCharacterDecides(a, b);
      a[0] < b[0]
    else
      CommonHead(a, b);
      Less(a[1..], b[1..])
  }

  /** When the first characters differ, they alone decide. */
  lemma FirstCharacterDecides(a: string, b: string)
    requires a != [] && b != [] && a[0] != b[0]
    ensures !ProperPrefix(a, b)
    ensures (exists k: nat :: BelowAt(a, b, k)) <==> a[0] < b[0]
  {
    if a[0] < b[0] {
      assert BelowAt(a, b, 0);
    }
    forall k: nat | BelowAt(a, b, k)
      ensures a[0] <= b[0]
    {
      BelowAtHead(a, b, k);
    }
  }

  /** Two strings ordered at some position have their first characters in that order. */
  lemma BelowAtHead(a: string, b: string, k: nat)
    requires BelowAt(a, b, k)
    ensures a[0] <= b[0]
  {
    if k > 0 {
      assert a[0] == a[..k][0];
      assert b[0] == b[..k][0];
    }
  }

  /** A common first character can be dropped from both sides. */
  lemma CommonHead(a: string, b: string)
    requires a != [] && b != [] && a[0] == b[0]
    ensures ProperPrefix(a, b) <==> ProperPrefix(a[1..], b[1..])
    ensures (exists k: nat :: BelowAt(a, b, k)) <==> (exists k: nat :: BelowAt(a[1..], b[1..], k))
  {
    if ProperPrefix(a[1..], b[1..]) {
      assert a == [a[0]] + a[1..] && b[..|a|] == [b[0]] + b[1..][..|a| - 1];
    }
    if ProperPrefix(a, b) {
      assert a[1..] == b[..|a|][1..];
    }
    if k: nat :| BelowAt(a, b, k) {
      assert k != 0;
      assert a[1..][..k - 1] == a[..k][1..] == b[..k][1..] == b[1..][..k - 1];
      assert BelowAt(a[1..], b[1..], k - 1);
    }
    if k: nat :| BelowAt(a[1..], b[1..], k) {
      assert a[..k + 1] == [a[0]] + a[1..][..k] && b[..k + 1] == [b[0]] + b[1..][..k];
      assert BelowAt(a, b, k + 1);
    }
  }

  /** `a >= b` on Rust strings. */
  predicate GreaterEq(a: string, b: string) {
    !Less(a, b)
  }

  lemma {:induction false} LessIrreflexive(a: string)
    ensures !Less(a, a)
  {
    if a != [] {
      LessIrreflexive(a[1..]);
    }
  }

  lemma {:induction false} LessTransitive(a: string, b: string, c: string)
    requires Less(a, b) && Less(b, c)
    ensures Less(a, c)
  {
    if a != [] && a[0] == b[0] && b[0] == c[0] {
      LessTransitive(a[1..], b[1..], c[1..]);
    }
  }

  /** Any two strings are ordered one way or the other, or are equal. */
  lemma {:induction false} LessTotal(a: string, b: string)
    ensures Less(a, b) || a == b || Less(b, a)
  {
    if a != [] && b != [] && a[0] == b[0] {
      LessTotal(a[1..], b[1..]);
      if a[1..] == b[1..] {
        assert a == [a[0]] + a[1..] && b == [b[0]] + b[1..];
      }
    }
  }

  lemma {:induction false} LessAsymmetric(a: string, b: string)
    requires Less(a, b)
    ensures !Less(b, a)
  {
    if a != [] && a[0] == b[0] {
      LessAsymmetric(a[1..], b[1..]);
    }
  }

  /** Strings are ordered by the first position at which they differ. */
  lemma {:induction false} LessAtFirstDifference(a: string, b: string, k: nat)
    requires k < |a| && k < |b| && a[..k] == b[..k] && a[k] < b[k]
    ensures Less(a, b)
  {
    if k == 0 {
      assert a[0] != b[0];
    } else {
      assert a[0] == a[..k][0] == b[..k][0] == b[0];
      assert a[1..][..k - 1] == a[..k][1..] == b[..k][1..] == b[1..][..k - 1];
      LessAtFirstDifference(a[1..], b[1..], k - 1);
    }
  }

  /** A proper prefix is smaller: `"10000000000"` sorts below `"2"`, whatever its numeric value. */
  lemma {:induction false} PrefixLess(a: string, b: string)
    requires |a| < |b| && a == b[..|a|]
    ensures Less(a, b)
  {
    if a != [] {
      assert a[1..] == b[1..][..|a| - 1];
      PrefixLess(a[1..], b[1..]);
    }
  }

  // ---------------------------------------------------------------------------
  // Decimal digit strings: where lexicographic and numeric order agree
  // ---------------------------------------------------------------------------

  predicate IsDigit(c: char) {
    '0' <= c <= '9'
  }

  predicate IsDigits(s: string) {
    forall i | 0 <= i < |s| :: IsDigit(s[i])
  }

  function Pow10(k: nat): (p: nat)
    ensures p >= 1
  {
    if k == 0 then 1 else 10 * Pow10(k - 1)
  }

  /** The number a string of decimal digits denotes. */
  function Value(s: string): nat
    requires IsDigits(s)
  {
    if s == [] then 0 else (s[0] as int - '0' as int) * Pow10(|s| - 1) + Value(s[1..])
  }

  lemma {:induction false} ValueBound(s: string)
    requires IsDigits(s)
    ensures Value(s) < Pow10(|s|)
  {
    if s != [] {
      var d := s[0] as int - '0' as int;
      var p := Pow10(|s| - 1);
      assert IsDigits(s[1..]);
      ValueBound(s[1..]);
      assert Value(s) == d * p + Value(s[1..]);
      MulMonotone(d, 9, p);
      assert Pow10(|s|) == 10 * p;
    }
  }

  /** A larger leading digit outweighs any remainder below the place value `p`. */
  lemma LeadingDigitDominates(da: int, db: int, p: int, ra: int, rb: int)
    requires 0 <= da < db && 0 <= ra < p && 0 <= rb < p
    ensures da * p + ra < db * p + rb
  {
    MulMonotone(da + 1, db, p);
    assert (da + 1) * p == da * p + p;
  }

  lemma {:induction false} MulMonotone(x: int, y: int, p: nat)
    requires x <= y
    ensures x * p <= y * p
    decreases y - x
  {
    if x < y {
      MulMonotone(x + 1, y, p);
      assert (x + 1) * p == x * p + p;
    }
  }

  /**
    On digit strings of equal length, the string order is the numeric order.
    It is only on strings of different lengths that the two part ways.
  */
  lemma {:induction false} DigitsOrder(a: string, b: string)
    requires IsDigits(a) && IsDigits(b) && |a| == |b|
    ensures Less(a, b) <==> Value(a) < Value(b)
  {
    if a != [] {
      var da, db := a[0] as int - '0' as int, b[0] as int - '0' as int;
      var p := Pow10(|a| - 1);
      assert IsDigits(a[1..]) && IsDigits(b[1..]);
      var ra, rb := Value(a[1..]), Value(b[1..]);
      assert Value(a) == da * p + ra && Value(b) == db * p + rb;
      ValueBound(a[1..]);
      ValueBound(b[1..]);
      if da < db {
        LeadingDigitDominates(da, db, p, ra, rb);
      } else if db < da {
        LeadingDigitDominates(db, da, p, rb, ra);
      } else {
        DigitsOrder(a[1..], b[1..]);
      }
    }
  }
}
