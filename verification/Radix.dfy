/** Numbers as big-endian digit sequences of a fixed width. */
module Radix {

  function Pow(b: nat, n: nat): (p: nat)
    ensures b > 0 ==> p > 0
  {
    if n == 0 then 1 else b * Pow(b, n - 1)
  }

  function Quotient(v: nat, b: nat): nat
    requires 1 <= b
  {
    v / b
  }

  function Remainder(v: nat, b: nat): nat
    requires 1 <= b
  {
    v % b
  }

  function Value(ds: seq<nat>, b: nat): nat {
    if ds == [] then 0 else Value(ds[..|ds| - 1], b) * b + ds[|ds| - 1]
  }

  function Digits(v: nat, b: nat, n: nat): (ds: seq<nat>)
    requires 2 <= b
    ensures |ds| == n && forall i :: 0 <= i < n ==> ds[i] < b
  {
    if n == 0 then [] else Digits(Quotient(v, b), b, n - 1) + [Remainder(v, b)]
  }

  ghost predicate AreDigits(ds: seq<nat>, b: nat) {
    forall i :: 0 <= i < |ds| ==> ds[i] < b
  }

  // ---- division ----

  lemma Division(v: nat, b: nat)
    requires 1 <= b
    ensures v == Quotient(v, b) * b + Remainder(v, b) && Remainder(v, b) < b
  {
  }

  lemma SmallMultiple(k: int, b: int)
    requires -b < k * b < b
    ensures k == 0
  {
    assert 1 <= k ==> 0 <= (k - 1) * b;
    assert k <= -1 ==> (k + 1) * b <= 0;
  }

  lemma DivisionUnique(q: nat, b: nat, d: nat)
    requires d < b
    ensures Quotient(q * b + d, b) == q && Remainder(q * b + d, b) == d
  {
    hide Quotient, Remainder;
    var x := q * b + d;
    Division(x, b);
    var k := Quotient(x, b) - q;
    assert k * b == d - Remainder(x, b);
    SmallMultiple(k, b);
  }

  lemma ShiftBound(v: nat, p: nat, b: nat, d: nat)
    requires v < p && d < b
    ensures v * b + d < b * p
  {
    assert (v + 1) * b <= p * b;
  }

  lemma QuotientBound(v: nat, p: nat, b: nat)
    requires 1 <= b && v < b * p
    ensures Quotient(v, b) < p
  {
    hide Quotient, Remainder;
    Division(v, b);
    MultiplesGrow(p, Quotient(v, b), b);
  }

  lemma MultiplesGrow(p: nat, q: nat, b: nat)
    ensures p <= q ==> p * b <= q * b
  {
  }

  lemma QuotientTwice(v: nat, b: nat, c: nat)
    requires 1 <= b && 1 <= c && 1 <= b * c
    ensures Quotient(Quotient(v, b), c) == Quotient(v, b * c)
  {
    hide Quotient, Remainder;
    Division(v, b);
    Division(Quotient(v, b), c);
    var q, r, s := Quotient(Quotient(v, b), c), Remainder(Quotient(v, b), c), Remainder(v, b);
    assert v == q * (b * c) + (r * b + s) by {
      assert (q * c + r) * b == q * c * b + r * b;
      assert q * c * b == q * (b * c);
    }
    ShiftBound(r, c, b, s);
    DivisionUnique(q, b * c, r * b + s);
  }

  // ---- digits ----

  lemma {:induction false} ValueBound(ds: seq<nat>, b: nat)
    requires AreDigits(ds, b) && 2 <= b
    ensures Value(ds, b) < Pow(b, |ds|)
  {
    if ds != [] {
      var init := ds[..|ds| - 1];
      ValueBound(init, b);
      ShiftBound(Value(init, b), Pow(b, |init|), b, ds[|init|]);
    }
  }

  /** Fixed-width digits of a number that fits give the number back. */
  lemma {:induction false} ValueOfDigits(v: nat, b: nat, n: nat)
    requires 2 <= b && v < Pow(b, n)
    ensures Value(Digits(v, b, n), b) == v
    decreases n
  {
    hide Quotient, Remainder;
    if n > 0 {
      QuotientBound(v, Pow(b, n - 1), b);
      ValueOfDigits(Quotient(v, b), b, n - 1);
      assert Digits(v, b, n)[..n - 1] == Digits(Quotient(v, b), b, n - 1);
      Division(v, b);
    }
  }

  /** A number has only one digit sequence of a given width. */
  lemma {:induction false} DigitsOfValue(ds: seq<nat>, b: nat)
    requires AreDigits(ds, b) && 2 <= b
    ensures Digits(Value(ds, b), b, |ds|) == ds
  {
    hide Quotient, Remainder;
    if ds != [] {
      var init, last := ds[..|ds| - 1], ds[|ds| - 1];
      DigitsOfValue(init, b);
      DivisionUnique(Value(init, b), b, last);
      assert ds == init + [last];
    }
  }

  /** More digits never make the number smaller. */
  lemma {:induction false} ValueGrows(ds: seq<nat>, n: nat, b: nat)
    requires n <= |ds| && 1 <= b
    ensures Value(ds[..n], b) <= Value(ds, b)
  {
    if n == |ds| {
      assert ds[..n] == ds;
    } else {
      var init := ds[..|ds| - 1];
      ValueGrows(init, n, b);
      assert init[..n] == ds[..n];
      MultiplesGrow(1, b, Value(init, b));
    }
  }

  /** The i-th digit by shifting and masking. */
  lemma {:induction false} DigitAt(v: nat, b: nat, n: nat, i: nat)
    requires 2 <= b && i < n
    ensures Digits(v, b, n)[i] == Remainder(Quotient(v, Pow(b, n - 1 - i)), b)
    decreases n
  {
    if i == n - 1 {
      assert Pow(b, 0) == 1 && Quotient(v, 1) == v;
    } else {
      hide Quotient, Remainder;
      var p := Pow(b, n - 2 - i);
      DigitAt(Quotient(v, b), b, n - 1, i);
      QuotientTwice(v, b, p);
      assert Pow(b, n - 1 - i) == b * p;
    }
  }

  lemma PowersOf256()
    ensures Pow(256, 0) == 1 && Pow(256, 1) == 0x100 && Pow(256, 2) == 0x1_0000 && Pow(256, 3) == 0x100_0000
    ensures Pow(256, 4) == 0x1_0000_0000 && Pow(256, 5) == 0x100_0000_0000 && Pow(256, 6) == 0x1_0000_0000_0000
    ensures Pow(256, 7) == 0x100_0000_0000_0000 && Pow(256, 8) == 0x1_0000_0000_0000_0000
  {
    assert Pow(256, 2) == 256 * Pow(256, 1);
    assert Pow(256, 4) == 256 * Pow(256, 3);
    assert Pow(256, 6) == 256 * Pow(256, 5);
    assert Pow(256, 8) == 256 * Pow(256, 7);
  }
}
