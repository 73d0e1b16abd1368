/** Bitwise `&`, `|` and shifts on non-negative integers. */
module Bits {
  function Pow2(n: nat): (r: nat)
    ensures r >= 1
  {
    if n == 0 then 1 else 2 * Pow2(n - 1)
  }

  function ShiftRight(a: nat, n: nat): nat {
    DivNat(a, Pow2(n));
    a / Pow2(n)
  }

  function ShiftLeft(a: nat, n: nat): nat {
    MulAtMost(0, a, Pow2(n));
    a * Pow2(n)
  }

  function And(a: nat, b: nat): (r: nat)
    ensures r <= a && r <= b
  {
    if a == 0 || b == 0 then 0 else 2 * And(a / 2, b / 2) + (if a % 2 == 1 && b % 2 == 1 then 1 else 0)
  }

  function Or(a: nat, b: nat): (r: nat)
    ensures r <= a + b
  {
    if a == 0 && b == 0 then 0 else 2 * Or(a / 2, b / 2) + (if a % 2 == 1 || b % 2 == 1 then 1 else 0)
  }

  /** One bit at a time. */
  lemma AndStep(a: nat, b: nat)
    ensures And(a, b) / 2 == And(a / 2, b / 2) && (And(a, b) % 2 == 1 <==> a % 2 == 1 && b % 2 == 1)
  {
  }

  lemma OrStep(a: nat, b: nat)
    ensures Or(a, b) / 2 == Or(a / 2, b / 2) && (Or(a, b) % 2 == 1 <==> a % 2 == 1 || b % 2 == 1)
  {
  }

  lemma {:induction false} AndOr(a: nat, b: nat, m: nat)
    ensures And(Or(a, b), m) == Or(And(a, m), And(b, m))
    decreases a + b
  {
    if a + b > 0 {
      AndOr(a / 2, b / 2, m / 2);
      OrStep(a, b);
      AndStep(Or(a, b), m);
      AndStep(a, m);
      AndStep(b, m);
      OrStep(And(a, m), And(b, m));
    }
  }

  lemma AndZero(b: nat, c: nat)
    ensures And(0, b) == 0 && And(And(0, b), c) == 0 && And(b, 0) == 0
  {
  }

  lemma {:induction false} AndAssoc(a: nat, b: nat, c: nat)
    ensures And(And(a, b), c) == And(a, And(b, c))
    decreases a
  {
    hide And;
    AndZero(b, c);
    AndZero(a, And(b, c));
    if a > 0 {
      AndAssoc(a / 2, b / 2, c / 2);
      AndStep(a, b);
      AndStep(b, c);
      AndStep(And(a, b), c);
      AndStep(a, And(b, c));
    }
  }

  lemma {:induction false} AndCommutes(a: nat, b: nat)
    ensures And(a, b) == And(b, a)
    decreases a
  {
    if a > 0 { AndCommutes(a / 2, b / 2); }
  }

  lemma {:induction false} OrZero(a: nat)
    ensures Or(a, 0) == a && Or(0, a) == a
    decreases a
  {
    if a > 0 { OrZero(a / 2); }
  }

  /** A union has no bits its parts have not. */
  lemma {:induction false} OrBelow(a: nat, b: nat, n: nat)
    requires a < Pow2(n) && b < Pow2(n)
    ensures Or(a, b) < Pow2(n)
    decreases n
  {
    if n > 0 {
      OrBelow(a / 2, b / 2, n - 1);
      OrStep(a, b);
    }
  }

  lemma {:induction false} Pow2Sum(a: nat, b: nat)
    ensures Pow2(a + b) == Pow2(a) * Pow2(b)
    decreases a
  {
    if a > 0 {
      Pow2Sum(a - 1, b);
      Times2(Pow2(b), Pow2(a - 1));
      assert a + b - 1 == (a - 1) + b;
    }
  }

  /** The mask of `width` ones starting at bit `shift`. */
  function Field(shift: nat, width: nat): nat {
    (Pow2(width) - 1) * Pow2(shift)
  }

  lemma AndDouble(a: nat, m: nat)
    ensures And(a, 2 * m) == 2 * And(a / 2, m)
    ensures And(a, 2 * m + 1) == 2 * And(a / 2, m) + a % 2
  {
    AndStep(a, 2 * m);
    AndStep(a, 2 * m + 1);
    hide And;
    assert 2 * m / 2 == m && (2 * m + 1) / 2 == m && 2 * m % 2 == 0 && (2 * m + 1) % 2 == 1;
  }

  lemma FieldStep(shift: nat, width: nat)
    ensures shift > 0 ==> Field(shift, width) == 2 * Field(shift - 1, width)
    ensures width > 0 ==> Field(0, width) == 2 * Field(0, width - 1) + 1
    ensures Field(0, 0) == 0
  {
    if shift > 0 { Times2(Pow2(width) - 1, Pow2(shift - 1)); }
  }

  /** Masking with a field keeps exactly the bits of the field. */
  lemma {:induction false} AndField(a: nat, shift: nat, width: nat)
    ensures And(a, Field(shift, width)) == a / Pow2(shift) % Pow2(width) * Pow2(shift)
    decreases shift + width
  {
    hide And, Field;
    FieldStep(shift, width);
    if shift > 0 {
      var p, w := Pow2(shift - 1), Pow2(width);
      AndField(a / 2, shift - 1, width);
      AndDouble(a, Field(shift - 1, width));
      HalfDiv(a, p);
      Times2(a / 2 / p % w, p);
    } else if width > 0 {
      AndField(a / 2, 0, width - 1);
      AndDouble(a, Field(0, width - 1));
      ModDouble(a, Pow2(width - 1));
    } else {
      ZeroMask(a);
    }
  }

  lemma ZeroMask(a: nat)
    ensures And(a, 0) == 0
  {
  }

  lemma Times2(a: nat, p: nat)
    ensures a * (2 * p) == 2 * (a * p)
  {
  }

  lemma HalfDiv(a: nat, p: nat)
    requires p > 0
    ensures a / 2 / p == a / (2 * p)
  {
    var q, r := a / 2 / p, a / 2 % p;
    assert a / 2 == q * p + r;
    assert a == q * (2 * p) + (2 * r + a % 2) by { Times2(q, p); }
    DivUnique(a, 2 * p, q, 2 * r + a % 2);
  }

  lemma ModDouble(a: nat, w: nat)
    requires w > 0
    ensures a % (2 * w) == 2 * (a / 2 % w) + a % 2
  {
    var q, r := a / 2 / w, a / 2 % w;
    assert a / 2 == q * w + r;
    assert a == q * (2 * w) + (2 * r + a % 2) by { Times2(q, w); }
    DivUnique(a, 2 * w, q, 2 * r + a % 2);
  }

  lemma DivNat(a: nat, d: nat)
    requires d > 0
    ensures a / d >= 0
  {
  }

  lemma DivUnique(a: nat, d: nat, q: nat, r: nat)
    requires d > 0 && a == q * d + r && r < d
    ensures a / d == q && a % d == r
  {
    var q', r' := a / d, a % d;
    assert a == q' * d + r';
    var k := q' - q;
    assert k * d == q' * d - q * d == r - r';
    if k >= 1 { AtLeast(k, d); }
  }

  lemma AtLeast(k: nat, d: nat)
    requires k >= 1
    ensures k * d >= d
  {
  }

  lemma DivAtMost(a: nat, d: nat, q: nat)
    requires d > 0 && a < (q + 1) * d
    ensures a / d <= q
  {
    var k := q + 1 - a / d;
    assert a == a / d * d + a % d;
    assert k * d == (q + 1) * d - a / d * d;
    PositiveFactor(k, d);
  }

  lemma PositiveFactor(k: int, d: int)
    requires d > 0 && k * d > 0
    ensures k > 0
  {
  }

  lemma MulAtMost(x: nat, y: nat, z: nat)
    requires x <= y
    ensures x * z <= y * z
  {
  }
}
