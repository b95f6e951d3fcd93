/** Division facts used by the clock. Quotient and remainder are defined by repeated subtraction, which
    keeps the division operators out of the proofs that use them. */
module Arithmetic {
  function Quot(a: nat, n: nat): nat
    requires n > 0
  {
    if a < n then 0 else 1 + Quot(a - n, n)
  }

  function Rem(a: nat, n: nat): (r: nat)
    requires n > 0
    ensures r < n
  {
    if a < n then a else Rem(a - n, n)
  }

  lemma {:induction false} QuotRem(a: nat, n: nat)
    requires n > 0
    ensures a == n * Quot(a, n) + Rem(a, n)
  {
    if a >= n {
      QuotRem(a - n, n);
      assert n * (1 + Quot(a - n, n)) == n + n * Quot(a - n, n);
    }
  }

  lemma QuotRemUnique(a: nat, n: nat, q: nat, r: nat)
    requires n > 0 && a == n * q + r && r < n
    ensures Quot(a, n) == q && Rem(a, n) == r
  {
    hide Quot, Rem;
    QuotRem(a, n);
    var d: int := Quot(a, n) - q;
    assert n * Quot(a, n) == n * q + n * d;
    assert d > 0 ==> n * d >= n;
    assert d < 0 ==> n * d + n <= 0;
  }

  /** They are the quotient and remainder of the division operators. */
  lemma QuotRemDivide(a: nat, n: nat)
    requires n > 0
    ensures Quot(a, n) == a / n && Rem(a, n) == a % n
  {
    hide Quot, Rem;
    QuotRemUnique(a, n, a / n, a % n);
  }

  lemma RemSmall(a: nat, n: nat)
    requires a < n
    ensures Quot(a, n) == 0 && Rem(a, n) == a
  {
    QuotRemUnique(a, n, 0, a);
  }

  /** Adding to a remainder wraps exactly as adding to the number does. */
  lemma RemAdd(g: nat, k: nat, n: nat)
    requires n > 0
    ensures Rem(Rem(g, n) + k, n) == Rem(g + k, n)
    ensures Quot(Rem(g, n) + k, n) + Quot(g, n) == Quot(g + k, n)
  {
    hide Quot, Rem;
    var q, r := Quot(Rem(g, n) + k, n), Rem(Rem(g, n) + k, n);
    QuotRem(g, n);
    QuotRem(Rem(g, n) + k, n);
    assert n * Quot(g, n) + n * q == n * (Quot(g, n) + q);
    QuotRemUnique(g + k, n, Quot(g, n) + q, r);
  }

  lemma RemNext(a: nat, n: nat)
    requires n > 0
    ensures Rem(a, n) + 1 < n ==> Rem(a + 1, n) == Rem(a, n) + 1 && Quot(a + 1, n) == Quot(a, n)
    ensures Rem(a, n) + 1 == n ==> Rem(a + 1, n) == 0 && Quot(a + 1, n) == Quot(a, n) + 1
  {
    hide Quot, Rem;
    RemAdd(a, 1, n);
    if Rem(a, n) + 1 < n {
      RemSmall(Rem(a, n) + 1, n);
    } else {
      QuotRemUnique(n, n, 1, 0);
    }
  }

  lemma MulAssoc(a: nat, b: nat, c: nat)
    ensures a * (b * c) == (a * b) * c
  {
  }

  /** Adding `r` leaves the remainder alone exactly when `r` is a multiple. */
  lemma RemShift(a: nat, r: nat, n: nat)
    requires n > 0
    ensures Rem(a + r, n) == Rem(a, n) <==> Rem(r, n) == 0
  {
    hide Quot, Rem;
    var s := Rem(a, n);
    QuotRem(a, n);
    QuotRem(r, n);
    RemAdd(a, r, n);
    RemAdd(r, s, n);
    var t := Rem(r, n) + s;
    if t < n {
      RemSmall(t, n);
    } else {
      QuotRemUnique(t, n, 1, t - n);
    }
  }

  function Multiple(a: nat, b: nat): nat {
    a * b
  }

  /** The last cycle set apart: what is left of `a` after winding it back. */
  lemma QuotLast(a: nat, n: nat)
    requires n > 0
    ensures Quot(a, n) == 0 ==> a == Rem(a, n)
    ensures Quot(a, n) > 0 ==> a == n + Multiple(n, Quot(a, n) - 1) + Rem(a, n)
  {
    hide Quot, Rem;
    QuotRem(a, n);
    assert n * Quot(a, n) == n + n * (Quot(a, n) - 1);
  }

  lemma RemMultiple(a: nat, k: nat, n: nat)
    requires n > 0 && Rem(a, n) == 0
    ensures Rem(a + Multiple(a, k), n) == 0
  {
    hide Quot, Rem;
    QuotRem(a, n);
    MulAssoc(n, Quot(a, n), k + 1);
    assert a + a * k == a * (k + 1);
    QuotRemUnique(a * (k + 1), n, Quot(a, n) * (k + 1), 0);
  }
}
