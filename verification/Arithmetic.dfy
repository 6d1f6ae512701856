/**
 * Multiplication, quotient and remainder by a variable number, as repeated addition and subtraction. Packet numbering
 * is stated with these; `TimesOperator` and `DivModOperators` tie them to the built-in operators.
 */
module Arithmetic {
  function Times(q: nat, b: nat): nat {
    if q == 0 then 0 else Times(q - 1, b) + b
  }

  function Quot(a: nat, b: nat): nat
    requires b > 0
  {
    if a < b then 0 else Quot(a - b, b) + 1
  }

  function Rem(a: nat, b: nat): (r: nat)
    requires b > 0
    ensures r < b
  {
    if a < b then a else Rem(a - b, b)
  }

  lemma {:induction false} QuotRem(a: nat, b: nat)
    requires b > 0
    ensures a == Times(Quot(a, b), b) + Rem(a, b)
  {
    if a >= b {
      QuotRem(a - b, b);
    }
  }

  lemma {:induction false} Unique(a: nat, b: nat, q: nat, r: nat)
    requires r < b && a == Times(q, b) + r
    ensures Quot(a, b) == q && Rem(a, b) == r
    decreases q
  {
    if q > 0 {
      Unique(a - b, b, q - 1, r);
    }
  }

  lemma {:induction false} TimesOperator(q: nat, b: nat)
    ensures Times(q, b) == q * b
  {
    if q > 0 {
      TimesOperator(q - 1, b);
      assert q * b == (q - 1) * b + b;
    }
  }

  lemma DivMod(a: nat, b: nat) returns (q: nat, r: nat)
    requires b > 0
    ensures q == a / b && r == a % b && r < b && a == q * b + r
  {
    q, r := a / b, a % b;
  }

  /** The recursive quotient and remainder are the built-in ones. */
  lemma DivModOperators(a: nat, b: nat)
    requires b > 0
    ensures Quot(a, b) == a / b && Rem(a, b) == a % b
  {
    var q, r := DivMod(a, b);
    TimesOperator(q, b);
    Unique(a, b, q, r);
  }

  lemma {:induction false} TimesAdd(q: nat, q': nat, b: nat)
    ensures Times(q + q', b) == Times(q, b) + Times(q', b)
  {
    if q' > 0 {
      TimesAdd(q, q' - 1, b);
    }
  }

  lemma TimesMonotone(q: nat, q': nat, b: nat)
    requires q <= q'
    ensures Times(q, b) <= Times(q', b)
  {
    TimesAdd(q, q' - q, b);
  }

  lemma {:induction false} TimesTimes(q: nat, c: nat, b: nat)
    ensures Times(q, Times(c, b)) == Times(Times(q, c), b)
  {
    if q > 0 {
      TimesTimes(q - 1, c, b);
      TimesAdd(Times(q - 1, c), c, b);
    }
  }

  lemma Step(m: nat, k: nat)
    requires k > 0
    ensures Quot(m + 1, k) == if Rem(m, k) + 1 == k then Quot(m, k) + 1 else Quot(m, k)
    ensures Rem(m + 1, k) == if Rem(m, k) + 1 == k then 0 else Rem(m, k) + 1
  {
    QuotRem(m, k);
    if Rem(m, k) + 1 == k {
      Unique(m + 1, k, Quot(m, k) + 1, 0);
    } else {
      Unique(m + 1, k, Quot(m, k), Rem(m, k) + 1);
    }
  }

  lemma QuotBelow(a: nat, c: nat, b: nat)
    requires b > 0 && a < Times(c, b)
    ensures Quot(a, b) < c
  {
    QuotRem(a, b);
    if Quot(a, b) >= c {
      TimesMonotone(c, Quot(a, b), b);
    }
  }

  lemma SmallMod(a: nat, m: nat)
    requires 0 < m && a <= m
    ensures a % m == if a == m then 0 else a
  {
    var q, r := DivMod(a, m);
    TimesOperator(q, m);
    Unique(a, m, q, r);
  }

  lemma SmallTimes(b: nat)
    ensures Times(1, b) == b && Times(2, b) == b + b
  {
    assert Times(0, b) == 0;
    assert Times(1, b) == Times(0, b) + b;
    assert Times(2, b) == Times(1, b) + b;
  }
}
