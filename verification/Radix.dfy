/** Numbers written in some base, the most significant digit first. */
module Radix {
  import opened Words

  function Pow(b: nat, n: nat): (p: nat)
    ensures b >= 1 ==> p >= 1
  {
    if n == 0 then 1 else b * Pow(b, n - 1)
  }

  function Val(s: seq<nat>, b: nat): nat {
    if s == [] then 0 else Val(s[..|s| - 1], b) * b + s[|s| - 1]
  }

  predicate AllBelow(s: seq<nat>, b: nat) {
    forall i :: 0 <= i < |s| ==> s[i] < b
  }

  /** The digits of a number, without leading zeroes. */
  function Digits(v: nat, b: nat): (s: seq<nat>)
    requires b >= 2
    ensures AllBelow(s, b) && (s != [] ==> s[0] != 0)
  {
    if v == 0 then []
    else
      QuotRem(v, b);
      Digits(Quot(v, b), b) + [Rem(v, b)]
  }

  function Quot(v: nat, b: nat): nat
    requires b >= 1
  {
    DivNat(v, b);
    v / b
  }

  lemma QuotRem(v: nat, b: nat)
    requires b >= 1
    ensures v == Quot(v, b) * b + Rem(v, b) && Rem(v, b) < b
    ensures v > 0 && b >= 2 ==> Quot(v, b) < v
  {
    if v > 0 && b >= 2 && v / b >= v {
      MulMono(v, v / b, 2, b);
    }
  }

  lemma {:induction false} PowAdds(b: nat, m: nat, n: nat)
    ensures Pow(b, m + n) == Pow(b, m) * Pow(b, n)
  {
    if m > 0 {
      PowAdds(b, m - 1, n);
      MulAssoc(b, Pow(b, m - 1), Pow(b, n));
    }
  }

  lemma MulAssoc(a: int, b: int, c: int)
    ensures a * b * c == a * (b * c)
  {
  }

  lemma {:induction false} PowPow(b: nat, m: nat, n: nat)
    ensures Pow(b, m * n) == Pow(Pow(b, m), n)
  {
    if n > 0 {
      PowPow(b, m, n - 1);
      assert m * n == m + m * (n - 1);
      PowAdds(b, m, m * (n - 1));
    }
  }

  lemma MulMono(a: nat, b: nat, c: nat, d: nat)
    requires a <= b && c <= d
    ensures a * c <= b * d
  {
    assert a * c <= b * c;
    assert b * c <= b * d;
  }

  lemma {:induction false} PowMono(a: nat, b: nat, n: nat)
    requires a <= b
    ensures Pow(a, n) <= Pow(b, n)
  {
    if n > 0 {
      PowMono(a, b, n - 1);
      MulMono(a, b, Pow(a, n - 1), Pow(b, n - 1));
    }
  }

  lemma {:induction false} PowGrows(b: nat, m: nat, n: nat)
    requires b >= 1 && m <= n
    ensures Pow(b, m) <= Pow(b, n)
  {
    if m < n {
      PowGrows(b, m, n - 1);
      MulMono(1, b, Pow(b, n - 1), Pow(b, n - 1));
    }
  }

  /** A power of a smaller number is smaller. */
  lemma {:induction false} PowStrict(a: nat, b: nat, n: nat)
    requires a < b && n >= 1
    ensures Pow(a, n) < Pow(b, n)
  {
    if n > 1 {
      PowStrict(a, b, n - 1);
      MulMono(a, b, Pow(a, n - 1), Pow(a, n - 1));
      assert b * Pow(a, n - 1) < b * Pow(b, n - 1) by {
        MulStrict(b, Pow(a, n - 1), Pow(b, n - 1));
      }
    }
  }

  lemma MulStrict(b: nat, x: nat, y: nat)
    requires b >= 1 && x < y
    ensures b * x < b * y
  {
    assert b * (y - x) >= 1;
  }

  lemma ValLast(s: seq<nat>, b: nat)
    requires s != []
    ensures Val(s, b) == Val(s[..|s| - 1], b) * b + s[|s| - 1]
    ensures Pow(b, |s|) == b * Pow(b, |s| - 1)
  {
  }

  lemma ValNone(b: nat)
    ensures Val([], b) == 0 && Pow(b, 0) == 1
  {
  }

  /** Appending one digit to both sides of an equation. */
  lemma AppendDigit(v: nat, p: nat, w: nat, b: nat, d: nat, x: nat)
    requires x == v * p + w
    ensures x * b + d == v * (b * p) + (w * b + d)
  {
    assert (v * p + w) * b == v * p * b + w * b;
    MulAssoc(v, p, b);
    assert p * b == b * p;
  }

  lemma {:induction false} ValAppends(a: seq<nat>, s: seq<nat>, b: nat)
    ensures Val(a + s, b) == Val(a, b) * Pow(b, |s|) + Val(s, b)
  {
    hide Val, Pow;
    if s == [] {
      assert a + s == a;
      ValNone(b);
    } else {
      var init := s[..|s| - 1];
      assert (a + s)[..|a + s| - 1] == a + init;
      ValAppends(a, init, b);
      ValLast(a + s, b);
      ValLast(s, b);
      AppendDigit(Val(a, b), Pow(b, |init|), Val(init, b), b, s[|s| - 1], Val(a + init, b));
    }
  }

  lemma BelowNext(v: nat, p: nat, b: nat, d: nat)
    requires v < p && d < b
    ensures v * b + d < b * p
  {
    MulMono(v + 1, p, b, b);
    assert (v + 1) * b == v * b + b;
  }

  lemma {:induction false} ValBelow(s: seq<nat>, b: nat)
    requires b >= 1 && AllBelow(s, b)
    ensures Val(s, b) < Pow(b, |s|)
  {
    hide Val, Pow;
    if s == [] {
      ValNone(b);
    } else {
      var init := s[..|s| - 1];
      ValBelow(init, b);
      ValLast(s, b);
      BelowNext(Val(init, b), Pow(b, |init|), b, s[|s| - 1]);
    }
  }

  lemma {:induction false} ValOfZeros(s: seq<nat>, b: nat)
    requires forall i :: 0 <= i < |s| ==> s[i] == 0
    ensures Val(s, b) == 0
  {
    if s != [] {
      ValOfZeros(s[..|s| - 1], b);
    }
  }

  /** Digits undoes Val on numerals without leading zeroes. */
  lemma {:induction false} DigitsOfVal(s: seq<nat>, b: nat)
    requires b >= 2 && AllBelow(s, b) && (s != [] ==> s[0] != 0)
    ensures Digits(Val(s, b), b) == s
    ensures s != [] ==> Val(s, b) > 0
  {
    if s != [] {
      hide Quot, Rem;
      var init, last := s[..|s| - 1], s[|s| - 1];
      DigitsOfVal(init, b);
      QuotRemOf(Val(init, b), b, last);
      if init != [] {
        MulMono(1, Val(init, b), 1, b);
      }
    }
  }

  lemma QuotRemOf(q: nat, b: nat, r: nat)
    requires r < b
    ensures Quot(q * b + r, b) == q && Rem(q * b + r, b) == r
  {
    hide Quot, Rem;
    var x := q * b + r;
    QuotRem(x, b);
    if Quot(x, b) < q {
      MulMono(Quot(x, b) + 1, q, b, b);
    } else if q < Quot(x, b) {
      MulMono(q + 1, Quot(x, b), b, b);
    }
  }

  /** Val undoes Digits. */
  lemma {:induction false} ValOfDigits(v: nat, b: nat)
    requires b >= 2
    ensures Val(Digits(v, b), b) == v
  {
    hide Quot, Rem;
    if v > 0 {
      QuotRem(v, b);
      ValOfDigits(Quot(v, b), b);
      var init := Digits(Quot(v, b), b);
      assert (init + [Rem(v, b)])[..|init|] == init;
    }
  }

  lemma {:induction false} DigitsLength(v: nat, b: nat, n: nat)
    requires b >= 2 && v < Pow(b, n)
    ensures |Digits(v, b)| <= n
  {
    hide Quot, Rem;
    if v > 0 {
      QuotRem(v, b);
      assert n > 0;
      if Quot(v, b) >= Pow(b, n - 1) {
        MulMono(Pow(b, n - 1), Quot(v, b), b, b);
      }
      DigitsLength(Quot(v, b), b, n - 1);
    }
  }
}
