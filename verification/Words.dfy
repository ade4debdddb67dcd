/** Machine words as naturals, with C's bitwise operators on them. */
module Words {

  function Pow2(n: nat): (p: nat)
    ensures p >= 1
  {
    if n == 0 then 1 else 2 * Pow2(n - 1)
  }

  /** Bitwise and: bit i is set where it is set in both. */
  function And(x: nat, y: nat): (r: nat)
    ensures r <= x && r <= y
  {
    if x == 0 || y == 0 then 0 else 2 * And(x / 2, y / 2) + (x % 2) * (y % 2)
  }

  /** Bitwise or. */
  function Or(x: nat, y: nat): nat
    decreases x + y
  {
    if x == 0 then y else if y == 0 then x
    else 2 * Or(x / 2, y / 2) + (if x % 2 == 1 || y % 2 == 1 then 1 else 0)
  }

  /** A right shift of an unsigned word. */
  function Shr(x: nat, k: nat): nat {
    DivNat(x, Pow2(k));
    x / Pow2(k)
  }

  /** A left shift, before it is cut to the width of its type. */
  function Shl(x: nat, k: nat): nat {
    MulNat(x, Pow2(k));
    x * Pow2(k)
  }

  lemma {:induction false} Pow2Adds(a: nat, b: nat)
    ensures Pow2(a + b) == Pow2(a) * Pow2(b)
  {
    if a > 0 {
      Pow2Adds(a - 1, b);
    }
  }

  lemma Pow2Values()
    ensures Pow2(8) == 0x100 && Pow2(16) == 0x1_0000 && Pow2(24) == 0x100_0000 && Pow2(26) == 0x400_0000
    ensures Pow2(32) == 0x1_0000_0000
  {
    Pow2Adds(8, 8);
    Pow2Adds(16, 8);
    Pow2Adds(24, 2);
    Pow2Adds(16, 16);
  }

  lemma {:induction false} Pow2Ascends(a: nat, b: nat)
    requires a <= b
    ensures Pow2(a) <= Pow2(b)
  {
    if a < b {
      Pow2Ascends(a, b - 1);
    }
  }

  function Rem(x: nat, m: nat): nat
    requires m >= 1
  {
    x % m
  }

  lemma ShlStep(y: nat, k: nat)
    ensures Shl(y, 0) == y && (k > 0 ==> Shl(y, k) == 2 * Shl(y, k - 1))
  {
  }

  /** And works on the low and the high part of two words separately. */
  lemma {:induction false} AndJoins(x: nat, y: nat, m: nat, n: nat, k: nat)
    requires x < Pow2(k) && m < Pow2(k)
    ensures And(x + Shl(y, k), m + Shl(n, k)) == And(x, m) + Shl(And(y, n), k)
  {
    hide And, Shl;
    ShlStep(y, k);
    ShlStep(n, k);
    ShlStep(And(y, n), k);
    AndStep(x, m);
    if k > 0 {
      AndJoins(x / 2, y, m / 2, n, k - 1);
      AndDoubles(x, m, Shl(y, k - 1), Shl(n, k - 1));
    } else {
      AndStep(0, 0);
    }
  }

  lemma AndDoubles(x: nat, m: nat, y: nat, n: nat)
    ensures And(x + 2 * y, m + 2 * n) == 2 * And(x / 2 + y, m / 2 + n) + (x % 2) * (m % 2)
  {
    AndStep(x + 2 * y, m + 2 * n);
    hide And;
    assert (x + 2 * y) / 2 == x / 2 + y && (x + 2 * y) % 2 == x % 2;
    assert (m + 2 * n) / 2 == m / 2 + n && (m + 2 * n) % 2 == m % 2;
  }

  /** Masking with k low ones takes the remainder modulo two to the k. */
  lemma MaskIsMod(x: nat, k: nat)
    ensures And(x, Pow2(k) - 1) == x % Pow2(k)
  {
    MaskIsRem(x, k);
  }

  lemma {:induction false} MaskIsRem(x: nat, k: nat)
    ensures And(x, Pow2(k) - 1) == Rem(x, Pow2(k))
  {
    if k > 0 {
      MaskIsRem(x / 2, k - 1);
      hide And, Rem;
      AndOdd(x, Pow2(k - 1) - 1);
      RemTwice(x, Pow2(k - 1));
    }
  }

  lemma AndOdd(x: nat, y: nat)
    ensures And(x, 2 * y + 1) == 2 * And(x / 2, y) + x % 2
  {
    assert (2 * y + 1) / 2 == y && (2 * y + 1) % 2 == 1;
  }

  lemma RemTwice(x: nat, m: nat)
    requires m >= 1
    ensures Rem(x, 2 * m) == 2 * Rem(x / 2, m) + x % 2
  {
    var q, r := (x / 2) / m, (x / 2) % m;
    assert x / 2 == q * m + r;
    assert x == q * (2 * m) + (2 * r + x % 2);
    DivModUnique(x, 2 * m, q, 2 * r + x % 2);
  }

  lemma DivModUnique(x: int, m: nat, q: int, r: nat)
    requires m >= 1 && x == q * m + r && r < m
    ensures x / m == q && x % m == r
  {
    var q', r' := x / m, x % m;
    assert x == q' * m + r';
    SmallMultiple(q - q', m, r' - r);
  }

  lemma MulNat(a: nat, b: nat)
    ensures a * b >= 0
  {
  }

  lemma DivNat(a: nat, b: nat)
    requires b >= 1
    ensures 0 <= a / b
  {
  }

  lemma MulAscends(a: int, b: int, c: nat)
    requires a <= b
    ensures a * c <= b * c
  {
  }

  lemma WholeBounds(x: nat, m: nat, q: nat)
    requires m >= 1 && x / m == q
    ensures q * m <= x < (q + 1) * m
  {
  }

  lemma ScaledRem(x: nat, m: nat, p: nat, a: nat)
    requires m >= 1 && a < p
    ensures m * p >= 1 && (a + x * p) % (m * p) == a + x % m * p
  {
    var q, r := x / m, x % m;
    Regroup(x * p + a, p, m, x, q, r, a);
    assert p * m == m * p;
    DivModUnique(a + x * p, m * p, q, r * p + a);
  }

  lemma RemRem(x: nat, m: nat, k: nat)
    requires m >= 1 && k >= 1
    ensures m * k >= 1 && x % (m * k) % m == x % m
  {
    var q, r := x / (m * k), x % (m * k);
    assert m * k >= m;
    var s, t := r / m, r % m;
    assert x == (q * k + s) * m + t by {
      assert q * (m * k) == (q * k) * m;
    }
    DivModUnique(x, m, q * k + s, t);
  }

  lemma DivDiv(x: nat, a: nat, b: nat)
    requires a >= 1 && b >= 1
    ensures a * b >= 1 && x / (a * b) == x / a / b
  {
    var y := x / a;
    var q, s, t := y / b, y % b, x % a;
    Regroup(x, a, b, y, q, s, t);
    DivModUnique(x, a * b, q, s * a + t);
  }

  lemma Regroup(x: nat, a: nat, b: nat, y: nat, q: nat, s: nat, t: nat)
    requires x == y * a + t && y == q * b + s && s < b && t < a
    ensures 1 <= a * b && x == q * (a * b) + (s * a + t) && s * a + t < a * b
  {
    assert (q * b + s) * a == q * (a * b) + s * a;
    assert (s + 1) * a <= b * a;
  }

  lemma SmallMultiple(d: int, m: int, e: int)
    requires d * m == e && -m < e < m
    ensures d == 0
  {
  }

  /** Bits that do not overlap add up. */
  lemma {:induction false} OrAdds(x: nat, y: nat, k: nat)
    requires x < Pow2(k)
    ensures Or(x, y * Pow2(k)) == x + y * Pow2(k)
  {
    if k > 0 && x > 0 && y > 0 {
      var p := Pow2(k - 1);
      assert y * Pow2(k) == 2 * (y * p);
      assert (y * Pow2(k)) / 2 == y * p && (y * Pow2(k)) % 2 == 0;
      OrAdds(x / 2, y, k - 1);
    }
  }

  ghost predicate IsPow2(x: nat) {
    exists k: nat :: x == Pow2(k)
  }

  /** x & (x - 1) clears the lowest set bit, so it is zero exactly for powers of two. */
  lemma {:induction false} ClearLowestBit(x: nat)
    requires x > 0
    ensures And(x, x - 1) == 0 <==> IsPow2(x)
  {
    AndStep(x, x - 1);
    if x == 1 {
      assert Pow2(0) == 1;
    } else {
      hide And;
      if x % 2 == 1 {
        assert (x - 1) / 2 == x / 2 && (x - 1) % 2 == 0;
        AndSelf(x / 2);
      } else {
        assert (x - 1) / 2 == x / 2 - 1 && (x % 2) * ((x - 1) % 2) == 0;
        ClearLowestBit(x / 2);
      }
      HalfOfPower(x);
    }
  }

  lemma AndStep(x: nat, y: nat)
    ensures And(x, y) == 2 * And(x / 2, y / 2) + (x % 2) * (y % 2)
  {
  }

  lemma HalfOfPower(x: nat)
    requires x > 1
    ensures IsPow2(x) <==> x % 2 == 0 && IsPow2(x / 2)
  {
    if IsPow2(x) {
      var k: nat :| x == Pow2(k);
      assert k > 0 && x / 2 == Pow2(k - 1);
    } else if x % 2 == 0 && IsPow2(x / 2) {
      var k: nat :| x / 2 == Pow2(k);
      assert x == Pow2(k + 1);
    }
  }

  lemma {:induction false} AndSelf(x: nat)
    ensures And(x, x) == x
  {
    if x > 0 {
      AndSelf(x / 2);
    }
  }
}

/** Byte strings and the little-endian numbers they stand for. */
module Bytes {
  function Pow256(n: nat): (p: nat)
    ensures p >= 1
  {
    if n == 0 then 1 else 256 * Pow256(n - 1)
  }

  lemma {:induction false} Pow256Adds(a: nat, b: nat)
    ensures Pow256(a + b) == Pow256(a) * Pow256(b)
  {
    if a > 0 {
      Pow256Adds(a - 1, b);
    }
  }

  lemma {:induction false} Pow256Ascends(a: nat, b: nat)
    requires a <= b
    ensures Pow256(a) <= Pow256(b)
    ensures a < b ==> 256 * Pow256(a) <= Pow256(b)
  {
    if a < b {
      Pow256Ascends(a, b - 1);
    }
  }

  /** The number that little-endian bytes stand for. */
  function Num(s: seq<nat>): (v: nat)
    ensures s == [] ==> v == 0
  {
    if s == [] then 0 else s[0] + 256 * Num(s[1..])
  }

  predicate AllBytes(s: seq<nat>) {
    forall i :: 0 <= i < |s| ==> s[i] < 256
  }

  lemma {:induction false} NumAppends(a: seq<nat>, b: seq<nat>)
    ensures Num(a + b) == Num(a) + Pow256(|a|) * Num(b)
  {
    if a == [] {
      assert a + b == b;
    } else {
      NumAppends(a[1..], b);
      assert (a + b)[1..] == a[1..] + b;
      assert 256 * (Pow256(|a| - 1) * Num(b)) == Pow256(|a|) * Num(b);
    }
  }

  function Zeros(n: nat): (s: seq<nat>)
    ensures |s| == n && AllBytes(s)
  {
    if n == 0 then [] else [0] + Zeros(n - 1)
  }

  lemma {:induction false} NumZeros(n: nat)
    ensures Num(Zeros(n)) == 0
  {
    if n > 0 {
      NumZeros(n - 1);
    }
  }

  /** The four little-endian bytes of a 32-bit word. */
  function LE32(x: nat): (s: seq<nat>)
    requires x < 0x1_0000_0000
    ensures |s| == 4 && AllBytes(s)
  {
    [x % 256, x / 256 % 256, x / 256 / 256 % 256, x / 256 / 256 / 256]
  }

  lemma LE32IsNum(x: nat)
    requires x < 0x1_0000_0000
    ensures Num(LE32(x)) == x
  {
    var s := LE32(x);
    assert s[1..][1..] == s[2..] && s[2..][1..] == s[3..] && s[3..][1..] == [];
    assert Num(s[3..]) == s[3] && Num(s[2..]) == s[2] + 256 * Num(s[3..]) && Num(s[1..]) == s[1] + 256 * Num(s[2..]);
    assert x / 256 == (x / 256 / 256) * 256 + x / 256 % 256;
  }
}
