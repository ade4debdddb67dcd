/** AES-256 as used for encrypted private keys: the key schedule runs forwards and backwards in place. */
module Aes {
  import opened SBox

  function Xor(a: bv8, b: bv8): bv8 {
    a ^ b
  }

  /** Multiplication by x in the field of 256 elements. */
  function Xt(x: bv8): bv8 {
    (x << 1) ^ (((x >> 7) & 1) * 0x1b)
  }

  /** Division by x in the field. */
  function XtBack(r: bv8): bv8 {
    (r >> 1) ^ ((r & 1) * 0x8d)
  }

  lemma XtBackOfXt(r: bv8)
    ensures XtBack(Xt(r)) == r
  {
  }

  lemma XtIsLinear(a: bv8, b: bv8)
    ensures Xt(Xor(a, b)) == Xor(Xt(a), Xt(b))
  {
  }

  lemma XorBack(a: bv8, b: bv8)
    ensures Xor(Xor(a, b), b) == a && Xor(a, Xor(a, b)) == b && Xor(a, b) == Xor(b, a)
  {
  }

  lemma Assoc(a: bv8, b: bv8, c: bv8)
    ensures Xor(Xor(a, b), c) == Xor(a, Xor(b, c))
  {
  }

  lemma Comm(a: bv8, b: bv8)
    ensures Xor(a, b) == Xor(b, a)
  {
  }

  lemma Zero(a: bv8)
    ensures Xor(a, a) == 0 && Xor(a, 0) == a && Xor(0, a) == a
  {
  }

  lemma Exchange(a: bv8, b: bv8, c: bv8, d: bv8)
    ensures Xor(Xor(a, b), Xor(c, d)) == Xor(Xor(a, c), Xor(b, d))
  {
    hide Xor;
    Assoc(a, b, Xor(c, d));
    Assoc(b, c, d);
    Comm(b, c);
    Assoc(c, b, d);
    Assoc(a, c, Xor(b, d));
  }

  lemma Cancel(a: bv8, b: bv8, c: bv8)
    ensures Xor(Xor(a, b), Xor(b, c)) == Xor(a, c)
  {
    hide Xor;
    Assoc(a, b, Xor(b, c));
    XorBack(b, c);
  }

  //////////////////////////////// The field and the box ////////////////////////////////

  function Where(bit: bv8, x: bv8): bv8 {
    if bit & 1 == 0 then 0 else x
  }

  /** The product in the field: the multiples of x by the powers of two that y consists of. */
  function Product(x: bv8, y: bv8): bv8 {
    var x1 := Xt(x);
    var x2 := Xt(x1);
    var x3 := Xt(x2);
    var x4 := Xt(x3);
    var x5 := Xt(x4);
    var x6 := Xt(x5);
    Where(y, x) ^ Where(y >> 1, x1) ^ Where(y >> 2, x2) ^ Where(y >> 3, x3)
    ^ Where(y >> 4, x4) ^ Where(y >> 5, x5) ^ Where(y >> 6, x6) ^ Where(y >> 7, Xt(x6))
  }

  /** The affine map of section 5.1.1 of FIPS 197: a byte, its rotations by one to four places, and a constant. */
  function Affine(y: bv8): bv8 {
    y ^ ((y << 1) | (y >> 7)) ^ ((y << 2) | (y >> 6)) ^ ((y << 3) | (y >> 5)) ^ ((y << 4) | (y >> 4)) ^ 0x63
  }

  function AffineBack(z: bv8): bv8 {
    ((z << 1) | (z >> 7)) ^ ((z << 3) | (z >> 5)) ^ ((z << 6) | (z >> 2)) ^ 0x05
  }

  /** Multiplying by x, as for polynomials over two elements modulo x^8 + x^4 + x^3 + x + 1. */
  lemma DoubleReduces(x: bv8)
    ensures Xt(x) as bv16 == ((x as bv16) << 1) ^ (if x & 0x80 == 0 then 0 else 0x11b)
    ensures Product(x, 1) == x && Product(x, 2) == Xt(x)
  {
  }

  lemma InverseOfFirst(x: bv8, y: bv8)
    requires x < 0x40 && Product(x, y) == 1
    ensures Sub(x) == Affine(y)
  {
  }

  lemma InverseOfSecond(x: bv8, y: bv8)
    requires 0x40 <= x < 0x80 && Product(x, y) == 1
    ensures Sub(x) == Affine(y)
  {
  }

  lemma InverseOfThird(x: bv8, y: bv8)
    requires 0x80 <= x < 0xc0 && Product(x, y) == 1
    ensures Sub(x) == Affine(y)
  {
  }

  lemma InverseOfFourth(x: bv8, y: bv8)
    requires 0xc0 <= x && Product(x, y) == 1
    ensures Sub(x) == Affine(y)
  {
  }

  lemma InverseExists(x: bv8)
    requires x != 0
    ensures Product(x, AffineBack(Sub(x))) == 1
  {
  }

  /** The substitution of section 5.1.1 of FIPS 197: every byte but zero has an inverse, which is put through the affine
      map; so is zero itself. */
  lemma SubIsSpec(x: bv8)
    ensures Sub(0) == Affine(0)
    ensures forall y :: Product(x, y) == 1 ==> Sub(x) == Affine(y)
    ensures x != 0 ==> exists y :: Product(x, y) == 1
  {
    assert Sub(0) == Affine(0);
    hide Sub, Affine, AffineBack, Product;
    forall y | Product(x, y) == 1 ensures Sub(x) == Affine(y) {
      if x < 0x40 {
        InverseOfFirst(x, y);
      } else if x < 0x80 {
        InverseOfSecond(x, y);
      } else if x < 0xc0 {
        InverseOfThird(x, y);
      } else {
        InverseOfFourth(x, y);
      }
    }
    if x != 0 {
      InverseExists(x);
    }
  }

  //////////////////////////////// Columns ////////////////////////////////

  datatype Column = Column(a: bv8, b: bv8, c: bv8, d: bv8)

  /** Section 5.1.3 of FIPS 197: twice one byte, three times the next, and the other two. */
  function MixSpec(s: Column): Column {
    Column(MixByte(s.a, s.b, s.c, s.d), MixByte(s.b, s.c, s.d, s.a),
           MixByte(s.c, s.d, s.a, s.b), MixByte(s.d, s.a, s.b, s.c))
  }

  function MixByte(a: bv8, b: bv8, c: bv8, d: bv8): bv8 {
    Xor(Xor(Xt(a), Xor(Xt(b), b)), Xor(c, d))
  }

  function Sum(s: Column): bv8 {
    Xor(Xor(Xor(s.a, s.b), s.c), s.d)
  }

  /** The code's way of mixing a column. */
  function Mix(s: Column): Column {
    var e := Sum(s);
    Column(Xor(s.a, Xor(e, Xt(Xor(s.a, s.b)))), Xor(s.b, Xor(e, Xt(Xor(s.b, s.c)))),
           Xor(s.c, Xor(e, Xt(Xor(s.c, s.d)))), Xor(s.d, Xor(e, Xt(Xor(s.d, s.a)))))
  }

  /** The code's way of undoing it. */
  function Unmix(s: Column): Column {
    var e := Sum(s);
    var h := Xt(e);
    var f, g := Xor(e, Xt(Xt(Xor(Xor(h, s.a), s.c)))), Xor(e, Xt(Xt(Xor(Xor(h, s.b), s.d))));
    Column(Xor(s.a, Xor(f, Xt(Xor(s.a, s.b)))), Xor(s.b, Xor(g, Xt(Xor(s.b, s.c)))),
           Xor(s.c, Xor(f, Xt(Xor(s.c, s.d)))), Xor(s.d, Xor(g, Xt(Xor(s.d, s.a)))))
  }

  /** Section 5.3.3 of FIPS 197: fourteen times one byte, eleven times the next, thirteen times the one after and nine
      times the last. */
  function UnmixSpec(s: Column): Column {
    Column(UnmixedByte(s.a, s.b, s.c, s.d), UnmixedByte(s.b, s.c, s.d, s.a), UnmixedByte(s.c, s.d, s.a, s.b),
           UnmixedByte(s.d, s.a, s.b, s.c))
  }

  function UnmixedByte(a: bv8, b: bv8, c: bv8, d: bv8): bv8 {
    Xor(Xor(By14(a), By11(b)), Xor(By13(c), By9(d)))
  }

  function By9(x: bv8): bv8 {
    Xor(Xt(Xt(Xt(x))), x)
  }

  function By11(x: bv8): bv8 {
    Xor(Xt(Xt(Xt(x))), Xor(Xt(x), x))
  }

  function By13(x: bv8): bv8 {
    Xor(Xt(Xt(Xt(x))), Xor(Xt(Xt(x)), x))
  }

  function By14(x: bv8): bv8 {
    Xor(Xt(Xt(Xt(x))), Xor(Xt(Xt(x)), Xt(x)))
  }

  lemma ProductsByNine(x: bv8)
    ensures Product(x, 3) == Xor(Xt(x), x) && Product(x, 9) == By9(x)
  {
  }

  lemma ProductsByOdd(x: bv8)
    ensures Product(x, 11) == By11(x) && Product(x, 13) == By13(x)
  {
  }

  lemma SmallProducts(x: bv8)
    ensures Product(x, 2) == Xt(x) && Product(x, 3) == Xor(Xt(x), x) && Product(x, 9) == By9(x)
    ensures Product(x, 11) == By11(x) && Product(x, 13) == By13(x) && Product(x, 14) == By14(x)
  {
    ProductsByNine(x);
    ProductsByOdd(x);
    hide By9, By11, By13;
  }

  /** The coefficients of sections 5.1.3 and 5.3.3 of FIPS 197. */
  lemma MixesAreProducts(a: bv8, b: bv8, c: bv8, d: bv8)
    ensures MixByte(a, b, c, d) == Xor(Xor(Product(a, 2), Product(b, 3)), Xor(c, d))
    ensures UnmixedByte(a, b, c, d) ==
            Xor(Xor(Product(a, 14), Product(b, 11)), Xor(Product(c, 13), Product(d, 9)))
  {
    hide Xt, Xor, Product;
    SmallProducts(a);
    SmallProducts(b);
    SmallProducts(c);
    SmallProducts(d);
  }

  lemma MixOneByte(a: bv8, b: bv8, c: bv8, d: bv8)
    ensures Xor(a, Xor(Sum(Column(a, b, c, d)), Xt(Xor(a, b)))) == MixByte(a, b, c, d)
  {
    XtIsLinear(a, b);
    hide Xt;
    SumCancels(a, b, c, d, Xt(a), Xt(b));
    hide Xor;
  }

  lemma SumCancels(a: bv8, b: bv8, c: bv8, d: bv8, x: bv8, y: bv8)
    ensures Xor(a, Xor(Xor(Xor(Xor(a, b), c), d), Xor(x, y))) == Xor(Xor(x, Xor(y, b)), Xor(c, d))
  {
    hide Xor;
    var rest, z := Xor(b, Xor(c, d)), Xor(x, y);
    Assoc(a, b, c);
    Assoc(a, Xor(b, c), d);
    Assoc(b, c, d);
    Assoc(a, rest, z);
    XorBack(a, Xor(rest, z));
    Assoc(x, y, b);
    Assoc(z, b, Xor(c, d));
    Comm(z, rest);
  }

  lemma SumRotates(a: bv8, b: bv8, c: bv8, d: bv8)
    ensures Sum(Column(a, b, c, d)) == Sum(Column(b, c, d, a))
  {
    hide Xor;
    Assoc(a, b, c);
    Assoc(a, Xor(b, c), d);
    Comm(a, Xor(Xor(b, c), d));
  }

  /** Mixing a column as the code does is the multiplication of FIPS 197. */
  lemma MixIsSpec(s: Column)
    ensures Mix(s) == MixSpec(s)
  {
    hide Xor, Xt, MixByte, Sum;
    SumRotates(s.a, s.b, s.c, s.d);
    SumRotates(s.b, s.c, s.d, s.a);
    SumRotates(s.c, s.d, s.a, s.b);
    MixOneByte(s.a, s.b, s.c, s.d);
    MixOneByte(s.b, s.c, s.d, s.a);
    MixOneByte(s.c, s.d, s.a, s.b);
    MixOneByte(s.d, s.a, s.b, s.c);
  }

  lemma XtOfSum(a: bv8, b: bv8, c: bv8, d: bv8)
    ensures Xt(Sum(Column(a, b, c, d))) == Sum(Column(Xt(a), Xt(b), Xt(c), Xt(d)))
  {
    hide Xt, Xor;
    XtIsLinear(Xor(Xor(a, b), c), d);
    XtIsLinear(Xor(a, b), c);
    XtIsLinear(a, b);
  }

  lemma XtOfThree(h: bv8, a: bv8, c: bv8)
    ensures Xt(Xor(Xor(h, a), c)) == Xor(Xor(Xt(h), Xt(a)), Xt(c))
  {
    hide Xt, Xor;
    XtIsLinear(Xor(h, a), c);
    XtIsLinear(h, a);
  }

  /** One byte, its double, its fourfold and its eightfold. */
  datatype Multiples = Multiples(x1: bv8, x2: bv8, x4: bv8, x8: bv8)

  function Four(a: bv8, b: bv8, c: bv8, d: bv8): bv8 {
    Xor(Xor(a, b), Xor(c, d))
  }

  lemma FoursAdd(a: bv8, b: bv8, c: bv8, d: bv8, p: bv8, q: bv8, r: bv8, s: bv8)
    ensures Xor(Four(a, b, c, d), Four(p, q, r, s)) == Four(Xor(a, p), Xor(b, q), Xor(c, r), Xor(d, s))
  {
    hide Xor;
    Exchange(Xor(a, b), Xor(c, d), Xor(p, q), Xor(r, s));
    Exchange(a, b, p, q);
    Exchange(c, d, r, s);
  }

  lemma FoursOfFew(a: bv8, b: bv8, c: bv8)
    ensures Four(a, 0, 0, 0) == a && Four(a, b, 0, 0) == Xor(a, b) && Four(a, 0, c, 0) == Xor(a, c)
  {
  }

  lemma OfFirst(x1: bv8, x2: bv8, x4: bv8, x8: bv8)
    ensures Xor(x1, Xor(Xor(x1, Xor(x8, x4)), x2)) == Xor(x8, Xor(x4, x2))
  {
    hide Xor;
    Assoc(x1, Xor(x8, x4), x2);
    XorBack(x1, Xor(Xor(x8, x4), x2));
    Assoc(x8, x4, x2);
  }

  lemma OfOthers(x1: bv8, y: bv8, x8: bv8)
    ensures Xor(0, Xor(Xor(x1, Xor(x8, 0)), y)) == Xor(x8, Xor(y, x1))
    ensures Xor(0, Xor(Xor(x1, Xor(x8, y)), 0)) == Xor(x8, Xor(y, x1))
    ensures Xor(0, Xor(Xor(x1, Xor(x8, 0)), 0)) == Xor(x8, x1)
  {
    hide Xor;
    Zero(x8);
    Zero(Xor(x1, x8));
    Zero(Xor(Xor(x1, x8), y));
    Zero(Xor(x1, Xor(x8, y)));
    Comm(x1, x8);
    Assoc(x8, x1, y);
    Comm(x1, y);
    Comm(x1, Xor(x8, y));
    Assoc(x8, y, x1);
  }

  lemma UnmixCancels(a: Multiples, b: Multiples, c: Multiples, d: Multiples)
    ensures var e := Xor(Xor(Xor(a.x1, b.x1), c.x1), d.x1);
            var h := Xor(Xor(Xor(a.x8, b.x8), c.x8), d.x8);
            Xor(a.x1, Xor(Xor(e, Xor(Xor(h, a.x4), c.x4)), Xor(a.x2, b.x2))) ==
            Xor(Xor(Xor(a.x8, Xor(a.x4, a.x2)), Xor(b.x8, Xor(b.x2, b.x1))),
                Xor(Xor(c.x8, Xor(c.x4, c.x1)), Xor(d.x8, d.x1)))
  {
    hide Xor;
    var h := Four(a.x8, b.x8, c.x8, d.x8);
    Assoc(Xor(a.x1, b.x1), c.x1, d.x1);
    Assoc(Xor(a.x8, b.x8), c.x8, d.x8);
    Assoc(h, a.x4, c.x4);
    FoursOfFew(a.x4, 0, c.x4);
    FoursOfFew(a.x2, b.x2, 0);
    FoursOfFew(a.x1, 0, 0);
    FoursAdd(a.x8, b.x8, c.x8, d.x8, a.x4, 0, c.x4, 0);
    FoursAdd(a.x1, b.x1, c.x1, d.x1, Xor(a.x8, a.x4), Xor(b.x8, 0), Xor(c.x8, c.x4), Xor(d.x8, 0));
    FoursAdd(Xor(a.x1, Xor(a.x8, a.x4)), Xor(b.x1, Xor(b.x8, 0)), Xor(c.x1, Xor(c.x8, c.x4)), Xor(d.x1, Xor(d.x8, 0)),
             a.x2, b.x2, 0, 0);
    FoursAdd(a.x1, 0, 0, 0, Xor(Xor(a.x1, Xor(a.x8, a.x4)), a.x2), Xor(Xor(b.x1, Xor(b.x8, 0)), b.x2),
             Xor(Xor(c.x1, Xor(c.x8, c.x4)), 0), Xor(Xor(d.x1, Xor(d.x8, 0)), 0));
    OfFirst(a.x1, a.x2, a.x4, a.x8);
    OfOthers(b.x1, b.x2, b.x8);
    OfOthers(c.x1, c.x4, c.x8);
    OfOthers(d.x1, 0, d.x8);
  }

  function MultiplesOf(x: bv8): Multiples {
    Multiples(x, Xt(x), Xt(Xt(x)), Xt(Xt(Xt(x))))
  }

  /** One byte of the code's unmixing. */
  lemma UnmixOneByte(a: bv8, b: bv8, c: bv8, d: bv8)
    ensures var e := Sum(Column(a, b, c, d));
            Xor(a, Xor(Xor(e, Xt(Xt(Xor(Xor(Xt(e), a), c)))), Xt(Xor(a, b)))) == UnmixedByte(a, b, c, d)
  {
    hide Xt, Xor;
    var e := Sum(Column(a, b, c, d));
    XtOfSum(a, b, c, d);
    XtOfThree(Xt(e), a, c);
    XtOfSum(Xt(a), Xt(b), Xt(c), Xt(d));
    XtOfThree(Xt(Xt(e)), Xt(a), Xt(c));
    XtOfSum(Xt(Xt(a)), Xt(Xt(b)), Xt(Xt(c)), Xt(Xt(d)));
    XtIsLinear(a, b);
    UnmixCancels(MultiplesOf(a), MultiplesOf(b), MultiplesOf(c), MultiplesOf(d));
  }

  /** Unmixing a column as the code does is the multiplication of FIPS 197. */
  lemma UnmixIsSpec(s: Column)
    ensures Unmix(s) == UnmixSpec(s)
  {
    hide Xor, Xt, UnmixedByte, Sum;
    SumRotates(s.a, s.b, s.c, s.d);
    SumRotates(s.b, s.c, s.d, s.a);
    SumRotates(s.c, s.d, s.a, s.b);
    UnmixOneByte(s.a, s.b, s.c, s.d);
    UnmixOneByte(s.b, s.c, s.d, s.a);
    UnmixOneByte(s.c, s.d, s.a, s.b);
    UnmixOneByte(s.d, s.a, s.b, s.c);
    Swapped(Xt(Sum(s)), s.a, s.c);
    Swapped(Xt(Sum(s)), s.b, s.d);
  }

  lemma Swapped(h: bv8, a: bv8, c: bv8)
    ensures Xor(Xor(h, a), c) == Xor(Xor(h, c), a)
  {
    hide Xor;
    Assoc(h, a, c);
    Assoc(h, c, a);
    Comm(a, c);
  }

  lemma SumOfMixed(a: bv8, b: bv8, c: bv8, d: bv8, p: bv8, q: bv8, r: bv8, s: bv8, e: bv8)
    requires e == Xor(Xor(Xor(a, b), c), d) && Xor(Xor(p, q), Xor(r, s)) == 0
    ensures Xor(Xor(Xor(Xor(a, Xor(e, p)), Xor(b, Xor(e, q))), Xor(c, Xor(e, r))), Xor(d, Xor(e, s))) == e
  {
    hide Xor;
    PairOfMixed(a, b, e, p, q);
    PairOfMixed(c, d, e, r, s);
    Assoc(Xor(Xor(a, Xor(e, p)), Xor(b, Xor(e, q))), Xor(c, Xor(e, r)), Xor(d, Xor(e, s)));
    Exchange(Xor(a, b), Xor(p, q), Xor(c, d), Xor(r, s));
    Assoc(Xor(a, b), c, d);
    Zero(e);
  }

  lemma PairOfMixed(a: bv8, b: bv8, e: bv8, p: bv8, q: bv8)
    ensures Xor(Xor(a, Xor(e, p)), Xor(b, Xor(e, q))) == Xor(Xor(a, b), Xor(p, q))
  {
    hide Xor;
    Exchange(a, Xor(e, p), b, Xor(e, q));
    Exchange(e, p, e, q);
    Zero(e);
    Zero(Xor(p, q));
  }

  lemma ByteBack(a: bv8, e: bv8, p: bv8, t: bv8)
    ensures Xor(Xor(a, Xor(e, p)), Xor(Xor(e, t), Xor(p, t))) == a
  {
    hide Xor;
    Exchange(e, t, p, t);
    Zero(t);
    Zero(Xor(e, p));
    XorBack(a, Xor(e, p));
  }

  /** One byte of a mixed column comes back. */
  lemma UnmixByte(a: bv8, b: bv8, e: bv8, p: bv8, q: bv8, u: bv8)
    requires p == Xt(Xor(a, b)) && Xor(p, q) == u
    ensures var a', b' := Xor(a, Xor(e, p)), Xor(b, Xor(e, q));
            Xor(a', Xor(Xor(e, Xt(u)), Xt(Xor(a', b')))) == a
  {
    hide Xor, Xt;
    PairOfMixed(a, b, e, p, q);
    XtIsLinear(Xor(a, b), u);
    ByteBack(a, e, p, Xt(u));
  }

  lemma Differences(a: bv8, b: bv8, c: bv8)
    ensures Xor(Xt(Xor(a, b)), Xt(Xor(b, c))) == Xt(Xor(a, c))
  {
    hide Xor, Xt;
    XtIsLinear(Xor(a, b), Xor(b, c));
    Cancel(a, b, c);
  }

  lemma Opposite(a: bv8, b: bv8, c: bv8, d: bv8, e: bv8)
    requires e == Sum(Column(a, b, c, d))
    ensures var p, r := Xt(Xor(a, b)), Xt(Xor(c, d));
            Xor(Xor(Xt(e), Xor(a, Xor(e, p))), Xor(c, Xor(e, r))) == Xor(a, c)
  {
    hide Xt, Xor;
    XtIsLinear(Xor(a, b), Xor(c, d));
    SumIsPairs(a, b, c, d);
    OppositeBytes(a, c, e, Xt(Xor(a, b)), Xt(Xor(c, d)), Xt(e));
  }

  lemma SumIsPairs(a: bv8, b: bv8, c: bv8, d: bv8)
    ensures Sum(Column(a, b, c, d)) == Xor(Xor(a, b), Xor(c, d))
  {
    hide Xor;
    Assoc(Xor(a, b), c, d);
  }

  lemma OppositeBytes(a: bv8, c: bv8, e: bv8, p: bv8, r: bv8, h: bv8)
    requires h == Xor(p, r)
    ensures Xor(Xor(h, Xor(a, Xor(e, p))), Xor(c, Xor(e, r))) == Xor(a, c)
  {
    hide Xor;
    Assoc(h, Xor(a, Xor(e, p)), Xor(c, Xor(e, r)));
    PairOfMixed(a, c, e, p, r);
    Comm(Xor(a, c), h);
    XorBack(h, Xor(a, c));
  }

  lemma SumOfMixIs(s: Column)
    ensures Sum(Mix(s)) == Sum(s)
  {
    hide Xt;
    var p, q, r, t := Xt(Xor(s.a, s.b)), Xt(Xor(s.b, s.c)), Xt(Xor(s.c, s.d)), Xt(Xor(s.d, s.a));
    Differences(s.a, s.b, s.c);
    Differences(s.c, s.d, s.a);
    XorBack(s.a, s.c);
    Zero(Xt(Xor(s.a, s.c)));
    SumOfMixed(s.a, s.b, s.c, s.d, p, q, r, t, Sum(s));
    hide Xor;
  }

  /** Unmixing undoes mixing. */
  lemma UnmixOfMix(s: Column)
    ensures Unmix(Mix(s)) == s
  {
    hide Xor, Xt, Sum;
    var e, m := Sum(s), Mix(s);
    var p, q, r, t := Xt(Xor(s.a, s.b)), Xt(Xor(s.b, s.c)), Xt(Xor(s.c, s.d)), Xt(Xor(s.d, s.a));
    SumOfMixIs(s);
    Opposite(s.a, s.b, s.c, s.d, e);
    SumRotates(s.a, s.b, s.c, s.d);
    Opposite(s.b, s.c, s.d, s.a, e);
    Differences(s.a, s.b, s.c);
    Differences(s.b, s.c, s.d);
    Differences(s.c, s.d, s.a);
    Differences(s.d, s.a, s.b);
    XorBack(s.a, s.c);
    XorBack(s.b, s.d);
    UnmixByte(s.a, s.b, e, p, q, Xt(Xor(s.a, s.c)));
    UnmixByte(s.b, s.c, e, q, r, Xt(Xor(s.b, s.d)));
    UnmixByte(s.c, s.d, e, r, t, Xt(Xor(s.a, s.c)));
    UnmixByte(s.d, s.a, e, t, p, Xt(Xor(s.b, s.d)));
  }

  /** Unmixing keeps the sum of a column. */
  lemma SumOfUnmixed(a: bv8, b: bv8, c: bv8, d: bv8, p: bv8, q: bv8, r: bv8, s: bv8, f: bv8, g: bv8)
    requires Xor(Xor(p, q), Xor(r, s)) == 0
    ensures Xor(Xor(Xor(Xor(a, Xor(f, p)), Xor(b, Xor(g, q))), Xor(c, Xor(f, r))), Xor(d, Xor(g, s))) ==
            Xor(Xor(Xor(a, b), c), d)
  {
    hide Xor;
    Assoc(Xor(Xor(a, Xor(f, p)), Xor(b, Xor(g, q))), Xor(c, Xor(f, r)), Xor(d, Xor(g, s)));
    Assoc(Xor(a, b), c, d);
    FoursAdd(a, b, c, d, Xor(f, p), Xor(g, q), Xor(f, r), Xor(g, s));
    FoursAdd(f, g, f, g, p, q, r, s);
    Zero(Xor(f, g));
    Zero(Xor(Xor(p, q), Xor(r, s)));
    Zero(Four(a, b, c, d));
  }

  /** One byte of an unmixed column comes back. */
  lemma MixByteBack(a: bv8, b: bv8, e: bv8, p: bv8, q: bv8, f: bv8, g: bv8)
    requires p == Xt(Xor(a, b)) && Xor(f, e) == Xt(Xor(Xor(f, g), Xor(p, q)))
    ensures var a', b' := Xor(a, Xor(f, p)), Xor(b, Xor(g, q));
            Xor(a', Xor(e, Xt(Xor(a', b')))) == a
  {
    hide Xor, Xt;
    var a', b', z := Xor(a, Xor(f, p)), Xor(b, Xor(g, q)), Xor(Xor(f, g), Xor(p, q));
    Exchange(a, Xor(f, p), b, Xor(g, q));
    Exchange(f, p, g, q);
    XtIsLinear(Xor(a, b), z);
    MixRests(a, e, f, p);
  }

  lemma MixRests(a: bv8, e: bv8, f: bv8, p: bv8)
    ensures Xor(Xor(a, Xor(f, p)), Xor(e, Xor(p, Xor(f, e)))) == a
  {
    hide Xor;
    Assoc(p, f, e);
    Comm(Xor(p, f), e);
    XorBack(e, Xor(p, f));
    Comm(p, f);
    XorBack(a, Xor(f, p));
  }

  /** What the code adds to every other byte differs from the sum by the double of the difference of the two. */
  lemma FoldedDifference(e: bv8, a: bv8, b: bv8, c: bv8, d: bv8)
    requires e == Sum(Column(a, b, c, d))
    ensures var f, g := Xor(e, Xt(Xt(Xor(Xor(Xt(e), a), c)))), Xor(e, Xt(Xt(Xor(Xor(Xt(e), b), d))));
            && Xor(f, g) == Xt(Xt(e))
            && Xor(f, e) == Xt(Xor(Xor(f, g), Xt(Xor(a, c)))) && Xor(g, e) == Xt(Xor(Xor(f, g), Xt(Xor(b, d))))
  {
    hide Xt, Xor;
    var h := Xt(e);
    var u, v := Xor(Xor(h, a), c), Xor(Xor(h, b), d);
    var f, g := Xor(e, Xt(Xt(u))), Xor(e, Xt(Xt(v)));
    Exchange(e, Xt(Xt(u)), e, Xt(Xt(v)));
    Zero(e);
    Zero(Xor(Xt(Xt(u)), Xt(Xt(v))));
    XtIsLinear(Xt(u), Xt(v));
    XtIsLinear(u, v);
    Pairs(h, a, b, c, d);
    Comm(f, e);
    Comm(g, e);
    XorBack(e, Xt(Xt(u)));
    XorBack(e, Xt(Xt(v)));
    XtIsLinear(h, Xor(a, c));
    XtIsLinear(h, Xor(b, d));
    Assoc(h, a, c);
    Assoc(h, b, d);
  }

  lemma Pairs(h: bv8, a: bv8, b: bv8, c: bv8, d: bv8)
    ensures Xor(Xor(Xor(h, a), c), Xor(Xor(h, b), d)) == Sum(Column(a, b, c, d))
  {
    hide Xor;
    Exchange(Xor(h, a), c, Xor(h, b), d);
    Exchange(h, a, h, b);
    Zero(h);
    Zero(Xor(a, b));
    Assoc(Xor(a, b), c, d);
  }

  /** Mixing undoes unmixing. */
  lemma MixOfUnmix(s: Column)
    ensures Mix(Unmix(s)) == s
  {
    hide Xor, Xt, Sum;
    var e := Sum(s);
    var f, g := Xor(e, Xt(Xt(Xor(Xor(Xt(e), s.a), s.c)))), Xor(e, Xt(Xt(Xor(Xor(Xt(e), s.b), s.d))));
    var p, q, r, t := Xt(Xor(s.a, s.b)), Xt(Xor(s.b, s.c)), Xt(Xor(s.c, s.d)), Xt(Xor(s.d, s.a));
    SumOfUnmixIs(s);
    FoldedDifference(e, s.a, s.b, s.c, s.d);
    Comm(f, g);
    Differences(s.a, s.b, s.c);
    Differences(s.b, s.c, s.d);
    Differences(s.c, s.d, s.a);
    Differences(s.d, s.a, s.b);
    XorBack(s.a, s.c);
    XorBack(s.b, s.d);
    MixByteBack(s.a, s.b, e, p, q, f, g);
    MixByteBack(s.b, s.c, e, q, r, g, f);
    MixByteBack(s.c, s.d, e, r, t, f, g);
    MixByteBack(s.d, s.a, e, t, p, g, f);
  }

  lemma SumOfUnmixIs(s: Column)
    ensures Sum(Unmix(s)) == Sum(s)
  {
    hide Xt;
    var e := Sum(s);
    var f, g := Xor(e, Xt(Xt(Xor(Xor(Xt(e), s.a), s.c)))), Xor(e, Xt(Xt(Xor(Xor(Xt(e), s.b), s.d))));
    var p, q, r, t := Xt(Xor(s.a, s.b)), Xt(Xor(s.b, s.c)), Xt(Xor(s.c, s.d)), Xt(Xor(s.d, s.a));
    Differences(s.a, s.b, s.c);
    Differences(s.c, s.d, s.a);
    XorBack(s.a, s.c);
    Zero(Xt(Xor(s.a, s.c)));
    SumOfUnmixed(s.a, s.b, s.c, s.d, p, q, r, t, f, g);
    hide Xor;
  }

  //////////////////////////////// The state ////////////////////////////////

  function AddKey(x: seq<bv8>, w: seq<bv8>): (y: seq<bv8>)
    requires |x| == 16 && |w| == 16
    ensures |y| == 16
  {
    seq(16, j requires 0 <= j < 16 => Xor(x[j], w[j]))
  }

  function SubBytes(x: seq<bv8>): (y: seq<bv8>)
    requires |x| == 16
    ensures |y| == 16
  {
    seq(16, j requires 0 <= j < 16 => Sub(x[j]))
  }

  function InvSubBytes(x: seq<bv8>): (y: seq<bv8>)
    requires |x| == 16
    ensures |y| == 16
  {
    seq(16, j requires 0 <= j < 16 => InvSub(x[j]))
  }

  /** Section 5.1.2 of FIPS 197: row r moves left by r places. Byte j is in row j mod 4 of column j / 4. */
  function ShiftRows(x: seq<bv8>): (y: seq<bv8>)
    requires |x| == 16
    ensures |y| == 16
  {
    seq(16, j requires 0 <= j < 16 => x[(j + 4 * (j % 4)) % 16])
  }

  function InvShiftRows(x: seq<bv8>): (y: seq<bv8>)
    requires |x| == 16
    ensures |y| == 16
  {
    seq(16, j requires 0 <= j < 16 => x[(j + 16 - 4 * (j % 4)) % 16])
  }

  function ColumnOf(x: seq<bv8>, c: nat): Column
    requires |x| == 16 && c < 4
  {
    Column(x[4 * c], x[4 * c + 1], x[4 * c + 2], x[4 * c + 3])
  }

  function Row(s: Column, r: nat): bv8
    requires r < 4
  {
    if r == 0 then s.a else if r == 1 then s.b else if r == 2 then s.c else s.d
  }

  function MixColumns(x: seq<bv8>): (y: seq<bv8>)
    requires |x| == 16
    ensures |y| == 16
  {
    seq(16, j requires 0 <= j < 16 => Row(MixSpec(ColumnOf(x, j / 4)), j % 4))
  }

  function UnmixColumns(x: seq<bv8>): (y: seq<bv8>)
    requires |x| == 16
    ensures |y| == 16
  {
    seq(16, j requires 0 <= j < 16 => Row(UnmixSpec(ColumnOf(x, j / 4)), j % 4))
  }

  lemma AddKeyTwice(x: seq<bv8>, w: seq<bv8>)
    requires |x| == 16 && |w| == 16
    ensures AddKey(AddKey(x, w), w) == x
  {
    hide Xor;
    forall j | 0 <= j < 16 ensures Xor(Xor(x[j], w[j]), w[j]) == x[j] {
      XorBack(x[j], w[j]);
    }
  }

  lemma SubBytesBack(x: seq<bv8>)
    requires |x| == 16
    ensures InvSubBytes(SubBytes(x)) == x
  {
    hide Sub, InvSub;
    forall j | 0 <= j < 16 ensures InvSub(Sub(x[j])) == x[j] {
      InvSubOfSub(x[j]);
    }
  }

  lemma ShiftRowsBack(x: seq<bv8>)
    requires |x| == 16
    ensures InvShiftRows(ShiftRows(x)) == x
  {
    forall j | 0 <= j < 16 ensures InvShiftRows(ShiftRows(x))[j] == x[j] {
      var i := (j + 16 - 4 * (j % 4)) % 16;
      ShiftedPlace(j);
    }
  }

  lemma ShiftedPlace(j: nat)
    requires j < 16
    ensures var i := (j + 16 - 4 * (j % 4)) % 16; 0 <= i < 16 && (i + 4 * (i % 4)) % 16 == j
  {
    var c, r := j / 4, j % 4;
    assert j == 4 * c + r;
    if c >= r {
      assert j + 16 - 4 * r == 16 + 4 * (c - r) + r;
    } else {
      assert j + 16 - 4 * r == 4 * (c - r + 4) + r;
    }
  }

  lemma MixedColumn(x: seq<bv8>, c: nat)
    requires |x| == 16 && c < 4
    ensures ColumnOf(MixColumns(x), c) == MixSpec(ColumnOf(x, c))
  {
    hide MixSpec, ColumnOf;
    ColumnPlace(c);
    ColumnIs(MixColumns(x), c);
  }

  lemma UnmixedColumn(x: seq<bv8>, c: nat)
    requires |x| == 16 && c < 4
    ensures ColumnOf(UnmixColumns(x), c) == UnmixSpec(ColumnOf(x, c))
  {
    hide UnmixSpec, ColumnOf;
    ColumnPlace(c);
    ColumnIs(UnmixColumns(x), c);
  }

  lemma ColumnIs(x: seq<bv8>, c: nat)
    requires |x| == 16 && c < 4
    ensures ColumnOf(x, c) == Column(x[4 * c], x[4 * c + 1], x[4 * c + 2], x[4 * c + 3])
  {
  }

  lemma ByteOfColumn(x: seq<bv8>, j: nat)
    requires |x| == 16 && j < 16
    ensures Row(ColumnOf(x, j / 4), j % 4) == x[j]
  {
    assert j == 4 * (j / 4) + j % 4;
  }

  lemma MixColumnsBack(x: seq<bv8>)
    requires |x| == 16
    ensures UnmixColumns(MixColumns(x)) == x
  {
    hide MixSpec, UnmixSpec, Unmix, ColumnOf, Row, MixColumns;
    forall j | 0 <= j < 16 ensures UnmixColumns(MixColumns(x))[j] == x[j] {
      MixedColumn(x, j / 4);
      MixIsSpec(ColumnOf(x, j / 4));
      UnmixOfMix(ColumnOf(x, j / 4));
      UnmixIsSpec(Mix(ColumnOf(x, j / 4)));
      ByteOfColumn(x, j);
    }
  }

  lemma SubBytesForth(x: seq<bv8>)
    requires |x| == 16
    ensures SubBytes(InvSubBytes(x)) == x
  {
    hide Sub, InvSub;
    forall j | 0 <= j < 16 ensures Sub(InvSub(x[j])) == x[j] {
      SubOfInvSub(x[j]);
    }
  }

  lemma ShiftRowsForth(x: seq<bv8>)
    requires |x| == 16
    ensures ShiftRows(InvShiftRows(x)) == x
  {
    forall j | 0 <= j < 16 ensures ShiftRows(InvShiftRows(x))[j] == x[j] {
      ShiftedForth(j);
    }
  }

  lemma ShiftedForth(j: nat)
    requires j < 16
    ensures var i := (j + 4 * (j % 4)) % 16; 0 <= i < 16 && (i + 16 - 4 * (i % 4)) % 16 == j
  {
    if j % 4 == 0 {
    } else if j % 4 == 1 {
      assert (j + 4) % 4 == 1;
    } else if j % 4 == 2 {
      assert (j + 8) % 4 == 2;
    } else {
      assert (j + 12) % 4 == 3;
    }
  }

  lemma MixColumnsForth(x: seq<bv8>)
    requires |x| == 16
    ensures MixColumns(UnmixColumns(x)) == x
  {
    hide MixSpec, UnmixSpec, Unmix, ColumnOf, Row, UnmixColumns;
    forall j | 0 <= j < 16 ensures MixColumns(UnmixColumns(x))[j] == x[j] {
      UnmixedColumn(x, j / 4);
      UnmixIsSpec(ColumnOf(x, j / 4));
      MixOfUnmix(ColumnOf(x, j / 4));
      MixIsSpec(Unmix(ColumnOf(x, j / 4)));
      ByteOfColumn(x, j);
    }
  }

  lemma ColumnPlace(c: nat)
    ensures 4 * c / 4 == c && 4 * c % 4 == 0 && (4 * c + 1) / 4 == c && (4 * c + 1) % 4 == 1
    ensures (4 * c + 2) / 4 == c && (4 * c + 2) % 4 == 2 && (4 * c + 3) / 4 == c && (4 * c + 3) % 4 == 3
  {
  }

  //////////////////////////////// The key schedule and the cipher ////////////////////////////////

  /** The round constants of section 5.2 of FIPS 197, from number 1 on. */
  function Rcon(i: nat): bv8 {
    if i <= 1 then 1 else Xt(Rcon(i - 1))
  }

  /** Byte n of the expanded key: with 8 key words, a word is the word 8 places before plus the previous word, which is
      rotated, substituted and given a round constant at every eighth word, and substituted half-way between. */
  function KeyByte(key: seq<bv8>, n: nat): bv8
    requires |key| == 32
  {
    if n < 32 then key[n]
    else
      var word, b := n / 4, n % 4;
      var t :=
        if word % 8 == 0 then Xor(Sub(KeyByte(key, 4 * (word - 1) + (b + 1) % 4)), if b == 0 then Rcon(word / 8) else 0)
        else if word % 8 == 4 then Sub(KeyByte(key, n - 4))
        else KeyByte(key, n - 4);
      Xor(KeyByte(key, n - 32), t)
  }

  /** The 32 bytes of the expanded key that are in place after t expansions. */
  function Stage(key: seq<bv8>, t: nat): (k: seq<bv8>)
    requires |key| == 32
    ensures |k| == 32
  {
    seq(32, n requires 0 <= n < 32 => KeyByte(key, 32 * t + n))
  }

  function RoundKey(key: seq<bv8>, i: nat): (w: seq<bv8>)
    requires |key| == 32
    ensures |w| == 16
  {
    seq(16, j requires 0 <= j < 16 => KeyByte(key, 16 * i + j))
  }

  /** The state after n rounds, the last of 14 without mixing. */
  function Rounds(key: seq<bv8>, x: seq<bv8>, n: nat): (y: seq<bv8>)
    requires |key| == 32 && |x| == 16 && n <= 14
    ensures |y| == 16
  {
    if n == 0 then x
    else
      var s := ShiftRows(SubBytes(AddKey(Rounds(key, x, n - 1), RoundKey(key, n - 1))));
      if n < 14 then MixColumns(s) else s
  }

  /** The cipher of section 5.1 of FIPS 197 with 14 rounds. */
  function Cipher(key: seq<bv8>, x: seq<bv8>): (y: seq<bv8>)
    requires |key| == 32 && |x| == 16
    ensures |y| == 16
  {
    AddKey(Rounds(key, x, 14), RoundKey(key, 14))
  }

  function InvRounds(key: seq<bv8>, y: seq<bv8>, n: nat): (x: seq<bv8>)
    requires |key| == 32 && |y| == 16 && n <= 14
    ensures |x| == 16
  {
    if n == 0 then y
    else
      var s := AddKey(InvRounds(key, y, n - 1), RoundKey(key, 15 - n));
      InvSubBytes(InvShiftRows(if n > 1 then UnmixColumns(s) else s))
  }

  /** The inverse cipher of section 5.3 of FIPS 197 with 14 rounds. */
  function InvCipher(key: seq<bv8>, y: seq<bv8>): (x: seq<bv8>)
    requires |key| == 32 && |y| == 16
    ensures |x| == 16
  {
    AddKey(InvRounds(key, y, 14), RoundKey(key, 0))
  }

  /** After n inverse rounds the state is that before round 14 - n, plus its round key. */
  lemma {:induction false} RoundsBack(key: seq<bv8>, x: seq<bv8>, n: nat)
    requires |key| == 32 && |x| == 16 && n <= 14
    ensures InvRounds(key, Cipher(key, x), n) == AddKey(Rounds(key, x, 14 - n), RoundKey(key, 14 - n))
  {
    hide AddKey, SubBytes, InvSubBytes, ShiftRows, InvShiftRows, MixColumns, UnmixColumns, RoundKey;
    if n > 0 {
      RoundsBack(key, x, n - 1);
      var i := 14 - n;
      AddKeyTwice(Rounds(key, x, i + 1), RoundKey(key, i + 1));
      var s := SubBytes(AddKey(Rounds(key, x, i), RoundKey(key, i)));
      MixColumnsBack(ShiftRows(s));
      ShiftRowsBack(s);
      SubBytesBack(AddKey(Rounds(key, x, i), RoundKey(key, i)));
    }
  }

  /** Deciphering undoes enciphering, for every key and block. */
  lemma InvCipherOfCipher(key: seq<bv8>, x: seq<bv8>)
    requires |key| == 32 && |x| == 16
    ensures InvCipher(key, Cipher(key, x)) == x
  {
    hide AddKey, RoundKey, Cipher;
    RoundsBack(key, x, 14);
    AddKeyTwice(x, RoundKey(key, 0));
    assert Rounds(key, x, 0) == x;
    hide InvRounds, Rounds;
  }

  /** After n rounds on a deciphered block the state is that before inverse round 14 - n, plus its round key. */
  lemma {:induction false} RoundsForth(key: seq<bv8>, y: seq<bv8>, n: nat)
    requires |key| == 32 && |y| == 16 && n <= 14
    ensures Rounds(key, InvCipher(key, y), n) == AddKey(InvRounds(key, y, 14 - n), RoundKey(key, n))
  {
    hide AddKey, SubBytes, InvSubBytes, ShiftRows, InvShiftRows, MixColumns, UnmixColumns, RoundKey;
    if n > 0 {
      RoundsForth(key, y, n - 1);
      var s := AddKey(InvRounds(key, y, 14 - n), RoundKey(key, n));
      var t := if n < 14 then UnmixColumns(s) else s;
      AddKeyTwice(InvRounds(key, y, 15 - n), RoundKey(key, n - 1));
      SubBytesForth(InvShiftRows(t));
      ShiftRowsForth(t);
      MixColumnsForth(s);
    }
  }

  /** Enciphering undoes deciphering, for every key and block. */
  lemma CipherOfInvCipher(key: seq<bv8>, y: seq<bv8>)
    requires |key| == 32 && |y| == 16
    ensures Cipher(key, InvCipher(key, y)) == y
  {
    hide AddKey, RoundKey, InvCipher;
    RoundsForth(key, y, 14);
    AddKeyTwice(y, RoundKey(key, 14));
    assert InvRounds(key, y, 0) == y;
    hide InvRounds, Rounds;
  }

  //////////////////////////////// The key schedule in place ////////////////////////////////

  /** What byte m of a stage is combined with to give byte m of the next. */
  function KeyTerm(key: seq<bv8>, t: nat, m: nat): bv8
    requires |key| == 32 && m < 32
  {
    if m < 4 then Xor(Sub(KeyByte(key, 32 * t + 28 + (m + 1) % 4)), if m == 0 then Rcon(t + 1) else 0)
    else if 16 <= m < 20 then Sub(KeyByte(key, 32 * t + 32 + m - 4))
    else KeyByte(key, 32 * t + 32 + m - 4)
  }

  lemma KeyStep(key: seq<bv8>, t: nat, m: nat)
    requires |key| == 32 && m < 32
    ensures KeyByte(key, 32 * t + 32 + m) == Xor(KeyByte(key, 32 * t + m), KeyTerm(key, t, m))
    ensures KeyByte(key, 32 * t + m) == Xor(KeyByte(key, 32 * t + 32 + m), KeyTerm(key, t, m))
  {
    KeyStepUp(key, t, m);
    hide KeyByte, KeyTerm, Xor;
    XorBack(KeyByte(key, 32 * t + m), KeyTerm(key, t, m));
  }

  lemma KeyStepUp(key: seq<bv8>, t: nat, m: nat)
    requires |key| == 32 && m < 32
    ensures KeyByte(key, 32 * t + 32 + m) == Xor(KeyByte(key, 32 * t + m), KeyTerm(key, t, m))
  {
    hide Xor, Sub, Rcon, KeyTerm, KeyByte;
    KeyPlace(t, m);
    KeyTermIs(key, t, m);
    KeyByteIs(key, 32 * t + 32 + m);
  }

  lemma KeyByteIs(key: seq<bv8>, n: nat)
    requires |key| == 32 && n >= 32
    ensures var word, b := n / 4, n % 4;
            KeyByte(key, n) == Xor(KeyByte(key, n - 32),
              if word % 8 == 0
                then Xor(Sub(KeyByte(key, 4 * (word - 1) + (b + 1) % 4)), if b == 0 then Rcon(word / 8) else 0)
              else if word % 8 == 4 then Sub(KeyByte(key, n - 4)) else KeyByte(key, n - 4))
  {
    hide Xor, Sub, Rcon;
  }

  lemma KeyTermIs(key: seq<bv8>, t: nat, m: nat)
    requires |key| == 32 && m < 32
    ensures KeyTerm(key, t, m) ==
            if m < 4 then Xor(Sub(KeyByte(key, 32 * t + 28 + (m + 1) % 4)), if m == 0 then Rcon(t + 1) else 0)
            else if 16 <= m < 20 then Sub(KeyByte(key, 32 * t + 32 + m - 4))
            else KeyByte(key, 32 * t + 32 + m - 4)
  {
    hide Xor, Sub, Rcon, KeyByte;
  }

  /** Where byte m of a stage is in the expanded key. */
  lemma KeyPlace(t: nat, m: nat)
    requires m < 32
    ensures var n := 32 * t + 32 + m;
            && (n / 4 % 8 == 0 <==> m < 4) && (n / 4 % 8 == 4 <==> 16 <= m < 20)
            && (m < 4 ==> n / 4 / 8 == t + 1 && 4 * (n / 4 - 1) == 32 * t + 28) && n % 4 == m % 4
  {
    var n, w := 32 * t + 32 + m, m / 4;
    assert n == 4 * (8 * t + 8 + w) + m % 4;
    assert n / 4 == 8 * t + 8 + w && n % 4 == m % 4;
    assert (8 * t + 8 + w) % 8 == w;
    assert (8 * t + 8 + w) / 8 == t + 1;
    assert w == 0 <==> m < 4;
    assert w == 4 <==> 16 <= m < 20;
  }

  /** The key bytes in place: those of the next stage for the places in later, of stage t for the others. */
  predicate InPlace(k: seq<bv8>, key: seq<bv8>, t: nat, later: set<nat>)
    requires |key| == 32
  {
    |k| == 32 && forall n: nat :: n < 32 ==> k[n] == KeyByte(key, if n in later then 32 * t + 32 + n else 32 * t + n)
  }

  function Below(m: nat): set<nat> {
    if m == 0 then {} else Below(m - 1) + {m - 1}
  }

  lemma {:induction false} BelowIs(m: nat)
    ensures forall n: nat :: n in Below(m) <==> n < m
  {
    if m > 0 {
      BelowIs(m - 1);
    }
  }

  /** Combines byte m with its term, which takes it to the next stage or back. */
  method Combine(k: array<bv8>, m: nat, v: bv8, ghost key: seq<bv8>, ghost t: nat, ghost later: set<nat>)
    requires |key| == 32 && m < 32 && InPlace(k[..], key, t, later) && v == KeyTerm(key, t, m)
    modifies k
    ensures k.Length == 32 && InPlace(k[..], key, t, if m in later then later - {m} else later + {m})
  {
    hide KeyByte, KeyTerm, Xor;
    KeyStep(key, t, m);
    k[m] := Xor(k[m], v);
  }

  lemma StageInPlace(k: seq<bv8>, key: seq<bv8>, t: nat)
    requires |key| == 32
    ensures k == Stage(key, t) <==> InPlace(k, key, t, {})
    ensures k == Stage(key, t + 1) <==> InPlace(k, key, t, Below(32))
  {
    hide KeyByte, Stage, InPlace, Below;
    ThisInPlace(k, key, t);
    NextInPlace(k, key, t);
  }

  lemma ThisInPlace(k: seq<bv8>, key: seq<bv8>, t: nat)
    requires |key| == 32
    ensures k == Stage(key, t) <==> InPlace(k, key, t, {})
  {
    hide KeyByte;
    if InPlace(k, key, t, {}) {
      assert k == Stage(key, t);
    }
  }

  lemma NextInPlace(k: seq<bv8>, key: seq<bv8>, t: nat)
    requires |key| == 32
    ensures k == Stage(key, t + 1) <==> InPlace(k, key, t, Below(32))
  {
    hide KeyByte, Below;
    BelowIs(32);
    if InPlace(k, key, t, Below(32)) {
      assert k == Stage(key, t + 1);
    }
  }

  /** The term of a byte in the first word, from the last word still of stage t. */
  lemma FirstTerm(k: seq<bv8>, key: seq<bv8>, t: nat, later: set<nat>, m: nat)
    requires |key| == 32 && InPlace(k, key, t, later) && m < 4 && (forall n :: 28 <= n < 32 ==> n !in later)
    ensures KeyTerm(key, t, m) == Xor(Sub(k[28 + (m + 1) % 4]), if m == 0 then Rcon(t + 1) else 0)
  {
    hide Xor, Sub, KeyByte, Rcon;
  }

  lemma MiddleTerm(k: seq<bv8>, key: seq<bv8>, t: nat, later: set<nat>, m: nat)
    requires |key| == 32 && InPlace(k, key, t, later) && 4 <= m < 32 && m - 4 in later
    ensures KeyTerm(key, t, m) == if 16 <= m < 20 then Sub(k[m - 4]) else k[m - 4]
  {
    hide Xor, Sub, KeyByte, Rcon;
  }

  /** One expansion: from stage t to the next. */
  method ExpandKey(k: array<bv8>, r: bv8, ghost key: seq<bv8>, ghost t: nat) returns (next: bv8)
    requires |key| == 32 && k.Length == 32 && k[..] == Stage(key, t) && r == Rcon(t + 1)
    modifies k
    ensures k[..] == Stage(key, t + 1) && next == Rcon(t + 2)
  {
    hide Xor, Sub, KeyTerm, InPlace, Stage, KeyByte, Xt, Below;
    StageInPlace(k[..], key, t);
    next := ExpandFirst(k, r, key, t);
    ExpandRun(k, 4, 16, key, t);
    ExpandMiddle(k, key, t);
    ExpandRun(k, 20, 32, key, t);
    StageInPlace(k[..], key, t);
  }

  /** The bytes after a substituted word, from the first up. */
  method ExpandRun(k: array<bv8>, from: nat, to: nat, ghost key: seq<bv8>, ghost t: nat)
    requires |key| == 32 && k.Length == 32 && ((from == 4 && to == 16) || (from == 20 && to == 32))
    requires InPlace(k[..], key, t, Below(from))
    modifies k
    ensures InPlace(k[..], key, t, Below(to))
  {
    hide Xor, Sub, KeyTerm, InPlace, KeyByte;
    for j := from to to
      invariant InPlace(k[..], key, t, Below(j))
    {
      BelowIs(j);
      MiddleTerm(k[..], key, t, Below(j), j);
      Combine(k, j, k[j - 4], key, t, Below(j));
      assert Below(j + 1) == Below(j) + {j};
    }
  }

  method ExpandMiddle(k: array<bv8>, ghost key: seq<bv8>, ghost t: nat)
    requires |key| == 32 && k.Length == 32 && InPlace(k[..], key, t, Below(16))
    modifies k
    ensures InPlace(k[..], key, t, Below(20))
  {
    hide Xor, Sub, KeyTerm, InPlace, KeyByte;
    for j := 16 to 20
      invariant InPlace(k[..], key, t, Below(j))
    {
      BelowIs(j);
      MiddleTerm(k[..], key, t, Below(j), j);
      Combine(k, j, Sub(k[j - 4]), key, t, Below(j));
      assert Below(j + 1) == Below(j) + {j};
    }
  }

  /** The first word of an expansion, with the round constant; returns the next round constant. */
  method ExpandFirst(k: array<bv8>, r: bv8, ghost key: seq<bv8>, ghost t: nat) returns (next: bv8)
    requires |key| == 32 && k.Length == 32 && InPlace(k[..], key, t, {}) && r == Rcon(t + 1)
    modifies k
    ensures InPlace(k[..], key, t, Below(4)) && next == Rcon(t + 2)
  {
    hide Xor, Sub, KeyTerm, InPlace, KeyByte, Xt;
    ghost var none: set<nat> := {};
    FirstTerm(k[..], key, t, none, 0);
    Combine(k, 0, Xor(Sub(k[29]), r), key, t, none);
    FirstTerm(k[..], key, t, none + {0}, 1);
    Zero(Sub(k[30]));
    Combine(k, 1, Sub(k[30]), key, t, none + {0});
    FirstTerm(k[..], key, t, none + {0} + {1}, 2);
    Zero(Sub(k[31]));
    Combine(k, 2, Sub(k[31]), key, t, none + {0} + {1});
    FirstTerm(k[..], key, t, none + {0} + {1} + {2}, 3);
    Zero(Sub(k[28]));
    Combine(k, 3, Sub(k[28]), key, t, none + {0} + {1} + {2});
    assert Below(0) == none && Below(1) == none + {0} && Below(2) == Below(1) + {1} && Below(3) == Below(2) + {2};
    assert Below(4) == Below(3) + {3};
    next := Xt(r);
  }

  /** One expansion undone: from stage t + 1 back to stage t, with the round constant of that expansion again. */
  method UnexpandKey(k: array<bv8>, r: bv8, ghost key: seq<bv8>, ghost t: nat) returns (last: bv8)
    requires |key| == 32 && k.Length == 32 && k[..] == Stage(key, t + 1) && r == Rcon(t + 2)
    modifies k
    ensures k[..] == Stage(key, t) && last == Rcon(t + 1)
  {
    hide Xor, Sub, KeyTerm, InPlace, Stage, KeyByte, Xt, XtBack, Below;
    StageInPlace(k[..], key, t);
    UnexpandRun(k, 28, 16, key, t);
    UnexpandMiddle(k, key, t);
    UnexpandRun(k, 12, 0, key, t);
    XtBackOfXt(Rcon(t + 1));
    last := XtBack(r);
    UnexpandFirst(k, last, key, t);
    StageInPlace(k[..], key, t);
  }

  /** The bytes after a substituted word, from the last down. */
  method UnexpandRun(k: array<bv8>, from: nat, to: nat, ghost key: seq<bv8>, ghost t: nat)
    requires |key| == 32 && k.Length == 32 && ((from == 28 && to == 16) || (from == 12 && to == 0))
    requires InPlace(k[..], key, t, Below(from + 4))
    modifies k
    ensures InPlace(k[..], key, t, Below(to + 4))
  {
    hide Xor, Sub, KeyTerm, InPlace, KeyByte, Below;
    var j := from;
    while j > to
      invariant to <= j <= from && InPlace(k[..], key, t, Below(j + 4))
    {
      BelowIs(j + 4);
      BelowIs(j + 3);
      assert Below(j + 4) - {j + 3} == Below(j + 3);
      MiddleTerm(k[..], key, t, Below(j + 4), j + 3);
      Combine(k, j + 3, k[j - 1], key, t, Below(j + 4));
      j := j - 1;
    }
  }

  method UnexpandMiddle(k: array<bv8>, ghost key: seq<bv8>, ghost t: nat)
    requires |key| == 32 && k.Length == 32 && InPlace(k[..], key, t, Below(20))
    modifies k
    ensures InPlace(k[..], key, t, Below(16))
  {
    hide Xor, Sub, KeyTerm, InPlace, KeyByte, Below;
    BelowIs(20);
    BelowIs(16);
    ghost var later := Below(20);
    MiddleTerm(k[..], key, t, later, 16);
    Combine(k, 16, Sub(k[12]), key, t, later);
    MiddleTerm(k[..], key, t, later - {16}, 17);
    Combine(k, 17, Sub(k[13]), key, t, later - {16});
    MiddleTerm(k[..], key, t, later - {16} - {17}, 18);
    Combine(k, 18, Sub(k[14]), key, t, later - {16} - {17});
    MiddleTerm(k[..], key, t, later - {16} - {17} - {18}, 19);
    Combine(k, 19, Sub(k[15]), key, t, later - {16} - {17} - {18});
    assert later - {16} - {17} - {18} - {19} == Below(16);
  }

  method UnexpandFirst(k: array<bv8>, r: bv8, ghost key: seq<bv8>, ghost t: nat)
    requires |key| == 32 && k.Length == 32 && InPlace(k[..], key, t, Below(4)) && r == Rcon(t + 1)
    modifies k
    ensures InPlace(k[..], key, t, {})
  {
    hide Xor, Sub, KeyTerm, InPlace, KeyByte, Xt, Below;
    BelowIs(4);
    ghost var later := Below(4);
    FirstTerm(k[..], key, t, later, 0);
    Combine(k, 0, Xor(Sub(k[29]), r), key, t, later);
    FirstTerm(k[..], key, t, later - {0}, 1);
    Zero(Sub(k[30]));
    Combine(k, 1, Sub(k[30]), key, t, later - {0});
    FirstTerm(k[..], key, t, later - {0} - {1}, 2);
    Zero(Sub(k[31]));
    Combine(k, 2, Sub(k[31]), key, t, later - {0} - {1});
    FirstTerm(k[..], key, t, later - {0} - {1} - {2}, 3);
    Zero(Sub(k[28]));
    Combine(k, 3, Sub(k[28]), key, t, later - {0} - {1} - {2});
    assert later - {0} - {1} - {2} - {3} == {};
  }

  //////////////////////////////// The state in place ////////////////////////////////

  method AddRoundKey(x: array<bv8>, k: array<bv8>, half: nat)
    requires x.Length == 16 && k.Length == 32 && half < 2 && x != k
    modifies x
    ensures x[..] == AddKey(old(x[..]), k[16 * half..16 * half + 16])
  {
    hide Xor;
    for j := 0 to 16
      invariant forall i :: 0 <= i < 16 ==> x[i] == if i < j then Xor(old(x[i]), k[16 * half + i]) else old(x[i])
    {
      x[j] := Xor(x[j], k[16 * half + j]);
    }
  }

  method SubBytesInPlace(x: array<bv8>)
    requires x.Length == 16
    modifies x
    ensures x[..] == SubBytes(old(x[..]))
  {
    hide Sub;
    for j := 0 to 16
      invariant forall i :: 0 <= i < 16 ==> x[i] == if i < j then Sub(old(x[i])) else old(x[i])
    {
      x[j] := Sub(x[j]);
    }
  }

  method InvSubBytesInPlace(x: array<bv8>)
    requires x.Length == 16
    modifies x
    ensures x[..] == InvSubBytes(old(x[..]))
  {
    hide InvSub;
    for j := 0 to 16
      invariant forall i :: 0 <= i < 16 ==> x[i] == if i < j then InvSub(old(x[i])) else old(x[i])
    {
      x[j] := InvSub(x[j]);
    }
  }

  method Rotate(x: array<bv8>, p: nat, q: nat, r: nat, s: nat)
    requires x.Length == 16 && p < 16 && q < 16 && r < 16 && s < 16
    requires p != q && p != r && p != s && q != r && q != s && r != s
    modifies x
    ensures forall i :: 0 <= i < 16 ==>
              x[i] == old(x[if i == p then q else if i == q then r else if i == r then s else if i == s then p else i])
  {
    var a := x[p];
    x[p] := x[q];
    x[q] := x[r];
    x[r] := x[s];
    x[s] := a;
  }

  method Swap(x: array<bv8>, p: nat, q: nat)
    requires x.Length == 16 && p < 16 && q < 16 && p != q
    modifies x
    ensures forall i :: 0 <= i < 16 ==> x[i] == old(x[if i == p then q else if i == q then p else i])
  {
    var a := x[p];
    x[p] := x[q];
    x[q] := a;
  }

  lemma ShiftedIs(x: seq<bv8>)
    requires |x| == 16
    ensures ShiftRows(x) == [x[0], x[5], x[10], x[15], x[4], x[9], x[14], x[3],
                             x[8], x[13], x[2], x[7], x[12], x[1], x[6], x[11]]
    ensures InvShiftRows(x) == [x[0], x[13], x[10], x[7], x[4], x[1], x[14], x[11],
                                x[8], x[5], x[2], x[15], x[12], x[9], x[6], x[3]]
  {
  }

  method ShiftRowsInPlace(x: array<bv8>)
    requires x.Length == 16
    modifies x
    ensures x[..] == ShiftRows(old(x[..]))
  {
    hide ShiftRows;
    Rotate(x, 1, 5, 9, 13);
    Swap(x, 10, 2);
    Rotate(x, 3, 15, 11, 7);
    Swap(x, 14, 6);
    ShiftedIs(old(x[..]));
  }

  method InvShiftRowsInPlace(x: array<bv8>)
    requires x.Length == 16
    modifies x
    ensures x[..] == InvShiftRows(old(x[..]))
  {
    hide InvShiftRows;
    Rotate(x, 1, 13, 9, 5);
    Swap(x, 2, 10);
    Rotate(x, 3, 7, 11, 15);
    Swap(x, 6, 14);
    ShiftedIs(old(x[..]));
  }

  function WithColumn(x: seq<bv8>, c: nat, s: Column): seq<bv8>
    requires |x| == 16 && c < 4
  {
    x[..4 * c] + [s.a, s.b, s.c, s.d] + x[4 * c + 4..]
  }

  method PutColumn(x: array<bv8>, c: nat, s: Column)
    requires x.Length == 16 && c < 4
    modifies x
    ensures x[..] == WithColumn(old(x[..]), c, s)
  {
    var j := 4 * c;
    x[j] := s.a;
    x[j + 1] := s.b;
    x[j + 2] := s.c;
    x[j + 3] := s.d;
    assert x[..] == x[..j] + [x[j], x[j + 1], x[j + 2], x[j + 3]] + x[j + 4..];
  }

  /** The first c columns of one state and the others of another. */
  function Upto(was: seq<bv8>, now: seq<bv8>, c: nat): (x: seq<bv8>)
    requires |was| == 16 && |now| == 16 && c <= 4
    ensures |x| == 16
  {
    now[..4 * c] + was[4 * c..]
  }

  lemma NoColumns(was: seq<bv8>, now: seq<bv8>)
    requires |was| == 16 && |now| == 16
    ensures Upto(was, now, 0) == was
  {
  }

  lemma ColumnStays(was: seq<bv8>, now: seq<bv8>, c: nat)
    requires |was| == 16 && |now| == 16 && c < 4
    ensures ColumnOf(Upto(was, now, c), c) == ColumnOf(was, c)
  {
  }

  lemma WithColumnAt(x: seq<bv8>, c: nat, s: Column, i: nat)
    requires |x| == 16 && c < 4 && i < 16
    ensures |WithColumn(x, c, s)| == 16
    ensures WithColumn(x, c, s)[i] ==
            if i == 4 * c then s.a else if i == 4 * c + 1 then s.b else if i == 4 * c + 2 then s.c
            else if i == 4 * c + 3 then s.d else x[i]
  {
  }

  lemma UptoAt(was: seq<bv8>, now: seq<bv8>, c: nat, i: nat)
    requires |was| == 16 && |now| == 16 && c <= 4 && i < 16
    ensures Upto(was, now, c)[i] == if i < 4 * c then now[i] else was[i]
  {
  }

  lemma OneMoreColumn(was: seq<bv8>, now: seq<bv8>, c: nat)
    requires |was| == 16 && |now| == 16 && c < 4
    ensures WithColumn(Upto(was, now, c), c, ColumnOf(now, c)) == Upto(was, now, c + 1)
  {
    var x, s := Upto(was, now, c), ColumnOf(now, c);
    var y, z := WithColumn(x, c, s), Upto(was, now, c + 1);
    assert |y| == 16;
    forall i | 0 <= i < 16 ensures y[i] == z[i] {
      WithColumnAt(x, c, s, i);
      UptoAt(was, now, c, i);
      UptoAt(was, now, c + 1, i);
    }
    hide WithColumn, Upto;
  }

  lemma MixColumnsNext(was: seq<bv8>, c: nat)
    requires |was| == 16 && c < 4
    ensures var now := MixColumns(was); WithColumn(Upto(was, now, c), c, Mix(ColumnOf(was, c))) == Upto(was, now, c + 1)
  {
    hide MixColumns, Mix, MixSpec, ColumnOf, WithColumn, Upto;
    MixedColumn(was, c);
    MixIsSpec(ColumnOf(was, c));
    OneMoreColumn(was, MixColumns(was), c);
  }

  lemma UnmixColumnsNext(was: seq<bv8>, c: nat)
    requires |was| == 16 && c < 4
    ensures var now := UnmixColumns(was);
            WithColumn(Upto(was, now, c), c, Unmix(ColumnOf(was, c))) == Upto(was, now, c + 1)
  {
    hide UnmixColumns, Unmix, UnmixSpec, ColumnOf, WithColumn, Upto;
    UnmixedColumn(was, c);
    UnmixIsSpec(ColumnOf(was, c));
    OneMoreColumn(was, UnmixColumns(was), c);
  }

  /** Mixes the columns one after the other. */
  method MixColumnsInPlace(x: array<bv8>)
    requires x.Length == 16
    modifies x
    ensures x[..] == MixColumns(old(x[..]))
  {
    hide MixColumns, Mix, WithColumn, ColumnOf;
    ghost var was := x[..];
    NoColumns(was, MixColumns(was));
    for c := 0 to 4
      invariant x[..] == Upto(was, MixColumns(was), c)
    {
      ghost var before := x[..];
      ColumnStays(was, MixColumns(was), c);
      MixColumnsNext(was, c);
      ColumnIs(before, c);
      var j := 4 * c;
      var s := Mix(Column(x[j], x[j + 1], x[j + 2], x[j + 3]));
      PutColumn(x, c, s);
    }
    assert Upto(was, MixColumns(was), 4) == MixColumns(was);
  }

  method UnmixColumnsInPlace(x: array<bv8>)
    requires x.Length == 16
    modifies x
    ensures x[..] == UnmixColumns(old(x[..]))
  {
    hide UnmixColumns, Unmix, WithColumn, ColumnOf;
    ghost var was := x[..];
    NoColumns(was, UnmixColumns(was));
    for c := 0 to 4
      invariant x[..] == Upto(was, UnmixColumns(was), c)
    {
      ghost var before := x[..];
      ColumnStays(was, UnmixColumns(was), c);
      UnmixColumnsNext(was, c);
      ColumnIs(before, c);
      var j := 4 * c;
      var s := Unmix(Column(x[j], x[j + 1], x[j + 2], x[j + 3]));
      PutColumn(x, c, s);
    }
    assert Upto(was, UnmixColumns(was), 4) == UnmixColumns(was);
  }

  //////////////////////////////// The two methods ////////////////////////////////

  lemma RoundKeyIs(key: seq<bv8>, i: nat)
    requires |key| == 32
    ensures RoundKey(key, i) == Stage(key, i / 2)[16 * (i % 2)..16 * (i % 2) + 16]
  {
    hide KeyByte;
    assert 32 * (i / 2) + 16 * (i % 2) == 16 * i;
  }

  lemma KeyByteStarts(key: seq<bv8>, n: nat)
    requires |key| == 32 && n < 32
    ensures KeyByte(key, n) == key[n]
  {
  }

  lemma StartOfKey(key: seq<bv8>, t: nat)
    requires |key| == 32 && t == 0
    ensures Stage(key, t) == key
  {
    hide KeyByte;
    forall n: nat | n < 32 ensures Stage(key, t)[n] == key[n] {
      KeyByteStarts(key, n);
    }
  }

  method Encrypt(key32: seq<bv8>, buf16: array<bv8>)
    requires |key32| == 32 && buf16.Length == 16
    modifies buf16
    ensures buf16[..] == Cipher(key32, old(buf16[..]))
  {
    hide AddKey, SubBytes, ShiftRows, MixColumns, RoundKey, Stage, Xt, KeyByte;
    ghost var block := buf16[..];
    var k := new bv8[32](i requires 0 <= i < 32 => key32[i]);
    assert k[..] == key32;
    StartOfKey(key32, 0);
    var r: bv8 := 1;
    for i := 0 to 14
      invariant fresh(k) && buf16[..] == Rounds(key32, block, i)
      invariant k[..] == Stage(key32, i / 2) && r == Rcon(i / 2 + 1)
    {
      RoundKeyIs(key32, i);
      AddRoundKey(buf16, k, i % 2);
      SubBytesInPlace(buf16);
      ShiftRowsInPlace(buf16);
      if i < 13 {
        MixColumnsInPlace(buf16);
      }
      if i % 2 != 0 {
        r := ExpandKey(k, r, key32, i / 2);
      }
    }
    RoundKeyIs(key32, 14);
    AddRoundKey(buf16, k, 0);
  }

  method Decrypt(key32: seq<bv8>, buf16: array<bv8>)
    requires |key32| == 32 && buf16.Length == 16
    modifies buf16
    ensures buf16[..] == InvCipher(key32, old(buf16[..]))
  {
    hide AddKey, InvSubBytes, InvShiftRows, UnmixColumns, RoundKey, Stage, Xt, KeyByte;
    ghost var block := buf16[..];
    var k := new bv8[32](i requires 0 <= i < 32 => key32[i]);
    assert k[..] == key32;
    StartOfKey(key32, 0);
    var r: bv8 := 1;
    for i := 0 to 7
      invariant fresh(k) && buf16[..] == block && k[..] == Stage(key32, i) && r == Rcon(i + 1)
    {
      r := ExpandKey(k, r, key32, i);
    }
    for i := 0 to 14
      invariant fresh(k) && buf16[..] == InvRounds(key32, block, i)
      invariant k[..] == Stage(key32, (14 - i) / 2) && r == Rcon((14 - i) / 2 + 1)
    {
      RoundKeyIs(key32, 14 - i);
      AddRoundKey(buf16, k, i % 2);
      if i > 0 {
        UnmixColumnsInPlace(buf16);
      }
      InvShiftRowsInPlace(buf16);
      InvSubBytesInPlace(buf16);
      if i % 2 == 0 {
        r := UnexpandKey(k, r, key32, (14 - i) / 2 - 1);
      }
    }
    RoundKeyIs(key32, 0);
    AddRoundKey(buf16, k, 0);
  }
}
