/** Polynomials over the field of two elements: bit `k` of a number is the coefficient of `x^k`, addition is exclusive or. */
module BinaryPolynomials {
  import opened BitWords

  /** The polynomial with these exponents. */
  function WithExponents(exponents: seq<nat>): nat {
    if exponents == [] then 0 else Pow2(exponents[0]) + WithExponents(exponents[1..])
  }

  function Times(q: nat, g: nat): nat {
    if q == 0 then 0 else Xor(if q % 2 == 1 then g else 0, 2 * Times(q / 2, g))
  }

  /** `p` is `r` plus a multiple of `g`. */
  ghost predicate Congruent(p: nat, r: nat, g: nat) { exists q: nat :: p == Xor(r, Times(q, g)) }

  /** `r` is what division by `g`, of degree `n`, leaves of `p`. */
  ghost predicate IsRemainder(p: nat, g: nat, n: nat, r: nat) { r < Pow2(n) && Congruent(p, r, g) }

  lemma DoubleXor(x: nat, y: nat)
    ensures Xor(2 * x, 2 * y) == 2 * Xor(x, y)
  {
    XorDouble(2 * x, y);
  }

  lemma DoubleTimes(q: nat, g: nat)
    ensures Times(2 * q, g) == 2 * Times(q, g)
    ensures Times(2 * q + 1, g) == Xor(g, 2 * Times(q, g))
  {
    assert (2 * q + 1) / 2 == q && (2 * q + 1) % 2 == 1;
    if q > 0 {
      XorCommutes(0, 2 * Times(q, g));
      XorZero(2 * Times(q, g));
    }
  }

  lemma CongruentSelf(r: nat, g: nat)
    ensures Congruent(r, r, g)
  {
    XorZero(r);
    assert r == Xor(r, Times(0, g));
  }

  lemma CongruentPlus(p: nat, r: nat, g: nat, d: nat)
    requires Congruent(p, r, g)
    ensures Congruent(Xor(p, d), Xor(r, d), g)
  {
    var q: nat :| p == Xor(r, Times(q, g));
    XorSwaps(r, Times(q, g), d);
    assert Xor(p, d) == Xor(Xor(r, d), Times(q, g));
  }

  lemma CongruentDouble(p: nat, r: nat, g: nat)
    requires Congruent(p, r, g)
    ensures Congruent(2 * p, 2 * r, g) && Congruent(2 * p, Xor(2 * r, g), g)
  {
    var q: nat :| p == Xor(r, Times(q, g));
    var m := Times(q, g);
    DoubleXor(r, m);
    DoubleTimes(q, g);
    assert 2 * p == Xor(2 * r, Times(2 * q, g));
    XorTwice(2 * r, g);
    XorAssociates(Xor(2 * r, g), g, 2 * m);
    assert 2 * p == Xor(Xor(2 * r, g), Times(2 * q + 1, g));
  }

  /** A multiple other than nought is at least as large as the leading term. */
  lemma {:induction false} MultipleIsLarge(q: nat, g: nat, n: nat)
    requires q > 0 && Pow2(n) <= g < 2 * Pow2(n)
    ensures Times(q, g) >= Pow2(n)
    ensures q > 1 ==> Times(q, g) >= 2 * Pow2(n)
    decreases q
  {
    if q == 1 {
      assert Times(0, g) == 0;
      XorZero(g);
    } else {
      MultipleIsLarge(q / 2, g, n);
      var m := 2 * Times(q / 2, g);
      if q % 2 == 1 { LargeStays(g, m, n + 1); } else { XorCommutes(0, m); XorZero(m); }
    }
  }

  /** Less than `2^n` added to at least that stays so. */
  lemma LargeStays(x: nat, y: nat, n: nat)
    requires x < Pow2(n) <= y
    ensures Xor(x, y) >= Pow2(n)
  {
    if Xor(x, y) < Pow2(n) {
      XorBelow(x, Xor(x, y), n);
      XorCommutes(x, y);
      XorTwice(y, x);
      XorCommutes(x, Xor(x, y));
    }
  }

  /** Division leaves one remainder. */
  lemma RemainderIsUnique(p: nat, g: nat, n: nat, r: nat, s: nat)
    requires Pow2(n) <= g < 2 * Pow2(n) && IsRemainder(p, g, n, r) && IsRemainder(p, g, n, s)
    ensures r == s
  {
    var q: nat :| p == Xor(r, Times(q, g));
    var k: nat :| p == Xor(s, Times(k, g));
    TimesAdds(q, k, g);
    var d := Times(Xor(q, k), g);
    assert Xor(r, s) == d by {
      var a, b := Times(q, g), Times(k, g);
      XorTwice(r, a);
      assert r == Xor(Xor(s, b), a);
      XorAssociates(s, b, a);
      XorCommutes(a, b);
      XorCommutes(s, d);
      XorTwice(d, s);
    }
    XorBelow(r, s, n);
    if Xor(q, k) > 0 { MultipleIsLarge(Xor(q, k), g, n); }
    assert Xor(r, s) == 0;
    XorTwice(r, s);
    XorCommutes(0, s);
    XorZero(s);
  }

  /** Multiplication distributes over addition. */
  lemma {:induction false} TimesAdds(q: nat, k: nat, g: nat)
    ensures Times(Xor(q, k), g) == Xor(Times(q, g), Times(k, g))
    decreases q + k
  {
    if q == 0 && k == 0 {
    } else {
      TimesAdds(q / 2, k / 2, g);
      XorHalves(q, k);
      TimesHalves(q, g);
      TimesHalves(k, g);
      TimesHalves(Xor(q, k), g);
      var a, b := Times(q / 2, g), Times(k / 2, g);
      DoubleXor(a, b);
      XorPairs(Bit(q, g), 2 * a, Bit(k, g), 2 * b);
      BitAdds(q, k, g);
    }
  }

  function Bit(q: nat, g: nat): nat { if q % 2 == 1 then g else 0 }

  lemma TimesHalves(q: nat, g: nat)
    ensures Times(q, g) == Xor(Bit(q, g), 2 * Times(q / 2, g))
  {
    if q == 0 { assert Xor(0, 0) == 0; }
  }

  lemma BitAdds(q: nat, k: nat, g: nat)
    ensures Bit(Xor(q, k), g) == Xor(Bit(q, g), Bit(k, g))
  {
    XorHalves(q, k);
    ParityAdds(q, k, Xor(q, k));
    BitsCancel(q % 2 == 1, k % 2 == 1, g);
  }

  lemma ParityAdds(q: nat, k: nat, r: nat)
    requires r % 2 == (q + k) % 2
    ensures r % 2 == 1 <==> (q % 2 == 1) != (k % 2 == 1)
  {
  }

  lemma BitsCancel(i: bool, j: bool, g: nat)
    ensures (if i != j then g else 0) == Xor(if i then g else 0, if j then g else 0)
  {
    XorZero(g);
    XorCommutes(0, g);
    XorSelf(g);
    XorZero(0);
  }

  lemma XorPairs(a: nat, x: nat, b: nat, y: nat)
    ensures Xor(Xor(a, x), Xor(b, y)) == Xor(Xor(a, b), Xor(x, y))
  {
    XorAssociates(a, x, Xor(b, y));
    XorAssociates(x, b, y);
    XorCommutes(x, b);
    XorAssociates(b, x, y);
    XorAssociates(a, b, Xor(x, y));
  }

  // ---- Mirrored words ----------------------------------------------------------

  function Top(on: bool, n: nat): nat { if on then Pow2(n) else 0 }

  /** The low `n` bits in reverse. */
  function Mirror(c: nat, n: nat): nat {
    if n == 0 then 0 else Top(c % 2 == 1, n - 1) + Mirror(c / 2, n - 1)
  }

  lemma {:induction false} MirrorBelow(c: nat, n: nat)
    ensures Mirror(c, n) < Pow2(n)
    decreases n
  {
    if n > 0 { MirrorBelow(c / 2, n - 1); }
  }

  /** A high bit that is nought becomes the lowest. */
  lemma {:induction false} MirrorShort(c: nat, n: nat)
    requires c < Pow2(n)
    ensures Mirror(c, n + 1) == 2 * Mirror(c, n)
    decreases n
  {
    if n > 0 { MirrorShort(c / 2, n - 1); }
  }

  lemma MirrorStep(c: nat, n: nat, on: bool, half: nat)
    requires n > 0 && on == (c % 2 == 1) && half == c / 2
    ensures Mirror(c, n) == Top(on, n - 1) + Mirror(half, n - 1)
  {
  }

  lemma {:induction false} MirrorPlus(x: nat, y: nat, n: nat)
    ensures Mirror(Xor(x, y), n) == Xor(Mirror(x, n), Mirror(y, n))
    decreases n
  {
    if n > 0 {
      var i, j, h, k := x % 2 == 1, y % 2 == 1, x / 2, y / 2;
      MirrorPlus(h, k, n - 1);
      XorHalves(x, y);
      ParityAdds(x, y, Xor(x, y));
      MirrorSum(x, y, Xor(x, y), n, i, j, h, k);
    }
  }

  lemma MirrorSum(x: nat, y: nat, z: nat, n: nat, i: bool, j: bool, h: nat, k: nat)
    requires n > 0 && i == (x % 2 == 1) && j == (y % 2 == 1) && (i != j) == (z % 2 == 1)
    requires h == x / 2 && k == y / 2 && z / 2 == Xor(h, k)
    requires Mirror(Xor(h, k), n - 1) == Xor(Mirror(h, n - 1), Mirror(k, n - 1))
    ensures Mirror(z, n) == Xor(Mirror(x, n), Mirror(y, n))
  {
    MirrorStep(x, n, i, h);
    MirrorStep(y, n, j, k);
    MirrorStep(z, n, i != j, Xor(h, k));
    MirrorBelow(h, n - 1);
    MirrorBelow(k, n - 1);
    AddTops(Mirror(h, n - 1), Mirror(k, n - 1), i, j, n - 1);
  }

  lemma AddTops(a: nat, b: nat, i: bool, j: bool, n: nat)
    requires a < Pow2(n) && b < Pow2(n)
    ensures Xor(Top(i, n) + a, Top(j, n) + b) == Top(i != j, n) + Xor(a, b)
  {
    if i && j {
      BothTops(a, b, n);
    } else if j {
      XorTopBit(a, b, n);
    } else if i {
      XorCommutes(Pow2(n) + a, b);
      XorTopBit(b, a, n);
      XorCommutes(a, b);
    }
  }

  lemma BothTops(a: nat, b: nat, n: nat)
    requires a < Pow2(n) && b < Pow2(n)
    ensures Xor(Pow2(n) + a, Pow2(n) + b) == Xor(a, b)
  {
    var t := Pow2(n);
    TopApart(a, n);
    TopApart(b, n);
    XorCommutes(b, t);
    XorAssociates(Xor(a, t), t, b);
    XorTwice(a, t);
  }

  lemma TopApart(a: nat, n: nat)
    requires a < Pow2(n)
    ensures Xor(a, Pow2(n)) == Pow2(n) + a
  {
    XorTopBit(a, 0, n);
    XorZero(a);
  }

  /** Two reversals are none. */
  lemma {:induction false} MirrorTwice(c: nat, n: nat)
    requires c < Pow2(n)
    ensures Mirror(Mirror(c, n), n) == c
    decreases n
  {
    if n > 0 {
      MirrorTwice(c / 2, n - 1);
      MirrorBelow(c / 2, n - 1);
      MirrorTop(Mirror(c / 2, n - 1), c % 2 == 1, n - 1);
    }
  }

  /** A leading bit becomes the lowest. */
  lemma {:induction false} MirrorTop(x: nat, i: bool, n: nat)
    requires x < Pow2(n)
    ensures Mirror(Top(i, n) + x, n + 1) == 2 * Mirror(x, n) + if i then 1 else 0
    decreases n
  {
    if n == 0 {
      assert Mirror(Top(i, 0), 1) == Top(i, 0) + Mirror(Top(i, 0) / 2, 0);
    } else {
      TopHalves(Top(i, n - 1), x);
      assert Top(i, n) == 2 * Top(i, n - 1);
      MirrorTop(x / 2, i, n - 1);
    }
  }

  /** With more high bits that are nought the mirrored word is shifted. */
  lemma {:induction false} MirrorShifts(c: nat, n: nat, k: nat)
    requires c < Pow2(n)
    ensures Mirror(c, n + k) == Shift(Mirror(c, n), k)
    decreases k
  {
    if k > 0 {
      MirrorShifts(c, n, k - 1);
      PowGrows(n, k - 1);
      MirrorShort(c, n + k - 1);
    }
  }

  lemma {:induction false} PowGrows(n: nat, k: nat)
    ensures Pow2(n) <= Pow2(n + k)
    decreases k
  {
    if k > 0 { PowGrows(n, k - 1); }
  }

  // ---- Multiplication by powers of x --------------------------------------------

  function Shift(p: nat, n: nat): nat { if n == 0 then p else 2 * Shift(p, n - 1) }

  lemma {:induction false} ShiftPlus(p: nat, r: nat, n: nat)
    ensures Shift(Xor(p, r), n) == Xor(Shift(p, n), Shift(r, n))
    decreases n
  {
    if n > 0 {
      ShiftPlus(p, r, n - 1);
      DoubleXor(Shift(p, n - 1), Shift(r, n - 1));
    }
  }

  lemma {:induction false} ShiftTwice(p: nat, m: nat, n: nat)
    ensures Shift(Shift(p, m), n) == Shift(p, m + n)
    decreases n
  {
    if n > 0 { ShiftTwice(p, m, n - 1); }
  }

  /** A mirrored register shifts left and takes in a mirrored generator, whose leading term meets the bit shifted out. */
  lemma StepMirrored(c: nat, low: nat, n: nat)
    requires c < Pow2(n + 1)
    ensures c % 2 == 0 ==> Mirror(c / 2, n + 1) == 2 * Mirror(c, n + 1)
    ensures c % 2 == 1 ==> Mirror(Xor(c / 2, low), n + 1) == Xor(2 * Mirror(c, n + 1), Pow2(n + 1) + Mirror(low, n + 1))
  {
    var half := Mirror(c / 2, n);
    MirrorStep(c, n + 1, c % 2 == 1, c / 2);
    MirrorShort(c / 2, n);
    if c % 2 == 1 {
      MirrorPlus(c / 2, low, n + 1);
      MirrorBelow(c / 2, n);
      MirrorBelow(low, n + 1);
      BothTops(2 * half, Mirror(low, n + 1), n + 1);
    }
  }
}
