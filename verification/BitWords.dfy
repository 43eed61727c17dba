/** Exclusive or on non-negative integers, bit by bit. */
module BitWords {

  type Byte = b: nat | b < 0x100

  function Pow2(n: nat): (p: nat)
    ensures p > 0
  {
    if n == 0 then 1 else 2 * Pow2(n - 1)
  }

  function Xor(x: nat, y: nat): nat
    decreases x + y
  {
    if x == 0 && y == 0 then 0 else (x + y) % 2 + 2 * Xor(x / 2, y / 2)
  }

  lemma Halves(m: nat, q: nat)
    requires m < 2
    ensures (m + 2 * q) % 2 == m && (m + 2 * q) / 2 == q
  {
  }

  /** The low bit and the rest, for every pair of words. */
  lemma XorHalves(x: nat, y: nat)
    ensures Xor(x, y) % 2 == (x + y) % 2 && Xor(x, y) / 2 == Xor(x / 2, y / 2)
  {
    var m, q := (x + y) % 2, Xor(x / 2, y / 2);
    assert Xor(x, y) == m + 2 * q by {
      if x == 0 && y == 0 {
        assert q == 0 && m == 0;
      }
    }
    Halves(m, q);
  }

  /** Words with the same low bit and the same rest are equal. */
  lemma SameHalves(x: nat, y: nat)
    requires x % 2 == y % 2 && x / 2 == y / 2
    ensures x == y
  {
  }

  lemma {:induction false} XorZero(x: nat)
    ensures Xor(x, 0) == x
    decreases x
  {
    if x > 0 {
      XorZero(x / 2);
    }
  }

  lemma {:induction false} XorCommutes(x: nat, y: nat)
    ensures Xor(x, y) == Xor(y, x)
    decreases x + y
  {
    if x + y > 0 {
      XorCommutes(x / 2, y / 2);
    }
  }

  lemma {:induction false} XorAssociates(x: nat, y: nat, z: nat)
    ensures Xor(Xor(x, y), z) == Xor(x, Xor(y, z))
    decreases x + y + z
  {
    if x + y + z > 0 {
      var l, r := Xor(x, y), Xor(y, z);
      XorAssociates(x / 2, y / 2, z / 2);
      XorHalves(x, y);
      XorHalves(y, z);
      XorHalves(l, z);
      XorHalves(x, r);
      ParityAssociates(x, y, z, l, r);
      SameHalves(Xor(l, z), Xor(x, r));
    }
  }

  lemma ParityAssociates(x: nat, y: nat, z: nat, l: nat, r: nat)
    requires l % 2 == (x + y) % 2 && r % 2 == (y + z) % 2
    ensures (l + z) % 2 == (x + r) % 2
  {
  }

  lemma {:induction false} XorSelf(x: nat)
    ensures Xor(x, x) == 0
    decreases x
  {
    if x > 0 {
      XorSelf(x / 2);
    }
  }

  lemma XorTwice(x: nat, y: nat)
    ensures Xor(Xor(x, y), y) == x
  {
    XorAssociates(x, y, y);
    XorSelf(y);
    XorZero(x);
  }

  lemma XorCancels(s: nat, x: nat, y: nat)
    requires Xor(s, x) == Xor(s, y)
    ensures x == y
  {
    XorCommutes(s, x);
    XorCommutes(s, y);
    XorTwice(x, s);
    XorTwice(y, s);
  }

  lemma XorSwaps(x: nat, y: nat, z: nat)
    ensures Xor(Xor(x, y), z) == Xor(Xor(x, z), y)
  {
    XorAssociates(x, y, z);
    XorCommutes(y, z);
    XorAssociates(x, z, y);
  }

  lemma {:induction false} XorBelow(x: nat, y: nat, n: nat)
    requires x < Pow2(n) && y < Pow2(n)
    ensures Xor(x, y) < Pow2(n)
    decreases n
  {
    if n > 0 {
      XorBelow(x / 2, y / 2, n - 1);
      XorHalves(x, y);
    }
  }

  /** A leading bit that only one operand has stays in front. */
  lemma {:induction false} XorTopBit(x: nat, y: nat, n: nat)
    requires x < Pow2(n) && y < Pow2(n)
    ensures Xor(x, Pow2(n) + y) == Pow2(n) + Xor(x, y)
    decreases n
  {
    if n > 0 {
      var p := Pow2(n - 1);
      XorTopBit(x / 2, y / 2, n - 1);
      TopHalves(p, y);
      XorHalves(x, 2 * p + y);
      XorHalves(x, y);
      TopHalves(p, Xor(x, y));
      SameParity(x, y, 2 * p + y);
      SameHalves(Xor(x, 2 * p + y), 2 * p + Xor(x, y));
    } else {
      assert Xor(0, 0) == 0 && Xor(0, 1) == 1;
    }
  }

  lemma TopHalves(p: nat, y: nat)
    ensures (2 * p + y) / 2 == p + y / 2 && (2 * p + y) % 2 == y % 2
  {
  }

  lemma SameParity(x: nat, y: nat, z: nat)
    requires y % 2 == z % 2
    ensures (x + y) % 2 == (x + z) % 2
  {
  }

  /** Doubling is a left shift. */
  lemma XorDouble(x: nat, y: nat)
    ensures Xor(x, 2 * y) % 2 == x % 2 && Xor(x, 2 * y) / 2 == Xor(x / 2, y)
  {
    XorHalves(x, 2 * y);
    SameParity(x, 0, 2 * y);
  }

  /** Low bits and high bits do not meet. */
  lemma {:induction false} XorDisjoint(x: nat, y: nat, n: nat)
    requires x < Pow2(n)
    ensures Xor(x, Pow2(n) * y) == x + Pow2(n) * y
    decreases n
  {
    if n == 0 {
      XorCommutes(0, y);
      XorZero(y);
    } else {
      var z := Pow2(n - 1) * y;
      assert Pow2(n) * y == 2 * z;
      XorDouble(x, z);
      XorDisjoint(x / 2, y, n - 1);
    }
  }

  lemma Pow2Values()
    ensures Pow2(8) == 0x100 && Pow2(31) == 0x8000_0000 && Pow2(32) == 0x1_0000_0000
  {
    assert Pow2(4) == 16 && Pow2(8) == 0x100 && Pow2(12) == 0x1000 && Pow2(16) == 0x1_0000;
    assert Pow2(20) == 0x10_0000 && Pow2(24) == 0x100_0000 && Pow2(28) == 0x1000_0000;
  }
}
