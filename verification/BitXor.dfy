/**
 Bitwise exclusive or on naturals, with the laws that make words of any fixed width a
 vector space over GF(2). An unsigned word is a natural below a power of two; `Hi(x, k)`
 is `x >> k`, `Lo(x, k)` is `x & (2^k - 1)` and `Shl(x, k)` is `x << k` without overflow.
 */
module BitXor {

  function Xor(a: nat, b: nat): nat
    decreases a + b
  {
    if a == 0 && b == 0 then 0 else 2 * Xor(a / 2, b / 2) + (a + b) % 2
  }

  function Hi(x: nat, k: nat): nat {
    if k == 0 then x else Hi(x / 2, k - 1)
  }

  function Lo(x: nat, k: nat): nat {
    if k == 0 then 0 else 2 * Lo(x / 2, k - 1) + x % 2
  }

  function Shl(x: nat, k: nat): nat {
    if k == 0 then x else 2 * Shl(x, k - 1)
  }

  // `x` has no bit at position `k` or above.
  predicate Fits(x: nat, k: nat) {
    Hi(x, k) == 0
  }

  lemma {:induction false} XorZero(a: nat)
    ensures Xor(a, 0) == a && Xor(0, a) == a
  {
    if a > 0 { XorZero(a / 2); }
  }

  lemma {:induction false} XorSelf(a: nat)
    ensures Xor(a, a) == 0
  {
    if a > 0 { XorSelf(a / 2); }
  }

  lemma {:induction false} XorComm(a: nat, b: nat)
    ensures Xor(a, b) == Xor(b, a)
    decreases a + b
  {
    if a != 0 || b != 0 { XorComm(a / 2, b / 2); }
  }

  // One unfolding, stated so that it also covers the two zeros.
  lemma XorUnfold(a: nat, b: nat)
    ensures Xor(a, b) / 2 == Xor(a / 2, b / 2)
    ensures Xor(a, b) % 2 == (a + b) % 2
    ensures Xor(a, b) == 2 * Xor(a / 2, b / 2) + (a + b) % 2
  {
  }

  lemma Parity(a: nat, b: nat, c: nat, ab: nat, bc: nat)
    requires ab % 2 == (a + b) % 2 && bc % 2 == (b + c) % 2
    ensures (ab + c) % 2 == (a + bc) % 2
  {
  }

  lemma {:induction false} XorAssoc(a: nat, b: nat, c: nat)
    ensures Xor(Xor(a, b), c) == Xor(a, Xor(b, c))
    decreases a + b + c
  {
    if a != 0 || b != 0 || c != 0 {
      var ab, bc := Xor(a, b), Xor(b, c);
      XorUnfold(a, b);
      XorUnfold(b, c);
      Parity(a, b, c, ab, bc);
      XorAssoc(a / 2, b / 2, c / 2);
      XorUnfold(ab, c);
      XorUnfold(a, bc);
    }
  }

  lemma XorSwap(a: nat, b: nat, c: nat, d: nat)
    ensures Xor(Xor(a, b), Xor(c, d)) == Xor(Xor(a, c), Xor(b, d))
  {
    XorAssoc(a, b, Xor(c, d));
    XorAssoc(b, c, d);
    XorComm(b, c);
    XorAssoc(c, b, d);
    XorAssoc(a, c, Xor(b, d));
  }

  lemma XorCancel(a: nat, b: nat)
    ensures Xor(Xor(a, b), b) == a
    ensures Xor(a, Xor(a, b)) == b
  {
    XorAssoc(a, b, b);
    XorSelf(b);
    XorZero(a);
    XorAssoc(a, a, b);
    XorSelf(a);
    XorZero(b);
  }

  lemma XorEqual(a: nat, b: nat)
    ensures Xor(a, b) == 0 <==> a == b
  {
    XorSelf(a);
    XorCancel(a, b);
    XorZero(a);
  }

  lemma LoUnfold(x: nat, k: nat)
    requires k > 0
    ensures Lo(x, k) / 2 == Lo(x / 2, k - 1)
    ensures Lo(x, k) % 2 == x % 2
  {
    var low := Lo(x / 2, k - 1);
    assert Lo(x, k) == 2 * low + x % 2;
  }

  // Xor acts separately on the bits above and below any position.
  lemma {:induction false} XorHi(a: nat, b: nat, k: nat)
    ensures Hi(Xor(a, b), k) == Xor(Hi(a, k), Hi(b, k))
    decreases k
  {
    if k > 0 {
      XorUnfold(a, b);
      XorHi(a / 2, b / 2, k - 1);
    }
  }

  lemma {:induction false} XorLo(a: nat, b: nat, k: nat)
    ensures Lo(Xor(a, b), k) == Xor(Lo(a, k), Lo(b, k))
    decreases k
  {
    if k > 0 {
      var x, la, lb := Xor(a, b), Lo(a, k), Lo(b, k);
      XorUnfold(a, b);
      LoUnfold(a, k);
      LoUnfold(b, k);
      LoUnfold(x, k);
      XorLo(a / 2, b / 2, k - 1);
      Parity2(a, b, la, lb);
      XorUnfold(la, lb);
    } else {
      XorZero(0);
    }
  }

  lemma Parity2(a: nat, b: nat, c: nat, d: nat)
    requires a % 2 == c % 2 && b % 2 == d % 2
    ensures (a + b) % 2 == (c + d) % 2
  {
  }

  lemma {:induction false} HiShl(x: nat, k: nat)
    ensures Hi(Shl(x, k), k) == x && Lo(Shl(x, k), k) == 0
    decreases k
  {
    if k > 0 {
      assert Shl(x, k) / 2 == Shl(x, k - 1) && Shl(x, k) % 2 == 0;
      HiShl(x, k - 1);
    }
  }

  lemma {:induction false} Recombine(x: nat, k: nat)
    ensures x == Shl(Hi(x, k), k) + Lo(x, k)
    decreases k
  {
    if k > 0 { Recombine(x / 2, k - 1); }
  }

  lemma {:induction false} HiZero(k: nat)
    ensures Hi(0, k) == 0 && Lo(0, k) == 0 && Shl(0, k) == 0
    decreases k
  {
    if k > 0 { HiZero(k - 1); }
  }

  lemma {:induction false} ShlXor(a: nat, b: nat, k: nat)
    ensures Xor(Shl(a, k), Shl(b, k)) == Shl(Xor(a, b), k)
    decreases k
  {
    if k > 0 {
      var sa, sb := Shl(a, k), Shl(b, k);
      assert sa / 2 == Shl(a, k - 1) && sb / 2 == Shl(b, k - 1) && (sa + sb) % 2 == 0;
      XorUnfold(sa, sb);
      ShlXor(a, b, k - 1);
    }
  }

  lemma {:induction false} HiAdd(x: nat, j: nat, k: nat)
    ensures Hi(x, j + k) == Hi(Hi(x, j), k)
    decreases j
  {
    if j > 0 { HiAdd(x / 2, j - 1, k); }
  }

  lemma {:induction false} LoFits(x: nat, k: nat)
    ensures Fits(Lo(x, k), k)
    decreases k
  {
    if k > 0 {
      LoUnfold(x, k);
      LoFits(x / 2, k - 1);
    }
  }

  lemma XorFits(a: nat, b: nat, k: nat)
    requires Fits(a, k) && Fits(b, k)
    ensures Fits(Xor(a, b), k)
  {
    XorHi(a, b, k);
    XorZero(0);
  }

  // Where the operands share no bit position, xor is addition.
  lemma XorDisjoint(high: nat, low: nat, k: nat)
    requires Fits(low, k)
    ensures Xor(Shl(high, k), low) == Shl(high, k) + low
  {
    var x := Xor(Shl(high, k), low);
    HiShl(high, k);
    XorHi(Shl(high, k), low, k);
    XorLo(Shl(high, k), low, k);
    XorZero(high);
    XorZero(Lo(low, k));
    Recombine(x, k);
    Recombine(low, k);
    HiZero(k);
  }

  // Five positions at a time, in the constants the checksum uses.
  lemma Group(x: nat)
    ensures Hi(x, 5) == x / 32 && Lo(x, 5) == x % 32 && Shl(x, 5) == 32 * x
  {
    var x1 := x / 2;
    var x2 := x1 / 2;
    var x3 := x2 / 2;
    var x4 := x3 / 2;
    assert Hi(x4, 1) == x4 / 2 && Lo(x4, 1) == x4 % 2 && Shl(x, 1) == 2 * x;
    assert Hi(x3, 2) == x4 / 2 && Lo(x3, 2) == 2 * (x4 % 2) + x3 % 2 && Shl(x, 2) == 4 * x;
    assert Hi(x2, 3) == x4 / 2 && Lo(x2, 3) == 2 * Lo(x3, 2) + x2 % 2 && Shl(x, 3) == 8 * x;
    assert Hi(x1, 4) == x4 / 2 && Lo(x1, 4) == 2 * Lo(x2, 3) + x1 % 2 && Shl(x, 4) == 16 * x;
    assert Hi(x, 5) == x4 / 2 && Lo(x, 5) == 2 * Lo(x1, 4) + x % 2;
  }
}
