/**
 The checksum of BIP-173 as a linear machine: one step over a 30-bit accumulator, and its
 iteration over a symbol sequence of any length. Words are naturals with the operators of
 module BitXor.
 */
module Bech32Step {
  import opened BitXor

  const GEN: seq<nat> := [0x3b6a57b2, 0x26508e6d, 0x1ea119fa, 0x3d4233dd, 0x2a1462b3]

  // A 5-bit group.
  type Symbol = n: nat | n < 32

  predicate Bit(x: nat, i: nat) {
    Hi(x, i) % 2 == 1
  }

  function Tap(c: nat, bit: bool, g: nat): nat {
    if bit then Xor(c, g) else c
  }

  // What the inner loop over the generators leaves of `c` after `n` iterations.
  function Tapped(c: nat, top: nat, n: nat): nat
    requires n <= 5
  {
    if n == 0 then c else Tap(Tapped(c, top, n - 1), Bit(top, n - 1), GEN[n - 1])
  }

  // `low` is shifted up to make room for `v`; `top` selects the generators.
  function Feed(low: nat, top: nat, v: nat): nat {
    Tapped(Xor(Shl(low, 5), v), top, 5)
  }

  function Step(chk: nat, v: nat): nat {
    Feed(Lo(chk, 25), Hi(chk, 25), v)
  }

  function Residue(chk: nat, values: seq<nat>): nat
    decreases |values|
  {
    if values == [] then chk else Residue(Step(chk, values[0]), values[1..])
  }

  function XorAll(us: seq<nat>, vs: seq<nat>): (ws: seq<nat>)
    requires |us| == |vs|
    ensures |ws| == |us| && forall i :: 0 <= i < |ws| ==> ws[i] == Xor(us[i], vs[i])
  {
    seq(|us|, i requires 0 <= i < |us| => Xor(us[i], vs[i]))
  }

  // Base-32 value, most significant symbol first, continuing from `d`.
  function Horner(d: nat, ws: seq<nat>): nat
    decreases |ws|
  {
    if ws == [] then d else Horner(32 * d + ws[0], ws[1..])
  }

  lemma TapLinear(x: nat, y: nat, p: bool, q: bool, g: nat)
    ensures Tap(Xor(x, y), p != q, g) == Xor(Tap(x, p, g), Tap(y, q, g))
  {
    XorSwap(x, g, y, g);
    XorSelf(g);
    XorZero(Xor(x, y));
    XorAssoc(x, g, y);
    XorComm(g, y);
    XorAssoc(x, y, g);
  }

  lemma BitOfXor(s: nat, t: nat, i: nat)
    ensures Bit(Xor(s, t), i) == (Bit(s, i) != Bit(t, i))
  {
    XorHi(s, t, i);
    XorUnfold(Hi(s, i), Hi(t, i));
  }

  lemma {:induction false} TappedLinear(a: nat, b: nat, s: nat, t: nat, n: nat)
    requires n <= 5
    ensures Tapped(Xor(a, b), Xor(s, t), n) == Xor(Tapped(a, s, n), Tapped(b, t, n))
  {
    if n > 0 {
      TappedLinear(a, b, s, t, n - 1);
      BitOfXor(s, t, n - 1);
      TapLinear(Tapped(a, s, n - 1), Tapped(b, t, n - 1), Bit(s, n - 1), Bit(t, n - 1), GEN[n - 1]);
    }
  }

  lemma FeedLinear(a: nat, b: nat, s: nat, t: nat, u: nat, v: nat)
    ensures Feed(Xor(a, b), Xor(s, t), Xor(u, v)) == Xor(Feed(a, s, u), Feed(b, t, v))
  {
    ShlXor(a, b, 5);
    XorSwap(Shl(a, 5), Shl(b, 5), u, v);
    TappedLinear(Xor(Shl(a, 5), u), Xor(Shl(b, 5), v), s, t, 5);
  }

  lemma StepLinear(a: nat, b: nat, u: nat, v: nat)
    ensures Step(Xor(a, b), Xor(u, v)) == Xor(Step(a, u), Step(b, v))
  {
    XorLo(a, b, 25);
    XorHi(a, b, 25);
    FeedLinear(Lo(a, 25), Lo(b, 25), Hi(a, 25), Hi(b, 25), u, v);
  }

  // The whole checksum is linear over GF(2), for sequences of any length.
  lemma {:induction false} ResidueLinear(a: nat, b: nat, us: seq<nat>, vs: seq<nat>)
    requires |us| == |vs|
    ensures Residue(Xor(a, b), XorAll(us, vs)) == Xor(Residue(a, us), Residue(b, vs))
    decreases |us|
  {
    if us != [] {
      StepLinear(a, b, us[0], vs[0]);
      assert XorAll(us, vs)[1..] == XorAll(us[1..], vs[1..]);
      ResidueLinear(Step(a, us[0]), Step(b, vs[0]), us[1..], vs[1..]);
    }
  }

  lemma HiGroup(x: nat, k: nat)
    ensures Hi(x, 5 + k) == Hi(x / 32, k)
  {
    HiAdd(x, 5, k);
    Group(x);
  }

  lemma Div32Twice(x: nat)
    ensures x / 32 / 32 == x / 1024 && x / 1024 / 1024 == x / 0x100000
  {
  }

  lemma Below30(x: nat)
    ensures Fits(x, 30) <==> x < 0x40000000
  {
    var y, z := x / 1024, x / 0x100000;
    HiGroup(x, 25);
    HiGroup(x / 32, 20);
    Div32Twice(x);
    HiGroup(y, 15);
    HiGroup(y / 32, 10);
    Div32Twice(y);
    HiGroup(z, 5);
    HiGroup(z / 32, 0);
    Div32Twice(z);
    assert Hi(x, 30) == z / 1024;
  }

  lemma {:induction false} TappedFits(c: nat, top: nat, n: nat)
    requires n <= 5 && Fits(c, 30)
    ensures Fits(Tapped(c, top, n), 30)
  {
    if n > 0 {
      TappedFits(c, top, n - 1);
      Below30(GEN[n - 1]);
      XorFits(Tapped(c, top, n - 1), GEN[n - 1], 30);
    }
  }

  // Appending a 5-bit group below `low`.
  lemma AppendGroup(low: nat, v: Symbol, k: nat)
    requires Fits(low, k)
    ensures Xor(Shl(low, 5), v) == 32 * low + v
    ensures Fits(32 * low + v, 5 + k)
  {
    assert Xor(Shl(low, 5), v) == Shl(low, 5) + v by {
      assert Fits(v, 5) by { Group(v); }
      XorDisjoint(low, v, 5);
    }
    assert Shl(low, 5) == 32 * low by { Group(low); }
    HiGroup(32 * low + v, k);
  }

  lemma FeedFits(low: nat, top: nat, v: Symbol)
    requires Fits(low, 25)
    ensures Fits(Feed(low, top, v), 30)
  {
    AppendGroup(low, v, 25);
    TappedFits(Xor(Shl(low, 5), v), top, 5);
  }

  // The accumulator never outgrows 30 bits while the symbols are 5-bit groups.
  lemma StepFits(chk: nat, v: Symbol)
    ensures Fits(Step(chk, v), 30)
  {
    LoFits(chk, 25);
    FeedFits(Lo(chk, 25), Hi(chk, 25), v);
  }

  lemma LowBits(x: nat)
    ensures Bit(x, 0) == (x % 2 == 1)
    ensures Bit(x, 1) == (x / 2 % 2 == 1)
    ensures Bit(x, 2) == (x / 4 % 2 == 1)
    ensures Bit(x, 3) == (x / 8 % 2 == 1)
    ensures Bit(x, 4) == (x / 16 % 2 == 1)
  {
    assert Hi(x, 1) == x / 2;
    assert Hi(x, 2) == Hi(x / 2, 1) == x / 4;
    assert Hi(x, 3) == Hi(x / 2, 2) == Hi(x / 4, 1) == x / 8;
    assert Hi(x, 4) == Hi(x / 2, 3) == Hi(x / 4, 2) == Hi(x / 8, 1) == x / 16;
  }

  lemma TapBit(c: nat, bit: bool, g: nat, j: nat)
    ensures Bit(Tap(c, bit, g), j) == (Bit(c, j) != (bit && Bit(g, j)))
  {
    BitOfXor(c, g, j);
  }

  predicate Picks(top: nat, i: nat, j: nat)
    requires i < 5
  {
    Bit(top, i) && Bit(GEN[i], j)
  }

  // Row j of the matrix that maps the five shifted-out bits to the generators' sum.
  lemma MixBit(top: nat, j: nat)
    ensures Bit(Tapped(0, top, 5), j) ==
            (Picks(top, 0, j) != (Picks(top, 1, j) != (Picks(top, 2, j) != (Picks(top, 3, j) != Picks(top, 4, j)))))
  {
    var c1 := Tap(0, Bit(top, 0), GEN[0]);
    var c2 := Tap(c1, Bit(top, 1), GEN[1]);
    var c3 := Tap(c2, Bit(top, 2), GEN[2]);
    var c4 := Tap(c3, Bit(top, 3), GEN[3]);
    assert Tapped(0, top, 1) == c1;
    assert Tapped(0, top, 2) == c2;
    assert Tapped(0, top, 3) == c3;
    assert Tapped(0, top, 4) == c4;
    HiZero(j);
    TapBit(0, Bit(top, 0), GEN[0], j);
    TapBit(c1, Bit(top, 1), GEN[1], j);
    TapBit(c2, Bit(top, 2), GEN[2], j);
    TapBit(c3, Bit(top, 3), GEN[3], j);
    TapBit(c4, Bit(top, 4), GEN[4], j);
  }

  predicate Row(x: nat, b0: bool, b1: bool, b2: bool, b3: bool, b4: bool) {
    Bit(x, 0) == b0 && Bit(x, 1) == b1 && Bit(x, 2) == b2 && Bit(x, 3) == b3 && Bit(x, 4) == b4
  }

  lemma GenRows()
    ensures Row(GEN[0], false, true, false, false, true)
    ensures Row(GEN[1], true, false, true, true, false)
    ensures Row(GEN[2], false, true, false, true, true)
    ensures Row(GEN[3], true, false, true, true, true)
    ensures Row(GEN[4], true, true, false, false, true)
  {
    LowBits(GEN[0]);
    LowBits(GEN[1]);
    LowBits(GEN[2]);
    LowBits(GEN[3]);
    LowBits(GEN[4]);
  }

  lemma ZeroRow(x: nat)
    ensures x % 32 == 0 <==> Row(x, false, false, false, false, false)
  {
    LowBits(x);
    Digits(x);
  }

  lemma Digits(x: nat)
    ensures x % 32 == 16 * (x / 16 % 2) + 8 * (x / 8 % 2) + 4 * (x / 4 % 2) + 2 * (x / 2 % 2) + x % 2
  {
    var a, b, c, d := x / 2, x / 4, x / 8, x / 16;
    assert x == 2 * a + x % 2 && a == 2 * b + a % 2 && b == 2 * c + b % 2 && c == 2 * d + c % 2;
  }

  // The low five bits of the generators are linearly independent.
  lemma LowKernel(top: nat)
    requires top < 32 && Tapped(0, top, 5) % 32 == 0
    ensures top == 0
  {
    ZeroRow(Tapped(0, top, 5));
    ZeroRow(top);
    GenRows();
    MixBit(top, 0);
    MixBit(top, 1);
    MixBit(top, 2);
    MixBit(top, 3);
    MixBit(top, 4);
  }

  lemma {:induction false} NoTaps(c: nat, n: nat)
    requires n <= 5
    ensures Tapped(c, 0, n) == c
  {
    if n > 0 {
      NoTaps(c, n - 1);
      HiZero(n - 1);
    }
  }

  lemma {:induction false} TapsApart(c: nat, top: nat, n: nat)
    requires n <= 5
    ensures Tapped(c, top, n) == Xor(c, Tapped(0, top, n))
  {
    NoTaps(c, n);
    XorZero(c);
    XorZero(top);
    TappedLinear(c, 0, 0, top, n);
  }

  lemma FeedApart(low: nat, top: nat)
    ensures Feed(low, top, 0) == Xor(32 * low, Tapped(0, top, 5))
  {
    XorZero(Shl(low, 5));
    TapsApart(Shl(low, 5), top, 5);
    Group(low);
  }

  lemma FeedZero(low: nat, top: nat)
    requires Feed(low, top, 0) == 0
    ensures Tapped(0, top, 5) == 32 * low
  {
    FeedApart(low, top);
    XorEqual(32 * low, Tapped(0, top, 5));
  }

  lemma FeedKernel(low: nat, top: nat)
    requires top < 32 && Feed(low, top, 0) == 0
    ensures low == 0 && top == 0
  {
    FeedZero(low, top);
    LowKernel(top);
    NoTaps(0, 5);
  }

  lemma HiBound(a: nat, k: nat)
    requires Fits(a, k + 5)
    ensures Hi(a, k) < 32
  {
    HiAdd(a, k, 5);
    Group(Hi(a, k));
  }

  // The step has a trivial kernel, hence it is invertible on 30-bit words.
  lemma StepKernel(a: nat)
    requires Fits(a, 30) && Step(a, 0) == 0
    ensures a == 0
  {
    HiBound(a, 25);
    FeedKernel(Lo(a, 25), Hi(a, 25));
    Recombine(a, 25);
    HiZero(25);
  }

  lemma FeedShort(d: nat, w: Symbol, k: nat)
    requires Fits(d, k)
    ensures Feed(d, 0, w) == 32 * d + w
    ensures Fits(32 * d + w, k + 5)
  {
    AppendGroup(d, w, k);
    NoTaps(32 * d + w, 5);
  }

  lemma LoSame(d: nat, k: nat)
    requires Fits(d, k)
    ensures Lo(d, k) == d
  {
    Recombine(d, k);
    HiZero(k);
  }

  // Up to six 5-bit differences reach the accumulator unmixed.
  lemma StepShort(d: nat, w: Symbol)
    requires Fits(d, 25)
    ensures Step(d, w) == 32 * d + w
  {
    LoSame(d, 25);
    FeedShort(d, w, 25);
  }
}
