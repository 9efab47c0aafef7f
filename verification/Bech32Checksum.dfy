/**
 Checksums over symbol sequences of any length: a created checksum always validates and is
 the only suffix that does, and no corruption confined to six consecutive symbols survives.
 */
module Bech32Checksum {
  import opened BitXor
  import opened Bech32Step

  const BECH32_RESIDUE: nat := 1

  type Symbols = seq<Symbol>

  type Byte = n: nat | n < 256

  function Zeros(n: nat): (z: Symbols)
    ensures |z| == n && forall i :: 0 <= i < n ==> z[i] == 0
  {
    seq(n, _ => 0)
  }

  function HrpExpand(hrp: seq<Byte>): (v: Symbols) {
    seq(|hrp|, i requires 0 <= i < |hrp| => hrp[i] / 32) + [0] +
    seq(|hrp|, i requires 0 <= i < |hrp| => hrp[i] % 32)
  }

  // The six 5-bit digits of a 30-bit word.
  function Digits6(pm: nat): (d: Symbols)
    ensures |d| == 6
  {
    [pm / 0x2000000 % 32, pm / 0x100000 % 32, pm / 0x8000 % 32, pm / 0x400 % 32, pm / 0x20 % 32, pm % 32]
  }

  function Checksum(hrp: seq<Byte>, data: Symbols): (c: Symbols)
    ensures |c| == 6
  {
    Digits6(Xor(Residue(1, HrpExpand(hrp) + data + Zeros(6)), BECH32_RESIDUE))
  }

  predicate ValidChecksum(hrp: seq<Byte>, symbols: Symbols) {
    Residue(1, HrpExpand(hrp) + symbols) == BECH32_RESIDUE
  }

  // ---- residues of concatenations and differences ----

  lemma {:induction false} ResidueConcat(chk: nat, us: seq<nat>, vs: seq<nat>)
    ensures Residue(chk, us + vs) == Residue(Residue(chk, us), vs)
    decreases |us|
  {
    if us == [] {
      assert us + vs == vs;
    } else {
      assert (us + vs)[1..] == us[1..] + vs;
      ResidueConcat(Step(chk, us[0]), us[1..], vs);
    }
  }

  lemma {:induction false} ResidueFits(chk: nat, values: Symbols)
    requires Fits(chk, 30)
    ensures Fits(Residue(chk, values), 30)
    decreases |values|
  {
    if values != [] {
      StepFits(chk, values[0]);
      ResidueFits(Step(chk, values[0]), values[1..]);
    }
  }

  lemma OneFits()
    ensures Fits(1, 30)
  {
    Below30(1);
  }

  // A nonzero word stays nonzero under any number of zero symbols.
  lemma {:induction false} ResidueKernel(d: nat, n: nat)
    requires Fits(d, 30) && Residue(d, Zeros(n)) == 0
    ensures d == 0
    decreases n
  {
    if n > 0 {
      assert Zeros(n)[1..] == Zeros(n - 1);
      StepFits(d, 0);
      ResidueKernel(Step(d, 0), n - 1);
      StepKernel(d);
    }
  }

  // Six symbols or fewer, started from zero, are read as a base-32 number.
  lemma {:induction false} ResidueShort(d: nat, ws: Symbols, k: nat)
    requires Fits(d, k) && k + 5 * |ws| <= 30
    ensures Residue(d, ws) == Horner(d, ws)
    decreases |ws|
  {
    if ws != [] {
      StepShortWithin(d, ws[0], k);
      ResidueShort(32 * d + ws[0], ws[1..], k + 5);
    }
  }

  lemma StepShortWithin(d: nat, w: Symbol, k: nat)
    requires k <= 25 && Fits(d, k)
    ensures Step(d, w) == 32 * d + w
    ensures Fits(32 * d + w, k + 5)
  {
    HiAdd(d, k, 25 - k);
    HiZero(25 - k);
    StepShort(d, w);
    FeedShort(d, w, k);
  }

  lemma {:induction false} HornerPositive(d: nat, ws: Symbols)
    requires d > 0 || exists i :: 0 <= i < |ws| && ws[i] != 0
    ensures Horner(d, ws) > 0
    decreases |ws|
  {
    if ws != [] {
      if d == 0 && ws[0] == 0 {
        var i :| 0 <= i < |ws| && ws[i] != 0;
        assert ws[1..][i - 1] != 0;
      }
      HornerPositive(32 * d + ws[0], ws[1..]);
    }
  }

  lemma HornerFrom(d: seq<nat>, i: nat, h: nat)
    requires i < |d|
    ensures Horner(h, d[i..]) == Horner(32 * h + d[i], d[i + 1..])
  {
    assert d[i..][1..] == d[i + 1..];
  }

  lemma Horner6(d: seq<nat>)
    requires |d| == 6
    ensures Horner(0, d) == 32 * (32 * (32 * (32 * (32 * d[0] + d[1]) + d[2]) + d[3]) + d[4]) + d[5]
  {
    var h2: nat := 32 * d[0] + d[1];
    var h3: nat := 32 * h2 + d[2];
    var h4: nat := 32 * h3 + d[3];
    var h5: nat := 32 * h4 + d[4];
    assert d[0..] == d && d[6..] == [];
    HornerFrom(d, 0, 0);
    HornerFrom(d, 1, d[0]);
    HornerFrom(d, 2, h2);
    HornerFrom(d, 3, h3);
    HornerFrom(d, 4, h4);
    HornerFrom(d, 5, h5);
  }

  lemma Powers(x: nat)
    ensures x / 0x400 == x / 32 / 32
    ensures x / 0x8000 == x / 32 / 32 / 32
    ensures x / 0x100000 == x / 32 / 32 / 32 / 32
    ensures x / 0x2000000 == x / 32 / 32 / 32 / 32 / 32
  {
  }

  lemma Base32(x: nat, q1: nat, q2: nat, q3: nat, q4: nat, q5: nat)
    requires q1 == x / 32 && q2 == q1 / 32 && q3 == q2 / 32 && q4 == q3 / 32 && q5 == q4 / 32
    requires x < 0x40000000
    ensures 32 * (32 * (32 * (32 * (32 * (q5 % 32) + q4 % 32) + q3 % 32) + q2 % 32) + q1 % 32) + x % 32 == x
  {
    assert q5 < 32;
    assert q4 == 32 * q5 + q4 % 32;
    assert q3 == 32 * q4 + q3 % 32;
    assert q2 == 32 * q3 + q2 % 32;
  }

  lemma HornerDigits(pm: nat)
    requires pm < 0x40000000
    ensures Horner(0, Digits6(pm)) == pm
  {
    Horner6(Digits6(pm));
    Powers(pm);
    Base32(pm, pm / 0x20, pm / 0x400, pm / 0x8000, pm / 0x100000, pm / 0x2000000);
  }

  // ---- the main results ----

  lemma {:induction false} SymbolXor(us: Symbols, vs: Symbols)
    requires |us| == |vs|
    ensures forall i :: 0 <= i < |us| ==> XorAll(us, vs)[i] < 32
    ensures forall i :: 0 <= i < |us| ==> (XorAll(us, vs)[i] == 0 <==> us[i] == vs[i])
  {
    forall i | 0 <= i < |us|
      ensures XorAll(us, vs)[i] < 32 && (XorAll(us, vs)[i] == 0 <==> us[i] == vs[i])
    {
      Group(us[i]);
      Group(vs[i]);
      XorFits(us[i], vs[i], 5);
      Group(Xor(us[i], vs[i]));
      XorEqual(us[i], vs[i]);
    }
  }

  // Two sequences that agree outside six consecutive positions, and differ inside them,
  // have different residues, whatever precedes or follows the window.
  lemma BurstDetected(pre: Symbols, x: Symbols, y: Symbols, post: Symbols)
    requires |x| == |y| <= 6 && x != y
    ensures Residue(1, pre + x + post) != Residue(1, pre + y + post)
  {
    var a := Residue(1, pre);
    ResidueConcat(1, pre + x, post);
    ResidueConcat(1, pre, x);
    ResidueConcat(1, pre + y, post);
    ResidueConcat(1, pre, y);
    OneFits();
    ResidueFits(1, pre);
    ResidueFits(a, x);
    ResidueFits(a, y);
    var ax, ay := Residue(a, x), Residue(a, y);
    WindowsDiffer(a, x, y);
    XorFits(ax, ay, 30);
    var p, q := Residue(ax, post), Residue(ay, post);
    if p == q {
      ResidueLinear(ax, ay, post, post);
      SymbolXor(post, post);
      assert XorAll(post, post) == Zeros(|post|);
      XorEqual(p, q);
      ResidueKernel(Xor(ax, ay), |post|);
      XorEqual(ax, ay);
    }
  }

  lemma ConcatAssoc<T>(h: seq<T>, p: seq<T>, x: seq<T>, q: seq<T>)
    ensures h + (p + x + q) == h + p + x + q
  {
  }

  lemma BurstRejected(hrp: seq<Byte>, pre: Symbols, x: Symbols, y: Symbols, post: Symbols)
    requires |x| == |y| <= 6 && x != y
    requires ValidChecksum(hrp, pre + x + post)
    ensures !ValidChecksum(hrp, pre + y + post)
  {
    BurstAfter(HrpExpand(hrp), pre, x, y, post);
  }

  lemma BurstAfter(head: Symbols, pre: Symbols, x: Symbols, y: Symbols, post: Symbols)
    requires |x| == |y| <= 6 && x != y
    ensures Residue(1, head + (pre + x + post)) != Residue(1, head + (pre + y + post))
  {
    BurstDetected(head + pre, x, y, post);
    ConcatAssoc(head, pre, x, post);
    ConcatAssoc(head, pre, y, post);
  }

  lemma WindowsDiffer(a: nat, x: Symbols, y: Symbols)
    requires |x| == |y| <= 6 && x != y
    ensures Residue(a, x) != Residue(a, y)
  {
    var w: Symbols := XorAll(x, y) by { SymbolXor(x, y); }
    SymbolXor(x, y);
    var i :| 0 <= i < |x| && x[i] != y[i];
    assert w[i] != 0;
    XorSelf(a);
    ResidueLinear(a, a, x, y);
    ResidueShort(0, w, 0);
    HornerPositive(0, w);
    XorEqual(Residue(a, x), Residue(a, y));
  }

  // A created checksum validates: for every prefix and every data length.
  lemma ChecksumValid(hrp: seq<Byte>, data: Symbols)
    ensures ValidChecksum(hrp, data + Checksum(hrp, data))
  {
    var head := HrpExpand(hrp) + data;
    var a := Residue(1, head);
    var z := Residue(a, Zeros(6));
    var pm := Xor(z, 1);
    var c := Checksum(hrp, data);
    OneFits();
    ResidueFits(1, head);
    ResidueFits(a, Zeros(6));
    XorFits(z, 1, 30);
    Below30(pm);
    ResidueConcat(1, head, Zeros(6));
    ResidueConcat(1, head, c);
    assert HrpExpand(hrp) + (data + c) == head + c;
    calc {
      Residue(a, c);
      { XorZero(a); ZerosXor(c); }
      Residue(Xor(a, 0), XorAll(Zeros(6), c));
      { ResidueLinear(a, 0, Zeros(6), c); }
      Xor(z, Residue(0, c));
      { ResidueShort(0, c, 0); HornerDigits(pm); }
      Xor(z, pm);
      { XorCancel(z, 1); }
      1;
    }
  }

  lemma ZerosXor(c: Symbols)
    ensures XorAll(Zeros(|c|), c) == c
  {
    forall i | 0 <= i < |c|
      ensures XorAll(Zeros(|c|), c)[i] == c[i]
    {
      XorZero(c[i]);
    }
  }

  // The created checksum is the only six-symbol suffix that validates.
  lemma ChecksumUnique(hrp: seq<Byte>, data: Symbols, c: Symbols)
    requires |c| == 6
    ensures ValidChecksum(hrp, data + c) <==> c == Checksum(hrp, data)
  {
    ChecksumValid(hrp, data);
    var good := Checksum(hrp, data);
    var head := HrpExpand(hrp) + data;
    assert HrpExpand(hrp) + (data + c) == head + c + [];
    assert HrpExpand(hrp) + (data + good) == head + good + [];
    if c != good {
      BurstDetected(head, c, good, []);
    }
  }
}
