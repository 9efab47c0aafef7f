/**
 Regrouping bytes into the 5-bit groups of the bech32 data part, with the accumulator kept
 at 32 bits as the encoder keeps it.
 */
module Bech32Groups {
  import opened BitXor
  import opened Bech32Step
  import opened Bech32Checksum

  // ---- bit streams ----

  // The low `n` bits of `x`, most significant first.
  function BitsOf(x: nat, n: nat): (bs: seq<bool>)
    ensures |bs| == n
  {
    if n == 0 then [] else BitsOf(x / 2, n - 1) + [x % 2 == 1]
  }

  function Pack5(bs: seq<bool>): (v: Symbol)
    requires |bs| == 5
  {
    (if bs[0] then 16 else 0) + (if bs[1] then 8 else 0) + (if bs[2] then 4 else 0) +
    (if bs[3] then 2 else 0) + (if bs[4] then 1 else 0)
  }

  function Falses(n: nat): (bs: seq<bool>)
    ensures |bs| == n && forall i :: 0 <= i < n ==> !bs[i]
  {
    seq(n, _ => false)
  }

  function ByteBits(data: seq<Byte>): (bs: seq<bool>)
    ensures |bs| == 8 * |data|
  {
    if data == [] then [] else BitsOf(data[0], 8) + ByteBits(data[1..])
  }

  function GroupBits(groups: Symbols): (bs: seq<bool>)
    ensures |bs| == 5 * |groups|
  {
    if groups == [] then [] else BitsOf(groups[0], 5) + GroupBits(groups[1..])
  }

  // Cut a bit stream into fives, padding the last one with zeros.
  function Regroup(bs: seq<bool>): (groups: Symbols)
    decreases |bs|
  {
    if bs == [] then []
    else if |bs| < 5 then [Pack5(bs + Falses(5 - |bs|))]
    else [Pack5(bs[..5])] + Regroup(bs[5..])
  }

  function Groups(data: seq<Byte>): Symbols {
    Regroup(ByteBits(data))
  }

  lemma Bits5(x: nat, a: nat, b: nat, c: nat, d: nat)
    requires a == x / 2 && b == a / 2 && c == b / 2 && d == c / 2
    ensures BitsOf(x, 5) == [d % 2 == 1, c % 2 == 1, b % 2 == 1, a % 2 == 1, x % 2 == 1]
  {
    assert BitsOf(d, 1) == [d % 2 == 1];
    assert BitsOf(c, 2) == BitsOf(d, 1) + [c % 2 == 1];
    assert BitsOf(b, 3) == BitsOf(c, 2) + [b % 2 == 1];
    assert BitsOf(a, 4) == BitsOf(b, 3) + [a % 2 == 1];
  }

  lemma HalfDigits(x: nat, a: nat, b: nat, c: nat, d: nat)
    requires a == x / 2 && b == a / 2 && c == b / 2 && d == c / 2
    ensures x % 32 == 16 * (d % 2) + 8 * (c % 2) + 4 * (b % 2) + 2 * (a % 2) + x % 2
  {
    assert x == 32 * (d / 2) + 16 * (d % 2) + 8 * (c % 2) + 4 * (b % 2) + 2 * (a % 2) + x % 2;
  }

  lemma PackOfBits(x: nat)
    ensures Pack5(BitsOf(x, 5)) == x % 32
  {
    var a := x / 2;
    var b := a / 2;
    var c := b / 2;
    var d := c / 2;
    Bits5(x, a, b, c, d);
    HalfDigits(x, a, b, c, d);
  }

  lemma BitsOfPack(bs: seq<bool>)
    requires |bs| == 5
    ensures BitsOf(Pack5(bs), 5) == bs
  {
    var d: nat := if bs[0] then 1 else 0;
    var c: nat := 2 * d + if bs[1] then 1 else 0;
    var b: nat := 2 * c + if bs[2] then 1 else 0;
    var a: nat := 2 * b + if bs[3] then 1 else 0;
    Bits5(Pack5(bs), a, b, c, d);
  }

  lemma {:induction false} BitsInjective(x: nat, y: nat, n: nat)
    requires Fits(x, n) && Fits(y, n) && BitsOf(x, n) == BitsOf(y, n)
    ensures x == y
    decreases n
  {
    if n > 0 {
      assert BitsOf(x, n)[..n - 1] == BitsOf(x / 2, n - 1) && BitsOf(y, n)[..n - 1] == BitsOf(y / 2, n - 1);
      assert BitsOf(x, n)[n - 1] == (x % 2 == 1) && BitsOf(y, n)[n - 1] == (y % 2 == 1);
      BitsInjective(x / 2, y / 2, n - 1);
    }
  }

  lemma {:induction false} BitsAppend(x: nat, y: nat, n: nat, m: nat)
    requires Fits(y, m)
    ensures BitsOf(Shl(x, m) + y, n + m) == BitsOf(x, n) + BitsOf(y, m)
    decreases m
  {
    if m > 0 {
      var z := Shl(x, m) + y;
      assert z / 2 == Shl(x, m - 1) + y / 2 && z % 2 == y % 2;
      BitsAppend(x, y / 2, n, m - 1);
      assert BitsOf(z, n + m) == BitsOf(z / 2, n + m - 1) + [z % 2 == 1];
    }
  }

  lemma {:induction false} BitsSplit(x: nat, n: nat, m: nat)
    ensures BitsOf(x, n + m) == BitsOf(Hi(x, m), n) + BitsOf(x, m)
    decreases m
  {
    if m > 0 {
      BitsSplit(x / 2, n, m - 1);
      assert BitsOf(x, n + m) == BitsOf(x / 2, n + m - 1) + [x % 2 == 1];
    }
  }

  // Only the low bits matter, so the accumulator's truncation is harmless.
  lemma {:induction false} BitsLo(x: nat, n: nat, k: nat)
    requires n <= k
    ensures BitsOf(Lo(x, k), n) == BitsOf(x, n)
    decreases n
  {
    if n > 0 {
      LoUnfold(x, k);
      BitsLo(x / 2, n - 1, k - 1);
    }
  }

  lemma {:induction false} LoShl(x: nat, j: nat, k: nat)
    ensures Lo(Shl(x, j), j + k) == Shl(Lo(x, k), j)
    decreases j
  {
    if j > 0 {
      assert Shl(x, j) / 2 == Shl(x, j - 1) && Shl(x, j) % 2 == 0;
      LoShl(x, j - 1, k);
    }
  }

  lemma {:induction false} ZeroBits(n: nat)
    ensures BitsOf(0, n) == Falses(n)
  {
    if n > 0 { ZeroBits(n - 1); }
  }

  // ---- the regrouping loop, one transition per lemma ----

  lemma PushByte(acc: nat, b: Byte, bits: nat)
    requires bits <= 24
    ensures BitsOf(Lo(Shl(acc, 8), 32) + b, bits + 8) == BitsOf(acc, bits) + BitsOf(b, 8)
  {
    LoShl(acc, 8, 24);
    ByteFits(b);
    BitsAppend(Lo(acc, 24), b, bits, 8);
    BitsLo(acc, bits, 24);
  }

  lemma ByteFits(b: Byte)
    ensures Fits(b, 8)
  {
    HiAdd(b, 5, 3);
    Group(b);
    var q := b / 32;
    assert Hi(q, 3) == Hi(q / 2, 2) == Hi(q / 4, 1) == q / 8;
  }

  // The groups still to come when `bits` bits of `acc` and then `rest` are pending.
  function Pending(acc: nat, bits: nat, rest: seq<bool>): Symbols {
    Regroup(BitsOf(acc, bits) + rest)
  }

  lemma TakeGroup(acc: nat, bits: nat, rest: seq<bool>)
    requires bits >= 5
    ensures Pending(acc, bits, rest) == [Hi(acc, bits - 5) % 32] + Pending(acc, bits - 5, rest)
  {
    var top := Hi(acc, bits - 5);
    BitsSplit(acc, 5, bits - 5);
    RegroupFive(BitsOf(top, 5), BitsOf(acc, bits - 5), rest);
    PackOfBits(top);
  }

  lemma RegroupFive(five: seq<bool>, more: seq<bool>, rest: seq<bool>)
    requires |five| == 5
    ensures Regroup(five + more + rest) == [Pack5(five)] + Regroup(more + rest)
  {
    var bs := five + more + rest;
    assert bs[..5] == five && bs[5..] == more + rest;
  }

  lemma LastGroup(acc: nat, bits: nat)
    requires bits < 5
    ensures Pending(acc, bits, []) == if bits == 0 then [] else [Shl(acc, 5 - bits) % 32]
  {
    var pad := 5 - bits;
    assert BitsOf(acc, bits) + [] == BitsOf(acc, bits);
    HiZero(pad);
    ZeroBits(pad);
    BitsAppend(acc, 0, bits, pad);
    PackOfBits(Shl(acc, pad));
  }

  lemma AbsorbByte(acc: nat, bits: nat, data: seq<Byte>, i: nat)
    requires bits < 5 && i < |data|
    ensures Pending(acc, bits, ByteBits(data[i..])) ==
            Pending(Lo(Shl(acc, 8), 32) + data[i], bits + 8, ByteBits(data[i + 1..]))
  {
    hide BitsOf, ByteBits, Regroup, Lo, Shl;
    PushByte(acc, data[i], bits);
    HeadByte(data[i..]);
    assert data[i..][1..] == data[i + 1..];
    var rest := ByteBits(data[i + 1..]);
    assert BitsOf(acc, bits) + (BitsOf(data[i], 8) + rest) == BitsOf(acc, bits) + BitsOf(data[i], 8) + rest;
  }

  lemma HeadByte(data: seq<Byte>)
    requires data != []
    ensures ByteBits(data) == BitsOf(data[0], 8) + ByteBits(data[1..])
  {
    hide BitsOf;
  }

  lemma StartGroups(data: seq<Byte>)
    ensures Pending(0, 0, ByteBits(data[0..])) == Groups(data)
  {
    assert data[0..] == data;
    assert BitsOf(0, 0) + ByteBits(data) == ByteBits(data);
  }

  lemma NoBytes()
    ensures ByteBits([]) == []
  {
  }

  method ConvertBits8to5(data: seq<Byte>) returns (ret: Symbols)
    ensures ret == Groups(data)
  {
    hide Pending, Groups, ByteBits, Lo, Shl, Hi;
    var acc: nat, bits: nat := 0, 0;
    ret := [];
    StartGroups(data);
    for i := 0 to |data|
      invariant bits < 5
      invariant Groups(data) == ret + Pending(acc, bits, ByteBits(data[i..]))
    {
      AbsorbByte(acc, bits, data, i);
      acc, bits := Lo(Shl(acc, 8), 32) + data[i], bits + 8;
      while bits >= 5
        invariant Groups(data) == ret + Pending(acc, bits, ByteBits(data[i + 1..]))
      {
        TakeGroup(acc, bits, ByteBits(data[i + 1..]));
        bits := bits - 5;
        ret := ret + [Hi(acc, bits) % 32];
      }
    }
    assert data[|data|..] == [] && ByteBits([]) == [] by { NoBytes(); }
    LastGroup(acc, bits);
    if bits > 0 {
      ret := ret + [Shl(acc, 5 - bits) % 32];
    }
  }

  // ceil(8n/5) groups whose bits are the input bits followed by fewer than five zeros.
  lemma {:induction false} RegroupBits(bs: seq<bool>)
    ensures |bs| <= 5 * |Regroup(bs)| < |bs| + 5
    ensures GroupBits(Regroup(bs)) == bs + Falses(5 * |Regroup(bs)| - |bs|)
    decreases |bs|
  {
    var g := Regroup(bs);
    if bs == [] {
    } else if |bs| < 5 {
      var padded := bs + Falses(5 - |bs|);
      BitsOfPack(padded);
      assert g == [Pack5(padded)] && g[1..] == [];
      assert GroupBits(g) == BitsOf(g[0], 5) + GroupBits(g[1..]);
    } else {
      RegroupBits(bs[5..]);
      BitsOfPack(bs[..5]);
      assert g[1..] == Regroup(bs[5..]);
      assert bs == bs[..5] + bs[5..];
    }
  }

  lemma GroupsAreBits(data: seq<Byte>)
    ensures |Groups(data)| == (8 * |data| + 4) / 5
    ensures GroupBits(Groups(data)) == ByteBits(data) + Falses(5 * |Groups(data)| - 8 * |data|)
  {
    RegroupBits(ByteBits(data));
  }

  lemma {:induction false} BytesFromBits(x: seq<Byte>, y: seq<Byte>)
    requires ByteBits(x) == ByteBits(y)
    ensures x == y
    decreases |x|
  {
    if x != [] {
      assert ByteBits(x)[..8] == BitsOf(x[0], 8) && ByteBits(y)[..8] == BitsOf(y[0], 8);
      assert ByteBits(x)[8..] == ByteBits(x[1..]) && ByteBits(y)[8..] == ByteBits(y[1..]);
      ByteFromBits(x[0], y[0]);
      BytesFromBits(x[1..], y[1..]);
      assert x == [x[0]] + x[1..] && y == [y[0]] + y[1..];
    }
  }

  lemma ByteFromBits(a: Byte, b: Byte)
    requires BitsOf(a, 8) == BitsOf(b, 8)
    ensures a == b
  {
    ByteFits(a);
    ByteFits(b);
    BitsInjective(a, b, 8);
  }

  lemma GroupsInjective(x: seq<Byte>, y: seq<Byte>)
    requires Groups(x) == Groups(y)
    ensures x == y
  {
    GroupsAreBits(x);
    GroupsAreBits(y);
    var gx := GroupBits(Groups(x));
    assert gx[..8 * |x|] == ByteBits(x);
    assert gx[..8 * |y|] == ByteBits(y);
    BytesFromBits(x, y);
  }
}
