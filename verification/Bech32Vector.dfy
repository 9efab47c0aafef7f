/**
 The checksum on words of six 5-bit groups, without shifts or masks: one step drops the first
 group, appends a symbol and adds the generator of each bit dropped. With it, the standard's
 shortest test vector, step by step (BIP-173, Test vectors).
 */
module Bech32Vector {
  import opened Options
  import opened BitXor
  import opened Bech32Step
  import opened Bech32Checksum
  import opened Bech32Groups
  import opened Bech32

  datatype Word = Word(d5: Symbol, d4: Symbol, d3: Symbol, d2: Symbol, d1: Symbol, d0: Symbol)

  function Value(w: Word): nat {
    32 * (32 * (32 * (32 * (32 * w.d5 + w.d4) + w.d3) + w.d2) + w.d1) + w.d0
  }

  // ---- exclusive or of groups ----

  function Rest(x: nat, b: nat): nat {
    if x >= b then x - b else x
  }

  // Bit by bit from the highest.
  function Add(x: nat, y: nat, b: nat): nat {
    if (x >= b) != (y >= b) then b else 0
  }

  function GroupXor(x: Symbol, y: Symbol): (z: Symbol) {
    var (x8, y8) := (Rest(x, 16), Rest(y, 16));
    var (x4, y4) := (Rest(x8, 8), Rest(y8, 8));
    var (x2, y2) := (Rest(x4, 4), Rest(y4, 4));
    var (x1, y1) := (Rest(x2, 2), Rest(y2, 2));
    Add(x, y, 16) + Add(x8, y8, 8) + Add(x4, y4, 4) + Add(x2, y2, 2) + Add(x1, y1, 1)
  }

  // The bits of a group by comparison.
  lemma ComparedBits(x: Symbol)
    ensures var x8 := Rest(x, 16);
            var x4 := Rest(x8, 8);
            var x2 := Rest(x4, 4);
            && Bit(x, 4) == (x >= 16) && Bit(x, 3) == (x8 >= 8) && Bit(x, 2) == (x4 >= 4) && Bit(x, 1) == (x2 >= 2)
            && Bit(x, 0) == (Rest(x2, 2) >= 1)
  {
    hide Bit;
    LowBits(x);
  }

  lemma SameBits(x: Symbol, y: Symbol)
    requires forall i :: 0 <= i < 5 ==> Bit(x, i) == Bit(y, i)
    ensures x == y
  {
    hide Bit;
    ComparedBits(x);
    ComparedBits(y);
    assert Bit(x, 0) == Bit(y, 0) && Bit(x, 1) == Bit(y, 1) && Bit(x, 2) == Bit(y, 2);
    assert Bit(x, 3) == Bit(y, 3) && Bit(x, 4) == Bit(y, 4);
  }

  lemma GroupXorIs(x: Symbol, y: Symbol)
    ensures Xor(x, y) == GroupXor(x, y)
  {
    hide Bit, Xor, GroupXor;
    Group(x);
    Group(y);
    XorFits(x, y, 5);
    Group(Xor(x, y));
    forall i | 0 <= i < 5
      ensures Bit(Xor(x, y), i) == Bit(GroupXor(x, y), i)
    {
      BitOfXor(x, y, i);
      GroupXorBits(x, y);
    }
    SameBits(Xor(x, y), GroupXor(x, y));
  }

  function FromBits(a: bool, b: bool, c: bool, d: bool, e: bool): Symbol {
    (if a then 16 else 0) + (if b then 8 else 0) + (if c then 4 else 0) + (if d then 2 else 0) + (if e then 1 else 0)
  }

  lemma BitsOfSum(a: bool, b: bool, c: bool, d: bool, e: bool)
    ensures var x := FromBits(a, b, c, d, e);
            Bit(x, 4) == a && Bit(x, 3) == b && Bit(x, 2) == c && Bit(x, 1) == d && Bit(x, 0) == e
  {
    hide Bit;
    ComparedBits(FromBits(a, b, c, d, e));
  }

  lemma GroupXorBits(x: Symbol, y: Symbol)
    ensures forall i :: 0 <= i < 5 ==> Bit(GroupXor(x, y), i) == (Bit(x, i) != Bit(y, i))
  {
    hide Bit, Rest;
    ComparedBits(x);
    ComparedBits(y);
    var x8, y8 := Rest(x, 16), Rest(y, 16);
    var x4, y4 := Rest(x8, 8), Rest(y8, 8);
    var x2, y2 := Rest(x4, 4), Rest(y4, 4);
    var x1, y1 := Rest(x2, 2), Rest(y2, 2);
    BitsOfSum((x >= 16) != (y >= 16), (x8 >= 8) != (y8 >= 8), (x4 >= 4) != (y4 >= 4), (x2 >= 2) != (y2 >= 2),
           (x1 >= 1) != (y1 >= 1));
  }

  // ---- words ----

  function WordXor(a: Word, b: Word): Word {
    Word(GroupXor(a.d5, b.d5), GroupXor(a.d4, b.d4), GroupXor(a.d3, b.d3),
         GroupXor(a.d2, b.d2), GroupXor(a.d1, b.d1), GroupXor(a.d0, b.d0))
  }

  lemma GroupsOf(a: nat, x: Symbol)
    ensures Hi(32 * a + x, 5) == a && Lo(32 * a + x, 5) == x
  {
    Group(32 * a + x);
  }

  lemma FromGroups(z: nat, h: nat, l: nat)
    requires Hi(z, 5) == h && Lo(z, 5) == l
    ensures z == 32 * h + l
  {
    Recombine(z, 5);
    Group(h);
  }

  lemma XorGroups(a: nat, b: nat, x: Symbol, y: Symbol)
    ensures Xor(32 * a + x, 32 * b + y) == 32 * Xor(a, b) + GroupXor(x, y)
  {
    hide GroupXor, Xor, Hi, Lo, Shl;
    var m, n := 32 * a + x, 32 * b + y;
    GroupsOf(a, x);
    GroupsOf(b, y);
    XorHi(m, n, 5);
    XorLo(m, n, 5);
    GroupXorIs(x, y);
    FromGroups(Xor(m, n), Xor(a, b), GroupXor(x, y));
  }

  lemma NextGroup(a: nat, b: nat, z: nat, x: Symbol, y: Symbol)
    requires Xor(a, b) == z
    ensures Xor(32 * a + x, 32 * b + y) == 32 * z + GroupXor(x, y)
  {
    hide GroupXor, Xor;
    XorGroups(a, b, x, y);
  }

  lemma WordXorIs(a: Word, b: Word)
    ensures Xor(Value(a), Value(b)) == Value(WordXor(a, b))
  {
    hide GroupXor, Xor;
    var a4, b4 := 32 * a.d5 + a.d4, 32 * b.d5 + b.d4;
    var a3, b3 := 32 * a4 + a.d3, 32 * b4 + b.d3;
    var a2, b2 := 32 * a3 + a.d2, 32 * b3 + b.d2;
    var a1, b1 := 32 * a2 + a.d1, 32 * b2 + b.d1;
    var z5: nat := GroupXor(a.d5, b.d5);
    var z4: nat := 32 * z5 + GroupXor(a.d4, b.d4);
    var z3: nat := 32 * z4 + GroupXor(a.d3, b.d3);
    var z2: nat := 32 * z3 + GroupXor(a.d2, b.d2);
    var z1: nat := 32 * z2 + GroupXor(a.d1, b.d1);
    GroupXorIs(a.d5, b.d5);
    NextGroup(a.d5, b.d5, z5, a.d4, b.d4);
    NextGroup(a4, b4, z4, a.d3, b.d3);
    NextGroup(a3, b3, z3, a.d2, b.d2);
    NextGroup(a2, b2, z2, a.d1, b.d1);
    NextGroup(a1, b1, z1, a.d0, b.d0);
  }

  // The multiples of the standard's generator polynomial, its coefficients being 29, 22, 20,
  // 21, 29 and 18, by the powers of two of its field.
  function Generator(i: nat): Word {
    if i == 0 then Word(29, 22, 20, 21, 29, 18)
    else if i == 1 then Word(19, 5, 1, 3, 19, 13)
    else if i == 2 then Word(15, 10, 2, 6, 15, 26)
    else if i == 3 then Word(30, 20, 4, 12, 30, 29)
    else Word(21, 1, 8, 24, 21, 19)
  }

  lemma GeneratorIs(i: nat)
    requires i < 5
    ensures GEN[i] == Value(Generator(i))
  {
  }

  function TapWord(c: Word, bit: bool, i: nat): Word {
    if bit then WordXor(c, Generator(i)) else c
  }

  // The generators of the dropped group's bits added.
  function TapsOf(c: Word, top: Symbol): Word {
    var t8 := Rest(top, 16);
    var t4 := Rest(t8, 8);
    var t2 := Rest(t4, 4);
    TapWord(
      TapWord(TapWord(TapWord(TapWord(c, Rest(t2, 2) >= 1, 0), t2 >= 2, 1), t4 >= 4, 2), t8 >= 8, 3),
      top >= 16, 4)
  }

  function StepWord(w: Word, v: Symbol): Word {
    TapsOf(Word(w.d4, w.d3, w.d2, w.d1, w.d0, v), w.d5)
  }

  lemma TapWordIs(c: Word, top: nat, i: nat)
    requires i < 5
    ensures Tap(Value(c), Bit(top, i), GEN[i]) == Value(TapWord(c, Bit(top, i), i))
  {
    hide WordXor, Xor, Value;
    GeneratorIs(i);
    WordXorIs(c, Generator(i));
  }

  lemma TappedNext(c: nat, top: nat, n: nat)
    requires n < 5
    ensures Tapped(c, top, n + 1) == Tap(Tapped(c, top, n), Bit(top, n), GEN[n]) && Tapped(c, top, 0) == c
  {
  }

  lemma TapsAre(c: Word, top: Symbol)
    ensures Tapped(Value(c), top, 5) == Value(TapsOf(c, top))
  {
    hide Tapped, TapWord, Tap, Bit, Value, Rest;
    ComparedBits(top);
    var c1 := TapWord(c, Bit(top, 0), 0);
    TapWordIs(c, top, 0);
    TappedNext(Value(c), top, 0);
    var c2 := TapWord(c1, Bit(top, 1), 1);
    TapWordIs(c1, top, 1);
    TappedNext(Value(c), top, 1);
    var c3 := TapWord(c2, Bit(top, 2), 2);
    TapWordIs(c2, top, 2);
    TappedNext(Value(c), top, 2);
    var c4 := TapWord(c3, Bit(top, 3), 3);
    TapWordIs(c3, top, 3);
    TappedNext(Value(c), top, 3);
    TapWordIs(c4, top, 4);
    TappedNext(Value(c), top, 4);
  }

  lemma ShlGroup(x: nat, k: nat)
    ensures Shl(x, k + 5) == 32 * Shl(x, k)
  {
    assert Shl(x, k + 1) == 2 * Shl(x, k) && Shl(x, k + 2) == 2 * Shl(x, k + 1) && Shl(x, k + 3) == 2 * Shl(x, k + 2);
    assert Shl(x, k + 4) == 2 * Shl(x, k + 3) && Shl(x, k + 5) == 2 * Shl(x, k + 4);
  }

  // The first group and the other five.
  lemma SplitWord(w: Word)
    ensures Hi(Value(w), 25) == w.d5
    ensures Lo(Value(w), 25) == 32 * (32 * (32 * (32 * w.d4 + w.d3) + w.d2) + w.d1) + w.d0
  {
    hide Hi, Lo, Shl;
    var x4 := 32 * w.d5 + w.d4;
    var x3 := 32 * x4 + w.d3;
    var x2 := 32 * x3 + w.d2;
    var x1 := 32 * x2 + w.d1;
    DropGroup(x1, w.d0, 20);
    DropGroup(x2, w.d1, 15);
    DropGroup(x3, w.d2, 10);
    DropGroup(x4, w.d3, 5);
    DropGroup(w.d5, w.d4, 0);
    ShlGroup(w.d5, 0);
    ShlGroup(w.d5, 5);
    ShlGroup(w.d5, 10);
    ShlGroup(w.d5, 15);
    ShlGroup(w.d5, 20);
    assert Hi(w.d5, 0) == w.d5 && Shl(w.d5, 0) == w.d5 by { ByNothing(w.d5); }
    Recombine(Value(w), 25);
  }

  lemma ByNothing(x: nat)
    ensures Hi(x, 0) == x && Shl(x, 0) == x
  {
  }

  lemma DropGroup(x: nat, v: Symbol, k: nat)
    ensures Hi(32 * x + v, 5 + k) == Hi(x, k)
  {
    HiGroup(32 * x + v, k);
  }

  // One step of the source's loop is one step on words.
  lemma StepWordIs(w: Word, v: Symbol)
    ensures Step(Value(w), v) == Value(StepWord(w, v))
  {
    hide TapsOf, Tapped, Lo, Hi, Fits;
    SplitWord(w);
    var low := Lo(Value(w), 25);
    LoFits(Value(w), 25);
    AppendGroup(low, v, 25);
    TapsAre(Word(w.d4, w.d3, w.d2, w.d1, w.d0, v), w.d5);
  }

  function RunWord(w: Word, vs: Symbols): Word
    decreases |vs|
  {
    if vs == [] then w else RunWord(StepWord(w, vs[0]), vs[1..])
  }

  // So the whole checksum is that of the standard's polynomial.
  lemma {:induction false} ResidueIs(w: Word, vs: Symbols)
    ensures Residue(Value(w), vs) == Value(RunWord(w, vs))
    decreases |vs|
  {
    hide Step, StepWord, Value;
    if vs != [] {
      StepWordIs(w, vs[0]);
      ResidueIs(StepWord(w, vs[0]), vs[1..]);
    }
  }

  // ---- the empty text under the prefix `a` ----

  lemma FirstSteps()
    ensures StepWord(Word(0, 0, 0, 0, 0, 1), 3) == Word(0, 0, 0, 0, 1, 3)
    ensures StepWord(Word(0, 0, 0, 0, 1, 3), 0) == Word(0, 0, 0, 1, 3, 0)
    ensures StepWord(Word(0, 0, 0, 1, 3, 0), 1) == Word(0, 0, 1, 3, 0, 1)
    ensures StepWord(Word(0, 0, 1, 3, 0, 1), 0) == Word(0, 1, 3, 0, 1, 0)
    ensures StepWord(Word(0, 1, 3, 0, 1, 0), 0) == Word(1, 3, 0, 1, 0, 0)
  {
  }

  lemma SixthStep()
    ensures StepWord(Word(1, 3, 0, 1, 0, 0), 0) == Word(30, 22, 21, 21, 29, 18)
  {
  }

  // Four generators at once.
  lemma SeventhStep()
    ensures StepWord(Word(30, 22, 21, 21, 29, 18), 0) == Word(1, 15, 26, 12, 5, 25)
  {
    hide WordXor;
    assert WordXor(Word(22, 21, 21, 29, 18, 0), Generator(1)) == Word(5, 16, 20, 30, 1, 13) by { AddOne(); }
    assert WordXor(Word(5, 16, 20, 30, 1, 13), Generator(2)) == Word(10, 26, 22, 24, 14, 23) by { AddTwo(); }
    assert WordXor(Word(10, 26, 22, 24, 14, 23), Generator(3)) == Word(20, 14, 18, 20, 16, 10) by { AddThree(); }
    assert WordXor(Word(20, 14, 18, 20, 16, 10), Generator(4)) == Word(1, 15, 26, 12, 5, 25) by { AddFour(); }
  }

  lemma AddOne()
    ensures WordXor(Word(22, 21, 21, 29, 18, 0), Generator(1)) == Word(5, 16, 20, 30, 1, 13)
  {
  }

  lemma AddTwo()
    ensures WordXor(Word(5, 16, 20, 30, 1, 13), Generator(2)) == Word(10, 26, 22, 24, 14, 23)
  {
  }

  lemma AddThree()
    ensures WordXor(Word(10, 26, 22, 24, 14, 23), Generator(3)) == Word(20, 14, 18, 20, 16, 10)
  {
  }

  lemma AddFour()
    ensures WordXor(Word(20, 14, 18, 20, 16, 10), Generator(4)) == Word(1, 15, 26, 12, 5, 25)
  {
  }

  lemma EighthStep()
    ensures StepWord(Word(1, 15, 26, 12, 5, 25), 0) == Word(18, 12, 24, 16, 4, 18)
  {
  }

  lemma NinthStep()
    ensures StepWord(Word(18, 12, 24, 16, 4, 18), 0) == Word(10, 28, 25, 31, 20, 30)
  {
    hide WordXor;
    assert WordXor(Word(12, 24, 16, 4, 18, 0), Generator(1)) == Word(31, 29, 17, 7, 1, 13) by { LastOneAdded(); }
    assert WordXor(Word(31, 29, 17, 7, 1, 13), Generator(4)) == Word(10, 28, 25, 31, 20, 30) by { LastFourAdded(); }
  }

  lemma LastOneAdded()
    ensures WordXor(Word(12, 24, 16, 4, 18, 0), Generator(1)) == Word(31, 29, 17, 7, 1, 13)
  {
  }

  lemma LastFourAdded()
    ensures WordXor(Word(31, 29, 17, 7, 1, 13), Generator(4)) == Word(10, 28, 25, 31, 20, 30)
  {
  }

  lemma RunNext(w: Word, v: Symbol, vs: Symbols)
    ensures RunWord(w, [v] + vs) == RunWord(StepWord(w, v), vs)
  {
    assert ([v] + vs)[1..] == vs;
  }

  lemma VectorRun()
    ensures RunWord(Word(0, 0, 0, 0, 0, 1), [3, 0, 1, 0, 0, 0, 0, 0, 0]) == Word(10, 28, 25, 31, 20, 30)
  {
    hide StepWord, RunWord;
    FirstSteps();
    SixthStep();
    SeventhStep();
    EighthStep();
    NinthStep();
    RunNext(Word(0, 0, 0, 0, 0, 1), 3, [0, 1, 0, 0, 0, 0, 0, 0]);
    RunNext(Word(0, 0, 0, 0, 1, 3), 0, [1, 0, 0, 0, 0, 0, 0]);
    RunNext(Word(0, 0, 0, 1, 3, 0), 1, [0, 0, 0, 0, 0, 0]);
    RunNext(Word(0, 0, 1, 3, 0, 1), 0, [0, 0, 0, 0, 0]);
    RunNext(Word(0, 1, 3, 0, 1, 0), 0, [0, 0, 0, 0]);
    RunNext(Word(1, 3, 0, 1, 0, 0), 0, [0, 0, 0]);
    RunNext(Word(30, 22, 21, 21, 29, 18), 0, [0, 0]);
    RunNext(Word(1, 15, 26, 12, 5, 25), 0, [0]);
    RunNext(Word(18, 12, 24, 16, 4, 18), 0, []);
    assert [3] + [0, 1, 0, 0, 0, 0, 0, 0] == [3, 0, 1, 0, 0, 0, 0, 0, 0];
    assert [0] + [1, 0, 0, 0, 0, 0, 0] == [0, 1, 0, 0, 0, 0, 0, 0] && [1] + [0, 0, 0, 0, 0, 0] == [1, 0, 0, 0, 0, 0, 0];
    assert [0] + [0, 0, 0, 0, 0] == [0, 0, 0, 0, 0, 0] && [0] + [0, 0, 0, 0] == [0, 0, 0, 0, 0];
    assert [0] + [0, 0, 0] == [0, 0, 0, 0] && [0] + [0, 0] == [0, 0, 0] && [0] + [0] == [0, 0] && [0] + [] == [0];
    assert RunWord(Word(10, 28, 25, 31, 20, 30), []) == Word(10, 28, 25, 31, 20, 30) by { RunNone(); }
  }

  lemma RunNone()
    ensures forall w :: RunWord(w, []) == w
  {
  }

  // The six groups of a checksum.
  lemma DigitsOf(w: Word)
    ensures Digits6(Value(w)) == [w.d5, w.d4, w.d3, w.d2, w.d1, w.d0]
  {
    var x4 := 32 * w.d5 + w.d4;
    var x3 := 32 * x4 + w.d3;
    var x2 := 32 * x3 + w.d2;
    var x1 := 32 * x2 + w.d1;
    var x := Value(w);
    Powers(x);
    assert x / 32 == x1 && x1 / 32 == x2 && x2 / 32 == x3 && x3 / 32 == x4 && x4 / 32 == w.d5;
  }

  lemma VectorChecksum()
    ensures Checksum([97], []) == [10, 28, 25, 31, 20, 31]
  {
    hide Residue, RunWord, Digits6, Value, GroupXor;
    var w := Word(10, 28, 25, 31, 20, 30);
    assert HrpExpand([97]) + [] + Zeros(6) == [3, 0, 1, 0, 0, 0, 0, 0, 0];
    assert Value(Word(0, 0, 0, 0, 0, 1)) == 1 by { OneIs(); }
    ResidueIs(Word(0, 0, 0, 0, 0, 1), [3, 0, 1, 0, 0, 0, 0, 0, 0]);
    VectorRun();
    WordXorIs(w, Word(0, 0, 0, 0, 0, 1));
    assert WordXor(w, Word(0, 0, 0, 0, 0, 1)) == Word(10, 28, 25, 31, 20, 31) by { LastGroup(); }
    DigitsOf(Word(10, 28, 25, 31, 20, 31));
  }

  lemma OneIs()
    ensures Value(Word(0, 0, 0, 0, 0, 1)) == 1
  {
  }

  lemma LastGroup()
    ensures WordXor(Word(10, 28, 25, 31, 20, 30), Word(0, 0, 0, 0, 0, 1)) == Word(10, 28, 25, 31, 20, 31)
  {
  }

  lemma VectorLetters()
    ensures Letters([10, 28, 25, 31, 20, 31]) == "2uel5l"
  {
    hide *;
    LetterTable();
    assert Letters([10, 28, 25, 31, 20, 31])[0] == '2';
  }

  lemma VectorUpper()
    ensures UpperAll("a" + "1" + "2uel5l") == "A12UEL5L"
  {
    assert "a" + "1" + "2uel5l" == "a12uel5l";
  }

  // The standard's vector: no data under the prefix `a`.
  lemma VectorEncodes()
    ensures Encoded("a", []) == "A12UEL5L"
  {
    hide Checksum, Groups, Letters, UpperAll;
    VectorChecksum();
    NoGroups();
    assert Bytes("a") == [97];
    var p: Symbols := [10, 28, 25, 31, 20, 31];
    assert Payload("a", []) == p;
    VectorLetters();
    VectorUpper();
  }

  lemma LetterTable()
    ensures Letter(10) == '2' && Letter(28) == 'u' && Letter(25) == 'e' && Letter(31) == 'l' && Letter(20) == '5'
  {
  }

  lemma NoGroups()
    ensures Groups([]) == []
  {
    GroupsAreBits([]);
  }
}
