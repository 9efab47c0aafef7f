/** Three-way comparison and the lexicographic order of sequences. */
module Ordering {

  datatype Order = Less | Equal | Greater

  function Flip(o: Order): Order {
    match o
    case Less => Greater
    case Equal => Equal
    case Greater => Less
  }

  function Then(o: Order, next: Order): Order {
    if o == Equal then next else o
  }

  function CompareInt(a: int, b: int): Order {
    if a < b then Less else if a > b then Greater else Equal
  }

  // Element by element; a proper prefix is less.
  function Compare(a: seq<int>, b: seq<int>): Order {
    if a == [] then (if b == [] then Equal else Less)
    else if b == [] then Greater
    else Then(CompareInt(a[0], b[0]), Compare(a[1..], b[1..]))
  }

  lemma {:induction false} CompareFlip(a: seq<int>, b: seq<int>)
    ensures Compare(b, a) == Flip(Compare(a, b))
    ensures Compare(a, b) == Equal <==> a == b
  {
    if a != [] && b != [] {
      CompareFlip(a[1..], b[1..]);
      assert a == [a[0]] + a[1..] && b == [b[0]] + b[1..];
    }
  }

  lemma {:induction false} CompareTransitive(a: seq<int>, b: seq<int>, c: seq<int>)
    requires Compare(a, b) == Less && Compare(b, c) == Less
    ensures Compare(a, c) == Less
  {
    if a != [] {
      if a[0] == b[0] && b[0] == c[0] {
        CompareTransitive(a[1..], b[1..], c[1..]);
      }
    }
  }

  // Text compares by code point.
  function Codes(s: string): (c: seq<int>)
    ensures |c| == |s| && forall i :: 0 <= i < |s| ==> c[i] == s[i] as int
  {
    seq(|s|, i requires 0 <= i < |s| => s[i] as int)
  }

  lemma CodesInjective(a: string, b: string)
    ensures Codes(a) == Codes(b) <==> a == b
  {
    if Codes(a) == Codes(b) {
      assert forall i :: 0 <= i < |a| ==> a[i] as int == Codes(a)[i] && b[i] as int == Codes(b)[i];
    }
  }
}
