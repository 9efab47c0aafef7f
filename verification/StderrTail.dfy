/** The bounded tail a hook's standard error is reduced to, whatever sizes its reads come in. */
module StderrTail {

  const LIMIT: nat := 1024
  const CHUNK: nat := 256

  type Byte = b: int | 0 <= b < 256

  // One read of the stream: some bytes, its end, or a failure.
  datatype Read = Bytes(bytes: seq<Byte>) | End | Failed

  predicate Stops(r: Read) {
    !r.Bytes? || r.bytes == []
  }

  // What a 256-byte buffer can receive.
  predicate FitsChunk(input: seq<Read>) {
    forall i :: 0 <= i < |input| ==> input[i].Bytes? ==> |input[i].bytes| <= CHUNK
  }

  // The bytes that arrive before the stream ends or fails.
  function Received(input: seq<Read>): seq<Byte> {
    if input == [] || Stops(input[0]) then [] else input[0].bytes + Received(input[1..])
  }

  function Last(s: seq<Byte>, n: nat): (t: seq<Byte>) {
    if |s| <= n then s else s[|s| - n..]
  }

  // Trimming early and trimming late keep the same bytes.
  lemma LastOfLast(s: seq<Byte>, more: seq<Byte>, n: nat, m: nat)
    requires n <= m
    ensures Last(Last(s, m) + more, n) == Last(s + more, n)
  {
    if |s| > m {
      assert Last(s, m) + more == (s + more)[|s| - m..];
    }
  }

  lemma {:induction false} ReceivedSnoc(input: seq<Read>, k: nat)
    requires k < |input| && !Stops(input[k]) && forall i :: 0 <= i < k ==> !Stops(input[i])
    ensures Received(input[..k + 1]) == Received(input[..k]) + input[k].bytes
  {
    if k == 0 {
      assert input[..1][1..] == [];
    } else {
      ReceivedSnoc(input[1..], k - 1);
      assert input[..k + 1][1..] == input[1..][..k] && input[..k][1..] == input[1..][..k - 1];
    }
  }

  lemma {:induction false} ReceivedStops(input: seq<Read>, k: nat)
    requires k <= |input| && (k == |input| || Stops(input[k]))
    requires forall i :: 0 <= i < k ==> !Stops(input[i])
    ensures Received(input[..k]) == Received(input)
  {
    if k > 0 {
      assert input[..k][1..] == input[1..][..k - 1];
      ReceivedStops(input[1..], k - 1);
    }
  }

  function Joined(chunks: seq<seq<Byte>>): seq<Byte> {
    if chunks == [] then [] else chunks[0] + Joined(chunks[1..])
  }

  // What is received are the bytes of all reads before the first that brings none, whether at
  // the end, by an error or empty, and nothing after it.
  lemma {:induction false} ReceivedExactly(chunks: seq<seq<Byte>>, input: seq<Read>, stop: Read, rest: seq<Read>)
    requires |input| == |chunks| && stop in [End, Failed, Bytes([])]
    requires forall i :: 0 <= i < |input| ==> input[i] == Bytes(chunks[i]) && chunks[i] != []
    ensures Received(input) == Joined(chunks) && Received(input + [stop] + rest) == Joined(chunks)
    decreases |chunks|
  {
    var all := input + [stop] + rest;
    if chunks != [] {
      ReceivedExactly(chunks[1..], input[1..], stop, rest);
      assert all[1..] == input[1..] + [stop] + rest;
    }
  }

  // The last `LIMIT` bytes of everything received. `peak` is the most the buffer ever held:
  // all of a short stream, and for a longer one at most four limits and one read.
  method ReadTail(input: seq<Read>) returns (buf: seq<Byte>, peak: nat)
    requires FitsChunk(input)
    ensures buf == Last(Received(input), 1024)
    ensures |Received(input)| <= 4096 ==> peak == |Received(input)|
    ensures |Received(input)| > 4096 ==> 4096 < peak <= 4352
  {
    buf, peak := [], 0;
    var k := 0;
    while k < |input| && !Stops(input[k])
      invariant k <= |input| && forall i :: 0 <= i < k ==> !Stops(input[i])
      invariant Last(buf, LIMIT) == Last(Received(input[..k]), LIMIT)
      invariant |buf| <= 4 * LIMIT
      invariant |Received(input[..k])| <= 4 * LIMIT ==> peak == |buf| == |Received(input[..k])|
      invariant |Received(input[..k])| > 4 * LIMIT ==> 4 * LIMIT < peak <= 4 * LIMIT + CHUNK
    {
      var bytes := input[k].bytes;
      ReceivedSnoc(input, k);
      LastOfLast(buf, bytes, LIMIT, LIMIT);
      LastOfLast(Received(input[..k]), bytes, LIMIT, LIMIT);
      buf := buf + bytes;
      peak := if |buf| > peak then |buf| else peak;
      if |buf| > LIMIT * 4 {
        var drop := |buf| - LIMIT;
        buf := buf[drop..];
      }
      k := k + 1;
    }
    ReceivedStops(input, k);
    if |buf| > LIMIT {
      buf := buf[|buf| - LIMIT..];
    }
  }
}
