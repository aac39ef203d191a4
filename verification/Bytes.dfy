/** Little-endian integers and fixed layouts of integer fields over byte sequences. */
module Bytes {
  import opened Prelude

  type Byte = x: int | 0 <= x < 256

  function Pow256(k: nat): nat {
    if k == 0 then 1 else 256 * Pow256(k - 1)
  }

  /** The k low bytes of n, least significant byte first. */
  function ToLE(n: nat, k: nat): (b: seq<Byte>)
    ensures |b| == k
  {
    if k == 0 then [] else [n % 256] + ToLE(n / 256, k - 1)
  }

  function FromLE(b: seq<Byte>): nat {
    if b == [] then 0 else b[0] + 256 * FromLE(b[1..])
  }

  /** Encoding n in k bytes loses nothing exactly when n fits k bytes. */
  lemma {:induction false} LittleEndianRoundTrip(n: nat, k: nat)
    ensures FromLE(ToLE(n, k)) == n <==> n < Pow256(k)
    ensures FromLE(ToLE(n, k)) < Pow256(k)
  {
    if k == 0 {
    } else {
      LittleEndianRoundTrip(n / 256, k - 1);
      assert ToLE(n, k)[1..] == ToLE(n / 256, k - 1);
      assert n == n % 256 + 256 * (n / 256);
    }
  }

  lemma {:induction false} FromLEBound(b: seq<Byte>)
    ensures FromLE(b) < Pow256(|b|)
  {
    if b != [] {
      FromLEBound(b[1..]);
    }
  }

  lemma Widths()
    ensures Pow256(1) == 0x100 && Pow256(2) == 0x1_0000 && Pow256(4) == 0x1_0000_0000 && Pow256(8) == TWO_64
  {
    assert Pow256(3) == 0x100_0000;
    assert Pow256(4) == 0x1_0000_0000;
    assert Pow256(5) == 0x100_0000_0000;
    assert Pow256(6) == 0x1_0000_0000_0000;
    assert Pow256(7) == 0x100_0000_0000_0000;
  }

  /** A blocking stream read of n bytes: the bytes and what is left of the stream. */
  function Take(input: seq<Byte>, n: nat): (r: Option<(seq<Byte>, seq<Byte>)>)
    ensures r.Some? <==> n <= |input|
    ensures r.Some? ==> |r.value.0| == n && |r.value.1| == |input| - n
  {
    if n <= |input| then Some((input[..n], input[n..])) else None
  }

  lemma TakePrefix(a: seq<Byte>, rest: seq<Byte>)
    ensures Take(a + rest, |a|) == Some((a, rest))
  {
    assert (a + rest)[..|a|] == a && (a + rest)[|a|..] == rest;
  }

  /** Values written one after the other, value i in widths[i] bytes. */
  function EncodeInts(widths: seq<nat>, values: seq<nat>): (b: seq<Byte>)
    decreases |widths|
  {
    if |widths| == 0 || |values| == 0 then [] else ToLE(values[0], widths[0]) + EncodeInts(widths[1..], values[1..])
  }

  function DecodeInts(widths: seq<nat>, input: seq<Byte>): (r: Option<(seq<nat>, seq<Byte>)>)
    ensures r.Some? ==> |r.value.0| == |widths| && |r.value.1| <= |input|
    decreases |widths|
  {
    if widths == [] then Some(([], input))
    else
      var (field, afterField) :- Take(input, widths[0]);
      var (values, rest) :- DecodeInts(widths[1..], afterField);
      Some(([FromLE(field)] + values, rest))
  }

  ghost predicate Fits(widths: seq<nat>, values: seq<nat>) {
    |widths| == |values| && forall i | 0 <= i < |widths| :: values[i] < Pow256(widths[i])
  }

  /** Fields that fit their widths are read back, and exactly their bytes are consumed. */
  lemma {:induction false} IntsRoundTrip(widths: seq<nat>, values: seq<nat>, rest: seq<Byte>)
    requires Fits(widths, values)
    ensures DecodeInts(widths, EncodeInts(widths, values) + rest) == Some((values, rest))
    decreases |widths|
  {
    if widths == [] {
      assert EncodeInts(widths, values) + rest == rest;
    } else {
      var head := ToLE(values[0], widths[0]);
      var tail := EncodeInts(widths[1..], values[1..]);
      assert EncodeInts(widths, values) + rest == head + (tail + rest);
      TakePrefix(head, tail + rest);
      LittleEndianRoundTrip(values[0], widths[0]);
      IntsRoundTrip(widths[1..], values[1..], rest);
      assert [values[0]] + values[1..] == values;
    }
  }
}
