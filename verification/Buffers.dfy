/** Buffers of zeros, and the copying that memcpy, strcpy and recv do. */
module Buffers {
  import opened Words

  function Zeros(n: nat): seq<Byte> {
    seq(n, i => 0)
  }

  /** Copies `input` over the elements of `output` that start at `at`. */
  method CopyInto<T>(output: array<T>, at: nat, input: seq<T>)
    requires at + |input| <= output.Length
    modifies output
    ensures output[..] == old(output[..at]) + input + old(output[at + |input|..])
  {
    var i := 0;
    while i < |input|
      invariant 0 <= i <= |input|
      invariant forall k :: 0 <= k < i ==> output[at + k] == input[k]
      invariant forall k :: 0 <= k < at || at + i <= k < output.Length ==> output[k] == old(output[k])
    {
      output[at + i] := input[i];
      i := i + 1;
    }
    assert output[at..at + i] == input;
    assert output[..] == output[..at] + output[at..at + i] + output[at + i..];
  }
}
