/** The C library's copying and filling of memory. */
module LibcMemory {
  import opened Words

  function Zeros(n: nat): (s: seq<Byte>)
    ensures |s| == n
  {
    seq(n, i => 0)
  }

  /** `bytecpy`, byte by byte. */
  method CopyBytes<T>(destination: array<T>, at: nat, source: seq<T>)
    requires at + |source| <= destination.Length
    modifies destination
    ensures destination[..] == old(destination[..at]) + source + old(destination[at + |source|..])
  {
    var i := 0;
    while i < |source|
      invariant 0 <= i <= |source|
      invariant destination[at..at + i] == source[..i]
      invariant destination[..at] == old(destination[..at])
      invariant destination[at + i..] == old(destination[at + i..])
    {
      destination[at + i] := source[i];
      i := i + 1;
    }
    assert destination[..] == destination[..at] + destination[at..at + i] + destination[at + i..];
    assert source[..i] == source;
  }
}
