/** Bytes and runs of bytes. */
module Bytes {
  type byte = n: int | 0 <= n < 256

  /** The buffer after `bytes` has been stored at `at`. */
  function Splice(buffer: seq<byte>, at: nat, bytes: seq<byte>): (r: seq<byte>)
    requires at + |bytes| <= |buffer|
    ensures |r| == |buffer|
  {
    buffer[..at] + bytes + buffer[at + |bytes|..]
  }

  /** What is where after a store. */
  lemma SpliceParts(buffer: seq<byte>, at: nat, bytes: seq<byte>)
    requires at + |bytes| <= |buffer|
    ensures var r := Splice(buffer, at, bytes);
      r[..at] == buffer[..at] && r[at..at + |bytes|] == bytes &&
      forall i :: at + |bytes| <= i < |buffer| ==> r[i] == buffer[i]
  {
  }

  lemma SpliceNothing(buffer: seq<byte>, at: nat)
    requires at <= |buffer|
    ensures Splice(buffer, at, []) == buffer
  {
  }

  /** Storing two runs one after the other is storing them as one. */
  lemma SpliceTwice(buffer: seq<byte>, at: nat, a: seq<byte>, b: seq<byte>)
    requires at + |a| + |b| <= |buffer|
    ensures Splice(Splice(buffer, at, a), at + |a|, b) == Splice(buffer, at, a + b)
  {
  }

  lemma SpliceUpdate(buffer: seq<byte>, at: nat, a: seq<byte>, k: nat, v: byte)
    requires at + |a| <= |buffer| && k < |a|
    ensures Splice(buffer, at, a)[at + k := v] == Splice(buffer, at, a[k := v])
  {
  }

  /** memcpy into a buffer. */
  method Store(a: array<byte>, at: nat, bytes: seq<byte>)
    requires at + |bytes| <= a.Length
    modifies a
    ensures a[..] == Splice(old(a[..]), at, bytes)
  {
    var i := 0;
    while i < |bytes|
      invariant 0 <= i <= |bytes|
      invariant a[at..at + i] == bytes[..i]
      invariant a[..at] == old(a[..at]) && a[at + i..] == old(a[..])[at + i..]
    {
      a[at + i] := bytes[i];
      i := i + 1;
    }
    assert a[..] == a[..at] + a[at..at + i] + a[at + i..];
  }
}
