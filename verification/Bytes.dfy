/** Bytes, joining pieces of a stream, and storing them one after another in an array. */
module Bytes {

  type byte = x: int | 0 <= x < 256

  function Joined(parts: seq<seq<byte>>): seq<byte> {
    if parts == [] then [] else parts[0] + Joined(parts[1..])
  }

  /** Bytes put into memory behind those already stored. */
  method StoreAll(out: array<byte>, pos: nat, bytes: seq<byte>, ghost stored: seq<byte>, ghost before: seq<byte>)
    requires pos == |stored| && pos + |bytes| <= |before| && out[..] == stored + before[pos..]
    modifies out
    ensures out[..] == (stored + bytes) + before[pos + |bytes|..]
  {
    forall i | 0 <= i < |bytes| {
      out[pos + i] := bytes[i];
    }
  }

  lemma Regroup(a: seq<byte>, b: seq<byte>, c: seq<byte>)
    ensures a + (b + c) == (a + b) + c
  {}
}
