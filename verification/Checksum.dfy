/** The checksum of a byte range of a block that is held in several pieces. */
module Checksum {
  import opened Crc32c
  import Crc32cSw
  import Crc32cHw

  function Flat(parts: seq<seq<u8>>): seq<u8> {
    if parts == [] then [] else parts[0] + Flat(parts[1..])
  }

  function Smaller(a: nat, b: nat): nat { if a < b then a else b }

  /** The bytes the loop runs over: it ends at a piece that is empty or shorter than the offset. */
  function Fed(parts: seq<seq<u8>>, offset: nat, size: nat): (r: seq<u8>)
    ensures |r| <= size
    decreases |parts|
  {
    if parts == [] || |parts[0]| < offset || parts[0] == [] || size == 0 then []
    else
      var n := Smaller(|parts[0]| - offset, size);
      parts[0][offset..offset + n] + Fed(parts[1..], 0, size - n)
  }

  /** The offset lies in the first piece, and no piece is empty before the range ends. */
  predicate Reaches(parts: seq<seq<u8>>, offset: nat, size: nat)
    decreases |parts|
  {
    size == 0 ||
    (parts != [] && parts[0] != [] && offset <= |parts[0]| &&
     Reaches(parts[1..], 0, size - Smaller(|parts[0]| - offset, size)))
  }

  lemma {:induction false} FedAll(parts: seq<seq<u8>>, offset: nat, size: nat)
    requires offset + size <= |Flat(parts)|
    ensures |Fed(parts, offset, size)| == size <==> Reaches(parts, offset, size)
    ensures Reaches(parts, offset, size) ==> Fed(parts, offset, size) == Flat(parts)[offset..offset + size]
    decreases |parts|
  {
    if parts == [] || |parts[0]| < offset || parts[0] == [] || size == 0 {
    } else {
      var n := Smaller(|parts[0]| - offset, size);
      FedAll(parts[1..], 0, size - n);
    }
  }

  /** The loop runs over the flat byte range exactly when the pieces reach to its end. */
  lemma RangeCovered(parts: seq<seq<u8>>, offset: nat, size: nat)
    requires offset + size <= |Flat(parts)|
    ensures Fed(parts, offset, size) == Flat(parts)[offset..offset + size] <==> Reaches(parts, offset, size)
  {
    FedAll(parts, offset, size);
  }

  lemma FedNone(offset: nat, size: nat)
    ensures Fed([], offset, size) == []
  {}

  lemma CrcNothing()
    ensures Crc(0, []) == 0
  {}

  lemma FedNext(parts: seq<seq<u8>>, i: nat, offset: nat, size: nat)
    requires i < |parts|
    ensures |parts[i]| < offset || parts[i] == [] || size == 0 ==> Fed(parts[i..], offset, size) == []
    ensures !(|parts[i]| < offset || parts[i] == [] || size == 0) ==>
      var n := Smaller(|parts[i]| - offset, size);
      Fed(parts[i..], offset, size) == parts[i][offset..offset + n] + Fed(parts[i + 1..], 0, size - n)
  {
    assert parts[i..][0] == parts[i] && parts[i..][1..] == parts[i + 1..];
  }

  /** Either implementation, as chosen at start-up; `address` is where the bytes lie in memory. */
  method Run(hardware: bool, crc: u32, buf: seq<u8>, address: nat) returns (r: u32)
    ensures r == Crc(crc, buf)
  {
    hide Crc;
    if hardware {
      r := Crc32cHw.Hw(crc, buf, address);
    } else {
      r := Crc32cSw.Sw(crc, buf, address);
    }
  }

  method ChecksumOf(hardware: bool, parts: seq<seq<u8>>, addresses: seq<nat>, from: nat, length: nat) returns (crc: u32)
    requires |addresses| == |parts|
    ensures crc == Crc(0, Fed(parts, from, length))
    ensures from + length <= |Flat(parts)| && Reaches(parts, from, length) ==>
      crc == Crc(0, Flat(parts)[from..from + length])
  {
    hide Crc, Fed, Flat, Reaches;
    var offset: nat, size: nat := from, length;
    ghost var done: seq<u8> := [];
    crc := 0;
    CrcNothing();
    var i := 0;
    while i < |parts|
      invariant 0 <= i <= |parts| && crc == Crc(0, done)
      invariant Fed(parts, from, length) == done + Fed(parts[i..], offset, size)
    {
      FedNext(parts, i, offset, size);
      if |parts[i]| < offset || |parts[i]| == 0 || size == 0 {
        break;
      }
      var n := Smaller(|parts[i]| - offset, size);
      var piece := parts[i][offset..offset + n];
      CrcConcat(0, done, piece);
      crc := Run(hardware, crc, piece, addresses[i] + offset);
      assert done + (piece + Fed(parts[i + 1..], 0, size - n)) == done + piece + Fed(parts[i + 1..], 0, size - n);
      done := done + piece;
      size := size - n;
      offset := 0;
      i := i + 1;
    }
    FedNone(offset, size);
    assert parts[|parts|..] == [];
    assert done == done + [] == Fed(parts, from, length);
    if from + length <= |Flat(parts)| {
      RangeCovered(parts, from, length);
    }
  }
}
