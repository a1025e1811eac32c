/** Bytes, fixed-width words, and the little-endian layout shared by the album
    builder, the player, the history file and the companion link. */
module Bytes {

  type byte = b: int | 0 <= b < 0x100
  type uint16 = w: int | 0 <= w < 0x1_0000
  type uint32 = w: int | 0 <= w < 0x1_0000_0000

  const UINT32_MAX: uint32 := 0xFFFF_FFFF

  /** The parts joined end to end. */
  function Concat<T>(parts: seq<seq<T>>): seq<T> {
    if parts == [] then [] else parts[0] + Concat(parts[1..])
  }

  lemma Assoc<T>(a: seq<T>, b: seq<T>, c: seq<T>)
    ensures a + (b + c) == (a + b) + c
  {
  }

  lemma {:induction false} ConcatSplit<T>(left: seq<seq<T>>, right: seq<seq<T>>)
    ensures Concat(left + right) == Concat(left) + Concat(right)
  {
    if left == [] {
      assert left + right == right;
    } else {
      assert (left + right)[1..] == left[1..] + right;
      ConcatSplit(left[1..], right);
    }
  }

  lemma ConcatOne<T>(parts: seq<seq<T>>, part: seq<T>)
    ensures Concat(parts + [part]) == Concat(parts) + part
  {
    ConcatSplit(parts, [part]);
    assert [part][1..] == [];
    assert Concat([part]) == part;
  }

  lemma SliceOfTail<T>(s: seq<T>, tail: nat, from: nat, to: nat)
    requires from <= to && tail + to <= |s|
    ensures s[tail..][from..to] == s[tail + from..tail + to]
  {
  }

  lemma SliceOfSlice<T>(s: seq<T>, lo: nat, hi: nat, from: nat, to: nat)
    requires lo <= hi <= |s| && from <= to <= hi - lo
    ensures s[lo..hi][from..to] == s[lo + from..lo + to]
  {
    var inner, direct := s[lo..hi][from..to], s[lo + from..lo + to];
    forall i | 0 <= i < |inner| ensures inner[i] == direct[i] {
      assert s[lo..hi][from + i] == s[lo + from + i];
    }
  }

  /** The non-empty parts, in order. */
  function NonEmpty<T(==,!new)>(parts: seq<seq<T>>): (kept: seq<seq<T>>)
    ensures forall p :: p in kept <==> p in parts && p != []
  {
    if parts == [] then []
    else (if parts[0] == [] then [] else [parts[0]]) + NonEmpty(parts[1..])
  }

  lemma {:induction false} NonEmptySplit<T(!new)>(left: seq<seq<T>>, right: seq<seq<T>>)
    ensures NonEmpty(left + right) == NonEmpty(left) + NonEmpty(right)
  {
    if left == [] {
      assert left + right == right;
    } else {
      assert (left + right)[1..] == left[1..] + right;
      NonEmptySplit(left[1..], right);
    }
  }

  function Le16(w: uint16): (bs: seq<byte>)
    ensures |bs| == 2
  {
    [w % 0x100, w / 0x100]
  }

  function FromLe16(bs: seq<byte>): uint16
    requires |bs| == 2
  {
    bs[0] as int + bs[1] as int * 0x100
  }

  function Le32(w: uint32): (bs: seq<byte>)
    ensures |bs| == 4
  {
    [w % 0x100, w / 0x100 % 0x100, w / 0x1_0000 % 0x100, w / 0x100_0000]
  }

  function FromLe32(bs: seq<byte>): uint32
    requires |bs| == 4
  {
    bs[0] as int + bs[1] as int * 0x100 + bs[2] as int * 0x1_0000 + bs[3] as int * 0x100_0000
  }

  lemma Le16RoundTrip(w: uint16, bs: seq<byte>)
    requires |bs| == 2
    ensures FromLe16(Le16(w)) == w
    ensures Le16(FromLe16(bs)) == bs
  {
    assert FromLe16(bs) % 0x100 == bs[0];
  }

  /** The low byte of `w`, and the rest. */
  lemma LowByte(low: byte, high: nat)
    ensures (low as int + 0x100 * high) % 0x100 == low
    ensures (low as int + 0x100 * high) / 0x100 == high
  {
  }

  lemma NestedDivision(w: nat)
    ensures w / 0x1_0000 == w / 0x100 / 0x100
    ensures w / 0x100_0000 == w / 0x100 / 0x100 / 0x100
  {
  }

  lemma Le32RoundTrip(w: uint32)
    ensures FromLe32(Le32(w)) == w
  {
    NestedDivision(w);
  }

  lemma Le32Inverse(bs: seq<byte>)
    requires |bs| == 4
    ensures Le32(FromLe32(bs)) == bs
  {
    var top: nat := bs[2] as int + 0x100 * bs[3] as int;
    var upper: nat := bs[1] as int + 0x100 * top;
    LowByte(bs[2], bs[3]);
    LowByte(bs[1], top);
    LowByte(bs[0], upper);
    NestedDivision(FromLe32(bs));
    assert FromLe32(bs) == bs[0] as int + 0x100 * upper;
  }
}
