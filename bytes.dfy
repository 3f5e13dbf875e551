/**
 * Bytes and the little-endian unsigned integers of the STDF V4 format
 * (the Go package `encoding/binary`, `LittleEndian` byte order).
 */
module Bytes {

  type byte = x: int | 0 <= x < 256
  type u16 = x: int | 0 <= x < 0x1_0000
  type u32 = x: int | 0 <= x < 0x1_0000_0000

  /** 256 to the power n: the number of values an n-byte field can hold. */
  function Pow256(n: nat): (r: nat)
    ensures r > 0
  {
    if n == 0 then 1 else 256 * Pow256(n - 1)
  }

  /** Value of a little-endian byte string: the first byte is the least significant. */
  function FromLittleEndian(bs: seq<byte>): (v: nat)
    ensures v < Pow256(|bs|)
  {
    if bs == [] then 0
    else
      var rest := FromLittleEndian(bs[1..]);
      assert 256 * rest <= 256 * (Pow256(|bs| - 1) - 1);
      bs[0] + 256 * rest
  }

  /** The n-byte little-endian image of v. */
  function ToLittleEndian(v: nat, n: nat): (bs: seq<byte>)
    requires v < Pow256(n)
    ensures |bs| == n
  {
    if n == 0 then []
    else [v % 256] + ToLittleEndian(v / 256, n - 1)
  }

  lemma {:induction false} FromToLittleEndian(v: nat, n: nat)
    requires v < Pow256(n)
    ensures FromLittleEndian(ToLittleEndian(v, n)) == v
  {
    if n > 0 {
      var bs := ToLittleEndian(v, n);
      assert bs[1..] == ToLittleEndian(v / 256, n - 1);
      FromToLittleEndian(v / 256, n - 1);
    }
  }

  lemma {:induction false} ToFromLittleEndian(bs: seq<byte>)
    ensures ToLittleEndian(FromLittleEndian(bs), |bs|) == bs
  {
    if bs != [] {
      var rest := FromLittleEndian(bs[1..]);
      var v := bs[0] + 256 * rest;
      assert v % 256 == bs[0] && v / 256 == rest;
      ToFromLittleEndian(bs[1..]);
    }
  }

  /** `binary.LittleEndian.Uint16`: reads the first two bytes of `b` (it panics on fewer). */
  function Uint16(b: seq<byte>): (r: u16)
    requires |b| >= 2
    ensures r == b[0] as int + 256 * b[1] as int
  {
    var w := b[..2];
    assert w[1..][1..] == [];
    assert FromLittleEndian(w[1..]) == b[1];
    FromLittleEndian(w)
  }

  /** `binary.LittleEndian.Uint32`: reads the first four bytes of `b`. */
  function Uint32(b: seq<byte>): (r: u32)
    requires |b| >= 4
    ensures r == b[0] as int + 0x100 * b[1] as int + 0x1_0000 * b[2] as int + 0x100_0000 * b[3] as int
  {
    var w := b[..4];
    assert w[1..][1..][1..][1..] == [];
    assert FromLittleEndian(w[1..][1..][1..]) == b[3];
    assert FromLittleEndian(w[1..][1..]) == b[2] + 256 * b[3] as int;
    assert FromLittleEndian(w[1..]) == b[1] + 256 * b[2] as int + 0x1_0000 * b[3] as int;
    FromLittleEndian(w)
  }

  /** `binary.LittleEndian.PutUint16`: the low byte of v, then the high byte. */
  function PutUint16(v: u16): (b: seq<byte>)
    ensures b == [v % 256, v / 256]
  {
    var b := ToLittleEndian(v, 2);
    assert v / 256 / 256 == 0;
    assert b[1..] == ToLittleEndian(v / 256, 1) == [v / 256];
    b
  }
}
