/** Machine integers and the big-endian conversions used on the wire
    (`u32::to_be_bytes` and `num_from_arr` of lib.rs). */
module Bytes {

  type byte = x: int | 0 <= x < 0x100
  type u16 = x: int | 0 <= x < 0x1_0000
  type u32 = x: int | 0 <= x < 0x1_0000_0000
  type i32 = x: int | -0x8000_0000 <= x < 0x8000_0000

  function Min(a: int, b: int): int { if a < b then a else b }

  /** One more factor of `m`: kept apart so that the nonlinear step does
      not meet the rest of a proof. */
  lemma MulSucc(k: nat, m: nat)
    requires k >= 1
    ensures (k - 1) * m + m == k * m
  {
  }

  /** A multiple of `b` divided by `b` and multiplied back. */
  lemma DivMulExact(a: nat, b: nat)
    requires b > 0 && a % b == 0
    ensures (a / b) * b == a
  {
  }

  /** `x.to_be_bytes()` for a `u32`: most significant byte first. */
  function ToBeBytes(x: u32): (r: seq<byte>)
    ensures |r| == 4
  {
    [x / 0x100_0000, (x / 0x1_0000) % 0x100, (x / 0x100) % 0x100, x % 0x100]
  }

  /** `num_from_arr::<u32>`: the big-endian value of exactly four bytes
      (the source asserts the length). Its inverse is `ToBeBytes`. */
  function NumFromArrU32(data: seq<byte>): (r: u32)
    requires |data| == 4
    ensures ToBeBytes(r) == data
  {
    var r := (data[0] as int) * 0x100_0000 + (data[1] as int) * 0x1_0000 + (data[2] as int) * 0x100 + data[3] as int;
    BeDigits(data[0], data[1], data[2], data[3]);
    r
  }

  /** `num_from_arr::<i32>`: the same four bytes read as a two's-complement
      `i32`. It is the unique `i32` congruent to the `u32` reading modulo 2^32,
      and it is negative exactly when the top bit of the first byte is set. */
  function NumFromArrI32(data: seq<byte>): (r: i32)
    requires |data| == 4
    ensures r % 0x1_0000_0000 == NumFromArrU32(data)
    ensures r < 0 <==> data[0] >= 0x80
  {
    var u := NumFromArrU32(data);
    if u >= 0x8000_0000 then u - 0x1_0000_0000 else u
  }

  lemma BeDigits(b0: int, b1: int, b2: int, b3: int)
    requires 0 <= b0 < 0x100 && 0 <= b1 < 0x100 && 0 <= b2 < 0x100 && 0 <= b3 < 0x100
    ensures var x := b0 * 0x100_0000 + b1 * 0x1_0000 + b2 * 0x100 + b3;
            0 <= x < 0x1_0000_0000 &&
            x / 0x100_0000 == b0 && (x / 0x1_0000) % 0x100 == b1 &&
            (x / 0x100) % 0x100 == b2 && x % 0x100 == b3
  {
    var x := b0 * 0x100_0000 + b1 * 0x1_0000 + b2 * 0x100 + b3;
    var lo := b1 * 0x1_0000 + b2 * 0x100 + b3;
    assert 0 <= lo < 0x100_0000;
    assert x == b0 * 0x100_0000 + lo;
    assert x / 0x100_0000 == b0;
    var mid := b2 * 0x100 + b3;
    assert 0 <= mid < 0x1_0000;
    assert x == (b0 * 0x100 + b1) * 0x1_0000 + mid;
    assert x / 0x1_0000 == b0 * 0x100 + b1;
    assert x == (b0 * 0x1_0000 + b1 * 0x100 + b2) * 0x100 + b3;
    assert x / 0x100 == b0 * 0x1_0000 + b1 * 0x100 + b2;
  }

  /** Reading back the bytes `ToBeBytes` produces gives the number again. */
  lemma {:induction false} BeRoundTrip(x: u32)
    ensures NumFromArrU32(ToBeBytes(x)) == x
  {
    var b := ToBeBytes(x);
    var q := x / 0x100;
    assert x == q * 0x100 + b[3];
    var q2 := q / 0x100;
    assert q == q2 * 0x100 + b[2];
    assert q2 == x / 0x1_0000;
    var q3 := q2 / 0x100;
    assert q2 == q3 * 0x100 + b[1];
    assert q3 == x / 0x100_0000;
    assert q3 == b[0];
  }
}
