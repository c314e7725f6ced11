/** Eight-bit cell arithmetic: what a Brainfuck cell is meant to do, and what the Rust
    interpreter's `wrapping_add`/`wrapping_sub` on `u8` do. */
module Cells {
  /** Addition that wraps modulo 256. */
  function AddByte(x: nat, v: nat): (r: nat)
    ensures r < 256 && (r - x - v) % 256 == 0
  {
    (x + v) % 256
  }

  /** Subtraction that wraps modulo 256. */
  function SubByte(x: nat, v: nat): (r: nat)
    ensures r < 256 && (r - x + v) % 256 == 0
  {
    (x - v) % 256
  }

  /** The remainder by 256 of JavaScript's and Go's `%`: it takes the sign of the
      dividend, where Dafny's `%` is never negative. */
  function TruncRem(a: int): (r: int)
    ensures -256 < r < 256 && (a - r) % 256 == 0
    ensures a >= 0 ==> r >= 0
    ensures a < 0 ==> r <= 0
  {
    if a >= 0 then a % 256 else -((-a) % 256)
  }

  /** The remainder is the unique `r` in [0, 256) with `y - r` a multiple of 256. */
  lemma ModUnique(y: int, q: int, r: int)
    requires 0 <= r < 256 && y == 256 * q + r
    ensures y % 256 == r
  {
    var q0, r0 := y / 256, y % 256;
    assert y == 256 * q0 + r0;
    assert 256 * (q - q0) == r0 - r;
  }

  /** Subtracting undoes adding, and adding undoes subtracting, on bytes. */
  lemma AddSubInverse(x: nat, v: nat)
    requires x < 256
    ensures SubByte(AddByte(x, v), v) == x
    ensures AddByte(SubByte(x, v), v) == x
  {
    var a := AddByte(x, v);
    ModUnique(a - v, -((x + v) / 256), x);
    var b := SubByte(x, v);
    ModUnique(b + v, -((x - v) / 256), x);
  }

  /** The two boundary cases of wrapping. */
  lemma WrapExamples()
    ensures SubByte(0, 1) == 255 && AddByte(255, 1) == 0
  {
  }
}
