/** The small vector and option types the rendering core is built from.
    `Vec3`/`Vec4` stand for glm's fixed-size vectors: `rgb`/`rgba` are
    8-bit vectors, `hrgb`/`hrgba` their floating-point (HDR) versions. */
module Types {

  /** An 8-bit unsigned sample (`uint8_t`). */
  type byte = x: int | 0 <= x < 256

  datatype Vec3<T> = Vec3(r: T, g: T, b: T)
  datatype Vec4<T> = Vec4(r: T, g: T, b: T, a: T)

  type Rgb = Vec3<byte>
  type Rgba = Vec4<byte>
  /** Float colours are modelled over the reals. */
  type Hrgb = Vec3<real>
  type Hrgba = Vec4<real>

  /** glm's one-argument vector constructor: the value in every channel. */
  function Grey(v: byte): (c: Rgb)
  {
    Vec3(v, v, v)
  }

  /** `None` marks a result the C++ code leaves undefined (an out-of-range read
      or an unrepresentable float-to-integer conversion). */
  datatype Option<T> = None | Some(value: T)

  function Min(a: int, b: int): int { if a < b then a else b }
  function Max(a: int, b: int): int { if a < b then b else a }

  /** `x * y` as repeated addition. Products of two variables (a row
      times a row length, a sample times an alpha) are written with it so
      that the proofs about painting see only linear arithmetic;
      `MulIsProduct` ties it to `*` where a proof needs the product. */
  function Mul(x: nat, y: nat): nat
    decreases y
  {
    if y == 0 then 0 else Mul(x, y - 1) + x
  }

  lemma {:induction false} MulIsProduct(x: nat, y: nat)
    ensures Mul(x, y) == x * y
    decreases y
  {
    if y > 0 {
      MulIsProduct(x, y - 1);
    }
  }
}
