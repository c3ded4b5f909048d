/** The CPU pixel buffer (`RawImage<T>`, identical in logic to `Buffer3D<T>`):
    a flat, channel-interleaved, row-major vector of samples with its
    width, height, channel count and two cached sizes. */
module Buffer {
  import opened Types

  /** The dimensions of a buffer, and the index arithmetic built on them. */
  datatype Layout = Layout(width: nat, height: nat, channel: nat)
  {
    /** `length`: the number of samples, `width * height * channel`. */
    function Length(): nat { width * height * channel }

    /** `area`: the number of pixels, `width * height`. */
    function Area(): nat { width * height }

    /** `getIndex`: the first sample of pixel (col, row). */
    function Index(col: nat, row: nat): nat
    {
      row * (width * channel) + col * channel
    }

    /** `getRow`: the row of the pixel that holds sample `index`. */
    function Row(index: nat): nat
      requires channel > 0 && width > 0
    {
      (index / channel) / width
    }

    /** `getCol`: the column of the pixel that holds sample `index`. */
    function Col(index: nat): nat
      requires channel > 0 && width > 0
    {
      (index / channel) % width
    }

    predicate Contains(col: int, row: int)
    {
      0 <= col < width && 0 <= row < height
    }
  }

  // ---------------------------------------------------------------------
  // Arithmetic facts the index maps rest on.

  lemma DivModUnique(q: int, r: int, d: int)
    requires d > 0 && 0 <= r < d
    ensures (q * d + r) / d == q
    ensures (q * d + r) % d == r
  {
    var n := q * d + r;
    var k, m := n / d, n % d;
    assert n == k * d + m;
    assert (q - k) * d == m - r;
    if q - k >= 1 {
      assert (q - k) * d >= d by { MulAtLeast(q - k, d); }
      assert false;
    } else if q - k <= -1 {
      assert (k - q) * d >= d by { MulAtLeast(k - q, d); }
      assert false;
    }
  }

  lemma MulAtLeast(a: int, d: int)
    requires a >= 1 && d >= 0
    ensures a * d >= d
  {
    assert a * d == (a - 1) * d + d;
    MulNonNeg(a - 1, d);
  }

  lemma MulNonNeg(a: int, b: int)
    requires a >= 0 && b >= 0
    ensures a * b >= 0
  {
  }

  lemma MulMonotone(a: int, b: int, c: int)
    requires a <= b && c >= 0
    ensures a * c <= b * c
  {
    MulNonNeg(b - a, c);
    assert b * c - a * c == (b - a) * c;
  }

  /** The first sample of a pixel is the pixel's linear position times the
      channel count. */
  lemma IndexIsScaledPosition(L: Layout, col: nat, row: nat)
    ensures L.Index(col, row) == (row * L.width + col) * L.channel
  {
    calc {
      L.Index(col, row);
      row * (L.width * L.channel) + col * L.channel;
      { assert row * (L.width * L.channel) == (row * L.width) * L.channel; }
      (row * L.width) * L.channel + col * L.channel;
      (row * L.width + col) * L.channel;
    }
  }

  /** `getCol` and `getRow` invert `getIndex` on every in-bounds column. */
  lemma {:induction false} IndexRoundTrip(L: Layout, col: nat, row: nat)
    requires L.channel > 0 && col < L.width
    ensures L.Col(L.Index(col, row)) == col
    ensures L.Row(L.Index(col, row)) == row
  {
    IndexIsScaledPosition(L, col, row);
    DivModUnique(row * L.width + col, 0, L.channel);
    assert L.Index(col, row) / L.channel == row * L.width + col;
    DivModUnique(row, col, L.width);
  }

  /** `getIndex` inverts (`getCol`, `getRow`) on the first sample of every pixel. */
  lemma {:induction false} IndexOfColRow(L: Layout, index: nat)
    requires L.channel > 0 && L.width > 0 && index % L.channel == 0
    ensures L.Index(L.Col(index), L.Row(index)) == index
  {
    var p := index / L.channel;
    assert index == p * L.channel;
    assert p == (p / L.width) * L.width + p % L.width;
    IndexIsScaledPosition(L, L.Col(index), L.Row(index));
  }

  /** Every sample of a pixel inside the image lies inside the buffer. */
  lemma {:induction false} PixelInBuffer(L: Layout, col: nat, row: nat)
    requires L.Contains(col, row)
    ensures L.Index(col, row) + L.channel <= L.Length()
  {
    IndexIsScaledPosition(L, col, row);
    var p := row * L.width + col;
    assert (row + 1) * L.width == row * L.width + L.width;
    MulMonotone(row + 1, L.height, L.width);
    assert p + 1 <= L.height * L.width;
    MulMonotone(p + 1, L.height * L.width, L.channel);
    assert (p + 1) * L.channel == p * L.channel + L.channel;
    assert L.Length() == (L.height * L.width) * L.channel;
  }

  /** Every sample index of the buffer belongs to a pixel inside the image. */
  lemma {:induction false} ColRowInBounds(L: Layout, index: nat)
    requires L.channel > 0 && L.width > 0 && index < L.Length()
    ensures L.Contains(L.Col(index), L.Row(index))
  {
    var p := index / L.channel;
    assert L.Length() == (L.width * L.height) * L.channel;
    if p >= L.width * L.height {
      MulMonotone(L.width * L.height, p, L.channel);
      assert false;
    }
    if p / L.width >= L.height {
      MulMonotone(L.height, p / L.width, L.width);
      assert false;
    }
  }

  /** The first sample grows with the row and with the column. */
  lemma IndexMonotone(L: Layout, col: nat, row: nat, col': nat, row': nat)
    requires col <= col' && row <= row'
    ensures L.Index(col, row) <= L.Index(col', row')
  {
    IndexIsScaledPosition(L, col, row);
    IndexIsScaledPosition(L, col', row');
    MulMonotone(row * L.width + col, row' * L.width + col', L.channel);
    MulMonotone(row, row', L.width);
  }

  /** Two different pixels inside a row never share a sample of their first
      `channel` samples. */
  lemma {:induction false} PixelsDisjoint(L: Layout, c1: nat, r1: nat, c2: nat, r2: nat)
    requires c1 < L.width && c2 < L.width && (c1, r1) != (c2, r2)
    ensures L.Index(c1, r1) + L.channel <= L.Index(c2, r2)
         || L.Index(c2, r2) + L.channel <= L.Index(c1, r1)
  {
    IndexIsScaledPosition(L, c1, r1);
    IndexIsScaledPosition(L, c2, r2);
    PositionsDistinct(L.width, c1, r1, c2, r2);
    var p1, p2 := r1 * L.width + c1, r2 * L.width + c2;
    if p1 < p2 {
      ScaledGap(p1, p2, L.channel);
    } else {
      ScaledGap(p2, p1, L.channel);
    }
  }

  /** Distinct in-row pixels have distinct row-major positions. */
  lemma PositionsDistinct(w: nat, c1: nat, r1: nat, c2: nat, r2: nat)
    requires c1 < w && c2 < w && (c1, r1) != (c2, r2)
    ensures r1 * w + c1 != r2 * w + c2
  {
    if r1 * w + c1 == r2 * w + c2 {
      DivModUnique(r1, c1, w);
      DivModUnique(r2, c2, w);
      assert false;
    }
  }

  /** Scaling keeps a gap of one position as a gap of one pixel. */
  lemma ScaledGap(p1: nat, p2: nat, ch: nat)
    requires p1 < p2
    ensures p1 * ch + ch <= p2 * ch
  {
    MulMonotone(p1 + 1, p2, ch);
    assert (p1 + 1) * ch == p1 * ch + ch;
  }

  // ---------------------------------------------------------------------
  // std::vector::resize

  /** `resize(n)`: keep the first `min(n, |s|)` samples, pad with the
      value-initialised sample. */
  function Resize<T>(s: seq<T>, n: nat, zero: T): (r: seq<T>)
    ensures |r| == n
    ensures forall i :: 0 <= i < n && i < |s| ==> r[i] == s[i]
    ensures forall i :: |s| <= i < n ==> r[i] == zero
  {
    if n <= |s| then s[..n] else s + seq(n - |s|, _ => zero)
  }

  // ---------------------------------------------------------------------

  /** `RawImage<T>`. `zero` is the value-initialised sample `T()`, which the
      C++ code obtains from the type. */
  class RawImage<T>
  {
    var width: nat
    var height: nat
    var channel: nat
    var length: nat
    var area: nat
    var vec: seq<T>
    const zero: T

    function Shape(): Layout
      reads this
    {
      Layout(width, height, channel)
    }

    /** The cached sizes agree with the dimensions, and the storage holds
        exactly `length` samples. `clear` is the one operation that breaks it. */
    ghost predicate Valid()
      reads this
    {
      length == Shape().Length() && area == Shape().Area() && |vec| == length
    }

    /** `RawImage(w, h, c)`: a zero-filled buffer of `w * h * c` samples. */
    constructor (w: nat, h: nat, c: nat, zero: T)
      ensures width == w && height == h && channel == c
      ensures length == w * h * c && area == w * h
      ensures vec == seq(w * h * c, _ => zero) && this.zero == zero
      ensures Valid()
    {
      width, height, channel := w, h, c;
      this.zero := zero;
      vec := Resize([], w * h * c, zero);
      length := w * h * c;
      area := w * h;
    }

    function GetIndex(col: nat, row: nat): nat
      reads this
    {
      Shape().Index(col, row)
    }

    function GetRow(index: nat): nat
      reads this
      requires channel > 0 && width > 0
    {
      Shape().Row(index)
    }

    function GetCol(index: nat): nat
      reads this
      requires channel > 0 && width > 0
    {
      Shape().Col(index)
    }

    /** `operator[]`: unchecked sample access. */
    function At(index: nat): T
      reads this
      requires index < |vec|
    {
      vec[index]
    }

    /** `setSize`: new dimensions, recomputed cached sizes, storage resized to
        the new length (the surviving prefix keeps its samples). */
    method SetSize(w: nat, h: nat, c: nat)
      modifies this
      ensures width == w && height == h && channel == c
      ensures length == w * h * c && area == w * h
      ensures vec == Resize(old(vec), w * h * c, zero)
      ensures Valid()
    {
      width := w;
      height := h;
      channel := c;
      length := w * h * c;
      area := w * h;
      vec := Resize(vec, length, zero);
    }

    /** `setZero`: `memset` of `width * height * channel` samples to zero;
        the dimensions and cached sizes stay as they are. */
    method SetZero()
      requires Shape().Length() <= |vec|
      modifies this`vec
      ensures |vec| == |old(vec)|
      ensures forall i :: 0 <= i < Shape().Length() ==> vec[i] == zero
      ensures vec[Shape().Length()..] == old(vec)[Shape().Length()..]
      ensures Valid() ==> vec == seq(length, _ => zero)
    {
      var n := width * height * channel;
      vec := seq(n, _ => zero) + vec[n..];
    }

    /** `clear`: empties the storage but leaves the cached `length` and
        `area` alone, so a non-empty buffer is no longer `Valid`. */
    method Clear()
      modifies this`vec
      ensures vec == []
      ensures old(length) > 0 ==> !Valid()
    {
      vec := [];
    }

    /** `copyFrom(T* arr)`: despite its name, copies the buffer OUT into
        `arr` (`memcpy(arr, _vec.data(), _length)`); the buffer is unchanged. */
    method CopyFrom(arr: array<T>)
      requires length <= |vec| && length <= arr.Length
      modifies arr
      ensures arr[..length] == vec[..length]
      ensures arr[length..] == old(arr[length..])
    {
      forall i | 0 <= i < length {
        arr[i] := vec[i];
      }
    }

    /** `copyFrom(RawImage* dst)`: copies this buffer's first `length`
        samples over the start of `dst`'s storage. */
    method CopyFromBuffer(dst: RawImage<T>)
      requires length <= |vec| && length <= |dst.vec|
      modifies dst`vec
      ensures dst.vec == old(vec)[..length] + old(dst.vec)[length..]
    {
      dst.vec := vec[..length] + dst.vec[length..];
    }

    /** `mix`: `std::transform` over the whole storage of `a`, combining it
        element by element with `b` into `result`; returns the number of
        samples written. Only `result` changes. */
    static method Mix(a: RawImage<T>, b: RawImage<T>, result: RawImage<T>, func: (T, T) -> T)
      returns (end: nat)
      requires |a.vec| <= |b.vec| && |a.vec| <= |result.vec|
      modifies result`vec
      ensures end == |old(a.vec)|
      ensures |result.vec| == |old(result.vec)|
      ensures forall i :: 0 <= i < end ==> result.vec[i] == func(old(a.vec)[i], old(b.vec)[i])
      ensures result.vec[end..] == old(result.vec)[end..]
    {
      var av, bv := a.vec, b.vec;
      end := |av|;
      result.vec := seq(end, i requires 0 <= i < end => func(av[i], bv[i])) + result.vec[end..];
    }
  }
}
