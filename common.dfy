/** Result types and little-endian integer helpers shared by the modules of this model. */
module Common {

  datatype Option<T> = None | Some(value: T)

  datatype Result<T, E> = Ok(value: T) | Err(error: E)

  /** Number of values of a C `uint32_t` or Rust `u32`. */
  const U32Range: int := 0x1_0000_0000

  /** A byte of a buffer that is only copied or read as part of a word. */
  type Byte = x: int | 0 <= x < 256

  /** A C `uint32_t` / Rust `u32`. */
  type U32 = x: int | 0 <= x < U32Range

  /** The unsigned 32-bit value whose little-endian bytes are b0 (lowest) .. b3 (highest).
      Both RP2350 cores and the USB host are little-endian, so a `memcpy` of four bytes into a
      `uint32_t`, a 32-bit DMA read of four consecutive bytes and Rust's `u32::from_le_bytes`
      all read a value this way. */
  function Le32(b0: Byte, b1: Byte, b2: Byte, b3: Byte): (v: U32)
    ensures v % 256 == b0 && (v / 256) % 256 == b1
    ensures (v / 65536) % 256 == b2 && v / 16777216 == b3
  {
    b0 + 256 * (b1 + 256 * (b2 + 256 * b3))
  }

  /** Rust's `u32::to_le_bytes`: the four bytes of v, lowest first. */
  function Le32Bytes(v: U32): (b: seq<Byte>)
    ensures |b| == 4
    ensures Le32(b[0], b[1], b[2], b[3]) == v
  {
    var q1 := v / 256;
    var q2 := q1 / 256;
    var q3 := q2 / 256;
    assert v == v % 256 + 256 * (q1 % 256 + 256 * (q2 % 256 + 256 * q3));
    [v % 256, q1 % 256, q2 % 256, q3]
  }

  /** Rust's `as u32` on a length: truncation to the low 32 bits. */
  function AsU32(n: nat): (v: U32)
    ensures n < U32Range ==> v == n
  {
    n % U32Range
  }

  /** Euclidean division is determined by quotient and remainder: the fact the index
      arithmetic of the frame layouts rests on. */
  lemma DivModUnique(n: int, d: int, q: int, r: int)
    requires d > 0 && 0 <= r < d && n == q * d + r
    ensures n / d == q && n % d == r
  {
    var q', r' := n / d, n % d;
    assert (q - q') * d == r' - r;
    if q > q' {
      MulAtLeast(q - q', d);
    } else if q < q' {
      MulAtLeast(q' - q, d);
    }
  }

  lemma MulAtLeast(a: int, d: int)
    requires a >= 1 && d > 0
    ensures a * d >= d
  {
  }

  /** C `memset(a, v, size)` over a byte buffer. */
  method Memset(a: array<Byte>, v: Byte)
    modifies a
    ensures forall k | 0 <= k < a.Length :: a[k] == v
  {
    for k := 0 to a.Length
      invariant forall m | 0 <= m < k :: a[m] == v
    {
      a[k] := v;
    }
  }
}
