/**
 * An abstract view of the script engine's values, as far as the callback bridge
 * inspects them: BigInts, arrays (whose element reads may fail) and everything else.
 */
module JsValues {

  /** 2^64: one more than the largest value of a C++ `uint64_t`. */
  const UINT64_LIMIT: int := 0x1_0000_0000_0000_0000

  /** A C++ `uint64_t`. */
  type Uint64 = x: int | 0 <= x < 0x1_0000_0000_0000_0000

  /** A script value. BigInts are unbounded and signed; `Other` stands for every value that is
      neither a BigInt nor an array (numbers, strings, objects, undefined, functions, ...). */
  datatype JsValue =
    | BigInt(value: int)
    | JsArray(elements: seq<Element>)
    | Other

  /** The outcome of reading one array element: the engine either produces the value, or the
      read yields an empty handle (for instance because a getter throws). */
  datatype Element = Present(item: JsValue) | Failing

  /** `BigInt::Uint64Value(&lossless)`: the low 64 bits of the BigInt (two's complement for a
      negative one), and whether that conversion lost nothing. */
  function Uint64Value(v: int): (r: (Uint64, bool))
    ensures r.1 <==> 0 <= v < UINT64_LIMIT
    ensures r.1 ==> r.0 == v
    ensures (v - r.0) % UINT64_LIMIT == 0
  {
    (v % UINT64_LIMIT, 0 <= v < UINT64_LIMIT)
  }

  /** `BigInt::NewFromUnsigned`: the BigInt holding an unsigned 64-bit value; converting it back
      is lossless and yields the same value. */
  function NewFromUnsigned(n: Uint64): (r: JsValue)
    ensures r.BigInt? && Uint64Value(r.value) == (n, true)
  {
    BigInt(n)
  }

}
