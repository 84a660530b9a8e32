/** Shared value types: Java's nullable references, the exceptions the modelled code can
    raise, Java's 32-bit `int`, and the floating-point parameters the code only passes along. */
module Values {

  /** A Java reference that may be null. */
  datatype Option<+T> = None | Some(value: T)

  /** The unchecked exceptions the modelled code can raise on its own, or that the client
      library's request builders raise on the values it passes them. Network failures
      (`IOException`) are not modelled: every engine answer is an input. */
  datatype JavaException =
    | NullPointerException
    | ArrayIndexOutOfBoundsException(index: int)
    | NumberFormatException(input: string)
    | IllegalStateException(reason: string)
    | DeserializationException(reason: string)
    | MissingRequiredPropertyException(property: string)

  /** Either a returned value or a thrown exception. */
  datatype Result<+T> = Success(value: T) | Failure(error: JavaException)

  /** What a method did against the engine: the calls it issued, in order, and what it
      returned. */
  datatype Run<C, R> = Run(calls: seq<C>, result: R)

  const MinInt32: int := -0x8000_0000
  const MaxInt32: int := 0x7fff_ffff

  /** Java's `int`. */
  type int32 = x: int | MinInt32 <= x <= MaxInt32

  /** Java's `Number.intValue()` on a `long`: keeps the low 32 bits, two's complement. */
  function JavaIntValue(n: int): (r: int32)
    ensures MinInt32 <= n <= MaxInt32 ==> r == n
    ensures (r - n) % 0x1_0000_0000 == 0
  {
    var low := n % 0x1_0000_0000;
    if low <= MaxInt32 then low else low - 0x1_0000_0000
  }

  /** A Java `float`, kept as its IEEE-754 bit pattern: the code never computes with it. */
  datatype Float32 = Float32(bits: bv32)

  /** A Java `double`, kept as its IEEE-754 bit pattern. */
  datatype Float64 = Float64(bits: bv64)
}
