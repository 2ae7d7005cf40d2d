/** Kotlin-level value types shared by the services and the dashboard. */
module Common {

  /** Kotlin's nullable `T?`. */
  datatype Option<+T> = None | Some(value: T) {
    /** Kotlin's elvis operator `this ?: default`. */
    function GetOr(default: T): T {
      match this
      case Some(v) => v
      case None => default
    }
  }

  const MinLong: int := -0x8000_0000_0000_0000
  const MaxLong: int := 0x7FFF_FFFF_FFFF_FFFF
  /** The number of distinct `Long` values. */
  const LongModulus: int := 0x1_0000_0000_0000_0000

  /** Kotlin's 64-bit signed `Long`. */
  type Long = x: int | -0x8000_0000_0000_0000 <= x <= 0x7FFF_FFFF_FFFF_FFFF

  /** Two's-complement wrap-around of a mathematical integer into a `Long`,
      as Kotlin's `Long` arithmetic does on overflow. */
  function WrapLong(x: int): (r: Long)
    ensures MinLong <= x <= MaxLong ==> r == x
    ensures MaxLong < x <= MaxLong + LongModulus ==> r == x - LongModulus
    ensures MinLong - LongModulus <= x < MinLong ==> r == x + LongModulus
  {
    (x - MinLong) % LongModulus + MinLong
  }

  /** What an HTTP GET to a vehicle's controller yields: the body text, or an
      exception (timeout, refused connection, unreachable host, ...). */
  datatype Response = Body(text: string) | Thrown
}
