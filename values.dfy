/**
 * The values that flow through the conversion engine: fixed-width integers,
 * the generic result of a string-to-typed-value conversion (Go's `any`),
 * the nine-field datetime interval, and the error and result wrappers that
 * stand for Go's `(T, error)` pairs.
 */
module Values {

  const MAX_UINT64: int := 0xFFFF_FFFF_FFFF_FFFF
  const MIN_INT64: int := -0x8000_0000_0000_0000
  const MAX_INT64: int := 0x7FFF_FFFF_FFFF_FFFF
  const MAX_UINT32: int := 0xFFFF_FFFF

  type uint8 = x: int | 0 <= x < 0x100
  type uint32 = x: int | 0 <= x <= MAX_UINT32
  type uint64 = x: int | 0 <= x <= MAX_UINT64
  type int64 = x: int | MIN_INT64 <= x <= MAX_INT64

  datatype Option<+T> = None | Some(value: T)

  /** The errors a conversion can report. Go formats these as text; only their kind is kept. */
  datatype Error =
    | NumError(input: string)                  // strconv: bad syntax or out of range
    | LibraryError(input: string)              // an opaque parser refused the text it was given
    | UnexpectedValue(input: string)           // the null converter got something else
    | NoMatch                                  // a sequence converter ran out of alternatives
    | UnexpectedIntervalFormat
    | UnexpectedType(typ: string)              // no converter for this type name
    | UnexpectedFieldValue(typ: string)        // an assembled field converter failed
    | TupleLengthMismatch                      // tuple longer than the converter list

  /** Go's `(T, error)`: exactly one of a value and an error. */
  datatype Result<+T> = Success(value: T) | Failure(error: Error)

  /** `datetime.Adjust` codes. */
  const NoneAdjust: int64 := 0
  const ExcessAdjust: int64 := 1
  const LastAdjust: int64 := 2

  predicate ValidAdjust(a: int64) {
    a == NoneAdjust || a == ExcessAdjust || a == LastAdjust
  }

  /** `datetime.Interval`: eight signed 64-bit counts and the adjust mode. */
  datatype Interval = Interval(
    year: int64, month: int64, week: int64, day: int64,
    hour: int64, min: int64, sec: int64, nsec: int64,
    adjust: int64)

  /** An arbitrary-precision decimal: coefficient * 10^exponent. */
  datatype DecimalValue = DecimalValue(coefficient: int, exponent: int)

  /** A zoned instant: seconds and nanoseconds since the epoch, an offset and a zone name. */
  datatype DatetimeValue = DatetimeValue(seconds: int, nsec: int, offsetSeconds: int, zone: string)

  /** The dynamically typed results of converting a field (Go's `any`). */
  datatype Value =
    | Null
    | Bool(b: bool)
    | UInt(u: uint64)
    | Int(i: int64)
    | Float(bits: bv64)                        // an IEEE-754 double, by its bit pattern
    | Decimal(d: DecimalValue)
    | Str(s: string)
    | Bytes(bytes: seq<uint8>)
    | Uuid(octets: seq<uint8>)
    | Datetime(dt: DatetimeValue)
    | IntervalValue(iv: Interval)
    | Array(items: seq<Value>)
    | Object(fields: map<string, Value>)

  /** A converter from S to T: a pure, fallible function. */
  type Converter<!S, T> = S -> Result<T>
}
