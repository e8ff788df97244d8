/** JavaScript runtime values and the library operations the dashboard's code
    relies on but whose internals are not modelled. */
module Js {

  /** `T | null | undefined` as the TypeScript code uses it. */
  datatype Option<+T> = None | Some(value: T)

  /** The outcome of evaluating a JavaScript expression: the value it produced
      or the error it threw. */
  datatype Completion<+T> = Normal(value: T) | Abrupt(error: string)

  /** An IEEE-754 double as this code observes it. Negative zero is folded into
      `Finite(0.0)`: the code only looks at numbers through `===`, truthiness and
      `String()`, none of which tells the two zeros apart. */
  datatype JsNumber = NaN | PosInfinity | NegInfinity | Finite(value: real)

  /** `!!n`: zero and NaN are falsy. */
  predicate NumberTruthy(n: JsNumber) {
    n != NaN && n != Finite(0.0)
  }

  /** `a === b` on numbers: NaN equals nothing, itself included. */
  predicate NumberStrictEquals(a: JsNumber, b: JsNumber) {
    a != NaN && a == b
  }

  /** A `Date` object: either invalid (its time value is NaN) or a number of
      milliseconds since the epoch. */
  datatype JsDate = InvalidDate | ValidDate(time: int)

  /** `!!s` for a `string | null | undefined`: present and non-empty. */
  predicate Present(s: Option<string>) {
    s.Some? && s.value != ""
  }

  /** The library functions the code calls, left uninterpreted.
      - encodeComponent: `encodeURIComponent`
      - formDecode: replacing '+' by a space and percent-decoding, as the
        application/x-www-form-urlencoded parser of section 5.1 of the WHATWG
        URL Standard does to every name and value
      - numberToString: `String(n)`
      - stringToNumber: `Number(s)`
      - dateToIso: `Date.prototype.toISOString` on a valid date
      - parseDate: `new Date(s)` */
  datatype Runtime = Runtime(
    encodeComponent: string -> string,
    formDecode: string -> string,
    numberToString: JsNumber -> string,
    stringToNumber: string -> JsNumber,
    dateToIso: int -> string,
    parseDate: string -> JsDate
  )
}
