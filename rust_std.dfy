/** The parts of the Rust standard library that the route parser is written
    against: the `u8` width, `Result`, the two opaque error payloads it wraps,
    and IPv4 addresses. */
module RustStd {

  /** Rust's `u8`. */
  newtype uint8 = x: int | 0 <= x < 0x100

  /** Rust's `Result`; failure-compatible so that `:-` plays the part of `try!`
      where no error conversion is involved. */
  datatype Result<T, E> = Ok(value: T) | Err(error: E) {
    predicate IsFailure() { Err? }

    function PropagateFailure<U>(): Result<U, E>
      requires Err?
    {
      Err(error)
    }

    function Extract(): T
      requires Ok?
    {
      value
    }
  }

  /** `std::io::Error`, kept abstract: the parser only ever passes one on, so an
      identity is all the model needs of it. */
  datatype IoError = IoError(id: nat)

  /** The kinds of `std::num::IntErrorKind` an unsigned parse can report. */
  datatype IntErrorKind = Empty | InvalidDigit | PosOverflow

  /** `std::num::ParseIntError`, which is a wrapper around its kind. */
  datatype ParseIntError = ParseIntError(kind: IntErrorKind)

  /** `std::net::Ipv4Addr::new(a, b, c, d)`, written `a.b.c.d`. */
  datatype Ipv4Addr = Ipv4Addr(a: uint8, b: uint8, c: uint8, d: uint8)

  /** `std::net::IpAddr`; the parser only ever builds the V4 case. */
  datatype IpAddr = V4(v4: Ipv4Addr)
}
