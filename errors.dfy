/** `RouteError` and its two `From` conversions (src/errors.rs). */
module Errors {
  import opened RustStd

  /** The three ways loading the table can fail. */
  datatype RouteError = Io(ioError: IoError) | Parse(parseError: ParseIntError) | BadInput

  /** `From<io::Error>`: what `try!` does to a failed read. */
  function FromIoError(err: IoError): (r: RouteError)
    ensures r.Io? && r.ioError == err
  {
    Io(err)
  }

  /** `From<ParseIntError>`: what `try!` does to a failed hex parse. */
  function FromParseIntError(err: ParseIntError): (r: RouteError)
    ensures r.Parse? && r.parseError == err
  {
    Parse(err)
  }

  /** Neither conversion loses its payload or produces `BadInput`: two different
      errors stay different, and an I/O error never looks like a parse error. */
  lemma ConversionsKeepCause(e1: IoError, e2: IoError, p1: ParseIntError, p2: ParseIntError)
    ensures FromIoError(e1) == FromIoError(e2) <==> e1 == e2
    ensures FromParseIntError(p1) == FromParseIntError(p2) <==> p1 == p2
    ensures FromIoError(e1) != FromParseIntError(p1)
    ensures FromIoError(e1) != BadInput && FromParseIntError(p1) != BadInput
  {
  }
}
