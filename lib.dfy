/** The older, self-contained copy of the parser (src/lib.rs): its own
    `RouteError`, its own `Route`, `Route::parse_ip`, and the line pipeline of
    `Route::load` with the line source passed in instead of a file. */
module Lib {
  import opened RustStd
  import opened Radix
  import opened Text

  /** This file's own copy of the three ways loading can fail. */
  datatype RouteError = Io(ioError: IoError) | Parse(parseError: ParseIntError) | BadInput

  /** `From<io::Error>`. */
  function FromIoError(err: IoError): (r: RouteError)
    ensures r.Io? && r.ioError == err
  {
    Io(err)
  }

  /** `From<ParseIntError>`. */
  function FromParseIntError(err: ParseIntError): (r: RouteError)
    ensures r.Parse? && r.parseError == err
  {
    Parse(err)
  }

  /** This file's own copy of a table entry. */
  datatype Route = Route(iface: string, destination: IpAddr, gateway: IpAddr)

  /** What the loop of `parse_ip` holds after going through `cs` from `vec`:
      each chunk's value pushed in turn, or the first failing chunk's error. */
  function PushOctets(cs: seq<string>, vec: seq<uint8>): (r: Result<seq<uint8>, ParseIntError>)
    ensures r.Ok? ==> |r.value| == |vec| + |cs| && r.value[..|vec|] == vec
    decreases |cs|
  {
    if cs == [] then
      Ok(vec)
    else
      match U8FromHexStr(cs[0])
      case Err(e) => Err(e)
      case Ok(octet) => PushOctets(cs[1..], vec + [octet])
  }

  /** What `Route::parse_ip` returns: the pushed octets reversed when there are
      four of them. */
  function ParsedIp(s: string): Result<Ipv4Addr, RouteError> {
    match PushOctets(Chunks(s), [])
    case Err(e) => Err(FromParseIntError(e))
    case Ok(vec) => if |vec| != 4 then Err(BadInput) else Ok(Ipv4Addr(vec[3], vec[2], vec[1], vec[0]))
  }

  /** `Route::parse_ip`. */
  method ParseIp(s: string) returns (r: Result<Ipv4Addr, RouteError>)
    ensures r == ParsedIp(s)
  {
    var chunks := Chunks(s);
    var vec: seq<uint8> := [];
    for i := 0 to |chunks|
      invariant PushOctets(chunks[i..], vec) == PushOctets(chunks, [])
    {
      assert chunks[i..][1..] == chunks[i + 1..];
      var octet := U8FromHexStr(chunks[i]);
      if octet.Err? {
        return Err(FromParseIntError(octet.error));
      }
      vec := vec + [octet.value];
    }
    assert chunks[|chunks|..] == [];
    if |vec| != 4 {
      return Err(BadInput);
    }
    return Ok(Ipv4Addr(vec[3], vec[2], vec[1], vec[0]));
  }

  /** One line after the header, as `Route::load` handles it. */
  function ParseLine(line: Result<string, IoError>): Result<Route, RouteError> {
    match line
    case Err(e) => Err(FromIoError(e))
    case Ok(text) =>
      var cols := SplitWhitespace(text);
      if |cols| < 3 then
        Err(BadInput)
      else
        var destination :- ParsedIp(cols[1]);
        var gateway :- ParsedIp(cols[2]);
        Ok(Route(cols[0], V4(destination), V4(gateway)))
  }

  /** Collecting the per-line results: every route in order, or the first error. */
  function CollectRoutes(lines: seq<Result<string, IoError>>): Result<seq<Route>, RouteError>
    decreases |lines|
  {
    if lines == [] then
      Ok([])
    else
      var route :- ParseLine(lines[0]);
      var routes :- CollectRoutes(lines[1..]);
      Ok([route] + routes)
  }

  /** `Route::load` once the file is open: the header line is skipped and
      every other line parsed. */
  function LoadLines(lines: seq<Result<string, IoError>>): Result<seq<Route>, RouteError> {
    CollectRoutes(if lines == [] then [] else lines[1..])
  }
}
