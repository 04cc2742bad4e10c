/** The two copies of the parser, src/lib.rs and src/route.rs, behave the same
    on every input once each copy's error and route types are matched variant
    by variant. */
module Agreement {
  import opened RustStd
  import Radix
  import Text
  import Errors
  import Route
  import Lib

  function SharedError(e: Lib.RouteError): Errors.RouteError {
    match e
    case Io(err) => Errors.Io(err)
    case Parse(err) => Errors.Parse(err)
    case BadInput => Errors.BadInput
  }

  function SharedAddress(r: Result<Ipv4Addr, Lib.RouteError>): Result<Ipv4Addr, Errors.RouteError> {
    match r
    case Ok(addr) => Ok(addr)
    case Err(e) => Err(SharedError(e))
  }

  function SharedRoute(r: Lib.Route): Route.Route {
    Route.Route(r.iface, r.destination, r.gateway)
  }

  function SharedRoutes(rs: seq<Lib.Route>): seq<Route.Route>
    decreases |rs|
  {
    if rs == [] then [] else [SharedRoute(rs[0])] + SharedRoutes(rs[1..])
  }

  function SharedLine(r: Result<Lib.Route, Lib.RouteError>): Result<Route.Route, Errors.RouteError> {
    match r
    case Ok(route) => Ok(SharedRoute(route))
    case Err(e) => Err(SharedError(e))
  }

  function SharedTable(r: Result<seq<Lib.Route>, Lib.RouteError>): Result<seq<Route.Route>, Errors.RouteError> {
    match r
    case Ok(routes) => Ok(SharedRoutes(routes))
    case Err(e) => Err(SharedError(e))
  }

  /** The two files' `From` conversions agree. */
  lemma ConversionsAgree(e: IoError, p: ParseIntError)
    ensures SharedError(Lib.FromIoError(e)) == Errors.FromIoError(e)
    ensures SharedError(Lib.FromParseIntError(p)) == Errors.FromParseIntError(p)
  {
  }

  /** The push loop stops at the first chunk that does not parse, and otherwise
      has pushed every chunk's value, in order. */
  lemma {:induction false} PushOctetsFirstBad(cs: seq<string>, vec: seq<uint8>)
    ensures Route.FirstBadChunk(cs) < |cs| ==>
      Lib.PushOctets(cs, vec) == Err(Radix.U8FromHexStr(cs[Route.FirstBadChunk(cs)]).error)
    ensures Route.FirstBadChunk(cs) == |cs| ==>
      && Lib.PushOctets(cs, vec).Ok?
      && |Lib.PushOctets(cs, vec).value| == |vec| + |cs|
      && Lib.PushOctets(cs, vec).value[..|vec|] == vec
      && forall i | 0 <= i < |cs| ::
           Radix.U8FromHexStr(cs[i]) == Ok(Lib.PushOctets(cs, vec).value[|vec| + i])
    decreases |cs|
  {
    if cs != [] && Radix.U8FromHexStr(cs[0]).Ok? {
      var octet := Radix.U8FromHexStr(cs[0]).value;
      PushOctetsFirstBad(cs[1..], vec + [octet]);
      if Route.FirstBadChunk(cs) == |cs| {
        var r := Lib.PushOctets(cs, vec).value;
        forall i | 0 <= i < |cs| ensures Radix.U8FromHexStr(cs[i]) == Ok(r[|vec| + i]) {
          if i == 0 {
            assert r[..|vec| + 1] == vec + [octet];
            assert r[|vec|] == (vec + [octet])[|vec|];
          } else {
            assert cs[i] == cs[1..][i - 1];
          }
        }
      }
    }
  }

  /** `Route::parse_ip` in src/lib.rs and `parse_ip` in src/route.rs agree. */
  lemma ParseIpAgrees(s: string)
    ensures SharedAddress(Lib.ParsedIp(s)) == Route.DecodeIp(s)
  {
    PushOctetsFirstBad(Text.Chunks(s), []);
  }

  /** The two files handle every single line alike. */
  lemma ParseLineAgrees(line: Result<string, IoError>)
    ensures SharedLine(Lib.ParseLine(line)) == Route.ParseLine(line)
  {
    if line.Ok? {
      var cols := Text.SplitWhitespace(line.value);
      if |cols| >= 3 {
        ParseIpAgrees(cols[1]);
        ParseIpAgrees(cols[2]);
      }
    }
  }

  lemma {:induction false} CollectRoutesAgree(lines: seq<Result<string, IoError>>)
    ensures SharedTable(Lib.CollectRoutes(lines)) == Route.CollectRoutes(lines)
    decreases |lines|
  {
    if lines != [] {
      ParseLineAgrees(lines[0]);
      CollectRoutesAgree(lines[1..]);
    }
  }

  /** The line pipeline of `Route::load` in src/lib.rs and
      `parse_proc_net_route` in src/route.rs agree on every line source. */
  lemma LoadAgrees(lines: seq<Result<string, IoError>>)
    ensures SharedTable(Lib.LoadLines(lines)) == Route.ParseProcNetRoute(lines)
  {
    CollectRoutesAgree(if lines == [] then [] else lines[1..]);
  }
}
