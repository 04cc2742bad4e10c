/** The parser of the kernel's IPv4 routing table (src/route.rs): the hex-octet
    address decoder `parse_ip` and the line pipeline `parse_proc_net_route`. */
module Route {
  import opened RustStd
  import opened Radix
  import opened Text
  import opened Errors

  /** One entry of the table. */
  datatype Route = Route(iface: string, destination: IpAddr, gateway: IpAddr)

  /** What `BufRead::lines` yields: a line, or the read failure in its place. */
  type Line = Result<string, IoError>

  // ---------------------------------------------------------------------------
  // The address decoder

  /** The index of the first chunk `from_str_radix` rejects, or the number of
      chunks when it rejects none. */
  function FirstBadChunk(cs: seq<string>): (k: nat)
    ensures k <= |cs|
    ensures forall j | 0 <= j < k :: U8FromHexStr(cs[j]).Ok?
    ensures k < |cs| ==> U8FromHexStr(cs[k]).Err?
  {
    if cs == [] then 0
    else if U8FromHexStr(cs[0]).Err? then 0
    else 1 + FirstBadChunk(cs[1..])
  }

  /** What `parse_ip` returns: the error of the first chunk that is not hex;
      failing that, `BadInput` unless there are exactly four chunks; failing
      that, the address whose first octet is the last chunk. */
  function DecodeIp(s: string): Result<Ipv4Addr, RouteError> {
    var cs := Chunks(s);
    var k := FirstBadChunk(cs);
    if k < |cs| then
      Err(FromParseIntError(U8FromHexStr(cs[k]).error))
    else if |cs| != 4 then
      Err(BadInput)
    else
      Ok(Ipv4Addr(U8FromHexStr(cs[3]).value, U8FromHexStr(cs[2]).value,
                  U8FromHexStr(cs[1]).value, U8FromHexStr(cs[0]).value))
  }

  /** `parse_ip`: push the value of each chunk, giving up at the first one that
      does not parse, then insist on four of them and reverse their order. */
  method ParseIp(s: string) returns (r: Result<Ipv4Addr, RouteError>)
    ensures r == DecodeIp(s)
  {
    var chunks := Chunks(s);
    var vec: seq<uint8> := [];
    for i := 0 to |chunks|
      invariant |vec| == i
      invariant forall j | 0 <= j < i :: U8FromHexStr(chunks[j]) == Ok(vec[j])
    {
      var octet := U8FromHexStr(chunks[i]);
      if octet.Err? {
        assert FirstBadChunk(chunks) == i;
        return Err(FromParseIntError(octet.error));
      }
      vec := vec + [octet.value];
    }
    if |vec| != 4 {
      return Err(BadInput);
    }
    return Ok(Ipv4Addr(vec[3], vec[2], vec[1], vec[0]));
  }

  /** The character at `i` may stand in an accepted chunk: a hex digit, or a
      `+` that opens a two-character chunk. */
  predicate OctetChar(s: string, i: nat)
    requires i < |s|
  {
    IsHexDigit(s[i]) || (s[i] == '+' && i % 2 == 0 && i + 1 < |s|)
  }

  /** Every chunk of `s` parses, said of its characters. */
  predicate HexOctets(s: string) {
    forall i | 0 <= i < |s| :: OctetChar(s, i)
  }

  /** A field `parse_ip` accepts: hex octets making exactly four chunks. */
  predicate WellFormedAddress(s: string) {
    HexOctets(s) && (|s| == 7 || |s| == 8)
  }

  /** Chunk `j` parses exactly when its one or two characters may stand there. */
  lemma ChunkChars(s: string, j: nat)
    requires j < |Chunks(s)|
    ensures U8FromHexStr(Chunks(s)[j]).Ok? <==>
      OctetChar(s, 2 * j) && (2 * j + 1 < |s| ==> OctetChar(s, 2 * j + 1))
  {
    ChunkAt(s, j);
    PieceChars(s, j, Chunks(s)[j]);
  }

  /** The piece of `s` at offset 2 * j parses exactly when its one or two
      characters may stand there. */
  lemma PieceChars(s: string, j: nat, c: string)
    requires 2 * j < |s|
    requires 2 * j + 2 <= |s| ==> c == s[2 * j .. 2 * j + 2]
    requires 2 * j + 2 > |s| ==> c == s[2 * j ..]
    ensures U8FromHexStr(c).Ok? <==>
      OctetChar(s, 2 * j) && (2 * j + 1 < |s| ==> OctetChar(s, 2 * j + 1))
  {
    ChunkParse(c);
    assert c[0] == s[2 * j];
    if |c| == 2 {
      assert c[1] == s[2 * j + 1];
    }
  }

  /** `HexOctets` is exactly "no chunk is rejected". */
  lemma AllChunksParse(s: string)
    ensures FirstBadChunk(Chunks(s)) == |Chunks(s)| <==> HexOctets(s)
  {
    var cs := Chunks(s);
    var k := FirstBadChunk(cs);
    if k == |cs| {
      forall i | 0 <= i < |s| ensures OctetChar(s, i) {
        var j := i / 2;
        assert i == 2 * j || i == 2 * j + 1;
        ChunkChars(s, j);
      }
    } else {
      ChunkChars(s, k);
    }
  }

  /** The three outcomes of `parse_ip`, said of its input: success exactly for
      well-formed fields; `Parse` (always an invalid digit) exactly when some
      chunk is not hex, whatever the length; `BadInput` exactly when every chunk
      is hex but there are not four of them. */
  lemma DecodeIpOutcome(s: string)
    ensures DecodeIp(s).Ok? <==> WellFormedAddress(s)
    ensures DecodeIp(s) == Err(BadInput) <==> HexOctets(s) && !(|s| == 7 || |s| == 8)
    ensures DecodeIp(s).Err? && DecodeIp(s).error.Parse? <==> !HexOctets(s)
    ensures DecodeIp(s).Err? && DecodeIp(s).error.Parse? ==>
      DecodeIp(s).error == Parse(ParseIntError(InvalidDigit))
  {
    AllChunksParse(s);
    var cs := Chunks(s);
    var k := FirstBadChunk(cs);
    if k < |cs| {
      ChunkSizes(s, k);
      ChunkParse(cs[k]);
    }
  }

  /** The value of one accepted chunk. */
  function OctetValue(c: string): nat
    requires AllHexDigits(ChunkDigits(c))
  {
    HexValue(ChunkDigits(c))
  }

  /** On success the octets come out in reverse chunk order: the last chunk is
      the first octet of the address. */
  lemma DecodeIpOctets(s: string)
    requires DecodeIp(s).Ok?
    ensures |s| == 7 || |s| == 8
    ensures AllHexDigits(ChunkDigits(s[6..])) && AllHexDigits(ChunkDigits(s[4..6]))
    ensures AllHexDigits(ChunkDigits(s[2..4])) && AllHexDigits(ChunkDigits(s[..2]))
    ensures DecodeIp(s).value.a as int == OctetValue(s[6..])
    ensures DecodeIp(s).value.b as int == OctetValue(s[4..6])
    ensures DecodeIp(s).value.c as int == OctetValue(s[2..4])
    ensures DecodeIp(s).value.d as int == OctetValue(s[..2])
  {
    DecodeIpOutcome(s);
    AddressChunks(s);
    var cs := Chunks(s);
    ChunkSizes(s, 0); ChunkSizes(s, 1); ChunkSizes(s, 2); ChunkSizes(s, 3);
    ChunkParse(cs[0]); ChunkParse(cs[1]); ChunkParse(cs[2]); ChunkParse(cs[3]);
  }

  /** How the kernel writes an address column: the four octets as upper-case
      hex, last octet first. */
  function FormatAddress(addr: Ipv4Addr): (s: string)
    ensures |s| == 8 && AllHexDigits(s)
  {
    Hex2(addr.d) + Hex2(addr.c) + Hex2(addr.b) + Hex2(addr.a)
  }

  /** The chunks of a seven- or eight-character field. */
  lemma AddressChunks(s: string)
    requires |s| == 7 || |s| == 8
    ensures Chunks(s) == [s[..2], s[2..4], s[4..6], s[6..]]
  {
    var cs := Chunks(s);
    ChunkAt(s, 0); ChunkAt(s, 1); ChunkAt(s, 2); ChunkAt(s, 3);
    assert cs[0] == s[..2] && cs[1] == s[2..4] && cs[2] == s[4..6] && cs[3] == s[6..];
  }

  /** Four chunks that parse make the address of their values, last chunk
      first. */
  lemma DecodeFourChunks(s: string, addr: Ipv4Addr)
    requires |s| == 7 || |s| == 8
    requires U8FromHexStr(s[..2]) == Ok(addr.d) && U8FromHexStr(s[2..4]) == Ok(addr.c)
    requires U8FromHexStr(s[4..6]) == Ok(addr.b) && U8FromHexStr(s[6..]) == Ok(addr.a)
    ensures DecodeIp(s) == Ok(addr)
  {
    AddressChunks(s);
    var cs := Chunks(s);
    assert forall j | 0 <= j < 4 :: U8FromHexStr(cs[j]).Ok?;
    assert FirstBadChunk(cs) == 4;
  }

  /** `parse_ip` reads back every address written the kernel's way. */
  lemma DecodeFormatted(addr: Ipv4Addr)
    ensures DecodeIp(FormatAddress(addr)) == Ok(addr)
  {
    var s := FormatAddress(addr);
    assert s[..2] == Hex2(addr.d) && s[2..4] == Hex2(addr.c);
    assert s[4..6] == Hex2(addr.b) && s[6..] == Hex2(addr.a);
    Hex2RoundTrip(addr.a); Hex2RoundTrip(addr.b); Hex2RoundTrip(addr.c); Hex2RoundTrip(addr.d);
    DecodeFourChunks(s, addr);
  }

  // ---------------------------------------------------------------------------
  // The line pipeline

  /** One line after the header, as `parse_proc_net_route` handles it:
      a read failure becomes `Io`; fewer than three columns is `BadInput`;
      otherwise the destination and then the gateway column are decoded and the
      first column names the interface. */
  function ParseLine(line: Line): Result<Route, RouteError> {
    match line
    case Err(e) => Err(FromIoError(e))
    case Ok(text) =>
      var cols := SplitWhitespace(text);
      if |cols| < 3 then
        Err(BadInput)
      else
        var destination :- DecodeIp(cols[1]);
        var gateway :- DecodeIp(cols[2]);
        Ok(Route(cols[0], V4(destination), V4(gateway)))
  }

  /** Collecting the per-line results into one result: every route in order, or the
      first error. */
  function CollectRoutes(lines: seq<Line>): Result<seq<Route>, RouteError>
    decreases |lines|
  {
    if lines == [] then
      Ok([])
    else
      var route :- ParseLine(lines[0]);
      var routes :- CollectRoutes(lines[1..]);
      Ok([route] + routes)
  }

  /** `parse_proc_net_route`: the first line is the column header and is
      dropped unread. */
  function ParseProcNetRoute(lines: seq<Line>): Result<seq<Route>, RouteError> {
    CollectRoutes(if lines == [] then [] else lines[1..])
  }

  /** A line is accepted exactly when it was read, has at least three columns,
      and its second and third columns are well-formed addresses; the route then
      carries the first column as its interface, a token, and the two decoded
      addresses. Columns after the third play no part. */
  lemma ParseLineAccepts(line: Line)
    ensures ParseLine(line).Ok? <==>
      line.Ok? && |SplitWhitespace(line.value)| >= 3 &&
      WellFormedAddress(SplitWhitespace(line.value)[1]) &&
      WellFormedAddress(SplitWhitespace(line.value)[2])
    ensures ParseLine(line).Ok? ==>
      var cols := SplitWhitespace(line.value);
      && ParseLine(line).value.iface == cols[0]
      && IsToken(ParseLine(line).value.iface)
      && ParseLine(line).value.destination == V4(DecodeIp(cols[1]).value)
      && ParseLine(line).value.gateway == V4(DecodeIp(cols[2]).value)
  {
    if line.Ok? {
      var cols := SplitWhitespace(line.value);
      SplitFromTokens(line.value, []);
      if |cols| >= 3 {
        assert cols[0] in cols;
        DecodeIpOutcome(cols[1]);
        DecodeIpOutcome(cols[2]);
      }
    }
  }

  /** The errors of one line, in the order they are detected: a read failure is
      `Io` carrying that failure; a line of fewer than three columns is
      `BadInput`; a malformed destination column decides the error whatever the
      gateway column holds; only then is the gateway column's error reported. */
  lemma ParseLineErrors(line: Line)
    ensures line.Err? ==> ParseLine(line) == Err(Io(line.error))
    ensures line.Ok? && |SplitWhitespace(line.value)| < 3 ==> ParseLine(line) == Err(BadInput)
    ensures line.Ok? && |SplitWhitespace(line.value)| >= 3 &&
            !WellFormedAddress(SplitWhitespace(line.value)[1]) ==>
      DecodeIp(SplitWhitespace(line.value)[1]).Err? &&
      ParseLine(line) == Err(DecodeIp(SplitWhitespace(line.value)[1]).error)
    ensures line.Ok? && |SplitWhitespace(line.value)| >= 3 &&
            WellFormedAddress(SplitWhitespace(line.value)[1]) &&
            !WellFormedAddress(SplitWhitespace(line.value)[2]) ==>
      DecodeIp(SplitWhitespace(line.value)[2]).Err? &&
      ParseLine(line) == Err(DecodeIp(SplitWhitespace(line.value)[2]).error)
  {
    if line.Ok? && |SplitWhitespace(line.value)| >= 3 {
      DecodeIpOutcome(SplitWhitespace(line.value)[1]);
      DecodeIpOutcome(SplitWhitespace(line.value)[2]);
    }
  }

  /** A blank line, or one of whitespace only, is `BadInput`. */
  lemma BlankLineIsBadInput(text: string)
    requires forall i | 0 <= i < |text| :: IsWhitespace(text[i])
    ensures ParseLine(Ok(text)) == Err(BadInput)
  {
    SplitAllWhitespace(text);
  }

  /** Appending more columns to a line that already has three changes nothing. */
  lemma ExtraColumnsIgnored(text: string, sep: char, extra: string)
    requires IsWhitespace(sep)
    requires |SplitWhitespace(text)| >= 3
    ensures ParseLine(Ok(text + [sep] + extra)) == ParseLine(Ok(text))
  {
    SplitWhitespaceAppend(text, sep, extra);
    var cols := SplitWhitespace(text + [sep] + extra);
    assert cols[0] == SplitWhitespace(text)[0];
    assert cols[1] == SplitWhitespace(text)[1];
    assert cols[2] == SplitWhitespace(text)[2];
  }

  /** How the kernel writes a route: interface, destination and gateway columns
      followed by the other columns, separated by `sep` (the kernel uses a tab). */
  function FormatLine(sep: char, route: Route, others: seq<string>): string {
    Join(sep, [route.iface, FormatAddress(route.destination.v4), FormatAddress(route.gateway.v4)] + others)
  }

  /** Any route whose interface is a token is read back from its line, whatever
      whitespace separates the columns and whatever the other columns hold. */
  lemma ParseFormattedLine(sep: char, route: Route, others: seq<string>)
    requires IsWhitespace(sep)
    requires IsToken(route.iface)
    requires forall i | 0 <= i < |others| :: IsToken(others[i])
    ensures ParseLine(Ok(FormatLine(sep, route, others))) == Ok(route)
  {
    var dst, gw := FormatAddress(route.destination.v4), FormatAddress(route.gateway.v4);
    var cols := [route.iface, dst, gw] + others;
    forall i | 0 <= i < |cols| ensures IsToken(cols[i]) {
      if i == 1 {
        AddressIsToken(route.destination.v4);
      } else if i == 2 {
        AddressIsToken(route.gateway.v4);
      } else if i >= 3 {
        assert cols[i] == others[i - 3];
      }
    }
    SplitJoin(sep, cols);
    DecodeFormatted(route.destination.v4);
    DecodeFormatted(route.gateway.v4);
    ParseColumns(FormatLine(sep, route, others), route);
  }

  /** An address column is a single token: hex digits are not whitespace. */
  lemma AddressIsToken(addr: Ipv4Addr)
    ensures IsToken(FormatAddress(addr))
  {
    var s := FormatAddress(addr);
    forall i | 0 <= i < |s| ensures !IsWhitespace(s[i]) {
      assert IsHexDigit(s[i]);
    }
  }

  /** A line whose first three columns are the interface and two addresses that
      decode to those of `route` is read as `route`. */
  lemma ParseColumns(text: string, route: Route)
    requires |SplitWhitespace(text)| >= 3 && SplitWhitespace(text)[0] == route.iface
    requires DecodeIp(SplitWhitespace(text)[1]) == Ok(route.destination.v4)
    requires DecodeIp(SplitWhitespace(text)[2]) == Ok(route.gateway.v4)
    ensures ParseLine(Ok(text)) == Ok(route)
  {
  }

  /** `collect` succeeds exactly when every line does, and then yields one route
      per line, in order. */
  lemma {:induction false} CollectRoutesOk(lines: seq<Line>)
    ensures CollectRoutes(lines).Ok? <==> forall i | 0 <= i < |lines| :: ParseLine(lines[i]).Ok?
    ensures CollectRoutes(lines).Ok? ==>
      && |CollectRoutes(lines).value| == |lines|
      && forall i | 0 <= i < |lines| :: CollectRoutes(lines).value[i] == ParseLine(lines[i]).value
    decreases |lines|
  {
    if lines != [] {
      var rest := lines[1..];
      CollectRoutesOk(rest);
      assert forall i | 1 <= i < |lines| :: lines[i] == rest[i - 1];
      if ParseLine(lines[0]).Ok? && CollectRoutes(rest).Ok? {
        assert CollectRoutes(lines).value == [ParseLine(lines[0]).value] + CollectRoutes(rest).value;
      }
    }
  }

  /** `collect` stops at the first failing line: its error is the result. */
  lemma {:induction false} CollectRoutesFirstError(lines: seq<Line>, k: nat)
    requires k < |lines| && ParseLine(lines[k]).Err?
    requires forall j | 0 <= j < k :: ParseLine(lines[j]).Ok?
    ensures CollectRoutes(lines) == Err(ParseLine(lines[k]).error)
    decreases k
  {
    if k > 0 {
      assert forall j | 0 <= j < k - 1 :: lines[1..][j] == lines[j + 1];
      CollectRoutesFirstError(lines[1..], k - 1);
    }
  }

  /** The table parses exactly when every line after the header does, and then
      holds one route per such line, in order; no input line after the first is
      left out, so a table of just a header, or an empty one, gives no routes. */
  lemma TableOk(lines: seq<Line>)
    ensures ParseProcNetRoute(lines).Ok? <==>
      forall i | 1 <= i < |lines| :: ParseLine(lines[i]).Ok?
    ensures ParseProcNetRoute(lines).Ok? ==>
      && |ParseProcNetRoute(lines).value| == (if lines == [] then 0 else |lines| - 1)
      && forall i | 1 <= i < |lines| :: ParseProcNetRoute(lines).value[i - 1] == ParseLine(lines[i]).value
  {
    if lines != [] {
      CollectRoutesOk(lines[1..]);
      assert forall i | 1 <= i < |lines| :: lines[i] == lines[1..][i - 1];
    } else {
      CollectRoutesOk([]);
    }
  }

  /** The table's error is that of the first line after the header that fails,
      be it a read failure (`Io`) or a malformed line; no partial list is
      returned. */
  lemma TableFirstError(lines: seq<Line>, k: nat)
    requires 1 <= k < |lines| && ParseLine(lines[k]).Err?
    requires forall j | 1 <= j < k :: ParseLine(lines[j]).Ok?
    ensures ParseProcNetRoute(lines) == Err(ParseLine(lines[k]).error)
  {
    assert forall j | 0 <= j < k - 1 :: lines[1..][j] == lines[j + 1];
    CollectRoutesFirstError(lines[1..], k - 1);
  }

  /** The header line is never looked at, not even when reading it failed. */
  lemma HeaderIgnored(header1: Line, header2: Line, rest: seq<Line>)
    ensures ParseProcNetRoute([header1] + rest) == ParseProcNetRoute([header2] + rest)
  {
    assert ([header1] + rest)[1..] == rest == ([header2] + rest)[1..];
  }

  /** The kernel's lines for a list of routes: on line `i`, route `i` followed
      by the other columns `others[i]`, separated by tabs. */
  function FormatRoutes(routes: seq<Route>, others: seq<seq<string>>): (lines: seq<Line>)
    requires |others| == |routes|
    ensures |lines| == |routes|
    ensures forall i | 0 <= i < |routes| :: lines[i] == Ok(FormatLine('\t', routes[i], others[i]))
  {
    seq(|routes|, i requires 0 <= i < |routes| => Ok(FormatLine('\t', routes[i], others[i])))
  }

  /** A table written the kernel's way, under any header and whatever its
      columns after the third hold, reads back as the routes it was written
      from. */
  lemma ParseFormattedTable(header: Line, routes: seq<Route>, others: seq<seq<string>>)
    requires |others| == |routes|
    requires forall i | 0 <= i < |routes| :: IsToken(routes[i].iface)
    requires forall i, j | 0 <= i < |others| && 0 <= j < |others[i]| :: IsToken(others[i][j])
    ensures ParseProcNetRoute([header] + FormatRoutes(routes, others)) == Ok(routes)
  {
    var body := FormatRoutes(routes, others);
    forall k | 0 <= k < |body| ensures ParseLine(body[k]) == Ok(routes[k]) {
      FormattedRouteLine(routes[k], others[k]);
    }
    assert ([header] + body)[1..] == body;
    CollectRoutesOk(body);
    assert CollectRoutes(body).value == routes;
  }

  /** One line of `FormatRoutes` reads back as its route. */
  lemma FormattedRouteLine(route: Route, others: seq<string>)
    requires IsToken(route.iface)
    requires forall j | 0 <= j < |others| :: IsToken(others[j])
    ensures ParseLine(Ok(FormatLine('\t', route, others))) == Ok(route)
  {
    ParseFormattedLine('\t', route, others);
  }
}
