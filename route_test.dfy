/** The unit tests of src/route.rs as lemmas, with the fixture table rebuilt
    from the routes the tests expect of it. */
module RouteTest {
  import opened RustStd
  import opened Radix
  import opened Text
  import opened Errors
  import opened Route

  /** The bytes of the fixture's addresses as the kernel writes them. */
  lemma FixtureBytes()
    ensures Hex2(0) == "00" && Hex2(1) == "01" && Hex2(0x7A) == "7A"
    ensures Hex2(0xA8) == "A8" && Hex2(0xC0) == "C0"
  {
  }

  /** The fixture's addresses as the kernel writes them. */
  lemma FixtureColumns()
    ensures FormatAddress(Ipv4Addr(0, 0, 0, 0)) == "00000000"
    ensures FormatAddress(Ipv4Addr(192, 168, 1, 1)) == "0101A8C0"
    ensures FormatAddress(Ipv4Addr(192, 168, 1, 0)) == "0001A8C0"
    ensures FormatAddress(Ipv4Addr(192, 168, 122, 0)) == "007AA8C0"
  {
    FixtureBytes();
  }

  /** Each of the addresses the fixture test expects, in the kernel's notation. */
  lemma FixtureAddresses()
    ensures DecodeIp("00000000") == Ok(Ipv4Addr(0, 0, 0, 0))
    ensures DecodeIp("0101A8C0") == Ok(Ipv4Addr(192, 168, 1, 1))
    ensures DecodeIp("0001A8C0") == Ok(Ipv4Addr(192, 168, 1, 0))
    ensures DecodeIp("007AA8C0") == Ok(Ipv4Addr(192, 168, 122, 0))
  {
    FixtureColumns();
    DecodeFormatted(Ipv4Addr(0, 0, 0, 0));
    DecodeFormatted(Ipv4Addr(192, 168, 1, 1));
    DecodeFormatted(Ipv4Addr(192, 168, 1, 0));
    DecodeFormatted(Ipv4Addr(192, 168, 122, 0));
  }

  /** A field of zeros only, of a length other than seven or eight, is
      rejected for its chunk count. */
  lemma ZerosTooShortOrLong(s: string)
    requires forall i | 0 <= i < |s| :: s[i] == '0'
    requires |s| != 7 && |s| != 8
    ensures DecodeIp(s) == Err(BadInput)
  {
    assert HexOctets(s);
    DecodeIpOutcome(s);
  }

  /** `parse_ip_returns_error_for_bad_input_0_length` and
      `parse_ip_returns_error_for_bad_input_length_short`, which both decode
      `"000000"`: three chunks. */
  lemma ParseIpTooShort()
    ensures DecodeIp("000000") == Err(BadInput)
  {
    ZerosTooShortOrLong("000000");
  }

  /** `parse_ip_returns_error_for_bad_input_length_long`: five chunks. */
  lemma ParseIpTooLong()
    ensures DecodeIp("0000000000") == Err(BadInput)
  {
    ZerosTooShortOrLong("0000000000");
  }

  /** The empty field has no chunks at all. */
  lemma ParseIpEmpty()
    ensures DecodeIp("") == Err(BadInput)
  {
  }

  /** `parse_ip_returns_parse_error_for_bad_input_length_bad_character`: the
      `o` at offset 4 is not a hex digit. */
  lemma ParseIpBadCharacter()
    ensures DecodeIp("000foo00") == Err(Parse(ParseIntError(InvalidDigit)))
  {
    var s := "000foo00";
    assert s[4] == 'o' && !OctetChar(s, 4);
    DecodeIpOutcome(s);
  }

  /** A chunk read as the value of its digits. */
  lemma ChunkValue(c: string, v: uint8)
    requires 1 <= |c| <= 2 && HexChunk(c) && HexValue(ChunkDigits(c)) == v as int
    ensures U8FromHexStr(c) == Ok(v)
  {
    ChunkParse(c);
  }

  /** Seven characters still make four chunks, the last a single digit. */
  lemma ParseIpSevenChars()
    ensures DecodeIp("0101A8C") == Ok(Ipv4Addr(12, 168, 1, 1))
  {
    var s := "0101A8C";
    assert s[..2] == "01" && s[2..4] == "01" && s[4..6] == "A8" && s[6..] == "C";
    ChunkValue("01", 1); ChunkValue("A8", 168); ChunkValue("C", 12);
    DecodeFourChunks(s, Ipv4Addr(12, 168, 1, 1));
  }

  /** A `+` may open any chunk, and lower-case digits are accepted. */
  lemma ParseIpSignedLowerCase()
    ensures DecodeIp("+f+f+f+f") == Ok(Ipv4Addr(15, 15, 15, 15))
  {
    var s := "+f+f+f+f";
    assert s[..2] == s[2..4] == s[4..6] == s[6..] == "+f";
    assert ChunkDigits("+f") == "f";
    ChunkValue("+f", 15);
    DecodeFourChunks(s, Ipv4Addr(15, 15, 15, 15));
  }

  /** The columns after the third on each of the fixture's route lines. */
  function SampleRest(n: nat): seq<string> {
    if n == 1 then ["0003", "0", "0", "100", "00000000", "0", "0", "0"]
    else if n == 2 then ["0001", "0", "0", "100", "00FFFFFF", "0", "0", "0"]
    else ["0001", "0", "0", "0", "00FFFFFF", "0", "0", "0"]
  }

  /** The fixture table: a header and three routes, each line written from the
      route it stands for, with `sep` between the columns (the kernel writes
      tabs). */
  function SampleLines(sep: char): seq<Line> {
    [ Ok(Join(sep, ["Iface", "Destination", "Gateway", "Flags", "RefCnt", "Use", "Metric", "Mask", "MTU", "Window", "IRTT"])),
      Ok(FormatLine(sep, Route("eno1", V4(Ipv4Addr(0, 0, 0, 0)), V4(Ipv4Addr(192, 168, 1, 1))), SampleRest(1))),
      Ok(FormatLine(sep, Route("eno1", V4(Ipv4Addr(192, 168, 1, 0)), V4(Ipv4Addr(0, 0, 0, 0))), SampleRest(2))),
      Ok(FormatLine(sep, Route("virbr0", V4(Ipv4Addr(192, 168, 122, 0)), V4(Ipv4Addr(0, 0, 0, 0))), SampleRest(3))) ]
  }

  /** The first route line, written out column by column. */
  lemma SampleText1(sep: char)
    ensures FormatLine(sep, Route("eno1", V4(Ipv4Addr(0, 0, 0, 0)), V4(Ipv4Addr(192, 168, 1, 1))), SampleRest(1)) == Join(sep, ["eno1", "00000000", "0101A8C0", "0003", "0", "0", "100", "00000000", "0", "0", "0"])
  {
    FixtureColumns();
    assert ["eno1", "00000000", "0101A8C0"] + SampleRest(1) == ["eno1", "00000000", "0101A8C0", "0003", "0", "0", "100", "00000000", "0", "0", "0"];
  }

  /** The second route line, written out column by column. */
  lemma SampleText2(sep: char)
    ensures FormatLine(sep, Route("eno1", V4(Ipv4Addr(192, 168, 1, 0)), V4(Ipv4Addr(0, 0, 0, 0))), SampleRest(2)) == Join(sep, ["eno1", "0001A8C0", "00000000", "0001", "0", "0", "100", "00FFFFFF", "0", "0", "0"])
  {
    FixtureColumns();
    assert ["eno1", "0001A8C0", "00000000"] + SampleRest(2) == ["eno1", "0001A8C0", "00000000", "0001", "0", "0", "100", "00FFFFFF", "0", "0", "0"];
  }

  /** The third route line, written out column by column. */
  lemma SampleText3(sep: char)
    ensures FormatLine(sep, Route("virbr0", V4(Ipv4Addr(192, 168, 122, 0)), V4(Ipv4Addr(0, 0, 0, 0))), SampleRest(3)) == Join(sep, ["virbr0", "007AA8C0", "00000000", "0001", "0", "0", "0", "00FFFFFF", "0", "0", "0"])
  {
    FixtureColumns();
    assert ["virbr0", "007AA8C0", "00000000"] + SampleRest(3) == ["virbr0", "007AA8C0", "00000000", "0001", "0", "0", "0", "00FFFFFF", "0", "0", "0"];
  }

  /** The text of the fixture's route lines, column by column. */
  lemma SampleText(sep: char)
    ensures SampleLines(sep)[1] == Ok(Join(sep, ["eno1", "00000000", "0101A8C0", "0003", "0", "0", "100", "00000000", "0", "0", "0"]))
    ensures SampleLines(sep)[2] == Ok(Join(sep, ["eno1", "0001A8C0", "00000000", "0001", "0", "0", "100", "00FFFFFF", "0", "0", "0"]))
    ensures SampleLines(sep)[3] == Ok(Join(sep, ["virbr0", "007AA8C0", "00000000", "0001", "0", "0", "0", "00FFFFFF", "0", "0", "0"]))
  {
    SampleText1(sep);
    SampleText2(sep);
    SampleText3(sep);
  }

  /** The fixture's interface names are tokens. */
  lemma SampleInterfaces()
    ensures IsToken("eno1") && IsToken("virbr0")
  {
  }

  /** The columns after the third are tokens on every route line. */
  lemma SampleRestTokens(n: nat)
    ensures forall i | 0 <= i < |SampleRest(n)| :: IsToken(SampleRest(n)[i])
  {
  }

  lemma SampleLine1(sep: char)
    requires IsWhitespace(sep)
    ensures ParseLine(SampleLines(sep)[1]) == Ok(Route("eno1", V4(Ipv4Addr(0, 0, 0, 0)), V4(Ipv4Addr(192, 168, 1, 1))))
  {
    SampleInterfaces();
    SampleRestTokens(1);
    ParseFormattedLine(sep, Route("eno1", V4(Ipv4Addr(0, 0, 0, 0)), V4(Ipv4Addr(192, 168, 1, 1))), SampleRest(1));
  }

  lemma SampleLine2(sep: char)
    requires IsWhitespace(sep)
    ensures ParseLine(SampleLines(sep)[2]) == Ok(Route("eno1", V4(Ipv4Addr(192, 168, 1, 0)), V4(Ipv4Addr(0, 0, 0, 0))))
  {
    SampleInterfaces();
    SampleRestTokens(2);
    ParseFormattedLine(sep, Route("eno1", V4(Ipv4Addr(192, 168, 1, 0)), V4(Ipv4Addr(0, 0, 0, 0))), SampleRest(2));
  }

  lemma SampleLine3(sep: char)
    requires IsWhitespace(sep)
    ensures ParseLine(SampleLines(sep)[3]) == Ok(Route("virbr0", V4(Ipv4Addr(192, 168, 122, 0)), V4(Ipv4Addr(0, 0, 0, 0))))
  {
    SampleInterfaces();
    SampleRestTokens(3);
    ParseFormattedLine(sep, Route("virbr0", V4(Ipv4Addr(192, 168, 122, 0)), V4(Ipv4Addr(0, 0, 0, 0))), SampleRest(3));
  }

  /** `test_foo`: the three routes of the fixture, in order, whatever whitespace
      separates its columns. */
  lemma SampleTable(sep: char)
    requires IsWhitespace(sep)
    ensures ParseProcNetRoute(SampleLines(sep)) == Ok([
      Route("eno1", V4(Ipv4Addr(0, 0, 0, 0)), V4(Ipv4Addr(192, 168, 1, 1))),
      Route("eno1", V4(Ipv4Addr(192, 168, 1, 0)), V4(Ipv4Addr(0, 0, 0, 0))),
      Route("virbr0", V4(Ipv4Addr(192, 168, 122, 0)), V4(Ipv4Addr(0, 0, 0, 0)))])
  {
    SampleLine1(sep);
    SampleLine2(sep);
    SampleLine3(sep);
    ThreeRoutes(SampleLines(sep));
  }

  /** A table of a header and three accepted lines gives their three routes. */
  lemma ThreeRoutes(lines: seq<Line>)
    requires |lines| == 4
    requires ParseLine(lines[1]).Ok? && ParseLine(lines[2]).Ok? && ParseLine(lines[3]).Ok?
    ensures ParseProcNetRoute(lines) ==
      Ok([ParseLine(lines[1]).value, ParseLine(lines[2]).value, ParseLine(lines[3]).value])
  {
    var rest := lines[1..];
    assert rest[0] == lines[1] && rest[1] == lines[2] && rest[2] == lines[3];
    forall i | 0 <= i < |rest| ensures ParseLine(rest[i]).Ok? {
      assert i == 0 || i == 1 || i == 2;
    }
    CollectRoutesOk(rest);
    assert ParseProcNetRoute(lines) == CollectRoutes(rest);
    var routes := CollectRoutes(rest).value;
    assert routes == [routes[0], routes[1], routes[2]];
  }
}
