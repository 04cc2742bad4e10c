# net-route: a verified model of the `/proc/net/route` parser

The repository reads the kernel's IPv4 routing table, a whitespace-separated
text table whose first line is a column header, and turns every other line
into a `Route`: the interface name (first column), the destination and the
gateway (second and third columns). Those two columns carry an address as
hex digits with the bytes in reverse order, so `0101A8C0` is 192.168.1.1.
Every failure is one `RouteError`:
- `Io` when a line could not be read;
- `Parse` when a hex chunk is not a number;
- `BadInput` when a line has fewer than three columns or an address field does
  not make exactly four chunks.

The first error ends the whole load, and no partial list is returned.

The project models both copies of this logic. One is src/route.rs with
src/errors.rs. The other is the older, self-contained src/lib.rs. The model
proves what each piece promises and proves that the two copies agree on every
input.

| file | module | models |
|---|---|---|
| `rust_std.dfy` | `RustStd` | the standard-library types the parser uses: `u8`, `Result`, the opaque `io::Error` and `ParseIntError` payloads, `Ipv4Addr`, `IpAddr` |
| `radix.dfy` | `Radix` | `u8::from_str_radix(_, 16)`, the value of a string of hex digits, and a two-digit upper-case hex encoder |
| `text.dfy` | `Text` | cutting a string's characters into two-character chunks; `split_whitespace` over Unicode White_Space; joining tokens with a separator |
| `errors.dfy` | `Errors` | src/errors.rs: `RouteError` and its two `From` conversions |
| `route.dfy` | `Route` | src/route.rs: `Route`, `parse_ip` (a method with its loop) against the specification `DecodeIp`, and `parse_proc_net_route` as recursive functions |
| `lib.dfy` | `Lib` | src/lib.rs: its own `RouteError`, `Route`, `Route::parse_ip` (a method) against the fold `ParsedIp`, and the line pipeline of `Route::load` |
| `agreement.dfy` | `Agreement` | src/lib.rs and src/route.rs compute the same thing, variant by variant and route by route |
| `route_test.dfy` | `RouteTest` | the unit tests of src/route.rs as lemmas, with the fixture table rebuilt from the routes the test expects |

Modelling choices:
- The line source is a `seq<Result<string, IoError>>`. Each element is what
  `BufRead::lines` yields: a line, or the read error in its place. A read
  error is wrapped by `try!`, so it becomes `Io`.
- The header is dropped without being looked at, even when reading it failed.
- `u8::from_str_radix(_, 16)` follows the current standard library:
  - `0-9`, `a-f` and `A-F` are digits;
  - one leading `+` is skipped, so `"+f"` is 15;
  - a lone `+` or `-` is `InvalidDigit`, and for an unsigned type a `-`
    anywhere is a bad digit;
  - an invalid digit is reported before the running value overflows.

  On the one- and two-character chunks the decoder produces, the parse never
  overflows and can only fail with `InvalidDigit` (`Radix.ChunkParse`).
- The source's chunks are chunks of `char`s, so the model works on
  `seq<char>`. `Chunks` is defined index by index, the way `slice::chunks`
  is documented: chunk `i` starts at offset `2i`. `Text.ChunksCons` proves the
  front-to-back view of the same chunks.
- `split_whitespace` splits on Unicode White_Space, which is what
  `char::is_whitespace` tests.
- The `io::Error` payload is an opaque identity. A `ParseIntError` keeps only
  its kind.

`parse_ip` counts chunks, not characters. A 7-character field makes four
chunks, the last a single digit, and is accepted: `"0101A8C"` is 12.168.1.1
(`RouteTest.ParseIpSevenChars`).

## Model

| member | source | states |
|---|---|---|
| `Radix.ChunkParse` | src/route.rs:48 | on a chunk of one or two characters, `from_str_radix(_, 16)` succeeds exactly when the chunk is all hex digits or a `+` followed by one hex digit; the value is that of the digits; a failure is always `InvalidDigit` |
| `Radix.Hex2RoundTrip` | src/route.rs:48 | every byte written as two upper-case hex digits parses back to itself |
| `Text.ChunkAt` | src/route.rs:46 | the definition of `chars().chunks(2)` (`Chunks`) read back index by index: chunk `i` of a string is its two characters from offset `2i`, or the single character left at the end of an odd-length string |
| `Text.ChunksCons` | src/route.rs:46 | the chunks come front to back: an empty string has none, a string of one or two characters is one chunk, and a longer one gives its first two characters and then the chunks of the rest |
| `Text.ChunkSizes` | src/route.rs:46 | every chunk has one or two characters, and it has two unless it is the last chunk of an odd-length string |
| `Text.SplitFromTokens` | src/route.rs:30 | every column `split_whitespace` yields is non-empty and holds no whitespace |
| `Text.SplitWhitespaceAppend` | src/route.rs:30 | splitting two texts joined by a whitespace character gives the columns of the first text, then those of the second |
| `Text.SplitAllWhitespace` | src/route.rs:30 | a line of whitespace only, or an empty line, has no columns |
| `Text.SplitJoin` | src/route.rs:30 | `split_whitespace` gives back exactly the tokens that were joined with a whitespace separator |
| `Errors.FromIoError` | src/errors.rs:11-15 | converting an I/O error gives `Io` carrying that same error |
| `Errors.FromParseIntError` | src/errors.rs:17-21 | converting an integer-parse error gives `Parse` carrying that same error |
| `Errors.ConversionsKeepCause` | src/errors.rs:5-21 | both conversions are injective; an I/O error never becomes a parse error; neither conversion produces `BadInput` |
| `Route.FirstBadChunk` | src/route.rs:46-49 | the index of the first chunk the hex parse rejects: every earlier chunk parses, and the chunk there does not (or it is the chunk count if all parse) |
| `Route.ParseIp` | src/route.rs:44-56 | the push loop returns exactly `DecodeIp(s)`: the first bad chunk's `Parse` error, else `BadInput` unless there are 4 octets, else the octets in reverse order |
| `Route.ChunkChars` | src/route.rs:46-48 | a chunk parses exactly when each of its characters is a hex digit, except that a `+` may open a two-character chunk |
| `Route.AllChunksParse` | src/route.rs:46-49 | no chunk is rejected exactly when every character of the field is a hex digit or a `+` at an even offset that is not the last character |
| `Route.DecodeIpOutcome` | src/route.rs:44-56 | `parse_ip` succeeds iff the field has only hex octets and 7 or 8 characters; it returns `Parse(InvalidDigit)` iff some chunk is not hex, whatever the length; it returns `BadInput` iff all chunks are hex but there are not 4 of them (the empty field included) |
| `Route.DecodeIpOctets` | src/route.rs:51-54 | on success the first octet is the value of the last chunk and the last octet is the value of the first chunk |
| `Route.AddressChunks` | src/route.rs:46 | a field of 7 or 8 characters has exactly the four chunks at offsets 0, 2, 4 and 6 |
| `Route.DecodeFourChunks` | src/route.rs:46-54 | four chunks that parse to d, c, b, a give the address a.b.c.d |
| `Route.DecodeFormatted` | src/route.rs:44-56 | every address a.b.c.d written the kernel's way, `hex2(d) hex2(c) hex2(b) hex2(a)`, parses back to a.b.c.d |
| `Route.ParseLineAccepts` | src/route.rs:29-37 | a line gives a route iff it was read, has at least 3 columns, and columns 2 and 3 are well-formed addresses; the route's interface is column 1, a token, and its destination and gateway are the decoded columns 2 and 3 |
| `Route.ParseLineErrors` | src/route.rs:29-39 | a read failure is `Io` with that error; fewer than 3 columns is `BadInput`; a bad destination column decides the error whatever the gateway column holds; only then does the gateway column's error count |
| `Route.BlankLineIsBadInput` | src/route.rs:30-39 | a blank line, or one of whitespace only, is `BadInput` |
| `Route.ExtraColumnsIgnored` | src/route.rs:30-32 | adding columns after a line's third changes nothing |
| `Route.ParseFormattedLine` | src/route.rs:29-37 | a route whose interface is a token is read back from its line, whatever whitespace character separates the columns and whatever the later columns hold |
| `Route.CollectRoutesOk` | src/route.rs:28-41 | collecting succeeds iff every line parses, and then gives exactly one route per line, in order |
| `Route.CollectRoutesFirstError` | src/route.rs:28-41 | collecting returns the error of the first line that fails |
| `Route.TableOk` | src/route.rs:26-42 | the table parses iff every line after the header does; it then holds one route per such line, in input order, so an empty table or a lone header gives `Ok([])` |
| `Route.TableFirstError` | src/route.rs:26-42 | the table's result is the error of the first failing line after the header, whether a read failure or a malformed line; no partial list is returned |
| `Route.HeaderIgnored` | src/route.rs:27-28 | the result does not depend on the first line, not even when reading it failed |
| `Route.ParseFormattedTable` | src/route.rs:26-42 | routes written the kernel's way, one tab-separated line per route with any further columns after the third, under any header, are read back as the same list |
| `Lib.FromIoError` | src/lib.rs:21-25 | this file's copy of the conversion gives `Io` carrying the same error |
| `Lib.FromParseIntError` | src/lib.rs:27-31 | this file's copy of the conversion gives `Parse` carrying the same error |
| `Lib.PushOctets` | src/lib.rs:62-66 | a successful push loop keeps what was already pushed and adds one octet per chunk |
| `Lib.ParseIp` | src/lib.rs:61-73 | the push loop of `Route::parse_ip` returns exactly the fold `ParsedIp(s)` |
| `Agreement.ConversionsAgree` | src/lib.rs:21-31 | the conversions of src/lib.rs and src/errors.rs give matching variants with the same payload |
| `Agreement.PushOctetsFirstBad` | src/lib.rs:62-66 | the push loop fails with exactly the first bad chunk's error; otherwise it has pushed every chunk's value, in order |
| `Agreement.ParseIpAgrees` | src/lib.rs:61-73 | `Route::parse_ip` of src/lib.rs and `parse_ip` of src/route.rs agree on every string |
| `Agreement.ParseLineAgrees` | src/lib.rs:45-57 | the per-line parsing of the two files agrees on every line |
| `Agreement.CollectRoutesAgree` | src/lib.rs:45-58 | collecting the per-line results agrees in the two files on every line sequence |
| `Agreement.LoadAgrees` | src/lib.rs:45-58 | after the file is opened, `Route::load` of src/lib.rs and `parse_proc_net_route` of src/route.rs agree on every line source |
| `RouteTest.FixtureAddresses` | src/route.rs:74-88 | `00000000`, `0101A8C0`, `0001A8C0` and `007AA8C0` decode to 0.0.0.0, 192.168.1.1, 192.168.1.0 and 192.168.122.0 |
| `RouteTest.ParseIpTooShort` | src/route.rs:91-105 | `"000000"` (three chunks) is `BadInput` |
| `RouteTest.ParseIpTooLong` | src/route.rs:108-114 | `"0000000000"` (five chunks) is `BadInput` |
| `RouteTest.ParseIpBadCharacter` | src/route.rs:116-122 | `"000foo00"` is `Parse(InvalidDigit)`, not `BadInput` |
| `RouteTest.ParseIpEmpty` | src/route.rs:51-52 | the empty field has no chunks and is `BadInput` |
| `RouteTest.ParseIpSevenChars` | src/route.rs:46-54 | the 7-character field `"0101A8C"` is accepted as 12.168.1.1 |
| `RouteTest.ParseIpSignedLowerCase` | src/route.rs:48 | `"+f+f+f+f"` is accepted as 15.15.15.15 |
| `RouteTest.SampleText` | src/route.rs:70-73 | the fixture's route lines are the kernel's columns, for instance `eno1 00000000 0101A8C0 0003 0 0 100 00000000 0 0 0` |
| `RouteTest.SampleLine1` | src/route.rs:74-78 | the fixture's default-route line gives eno1, 0.0.0.0, 192.168.1.1 |
| `RouteTest.SampleLine2` | src/route.rs:79-83 | the fixture's LAN line gives eno1, 192.168.1.0, 0.0.0.0 |
| `RouteTest.SampleLine3` | src/route.rs:84-88 | the fixture's bridge line gives virbr0, 192.168.122.0, 0.0.0.0 |
| `RouteTest.SampleTable` | src/route.rs:68-89 | the fixture table with its header gives exactly those three routes, in order, whatever whitespace character separates the columns |

## Left out

- `load` opening `/proc/net/route` and wrapping it in a `BufReader` (src/route.rs:19-24, src/lib.rs:40-42): this is file I/O. The model starts from the sequence of lines the reader yields.
- How `BufRead::lines` cuts bytes into lines and checks UTF-8: a failure there is one more I/O error, and the model covers it through the `Err` elements of the line source.
- Laziness: the source stops reading lines after the first error. The model gets all lines up front, and the result is the same.
- The `it_works` tests (src/route.rs:125-130, src/lib.rs:76-82): they read and print the live system table.
- The fixture file `tests/fixtures/sample` is not part of this model. Its three route lines are rebuilt from the routes `test_foo` expects, with a usual header and usual values in the later columns. The separator is any whitespace character, the tab the kernel writes included. `test_foo` checks only the first three routes. The rebuilt table has exactly three.
- The internals of `io::Error` and `ParseIntError`, and the `Debug` and `PartialEq` derives.
- `IpAddr::V6`: the parser only builds `IpAddr::V4`.
- The `#![feature(...)]` gates of src/lib.rs:1-3: they are compiler configuration.
- `Lib.ParseIp`, `Route.ParseIp`: the loop pushes onto a `Vec`, and the model uses a `seq` value where Rust mutates the vector in place.
