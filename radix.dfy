/** `u8::from_str_radix(src, 16)` and the hex-digit arithmetic around it. */
module Radix {
  import opened RustStd

  /** A digit of base 16, in either case. */
  predicate IsHexDigit(c: char) {
    '0' <= c <= '9' || 'a' <= c <= 'f' || 'A' <= c <= 'F'
  }

  function HexDigitValue(c: char): (v: nat)
    requires IsHexDigit(c)
    ensures v < 16
    ensures c <= '9' ==> v == c as int - '0' as int
  {
    if c <= '9' then c as int - '0' as int
    else if c <= 'F' then c as int - 'A' as int + 10
    else c as int - 'a' as int + 10
  }

  predicate AllHexDigits(ds: string) {
    forall i | 0 <= i < |ds| :: IsHexDigit(ds[i])
  }

  /** The number a string of hex digits denotes, most significant digit first. */
  function HexValue(ds: string): nat
    requires AllHexDigits(ds)
  {
    if ds == [] then 0 else HexValue(ds[..|ds| - 1]) * 16 + HexDigitValue(ds[|ds| - 1])
  }

  /** The digit loop of `from_str_radix`: at each digit an invalid character is
      reported before an overflow of the running value. */
  function Accumulate(ds: string, acc: uint8): Result<uint8, ParseIntError>
    decreases |ds|
  {
    if ds == [] then Ok(acc)
    else if !IsHexDigit(ds[0]) then Err(ParseIntError(InvalidDigit))
    else
      var n := acc as int * 16 + HexDigitValue(ds[0]);
      if n < 0x100 then Accumulate(ds[1..], n as uint8) else Err(ParseIntError(PosOverflow))
  }

  /** `u8::from_str_radix(src, 16)`: the empty string is `Empty`, a lone sign is
      `InvalidDigit`, one leading `+` is skipped, and a `-` is just a bad digit
      for an unsigned type. */
  function U8FromHexStr(src: string): Result<uint8, ParseIntError> {
    if src == [] then Err(ParseIntError(Empty))
    else if |src| == 1 && (src[0] == '+' || src[0] == '-') then Err(ParseIntError(InvalidDigit))
    else Accumulate(if src[0] == '+' then src[1..] else src, 0)
  }

  /** A chunk of one or two characters that `U8FromHexStr` accepts: all hex
      digits, or a `+` followed by one hex digit. */
  predicate HexChunk(c: string) {
    AllHexDigits(c) || (|c| == 2 && c[0] == '+' && IsHexDigit(c[1]))
  }

  /** The digits of a chunk, without its sign. */
  function ChunkDigits(c: string): string {
    if |c| > 0 && c[0] == '+' then c[1..] else c
  }

  /** On the one- and two-character chunks the address decoder produces, the
      parse accepts exactly the hex chunks, yields their value, and can only
      fail with `InvalidDigit` (two hex digits never overflow a `u8`). */
  lemma ChunkParse(c: string)
    requires 1 <= |c| <= 2
    ensures U8FromHexStr(c).Ok? <==> HexChunk(c)
    ensures U8FromHexStr(c).Ok? ==>
      AllHexDigits(ChunkDigits(c)) && U8FromHexStr(c).value as int == HexValue(ChunkDigits(c))
    ensures U8FromHexStr(c).Err? ==> U8FromHexStr(c).error == ParseIntError(InvalidDigit)
  {
    var ds := ChunkDigits(c);
    if |c| == 2 && c[0] == '+' {
      assert ds == [c[1]] && ds[..0] == [] && ds[1..] == [];
      assert !IsHexDigit(c[0]);
      if IsHexDigit(c[1]) {
        var d := HexDigitValue(c[1]);
        assert U8FromHexStr(c) == Accumulate(ds[1..], d as uint8) == Ok(d as uint8);
        assert HexValue(ds) == HexValue(ds[..0]) * 16 + d;
      }
    } else if c[0] == '+' || (|c| == 2 && c[0] == '-') || !IsHexDigit(c[0]) {
      assert !HexChunk(c);
    } else if |c| == 1 {
      var d0 := HexDigitValue(c[0]);
      assert ds == c && ds[..0] == [] && c[1..] == [];
      assert U8FromHexStr(c) == Accumulate(c[1..], d0 as uint8) == Ok(d0 as uint8);
      assert HexValue(ds) == HexValue(ds[..0]) * 16 + d0;
    } else {
      var d0 := HexDigitValue(c[0]);
      assert ds == c && ds[..1] == [c[0]] && [c[0]][..0] == [];
      assert U8FromHexStr(c) == Accumulate(c[1..], d0 as uint8);
      if IsHexDigit(c[1]) {
        var n := d0 * 16 + HexDigitValue(c[1]);
        assert c[1..][0] == c[1] && c[1..][1..] == [];
        assert Accumulate(c[1..], d0 as uint8) == Accumulate(c[1..][1..], n as uint8);
        assert HexValue(ds) == HexValue(ds[..1]) * 16 + HexDigitValue(c[1]);
      } else {
        assert !AllHexDigits(c);
      }
    }
  }

  /** The upper-case hex digit for a value below 16. */
  function HexChar(v: nat): (c: char)
    requires v < 16
    ensures IsHexDigit(c) && HexDigitValue(c) == v
  {
    "0123456789ABCDEF"[v]
  }

  /** A byte as two upper-case hex digits, the way the kernel prints each byte
      of an address column. */
  function Hex2(b: uint8): (s: string)
    ensures |s| == 2 && AllHexDigits(s)
  {
    [HexChar(b as int / 16), HexChar(b as int % 16)]
  }

  lemma {:induction false} Hex2RoundTrip(b: uint8)
    ensures U8FromHexStr(Hex2(b)) == Ok(b)
  {
    var s := Hex2(b);
    ChunkParse(s);
    assert ChunkDigits(s) == s;
    assert s[..1] == [s[0]];
    assert [s[0]][..0] == [];
  }
}
