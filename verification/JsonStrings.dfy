/** Printing a byte string as a JSON string (benchmarks/src/benchmark_support.cpp), and reading it back by
    section 7 of RFC 8259. */
module JsonStrings {
  import opened Results

  newtype byte = x: int | 0 <= x < 256

  type Bytes = seq<byte>

  const QUOTE: byte := 0x22
  const BACKSLASH: byte := 0x5C

  // ---- Printing ----

  function HexDigit(n: byte): byte
    requires n < 16
  {
    if n < 10 then 0x30 + n else 0x61 + (n - 10)
  }

  /** What one byte is printed as. */
  function Printed(ch: byte): Bytes {
    if ch == QUOTE then [BACKSLASH, QUOTE]
    else if ch == BACKSLASH then [BACKSLASH, BACKSLASH]
    else if ch == 0x08 then [BACKSLASH, 0x62]
    else if ch == 0x0C then [BACKSLASH, 0x66]
    else if ch == 0x0A then [BACKSLASH, 0x6E]
    else if ch == 0x0D then [BACKSLASH, 0x72]
    else if ch == 0x09 then [BACKSLASH, 0x74]
    else if ch < 0x20 then [BACKSLASH, 0x75, 0x30, 0x30, HexDigit(ch / 16), HexDigit(ch % 16)]
    else [ch]
  }

  function PrintedAll(value: Bytes): Bytes {
    if value == [] then [] else Printed(value[0]) + PrintedAll(value[1..])
  }

  lemma {:induction false} PrintedAppend(value: Bytes, ch: byte)
    ensures PrintedAll(value + [ch]) == PrintedAll(value) + Printed(ch)
  {
    if value != [] {
      assert (value + [ch])[1..] == value[1..] + [ch];
      PrintedAppend(value[1..], ch);
    }
  }

  // ---- Reading: the grammar of section 7 of RFC 8259 ----

  function HexValue(ch: byte): Option<int> {
    if 0x30 <= ch <= 0x39 then Some((ch - 0x30) as int)
    else if 0x41 <= ch <= 0x46 then Some((ch - 0x41) as int + 10)
    else if 0x61 <= ch <= 0x66 then Some((ch - 0x61) as int + 10)
    else None
  }

  /** The code unit of \uXXXX, given the text after the u. */
  function CodeUnit(text: Bytes): (r: Option<int>)
    ensures r.Some? ==> 4 <= |text| && 0 <= r.value < 0x10000
  {
    if |text| < 4 then None
    else
      var a, b, c, d := HexValue(text[0]), HexValue(text[1]), HexValue(text[2]), HexValue(text[3]);
      if a.None? || b.None? || c.None? || d.None? then None
      else Some(a.value * 4096 + b.value * 256 + c.value * 16 + d.value)
  }

  /** UTF-8 of one code point. */
  function Utf8(point: int): Bytes
    requires 0 <= point < 0x110000
  {
    if point < 0x80 then [point as byte]
    else if point < 0x800 then [(0xC0 + point / 64) as byte, (0x80 + point % 64) as byte]
    else if point < 0x10000 then
      [(0xE0 + point / 4096) as byte, (0x80 + point / 64 % 64) as byte, (0x80 + point % 64) as byte]
    else
      [(0xF0 + point / 262144) as byte, (0x80 + point / 4096 % 64) as byte, (0x80 + point / 64 % 64) as byte,
       (0x80 + point % 64) as byte]
  }

  /** The byte a two-character escape stands for. */
  function SimpleEscape(ch: byte): Option<byte> {
    if ch == QUOTE || ch == BACKSLASH || ch == 0x2F then Some(ch)
    else if ch == 0x62 then Some(0x08)
    else if ch == 0x66 then Some(0x0C)
    else if ch == 0x6E then Some(0x0A)
    else if ch == 0x72 then Some(0x0D)
    else if ch == 0x74 then Some(0x09)
    else None
  }

  /** The first character of a string body: the bytes it stands for and how much text it takes. A surrogate pair
      is two \u escapes; a lone surrogate stands for nothing. */
  function Character(text: Bytes): (r: Option<(Bytes, nat)>)
    ensures r.Some? ==> 0 < r.value.1 <= |text|
  {
    if text == [] || text[0] < 0x20 || text[0] == QUOTE then None
    else if text[0] != BACKSLASH then Some(([text[0]], 1))
    else if |text| == 1 then None
    else if text[1] != 0x75 then
      var simple := SimpleEscape(text[1]);
      if simple.None? then None else Some(([simple.value], 2))
    else
      var unit := CodeUnit(text[2..]);
      if unit.None? then None
      else if unit.value < 0xD800 || 0xE000 <= unit.value then Some((Utf8(unit.value), 6))
      else if 0xDC00 <= unit.value || |text| < 12 || text[6] != BACKSLASH || text[7] != 0x75 then None
      else
        var low := CodeUnit(text[8..]);
        if low.None? || low.value < 0xDC00 || 0xE000 <= low.value then None
        else Some((Utf8(0x10000 + (unit.value - 0xD800) * 1024 + (low.value - 0xDC00)), 12))
  }

  /** Characters up to the closing quote: the value and the text after that quote. */
  function Body(text: Bytes): (r: Option<(Bytes, Bytes)>) {
    if text == [] then None
    else if text[0] == QUOTE then Some(([], text[1..]))
    else
      var first := Character(text);
      if first.None? then None
      else
        var rest := Body(text[first.value.1..]);
        if rest.None? then None else Some((first.value.0 + rest.value.0, rest.value.1))
  }

  /** string = quotation-mark *char quotation-mark, and the text that follows it. */
  function ParseString(text: Bytes): Option<(Bytes, Bytes)> {
    if text == [] || text[0] != QUOTE then None else Body(text[1..])
  }

  // ---- The reader against the grammar ----

  const LOWER_HEX: Bytes := [0x30, 0x31, 0x32, 0x33, 0x34, 0x35, 0x36, 0x37, 0x38, 0x39, 0x61, 0x62, 0x63, 0x64, 0x65, 0x66]
  const UPPER_HEX: Bytes := [0x30, 0x31, 0x32, 0x33, 0x34, 0x35, 0x36, 0x37, 0x38, 0x39, 0x41, 0x42, 0x43, 0x44, 0x45, 0x46]

  lemma HexValueExactly(ch: byte, v: nat)
    ensures HexValue(ch) == Some(v) <==> v < 16 && (ch == LOWER_HEX[v] || ch == UPPER_HEX[v])
  {}

  /** Six bits of a continuation byte. */
  ghost predicate Continues(b: byte, bits: int) {
    0x80 <= b < 0xC0 && bits == b as int - 0x80
  }

  /** The bytes of a code point: a leading byte that tells their number, six bits in each other one, and no shorter
      form. */
  lemma Utf8Short(point: int)
    requires 0 <= point < 0x800
    ensures var u := Utf8(point);
            if point < 0x80 then u == [point as byte]
            else |u| == 2 && 0xC0 <= u[0] < 0xE0 && Continues(u[1], point - (u[0] as int - 0xC0) * 64)
  {}

  lemma Utf8Three(point: int)
    requires 0x800 <= point < 0x10000
    ensures var u := Utf8(point);
            && |u| == 3 && 0xE0 <= u[0] < 0xF0
            && exists a :: Continues(u[1], a) && Continues(u[2], point - (u[0] as int - 0xE0) * 4096 - a * 64)
  {
    var u := Utf8(point);
    assert Continues(u[1], point / 64 % 64);
    assert point / 64 == point / 4096 * 64 + point / 64 % 64;
  }

  lemma Utf8Four(point: int)
    requires 0x10000 <= point < 0x110000
    ensures var u := Utf8(point);
            && |u| == 4 && 0xF0 <= u[0] < 0xF8
            && exists a, b :: Continues(u[1], a) && Continues(u[2], b)
                              && Continues(u[3], point - (u[0] as int - 0xF0) * 262144 - a * 4096 - b * 64)
  {
    var u := Utf8(point);
    assert Continues(u[1], point / 4096 % 64) && Continues(u[2], point / 64 % 64);
    assert point / 64 == point / 4096 * 64 + point / 64 % 64;
    assert point / 4096 == point / 262144 * 64 + point / 4096 % 64;
  }

  /** A raw control byte, a quote and the end of the text start no character. */
  lemma CharactersAreVisible(text: Bytes)
    ensures Character(text).Some? ==> text[0] != QUOTE && forall i :: 0 <= i < Character(text).value.1 ==> 0x20 <= text[i]
  {
    if Character(text).Some? && text[0] == BACKSLASH && text[1] == 0x75 {
      HexIsVisible(text[2..]);
      if Character(text).value.1 == 12 {
        HexIsVisible(text[8..]);
        assert forall i :: 8 <= i < 12 ==> text[i] == text[8..][i - 8];
      }
      assert forall i :: 2 <= i < 6 ==> text[i] == text[2..][i - 2];
    }
  }

  lemma HexIsVisible(text: Bytes)
    requires CodeUnit(text).Some?
    ensures forall i :: 0 <= i < 4 ==> 0x20 <= text[i]
  {}

  /** The reader accepts no string with a raw control byte in it. */
  lemma {:induction false} ReaderRefusesControls(text: Bytes)
    requires Body(text).Some?
    ensures var left := |Body(text).value.1|;
            left < |text| && forall i :: 0 <= i < |text| - left ==> 0x20 <= text[i]
    decreases |text|
  {
    if text[0] != QUOTE {
      var n := Character(text).value.1;
      CharactersAreVisible(text);
      ReaderRefusesControls(text[n..]);
      forall i | n <= i < |text| - |Body(text).value.1|
        ensures 0x20 <= text[i]
      {
        assert text[i] == text[n..][i - n];
      }
    }
  }

  /** Quote, backslash, slash, b, f, n, r and t, and what they stand for. */
  lemma SimpleEscapeExactly(ch: byte, v: byte)
    ensures SimpleEscape(ch) == Some(v) <==>
              (ch, v) in {(0x22, 0x22), (0x5C, 0x5C), (0x2F, 0x2F), (0x62, 0x08), (0x66, 0x0C), (0x6E, 0x0A), (0x72, 0x0D), (0x74, 0x09)}
  {}

  /** A string starts with a quotation mark. */
  lemma StringsAreQuoted(text: Bytes)
    ensures ParseString(text).Some? ==> text != [] && text[0] == 0x22
  {}

  /** A code point beyond 16 bits is read from its two surrogates, and no surrogate is read alone. */
  lemma SurrogatesReadBack(text: Bytes, point: int)
    requires 12 <= |text| && text[0] == text[6] == BACKSLASH && text[1] == text[7] == 0x75 && 0x10000 <= point < 0x110000
    requires CodeUnit(text[2..]) == Some(0xD800 + (point - 0x10000) / 1024)
    requires CodeUnit(text[8..]) == Some(0xDC00 + (point - 0x10000) % 1024)
    ensures Character(text) == Some((Utf8(point), 12))
  {}

  /** A code point of 16 bits that is no surrogate is read from its one escape. */
  lemma UnitReadBack(text: Bytes, point: int)
    requires 6 <= |text| && text[0] == BACKSLASH && text[1] == 0x75 && CodeUnit(text[2..]) == Some(point)
    requires !(0xD800 <= point < 0xE000)
    ensures Character(text) == Some((Utf8(point), 6))
  {}

  lemma LoneSurrogate(text: Bytes)
    requires 6 <= |text| && text[0] == BACKSLASH && text[1] == 0x75 && CodeUnit(text[2..]).Some?
    requires 0xD800 <= CodeUnit(text[2..]).value < 0xE000
    ensures Character(text).Some? ==>
              && CodeUnit(text[2..]).value < 0xDC00 && 12 <= |text| && text[6] == BACKSLASH && text[7] == 0x75
              && CodeUnit(text[8..]).Some? && 0xDC00 <= CodeUnit(text[8..]).value < 0xE000
  {}

  // ---- The two are inverse ----

  lemma ControlEscape(ch: byte, rest: Bytes)
    requires ch < 0x20
    ensures CodeUnit([0x30, 0x30, HexDigit(ch / 16), HexDigit(ch % 16)] + rest) == Some(ch as int)
  {
    var high, low := ch / 16, ch % 16;
    assert HexValue(HexDigit(high)) == Some(high as int);
    assert HexValue(HexDigit(low)) == Some(low as int);
  }

  /** One printed byte reads back as that byte, whatever follows it. */
  lemma CharacterOfPrinted(ch: byte, rest: Bytes)
    ensures Character(Printed(ch) + rest) == Some(([ch], |Printed(ch)|))
    ensures (Printed(ch) + rest)[0] != QUOTE
  {
    var text := Printed(ch) + rest;
    if |Printed(ch)| == 6 {
      ControlEscape(ch, rest);
      assert text[2..] == [0x30, 0x30, HexDigit(ch / 16), HexDigit(ch % 16)] + rest;
    }
  }

  lemma {:induction false} BodyOfPrinted(value: Bytes, rest: Bytes)
    ensures Body(PrintedAll(value) + [QUOTE] + rest) == Some((value, rest))
  {
    if value == [] {
      assert PrintedAll(value) + [QUOTE] + rest == [QUOTE] + rest;
    } else {
      var tail := PrintedAll(value[1..]) + [QUOTE] + rest;
      assert PrintedAll(value) + [QUOTE] + rest == Printed(value[0]) + tail;
      CharacterOfPrinted(value[0], tail);
      BodyOfPrinted(value[1..], rest);
      assert (Printed(value[0]) + tail)[|Printed(value[0])|..] == tail;
      assert value == [value[0]] + value[1..];
    }
  }

  function Escaped(value: Bytes): Bytes {
    [QUOTE] + PrintedAll(value) + [QUOTE]
  }

  /** Every byte string is read back exactly, and the reader stops where the string ends, whatever is printed after
      it. */
  lemma EscapeRoundTrip(value: Bytes, rest: Bytes)
    ensures ParseString(Escaped(value) + rest) == Some((value, rest))
  {
    BodyOfPrinted(value, rest);
    assert (Escaped(value) + rest)[1..] == PrintedAll(value) + [QUOTE] + rest;
  }

  /** Different byte strings never print alike, even as prefixes of longer records. */
  lemma EscapeInjective(a: Bytes, b: Bytes, x: Bytes, y: Bytes)
    requires Escaped(a) + x == Escaped(b) + y
    ensures a == b && x == y
  {
    EscapeRoundTrip(a, x);
    EscapeRoundTrip(b, y);
  }

  /** No control byte is printed raw: a record that holds the string stays on one line. */
  lemma {:induction false} NoRawControl(value: Bytes)
    ensures forall ch :: ch in PrintedAll(value) ==> 0x20 <= ch
  {
    if value != [] {
      NoRawControl(value[1..]);
      var ch := value[0];
      assert 0x20 > ch ==> HexDigit(ch / 16) >= 0x30 && HexDigit(ch % 16) >= 0x30;
      assert forall c :: c in Printed(ch) ==> 0x20 <= c;
    }
  }

  predicate Plain(ch: byte) {
    0x20 <= ch && ch != QUOTE && ch != BACKSLASH
  }

  /** Strings without quote, backslash or control byte are printed as they are. */
  lemma {:induction false} PlainPrintsItself(value: Bytes)
    ensures PrintedAll(value) == value <==>
            forall ch :: ch in value ==> Plain(ch)
    ensures |value| <= |PrintedAll(value)| <= 6 * |value|
  {
    if value != [] {
      var ch := value[0];
      PlainPrintsItself(value[1..]);
      assert value == [ch] + value[1..];
      if Plain(ch) {
        assert PrintedAll(value) == [ch] + PrintedAll(value[1..]);
        assert PrintedAll(value)[1..] == PrintedAll(value[1..]);
      } else {
        assert |Printed(ch)| >= 2 && ch in value;
      }
    }
  }

  /** The switch on one byte. */
  method PrintByte(ch: byte) returns (text: Bytes)
    ensures text == Printed(ch)
  {
    if ch == QUOTE {
      text := [BACKSLASH, QUOTE];
    } else if ch == BACKSLASH {
      text := [BACKSLASH, BACKSLASH];
    } else if ch == 0x08 {
      text := [BACKSLASH, 0x62];
    } else if ch == 0x0C {
      text := [BACKSLASH, 0x66];
    } else if ch == 0x0A {
      text := [BACKSLASH, 0x6E];
    } else if ch == 0x0D {
      text := [BACKSLASH, 0x72];
    } else if ch == 0x09 {
      text := [BACKSLASH, 0x74];
    } else if ch < 0x20 {
      text := [BACKSLASH, 0x75, 0x30, 0x30, HexDigit(ch / 16), HexDigit(ch % 16)];
    } else {
      text := [ch];
    }
  }

  /** json_escape. */
  method JsonEscape(value: Bytes) returns (out: Bytes)
    ensures ParseString(out) == Some((value, []))
    ensures forall ch :: ch in out ==> 0x20 <= ch
    ensures out == Escaped(value)
  {
    out := [QUOTE];
    for k := 0 to |value|
      invariant out == [QUOTE] + PrintedAll(value[..k])
    {
      PrintedStep(value, k);
      var text := PrintByte(value[k]);
      out := out + text;
    }
    assert value[..|value|] == value;
    out := out + [QUOTE];
    EscapedReads(value);
  }

  lemma PrintedStep(value: Bytes, k: nat)
    requires k < |value|
    ensures PrintedAll(value[..k + 1]) == PrintedAll(value[..k]) + Printed(value[k])
  {
    PrintedAppend(value[..k], value[k]);
    assert value[..k + 1] == value[..k] + [value[k]];
  }

  lemma EscapedReads(value: Bytes)
    ensures ParseString(Escaped(value)) == Some((value, []))
    ensures forall ch :: ch in Escaped(value) ==> 0x20 <= ch
  {
    EscapeRoundTrip(value, []);
    assert Escaped(value) + [] == Escaped(value);
    NoRawControl(value);
  }
}
