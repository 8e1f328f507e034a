/**
 The string codec of cJSON: the escapes written by print_string_ptr, the two passes of
 parse_string, and the conversion of UTF-16 escapes to UTF-8.
 A byte is a `char` with the same code.
 */
module StringCodec {
  import opened Prelude

  // ---------------------------------------------------------------- UTF-8

  /** A byte given by its code. */
  function Byte(n: nat): char
    requires n < 256
  {
    n as char
  }

  /** The encoding of a scalar value, section 3 of RFC 3629. */
  function Utf8(cp: nat): (r: string)
    requires cp <= 0x10FFFF
    ensures 1 <= |r| <= 4
  {
    if cp < 0x80 then [Byte(cp)]
    else if cp < 0x800 then [Byte(0xC0 + cp / 64), Byte(0x80 + cp % 64)]
    else if cp < 0x10000 then [Byte(0xE0 + cp / 64 / 64), Byte(0x80 + cp / 64 % 64), Byte(0x80 + cp % 64)]
    else [Byte(0xF0 + cp / 64 / 64 / 64), Byte(0x80 + cp / 64 / 64 % 64), Byte(0x80 + cp / 64 % 64),
          Byte(0x80 + cp % 64)]
  }

  predicate Continuation(c: char) { 0x80 <= c as int < 0xC0 }

  /** Reads one encoded scalar at the head of a text: the value and the number of bytes used. */
  function Utf8Head(s: string): Option<(nat, nat)> {
    if |s| == 0 then None
    else
      var b := s[0] as int;
      if b < 0x80 then Some((b, 1))
      else if 0xC0 <= b < 0xE0 && |s| >= 2 && Continuation(s[1]) then
        Some(((b - 0xC0) * 64 + (s[1] as int - 0x80), 2))
      else if 0xE0 <= b < 0xF0 && |s| >= 3 && Continuation(s[1]) && Continuation(s[2]) then
        Some(((b - 0xE0) * 4096 + (s[1] as int - 0x80) * 64 + (s[2] as int - 0x80), 3))
      else if 0xF0 <= b < 0xF8 && |s| >= 4 && Continuation(s[1]) && Continuation(s[2]) && Continuation(s[3]) then
        Some(((b - 0xF0) * 262144 + (s[1] as int - 0x80) * 4096 + (s[2] as int - 0x80) * 64 + (s[3] as int - 0x80), 4))
      else None
  }

  /** The encoding is decodable in front of any continuation of the text. */
  lemma {:induction false} Utf8Decodes(cp: nat, rest: string)
    requires cp <= 0x10FFFF
    ensures Utf8Head(Utf8(cp) + rest) == Some((cp, |Utf8(cp)|))
  {
    var u := Utf8(cp);
    assert forall i :: 0 <= i < |u| ==> (u + rest)[i] == u[i];
  }

  /** No shorter byte sequence decodes to the same scalar: the encoding is the shortest form. */
  lemma {:induction false} Utf8Shortest(cp: nat, other: string)
    requires cp <= 0x10FFFF
    requires Utf8Head(other).Some? && Utf8Head(other).value.0 == cp
    ensures |Utf8(cp)| <= Utf8Head(other).value.1
  {
  }

  /** The masks and shifts of the source agree with the arithmetic used here, on 32-bit words. */
  lemma {:induction false} MasksAreArithmetic(x: bv32, y: bv32, mark: bv32)
    ensures ((x | 0x80) & 0xBF) & 0xFF == 0x80 + x % 64 && x >> 6 == x / 64
    ensures mark == 0xC0 && x < 0x20 ==> (x | mark) & 0xFF == mark + x
    ensures mark == 0xE0 && x < 0x10 ==> (x | mark) & 0xFF == mark + x
    ensures mark == 0xF0 && x < 0x08 ==> (x | mark) & 0xFF == mark + x
    ensures 0xD800 <= x <= 0xDBFF && 0xDC00 <= y <= 0xDFFF
            ==> 0x10000 + (((x & 0x3FF) << 10) | (y & 0x3FF)) == 0x10000 + (x - 0xD800) * 0x400 + (y - 0xDC00)
  {
  }

  // ---------------------------------------------------------------- hexadecimal digits

  predicate IsHex(c: char) {
    '0' <= c <= '9' || 'A' <= c <= 'F' || 'a' <= c <= 'f'
  }

  function HexValue(c: char): (v: nat)
    requires IsHex(c)
    ensures v < 16
  {
    if '0' <= c <= '9' then c as int - '0' as int
    else if 'A' <= c <= 'F' then 10 + c as int - 'A' as int
    else 10 + c as int - 'a' as int
  }

  /** The digit printed by `%x`. */
  function HexDigit(v: nat): (c: char)
    requires v < 16
    ensures IsHex(c) && HexValue(c) == v
  {
    if v < 10 then (v + '0' as int) as char else (v - 10 + 'a' as int) as char
  }

  predicate FourHex(s: string, p: nat) {
    p + 4 <= |s| && IsHex(s[p]) && IsHex(s[p + 1]) && IsHex(s[p + 2]) && IsHex(s[p + 3])
  }

  /** parse_hex4: the code unit written at `p`, or 0 when one of the four bytes is no digit. */
  function Hex4(s: string, p: nat): (v: nat)
    requires p + 4 <= |s|
    ensures v < 0x10000
  {
    if FourHex(s, p) then
      ((HexValue(s[p]) * 16 + HexValue(s[p + 1])) * 16 + HexValue(s[p + 2])) * 16 + HexValue(s[p + 3])
    else 0
  }

  /** The digits in the order of their values, in either case. */
  const SMALL_DIGITS := "0123456789abcdef"

  const CAPITAL_DIGITS := "0123456789ABCDEF"

  lemma {:induction false} DigitValues(d: nat)
    requires d < 16
    ensures IsHex(SMALL_DIGITS[d]) && HexValue(SMALL_DIGITS[d]) == d
    ensures IsHex(CAPITAL_DIGITS[d]) && HexValue(CAPITAL_DIGITS[d]) == d
  {
  }

  lemma {:induction false} DigitsOnly(c: char)
    requires IsHex(c)
    ensures c == SMALL_DIGITS[HexValue(c)] || c == CAPITAL_DIGITS[HexValue(c)]
  {
  }

  predicate SpellsDigit(c: char, d: nat) {
    d < 16 && (c == SMALL_DIGITS[d] || c == CAPITAL_DIGITS[d])
  }

  /** Four digits, small and capital ones mixed, are read as the number they spell, high digit first. */
  lemma {:induction false} HexReads(s: string, p: nat, a: nat, b: nat, c: nat, d: nat)
    requires p + 4 <= |s| && SpellsDigit(s[p], a) && SpellsDigit(s[p + 1], b)
    requires SpellsDigit(s[p + 2], c) && SpellsDigit(s[p + 3], d)
    ensures FourHex(s, p) && Hex4(s, p) == 4096 * a + 256 * b + 16 * c + d
  {
    hide IsHex, HexValue, SMALL_DIGITS, CAPITAL_DIGITS;
    DigitValues(a);
    DigitValues(b);
    DigitValues(c);
    DigitValues(d);
  }

  /** Nothing else are four digits. */
  lemma {:induction false} HexSpelled(s: string, p: nat) returns (a: nat, b: nat, c: nat, d: nat)
    requires FourHex(s, p)
    ensures SpellsDigit(s[p], a) && SpellsDigit(s[p + 1], b) && SpellsDigit(s[p + 2], c) && SpellsDigit(s[p + 3], d)
  {
    a, b, c, d := HexValue(s[p]), HexValue(s[p + 1]), HexValue(s[p + 2]), HexValue(s[p + 3]);
    DigitsOnly(s[p]);
    DigitsOnly(s[p + 1]);
    DigitsOnly(s[p + 2]);
    DigitsOnly(s[p + 3]);
  }

  /** parse_hex4 as the source runs it: early exit on a bad digit, a shift before each next nibble. */
  method ParseHex4(input: string, start: nat) returns (h: nat)
    requires start + 4 <= |input|
    ensures h == Hex4(input, start)
  {
    h := 0;
    for i := 0 to 4
      invariant forall k :: start <= k < start + i ==> IsHex(input[k])
      invariant i == 0 ==> h == 0
      invariant i == 1 ==> h == 16 * HexValue(input[start])
      invariant i == 2 ==> h == 16 * (16 * HexValue(input[start]) + HexValue(input[start + 1]))
      invariant i == 3 ==>
                  h == 16 * (16 * (16 * HexValue(input[start]) + HexValue(input[start + 1]))
                             + HexValue(input[start + 2]))
      invariant i == 4 ==> h == Hex4(input, start)
    {
      var c := input[start + i];
      if '0' <= c <= '9' {
        h := h + (c as int - '0' as int);
      } else if 'A' <= c <= 'F' {
        h := h + (10 + c as int - 'A' as int);
      } else if 'a' <= c <= 'f' {
        h := h + (10 + c as int - 'a' as int);
      } else {
        return 0;
      }
      if i < 3 {
        h := h * 16;
      }
    }
  }

  // ---------------------------------------------------------------- UTF-16 escapes

  predicate HighSurrogate(u: nat) { 0xD800 <= u <= 0xDBFF }

  predicate LowSurrogate(u: nat) { 0xDC00 <= u <= 0xDFFF }

  /** A surrogate pair names one scalar beyond the basic plane, section 2.2 of RFC 2781. */
  function Combine(high: nat, low: nat): (cp: nat)
    requires HighSurrogate(high) && LowSurrogate(low)
    ensures 0x10000 <= cp <= 0x10FFFF
  {
    0x10000 + (high - 0xD800) * 0x400 + (low - 0xDC00)
  }

  /** The pair that names a scalar has its upper ten bits in the first half and its lower ten bits in the second. */
  lemma {:induction false} PairsNameScalars(cp: nat)
    requires 0x10000 <= cp <= 0x10FFFF
    ensures var high, low := 0xD800 + (cp - 0x10000) / 0x400, 0xDC00 + (cp - 0x10000) % 0x400;
            HighSurrogate(high) && LowSurrogate(low) && Combine(high, low) == cp
  {
  }

  /** No other pair does. */
  lemma {:induction false} ScalarsHaveOnePair(high: nat, low: nat)
    requires HighSurrogate(high) && LowSurrogate(low)
    ensures var rest := Combine(high, low) - 0x10000;
            0 <= rest < 0x100000 && high == 0xD800 + rest / 0x400 && low == 0xDC00 + rest % 0x400
  {
  }

  /** The masks and shifts of utf16_literal_to_utf8 combine the halves in that way. */
  lemma {:induction false} MasksCombine(high: bv32, low: bv32)
    requires 0xD800 <= high <= 0xDBFF && 0xDC00 <= low <= 0xDFFF
    ensures (0x10000 + (((high & 0x3FF) << 10) | (low & 0x3FF))) as nat == Combine(high as nat, low as nat)
  {
    MasksAreArithmetic(high, low, 0);
  }

  /** The scalar and the length of the escape at `p` of a literal that ends before `e`, if it is well paired. */
  function Utf16Literal(s: string, p: nat, e: nat): (r: Option<(nat, nat)>)
    requires p <= e <= |s|
    ensures r.Some? ==> r.value.0 <= 0x10FFFF && p + r.value.1 <= e
    ensures r.Some? ==> (r.value.1 == 6 && r.value.0 < 0x10000) || r.value.1 == 12
  {
    if e - p < 6 then None
    else
      var first := Hex4(s, p + 2);
      if LowSurrogate(first) then None
      else if HighSurrogate(first) then
        if e - (p + 6) < 6 || s[p + 6] != '\\' || s[p + 7] != 'u' then None
        else
          var second := Hex4(s, p + 8);
          if LowSurrogate(second) then Some((Combine(first, second), 12)) else None
      else Some((first, 6))
  }

  // ---------------------------------------------------------------- reading a literal

  /** First pass of parse_string: the closing quote, stepping over each escape pair. */
  function ClosingQuote(s: string, p: nat): (r: Option<nat>)
    ensures r.Some? ==> p <= r.value < |s| && s[r.value] == '\"'
    decreases |s| - p
  {
    if p >= |s| then None
    else if s[p] == '\"' then Some(p)
    else if s[p] != '\\' then ClosingQuote(s, p + 1)
    else if p + 1 >= |s| then None
    else ClosingQuote(s, p + 2)
  }

  /** The byte named by a two-byte escape. */
  function ShortEscape(c: char): Option<char> {
    match c
    case 'b' => Some(8 as char)
    case 'f' => Some(12 as char)
    case 'n' => Some('\n')
    case 'r' => Some('\r')
    case 't' => Some('\t')
    case '\"' => Some('\"')
    case '\\' => Some('\\')
    case '/' => Some('/')
    case _ => None
  }

  /** The letters of the two-byte escapes, and the codes of the bytes they name. */
  const LETTERS := "\"\\/bfnrt"

  const NAMED: seq<nat> := [0x22, 0x5C, 0x2F, 0x08, 0x0C, 0x0A, 0x0D, 0x09]

  /** A letter of that list names its byte, and no other byte after a backslash names any. */
  lemma {:induction false} ShortEscapes(c: char)
    ensures ShortEscape(c).Some? <==> c in LETTERS
    ensures forall i :: 0 <= i < 8 && LETTERS[i] == c ==> ShortEscape(c) == Some(NAMED[i] as char)
  {
    assert LETTERS == ['\"', '\\', '/', 'b', 'f', 'n', 'r', 't'];
  }

  function Prepend(a: string, r: Option<string>): Option<string> {
    match r
    case None => None
    case Some(b) => Some(a + b)
  }

  lemma {:induction false} PrependAssociates(a: string, b: string, r: Option<string>)
    ensures Prepend(a, Prepend(b, r)) == Prepend(a + b, r)
  {
    if r.Some? {
      assert a + (b + r.value) == a + b + r.value;
    }
  }

  lemma {:induction false} PrependNothing(r: Option<string>)
    ensures Prepend([], r) == r
  {
    if r.Some? {
      assert [] + r.value == r.value;
    }
  }

  /** The bytes named at `p` by the next byte or escape, and the number of input bytes it takes. */
  function NextBytes(s: string, p: nat, e: nat): (r: Option<(string, nat)>)
    requires p < e < |s|
    ensures r.Some? ==> r.value.1 > 0
  {
    if s[p] != '\\' then Some(([s[p]], 1))
    else if s[p + 1] == 'u' then
      match Utf16Literal(s, p, e)
      case None => None
      case Some((cp, len)) => Some((Utf8(cp), len))
    else
      match ShortEscape(s[p + 1])
      case None => None
      case Some(c) => Some(([c], 2))
  }

  /** Second pass of parse_string: the bytes named by s[p..e], where s[e] is the closing quote. */
  function Unescape(s: string, p: nat, e: nat): Option<string>
    requires e < |s|
    decreases e - p
  {
    if p >= e then Some([])
    else
      match NextBytes(s, p, e)
      case None => None
      case Some((bytes, n)) => Prepend(bytes, Unescape(s, p + n, e))
  }

  /** parse_string: the literal whose opening quote stands at `p`, and the position after it. */
  function ReadString(s: string, p: nat): (r: Option<(string, nat)>)
    requires p < |s|
    ensures r.Some? ==> p + 2 <= r.value.1 <= |s|
  {
    if s[p] != '\"' then None
    else
      match ClosingQuote(s, p + 1)
      case None => None
      case Some(e) =>
        match Unescape(s, p + 1, e)
        case None => None
        case Some(bytes) => Some((CString(bytes), e + 1))
  }

  // ---------------------------------------------------------------- writing a literal

  const QUOTE := "\""

  /** The one-letter escapes of section 7 of RFC 8259, and \u00xx for the other control bytes. */
  function EscapeByte(c: char): (r: string)
    ensures 1 <= |r| && NulFree(r)
  {
    if c == '\"' then "\\\""
    else if c == '\\' then "\\\\"
    else if c as int == 8 then "\\b"
    else if c as int == 12 then "\\f"
    else if c == '\n' then "\\n"
    else if c == '\r' then "\\r"
    else if c == '\t' then "\\t"
    else if c < ' ' then ['\\', 'u', '0', '0', HexDigit(c as int / 16), HexDigit(c as int % 16)]
    else [c]
  }

  lemma {:induction false} SmallDigit(v: nat)
    requires v < 16
    ensures HexDigit(v) == SMALL_DIGITS[v]
  {
  }

  lemma {:induction false} ControlEscape(c: char)
    requires c as int < 0x20 && c as int !in NAMED
    ensures EscapeByte(c) == "\\u00" + [SMALL_DIGITS[c as int / 16], SMALL_DIGITS[c as int % 16]]
  {
    hide HexDigit;
    assert NAMED[3] == 8 && NAMED[4] == 12 && NAMED[5] == 10 && NAMED[6] == 13 && NAMED[7] == 9;
    SmallDigit(c as int / 16);
    SmallDigit(c as int % 16);
  }

  /** What is escaped, and how: the letter of the byte if it has one, else its code in two small hex digits. */
  lemma {:induction false} EscapeMeans(c: char)
    ensures EscapeByte(c) == [c] <==> c as int >= 0x20 && c as int != 0x22 && c as int != 0x5C
    ensures forall i :: 0 <= i < 8 && i != 2 && NAMED[i] == c as int ==> EscapeByte(c) == ['\\', LETTERS[i]]
    ensures c as int < 0x20 && c as int !in NAMED ==>
              EscapeByte(c) == "\\u00" + [SMALL_DIGITS[c as int / 16], SMALL_DIGITS[c as int % 16]]
  {
    hide HexDigit;
    if c as int < 0x20 && c as int !in NAMED {
      ControlEscape(c);
    }
  }

  function Escape(s: string): (r: string)
    ensures NulFree(r)
  {
    if s == [] then [] else EscapeByte(s[0]) + Escape(s[1..])
  }

  lemma {:induction false} EscapeConcat(a: string, b: string)
    ensures Escape(a + b) == Escape(a) + Escape(b)
  {
    hide EscapeByte;
    if a == [] {
      assert a + b == b;
    } else {
      EscapeConcat(a[1..], b);
      assert (a + b)[1..] == a[1..] + b && (a + b)[0] == a[0];
    }
  }

  /** One more byte of the string, one more escape of the text. */
  lemma {:induction false} EscapeNext(s: string, i: nat)
    requires i < |s|
    ensures Escape(s[..i + 1]) == Escape(s[..i]) + EscapeByte(s[i])
    ensures |Escape(s[..i + 1])| <= |Escape(s)|
  {
    assert s[..i + 1] == s[..i] + [s[i]] && s == s[..i + 1] + s[i + 1..];
    EscapeConcat(s[..i], [s[i]]);
    EscapeConcat(s[..i + 1], s[i + 1..]);
    assert Escape([s[i]]) == EscapeByte(s[i]) + Escape([]);
  }

  /** A text without anything to escape is its own escape. */
  lemma {:induction false} NothingToEscape(s: string)
    ensures |s| <= |Escape(s)|
    ensures |Escape(s)| == |s| ==> Escape(s) == s
  {
    if s != [] {
      NothingToEscape(s[1..]);
      assert s == [s[0]] + s[1..];
    }
  }

  function Quote(s: string): (r: string)
    ensures |r| >= 2 && r[0] == '\"' && NulFree(r)
  {
    QUOTE + Escape(s) + QUOTE
  }

  // ---------------------------------------------------------------- round trip

  /** The three shapes of an escaped byte. */
  lemma {:induction false} EscapeShape(c: char)
    ensures var x := EscapeByte(c);
            || (x == [c] && c != '\"' && c != '\\')
            || (|x| == 2 && x[0] == '\\' && x[1] != 'u' && ShortEscape(x[1]) == Some(c))
            || (c < ' ' && x == ['\\', 'u', '0', '0', HexDigit(c as int / 16), HexDigit(c as int % 16)])
  {
  }

  lemma {:induction false} OneByteReads(c: char, s: string, p: nat, e: nat)
    requires p < e < |s| && s[p] == c && c != '\"' && c != '\\'
    ensures ClosingQuote(s, p) == ClosingQuote(s, p + 1) && Unescape(s, p, e) == Prepend([c], Unescape(s, p + 1, e))
  {
  }

  lemma {:induction false} ShortEscapeReads(c: char, s: string, p: nat, e: nat)
    requires p + 2 <= e < |s| && s[p] == '\\' && s[p + 1] != 'u' && ShortEscape(s[p + 1]) == Some(c)
    ensures ClosingQuote(s, p) == ClosingQuote(s, p + 2) && Unescape(s, p, e) == Prepend([c], Unescape(s, p + 2, e))
  {
    hide ShortEscape;
  }

  /** The first pass walks through the digits of a \u escape one by one. */
  lemma {:induction false} StepsOverUnit(s: string, p: nat)
    requires p + 6 <= |s| && s[p] == '\\' && FourHex(s, p + 2)
    ensures ClosingQuote(s, p) == ClosingQuote(s, p + 6)
  {
    assert ClosingQuote(s, p) == ClosingQuote(s, p + 2) == ClosingQuote(s, p + 3) == ClosingQuote(s, p + 4)
        == ClosingQuote(s, p + 5) == ClosingQuote(s, p + 6);
  }

  lemma {:induction false} ControlReads(c: char, s: string, p: nat, e: nat)
    requires p + 6 <= e < |s| && s[p] == '\\' && s[p + 1] == 'u' && FourHex(s, p + 2) && Hex4(s, p + 2) == c as int
             && c as int < 0x80
    ensures ClosingQuote(s, p) == ClosingQuote(s, p + 6) && Unescape(s, p, e) == Prepend([c], Unescape(s, p + 6, e))
  {
    hide Hex4, FourHex, ClosingQuote;
    StepsOverUnit(s, p);
    assert Utf16Literal(s, p, e) == Some((c as int, 6));
    assert NextBytes(s, p, e) == Some(([c], 6));
  }

  lemma {:induction false} HexOfControl(c: char, s: string, p: nat)
    requires c < ' ' && p + 4 <= |s|
    requires s[p] == '0' && s[p + 1] == '0' && s[p + 2] == HexDigit(c as int / 16)
             && s[p + 3] == HexDigit(c as int % 16)
    ensures FourHex(s, p) && Hex4(s, p) == c as int
  {
    hide HexDigit;
  }

  /** One escaped byte is stepped over by the first pass and read back by the second. */
  lemma {:induction false} EscapedByteReads(c: char, s: string, p: nat, e: nat)
    requires At(s, p, EscapeByte(c)) && p + |EscapeByte(c)| <= e < |s|
    ensures ClosingQuote(s, p) == ClosingQuote(s, p + |EscapeByte(c)|)
    ensures Unescape(s, p, e) == Prepend([c], Unescape(s, p + |EscapeByte(c)|, e))
  {
    hide *;
    var x := EscapeByte(c);
    EscapeShape(c);
    forall i: nat | i < |x| ensures s[p + i] == x[i] {
      AtByte(s, p, x, i);
    }
    if |x| == 1 {
      assert s[p + 0] == x[0];
      OneByteReads(c, s, p, e);
    } else if |x| == 2 {
      assert s[p + 0] == x[0] && s[p + 1] == x[1];
      ShortEscapeReads(c, s, p, e);
    } else {
      assert s[p + 0] == x[0] && s[p + 1] == x[1] && s[p + 2] == x[2] && s[p + 3] == x[3] && s[p + 4] == x[4]
             && s[p + 5] == x[5];
      HexOfControl(c, s, p + 2);
      ControlReads(c, s, p, e);
    }
  }

  lemma {:induction false} QuoteAt(s: string, p: nat)
    requires At(s, p, QUOTE)
    ensures p < |s| && s[p] == '\"'
  {
    AtByte(s, p, QUOTE, 0);
  }

  lemma {:induction false} EscapeUnfolds(t: string)
    ensures t == [] ==> Escape(t) == []
    ensures t != [] ==> Escape(t) == EscapeByte(t[0]) + Escape(t[1..])
  {
  }

  lemma {:induction false} EndsHere(s: string, p: nat)
    requires p < |s| && s[p] == '\"'
    ensures ClosingQuote(s, p) == Some(p) && Unescape(s, p, p) == Some([])
  {
  }

  lemma {:induction false} PrependText(a: string, b: string)
    ensures Prepend(a, Some(b)) == Some(a + b)
  {
  }

  lemma {:induction false} EscapedReads(t: string, s: string, p: nat)
    requires At(s, p, Escape(t)) && At(s, p + |Escape(t)|, QUOTE)
    ensures ClosingQuote(s, p) == Some(p + |Escape(t)|)
    ensures Unescape(s, p, p + |Escape(t)|) == Some(t)
  {
    hide *;
    QuoteAt(s, p + |Escape(t)|);
    EscapeUnfolds(t);
    if t == [] {
      EndsHere(s, p);
    } else {
      var x, rest := EscapeByte(t[0]), Escape(t[1..]);
      AtConcat(s, p, x, rest);
      EscapedReads(t[1..], s, p + |x|);
      EscapedByteReads(t[0], s, p, p + |x| + |rest|);
      PrependText([t[0]], t[1..]);
      assert [t[0]] + t[1..] == t;
    }
  }

  /** Reading what was written gives the string back and stops right behind it. */
  lemma {:induction false} StringRoundTrip(t: string, s: string, p: nat)
    requires NulFree(t) && At(s, p, Quote(t))
    ensures ReadString(s, p) == Some((t, p + |Quote(t)|))
  {
    hide Cut, Escape, Unescape, ClosingQuote, CString;
    AtConcat(s, p, QUOTE + Escape(t), QUOTE);
    AtConcat(s, p, QUOTE, Escape(t));
    AtByte(s, p, QUOTE, 0);
    EscapedReads(t, s, p + 1);
    CStringOfNulFree(t);
  }

  // ---------------------------------------------------------------- what a literal means

  /** What the second pass of parse_string takes a literal for. */
  datatype Piece =
    | Raw(c: char)          // an unescaped byte
    | Short(c: char)        // a two-byte escape
    | Unit(digits: string)  // \u and four bytes
  {
    predicate Valid() {
      match this
      case Raw(c) => c != '\\'
      case Short(c) => ShortEscape(c).Some?
      case Unit(d) => |d| == 4
    }

    /** A constituent of a JSON string literal, section 7 of RFC 8259. */
    predicate Ordinary() {
      match this
      case Raw(c) => c != '\"'
      case Short(_) => true
      case Unit(d) => |d| == 4 && FourHex(d, 0)
    }

    function Text(): string {
      match this
      case Raw(c) => [c]
      case Short(c) => ['\\', c]
      case Unit(d) => "\\u" + d
    }
  }

  type Literal = ps: seq<Piece> | forall i :: 0 <= i < |ps| ==> ps[i].Valid()

  /** The text of the pieces from the i-th on, with the closing quote. */
  function LiteralText(ps: Literal, i: nat): (r: string)
    ensures |r| > 0
    decreases |ps| - i
  {
    if i >= |ps| then QUOTE else ps[i].Text() + LiteralText(ps, i + 1)
  }

  predicate IsHigh(ps: Literal, i: int) { 0 <= i < |ps| && ps[i].Unit? && HighSurrogate(Hex4(ps[i].digits, 0)) }

  predicate IsLow(ps: Literal, i: int) { 0 <= i < |ps| && ps[i].Unit? && LowSurrogate(Hex4(ps[i].digits, 0)) }

  /** The i-th piece is no lone surrogate. */
  predicate PairedAt(ps: Literal, i: int) {
    (IsHigh(ps, i) ==> IsLow(ps, i + 1)) && (IsLow(ps, i) ==> IsHigh(ps, i - 1))
  }

  predicate WellPaired(ps: Literal, from: nat) {
    forall i :: from <= i < |ps| ==> PairedAt(ps, i)
  }

  /** The bytes contributed by the i-th piece; a pair contributes at its first half. */
  function Contribution(ps: Literal, i: nat): string
    requires i < |ps| && PairedAt(ps, i)
  {
    match ps[i]
    case Raw(c) => [c]
    case Short(c) => [ShortEscape(c).value]
    case Unit(d) =>
      if IsLow(ps, i) then []
      else if IsHigh(ps, i) then Utf8(Combine(Hex4(d, 0), Hex4(ps[i + 1].digits, 0)))
      else Utf8(Hex4(d, 0))
  }

  function Denotation(ps: Literal, i: nat): string
    requires WellPaired(ps, i)
    decreases |ps| - i
  {
    if i >= |ps| then [] else Contribution(ps, i) + Denotation(ps, i + 1)
  }

  lemma {:induction false} UnitReads(d: string, s: string, p: nat)
    requires Unit(d).Valid() && At(s, p, Unit(d).Text())
    ensures s[p] == '\\' && s[p + 1] == 'u' && (FourHex(s, p + 2) <==> FourHex(d, 0)) && p + 6 <= |s|
    ensures Hex4(s, p + 2) == Hex4(d, 0)
  {
    forall i: nat | i < 6 ensures s[p + i] == ("\\u" + d)[i] {
      AtByte(s, p, Unit(d).Text(), i);
    }
    assert s[p + 2] == d[0] && s[p + 3] == d[1] && s[p + 4] == d[2] && s[p + 5] == d[3];
  }

  lemma {:induction false} LiteralCloses(ps: Literal, i: nat, s: string, p: nat)
    requires At(s, p, LiteralText(ps, i)) && forall j :: i <= j < |ps| ==> ps[j].Ordinary()
    ensures ClosingQuote(s, p) == Some(p + |LiteralText(ps, i)| - 1)
    decreases |ps| - i
  {
    hide Cut, Hex4;
    if i >= |ps| {
      AtByte(s, p, QUOTE, 0);
    } else {
      var t := ps[i].Text();
      AtConcat(s, p, t, LiteralText(ps, i + 1));
      LiteralCloses(ps, i + 1, s, p + |t|);
      AtByte(s, p, t, 0);
      if ps[i].Unit? {
        UnitReads(ps[i].digits, s, p);
        StepsOverUnit(s, p);
      }
    }
  }

  /** Whether a second escape follows is visible in the text, and so is its unit. */
  lemma {:induction false} UnitFollows(ps: Literal, i: nat, s: string, q: nat)
    requires At(s, q, LiteralText(ps, i))
    ensures i < |ps| && ps[i].Unit? ==>
              |LiteralText(ps, i)| > 6 && s[q] == '\\' && s[q + 1] == 'u' && Hex4(s, q + 2) == Hex4(ps[i].digits, 0)
    ensures !(i < |ps| && ps[i].Unit?) && |LiteralText(ps, i)| > 1 ==> s[q] != '\\' || s[q + 1] != 'u'
  {
    if i < |ps| {
      var t := ps[i].Text();
      AtConcat(s, q, t, LiteralText(ps, i + 1));
      if ps[i].Unit? {
        UnitReads(ps[i].digits, s, q);
      } else {
        AtByte(s, q, t, 0);
        if ps[i].Short? {
          AtByte(s, q, t, 1);
        }
      }
    }
  }

  lemma {:induction false} PairDenotes(ps: Literal, i: nat)
    requires IsHigh(ps, i) && IsLow(ps, i + 1)
    ensures WellPaired(ps, i) <==> WellPaired(ps, i + 2)
    ensures WellPaired(ps, i) ==>
              Denotation(ps, i)
              == Utf8(Combine(Hex4(ps[i].digits, 0), Hex4(ps[i + 1].digits, 0))) + Denotation(ps, i + 2)
  {
    assert PairedAt(ps, i) && PairedAt(ps, i + 1);
    if WellPaired(ps, i + 2) {
      assert WellPaired(ps, i + 1);
      assert Denotation(ps, i + 1) == Denotation(ps, i + 2);
    }
  }

  /** A raw byte or a two-byte escape in front of the rest of a literal. */
  lemma {:induction false} PlainReads(ps: Literal, i: nat, s: string, p: nat, e: nat)
    requires i < |ps| && !ps[i].Unit?
    requires At(s, p, LiteralText(ps, i)) && e == p + |LiteralText(ps, i)| - 1
    ensures var n := |ps[i].Text()|;
            && At(s, p + n, LiteralText(ps, i + 1)) && e == p + n + |LiteralText(ps, i + 1)| - 1 && e < |s|
            && Unescape(s, p, e) == Prepend(Contribution(ps, i), Unescape(s, p + n, e))
  {
    hide Cut, Hex4, Utf8;
    var t := ps[i].Text();
    AtConcat(s, p, t, LiteralText(ps, i + 1));
    AtByte(s, p, t, 0);
    AtByte(s, p, LiteralText(ps, i), |LiteralText(ps, i)| - 1);
    if ps[i].Short? {
      AtByte(s, p, t, 1);
    }
  }

  /** A piece that is no surrogate does not matter for the pairing. */
  lemma {:induction false} PlainPairs(ps: Literal, i: nat)
    requires i < |ps| && !ps[i].Unit?
    ensures WellPaired(ps, i) <==> WellPaired(ps, i + 1)
    ensures WellPaired(ps, i) ==> Denotation(ps, i) == Contribution(ps, i) + Denotation(ps, i + 1)
  {
    hide Hex4;
    assert PairedAt(ps, i);
  }

  /**
   parse_string on a literal of any length: it fails exactly when some surrogate is unpaired, and otherwise
   yields the raw bytes and the UTF-8 encodings of the scalars named by the escapes.
   */
  lemma {:induction false} LiteralMeans(ps: Literal, i: nat, s: string, p: nat, e: nat)
    requires At(s, p, LiteralText(ps, i)) && e == p + |LiteralText(ps, i)| - 1
    requires !IsHigh(ps, i - 1)
    ensures Unescape(s, p, e) == if WellPaired(ps, i) then Some(Denotation(ps, i)) else None
    decreases |ps| - i
  {
    hide Cut, Hex4, Utf8, Contribution;
    if i < |ps| {
      if !ps[i].Unit? {
        PlainReads(ps, i, s, p, e);
        PlainPairs(ps, i);
        LiteralMeans(ps, i + 1, s, p + |ps[i].Text()|, e);
      } else if IsHigh(ps, i) {
        PairMeans(ps, i, s, p, e);
      } else {
        UnitMeans(ps, i, s, p, e);
      }
    }
  }

  lemma {:induction false} UnitMeans(ps: Literal, i: nat, s: string, p: nat, e: nat)
    requires i < |ps| && ps[i].Unit? && At(s, p, LiteralText(ps, i)) && e == p + |LiteralText(ps, i)| - 1
    requires !IsHigh(ps, i - 1) && !IsHigh(ps, i)
    ensures e < |s| && Unescape(s, p, e) == if WellPaired(ps, i) then Some(Denotation(ps, i)) else None
    decreases |ps| - i, 0
  {
    hide Cut, Hex4, Utf8;
    AtByte(s, p, LiteralText(ps, i), 0);
    AtConcat(s, p, ps[i].Text(), LiteralText(ps, i + 1));
    UnitReads(ps[i].digits, s, p);
    assert WellPaired(ps, i) <==> PairedAt(ps, i) && WellPaired(ps, i + 1);
    if IsLow(ps, i) {
      assert !PairedAt(ps, i);
    } else {
      LiteralMeans(ps, i + 1, s, p + 6, e);
    }
  }

  lemma {:induction false} PairMeans(ps: Literal, i: nat, s: string, p: nat, e: nat)
    requires At(s, p, LiteralText(ps, i)) && e == p + |LiteralText(ps, i)| - 1
    requires IsHigh(ps, i)
    ensures Unescape(s, p, e) == if WellPaired(ps, i) then Some(Denotation(ps, i)) else None
    decreases |ps| - i, 0
  {
    hide Cut, Hex4, Utf8;
    AtByte(s, p, LiteralText(ps, i), 0);
    AtConcat(s, p, ps[i].Text(), LiteralText(ps, i + 1));
    UnitReads(ps[i].digits, s, p);
    UnitFollows(ps, i + 1, s, p + 6);
    if IsLow(ps, i + 1) {
      AtConcat(s, p + 6, ps[i + 1].Text(), LiteralText(ps, i + 2));
      LiteralMeans(ps, i + 2, s, p + 12, e);
      PairDenotes(ps, i);
      assert Utf16Literal(s, p, e) == Some((Combine(Hex4(ps[i].digits, 0), Hex4(ps[i + 1].digits, 0)), 12));
    } else {
      assert !PairedAt(ps, i);
      assert Utf16Literal(s, p, e) == None;
    }
  }

  /** The literals of section 7 of RFC 8259: those that have a meaning are read, the others are not. */
  lemma {:induction false} ReadLiteral(ps: Literal, s: string, p: nat)
    requires At(s, p, QUOTE + LiteralText(ps, 0)) && forall j :: 0 <= j < |ps| ==> ps[j].Ordinary()
    ensures ReadString(s, p) ==
            if WellPaired(ps, 0) then Some((CString(Denotation(ps, 0)), p + 1 + |LiteralText(ps, 0)|)) else None
  {
    hide Cut, Utf8, Hex4, LiteralText, Denotation, WellPaired, ClosingQuote, Unescape;
    var e := p + |LiteralText(ps, 0)|;
    AtConcat(s, p, QUOTE, LiteralText(ps, 0));
    AtByte(s, p, QUOTE, 0);
    assert ClosingQuote(s, p + 1) == Some(e) by {
      LiteralCloses(ps, 0, s, p + 1);
    }
    LiteralMeans(ps, 0, s, p + 1, e);
  }

  // ---------------------------------------------------------------- what is read as a literal

  /** The bytes of the pieces, without the closing quote. */
  function PiecesText(ps: Literal): string {
    if ps == [] then "" else ps[0].Text() + PiecesText(ps[1..])
  }

  lemma {:induction false} OnePiece(piece: Piece)
    requires piece.Valid()
    ensures PiecesText([piece]) == piece.Text()
  {
    assert [piece][1..] == [];
  }

  lemma {:induction false} TwoPieces(a: Piece, b: Piece)
    requires a.Valid() && b.Valid()
    ensures var ps := [a, b]; (forall i :: 0 <= i < |ps| ==> ps[i].Valid()) && PiecesText(ps) == a.Text() + b.Text()
  {
    OnePiece(b);
    assert [a, b][1..] == [b];
  }

  /** The second pass takes what it reads for one piece, or for two that name a scalar together. */
  lemma {:induction false} NextPiece(s: string, p: nat, e: nat) returns (ps: Literal)
    requires p < e < |s| && NextBytes(s, p, e).Some?
    ensures 0 < |ps| <= 2 && At(s, p, PiecesText(ps)) && |PiecesText(ps)| == NextBytes(s, p, e).value.1
    ensures p + |PiecesText(ps)| <= e + 1
  {
    hide Hex4, Utf8, ShortEscape;
    if s[p] != '\\' {
      ps := [Piece.Raw(s[p])];
      OnePiece(ps[0]);
      assert s[p..p + 1] == [s[p]];
    } else if s[p + 1] == 'u' {
      var first := Unit(s[p + 2..p + 6]);
      OnePiece(first);
      assert s[p..p + 6] == first.Text();
      ps := [first];
      if Utf16Literal(s, p, e).value.1 == 12 {
        var second := Unit(s[p + 8..p + 12]);
        OnePiece(second);
        assert s[p + 6..p + 12] == second.Text();
        TwoPieces(first, second);
        AtConcat(s, p, first.Text(), second.Text());
        ps := [first, second];
      }
    } else {
      ps := [Short(s[p + 1])];
      OnePiece(ps[0]);
      assert s[p..p + 2] == ps[0].Text();
    }
  }

  lemma {:induction false} PiecesUnfold(ps: Literal)
    ensures PiecesText(ps) == if ps == [] then "" else ps[0].Text() + PiecesText(ps[1..])
  {
  }

  lemma {:induction false} PiecesConcat(a: Literal, b: Literal)
    ensures PiecesText(a + b) == PiecesText(a) + PiecesText(b)
  {
    hide *;
    PiecesUnfold(a);
    PiecesUnfold(a + b);
    if a == [] {
      assert a + b == b;
      assert "" + PiecesText(b) == PiecesText(b);
    } else {
      PiecesConcat(a[1..], b);
      assert (a + b)[1..] == a[1..] + b && (a + b)[0] == a[0];
      assert a[0].Text() + PiecesText(a[1..]) + PiecesText(b) == a[0].Text() + (PiecesText(a[1..]) + PiecesText(b));
    }
  }

  lemma {:induction false} NothingAt(s: string, p: nat)
    requires p <= |s|
    ensures At(s, p, "")
  {
    assert s[p..p] == "";
  }

  /**
   Whatever the second pass accepts consists of such pieces, its two-byte escapes with one of the eight letters. The
   last one, an escaped quote, may share the closing quote: where the passes step differently behind a \u with bad
   digits.
   */
  lemma {:induction false} PiecesFound(s: string, p: nat, e: nat) returns (ps: Literal)
    requires p <= e < |s| && s[e] == '\"' && Unescape(s, p, e).Some?
    ensures At(s, p, PiecesText(ps)) && e <= p + |PiecesText(ps)| <= e + 1
    decreases e - p
  {
    hide NextBytes, Cut;
    ps := [];
    if p < e {
      var first := NextPiece(s, p, e);
      var n := NextBytes(s, p, e).value.1;
      if p + n <= e {
        var rest := PiecesFound(s, p + n, e);
        PiecesConcat(first, rest);
        AtConcat(s, p, PiecesText(first), PiecesText(rest));
        ps := first + rest;
      } else {
        ps := first;
      }
    } else {
      NothingAt(s, p);
    }
  }

  // ---------------------------------------------------------------- a literal wherever it stands

  /** The first pass looks at the literal only. */
  lemma {:induction false} ClosesAnywhere(t: string, i: nat, s: string, p: nat)
    requires At(s, p, t) && i <= |t|
    ensures ClosingQuote(t, i).Some? ==> ClosingQuote(s, p + i) == Some(p + ClosingQuote(t, i).value)
    ensures ClosingQuote(s, p + i).Some? && ClosingQuote(s, p + i).value < p + |t| ==>
              ClosingQuote(t, i) == Some(ClosingQuote(s, p + i).value - p)
    decreases |t| - i
  {
    hide Cut;
    if i < |t| {
      AtByte(s, p, t, i);
      if t[i] != '\"' && t[i] != '\\' {
        ClosesAnywhere(t, i + 1, s, p);
      } else if t[i] == '\\' && i + 1 < |t| {
        AtByte(s, p, t, i + 1);
        ClosesAnywhere(t, i + 2, s, p);
      }
    }
  }

  lemma {:induction false} HexAnywhere(t: string, i: nat, s: string, p: nat)
    requires At(s, p, t) && i + 4 <= |t|
    ensures p + i + 4 <= |s| && Hex4(s, p + i) == Hex4(t, i)
  {
    hide Cut, HexValue;
    AtByte(s, p, t, i);
    AtByte(s, p, t, i + 1);
    AtByte(s, p, t, i + 2);
    AtByte(s, p, t, i + 3);
  }

  lemma {:induction false} BytesAnywhere(t: string, i: nat, e: nat, s: string, p: nat)
    requires At(s, p, t) && i < e < |t|
    ensures p + e < |s| && NextBytes(s, p + i, p + e) == NextBytes(t, i, e)
  {
    hide Cut, Hex4, Utf8, ShortEscape, Combine, HighSurrogate, LowSurrogate;
    AtByte(s, p, t, i);
    AtByte(s, p, t, i + 1);
    AtByte(s, p, t, e);
    if e - i >= 6 {
      HexAnywhere(t, i + 2, s, p);
      if e - i >= 12 {
        AtByte(s, p, t, i + 6);
        AtByte(s, p, t, i + 7);
        HexAnywhere(t, i + 8, s, p);
      }
    }
  }

  /** So does the second pass. */
  lemma {:induction false} UnescapesAnywhere(t: string, i: nat, e: nat, s: string, p: nat)
    requires At(s, p, t) && e < |t|
    ensures p + e < |s| && Unescape(s, p + i, p + e) == Unescape(t, i, e)
    decreases e - i
  {
    hide Cut, NextBytes;
    AtByte(s, p, t, e);
    if i < e {
      BytesAnywhere(t, i, e, s, p);
      if NextBytes(t, i, e).Some? {
        UnescapesAnywhere(t, i + NextBytes(t, i, e).value.1, e, s, p);
      }
    }
  }

  /** A text that is one literal from end to end is read as such wherever it stands. */
  lemma {:induction false} ReadsAnywhere(t: string, bytes: string, s: string, p: nat)
    requires t != "" && ReadString(t, 0) == Some((bytes, |t|)) && At(s, p, t)
    ensures p < |s| && ReadString(s, p) == Some((bytes, p + |t|))
  {
    hide Cut, Unescape, ClosingQuote;
    AtByte(s, p, t, 0);
    ClosesAnywhere(t, 1, s, p);
    UnescapesAnywhere(t, 1, |t| - 1, s, p);
  }

  /** And what is read somewhere is such a text. */
  lemma {:induction false} ReadsItself(s: string, p: nat)
    requires p < |s| && ReadString(s, p).Some?
    ensures var (bytes, r) := ReadString(s, p).value;
            At(s, p, s[p..r]) && ReadString(s[p..r], 0) == Some((bytes, r - p))
  {
    hide Unescape, ClosingQuote;
    var (bytes, r) := ReadString(s, p).value;
    var t := s[p..r];
    assert At(s, p, t) && t[0] == s[p];
    ClosesAnywhere(t, 1, s, p);
    UnescapesAnywhere(t, 1, |t| - 1, s, p);
  }

  // ---------------------------------------------------------------- the two passes of parse_string

  /** The byte at `i` is the backslash of an escape pair met by a first pass that starts at `p`. */
  predicate Lead(s: string, p: nat, i: nat)
    requires p <= i < |s|
    decreases i
  {
    s[i] == '\\' && (i == p || !Lead(s, p, i - 1))
  }

  /** The number of bytes in [p, q) that are no lead: what the first pass reserves for them. */
  function Reserved(s: string, p: nat, q: nat): (n: nat)
    requires p <= q <= |s|
    ensures n <= q - p
    decreases q
  {
    if q == p then 0 else Reserved(s, p, q - 1) + if Lead(s, p, q - 1) then 0 else 1
  }

  /** No two neighbours are leads, so any stretch of 2k bytes reserves at least k. */
  lemma {:induction false} ReservedGrows(s: string, p: nat, q: nat, k: nat)
    requires p <= q && q + 2 * k <= |s|
    ensures Reserved(s, p, q + 2 * k) >= Reserved(s, p, q) + k
  {
    if k > 0 {
      ReservedGrows(s, p, q, k - 1);
      assert Reserved(s, p, q + 2 * k) == Reserved(s, p, q + 2 * k - 2)
          + (if Lead(s, p, q + 2 * k - 2) then 0 else 1) + (if Lead(s, p, q + 2 * k - 1) then 0 else 1);
    }
  }
}
