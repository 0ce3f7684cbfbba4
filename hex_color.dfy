/** `hexToVec3` of sketch.js: a colour picker value such as "#fff" or
    "#1a2b3c" becomes three channels in [0, 1].  One leading '#' is removed,
    a three-character value has each character doubled, and the characters
    at 0..2, 2..4 and 4..6 are read with JavaScript's `parseInt(_, 16)` and
    divided by 255.  These are the 3- and 6-digit forms of the hex colour
    notation of section 5.2 of CSS Color Module Level 4.  JavaScript's NaN
    is `None`. */
module HexColor {

  datatype Option<T> = None | Some(value: T)

  // ---------------------------------------------------------------- characters

  predicate IsHexDigit(c: char) {
    ('0' <= c <= '9') || ('a' <= c <= 'f') || ('A' <= c <= 'F')
  }

  /** The value of a hexadecimal digit, either case. */
  function DigitValue(c: char): (v: nat)
    requires IsHexDigit(c)
    ensures v < 16
    ensures '0' <= c <= '9' ==> v == c as int - '0' as int
    ensures 'a' <= c <= 'f' ==> v == c as int - 'a' as int + 10
    ensures 'A' <= c <= 'F' ==> v == c as int - 'A' as int + 10
  {
    if '0' <= c <= '9' then c as int - '0' as int
    else if 'a' <= c <= 'f' then c as int - 'a' as int + 10
    else c as int - 'A' as int + 10
  }

  /** The lower-case digit for a value below 16. */
  function LowerDigit(v: nat): (c: char)
    requires v < 16
    ensures IsHexDigit(c) && DigitValue(c) == v
    ensures !('A' <= c <= 'F')
  {
    if v < 10 then ('0' as int + v) as char else ('a' as int + v - 10) as char
  }

  /** The characters a regular-expression `.` does not match. */
  predicate IsLineTerminator(c: char) {
    c == '\n' || c == '\r' || c == '\U{2028}' || c == '\U{2029}'
  }

  /** The characters `parseInt` skips before the number: white space and
      line terminators in the sense of ECMAScript. */
  predicate IsJsWhiteSpace(c: char) {
    || c == '\t' || c == '\U{000B}' || c == '\U{000C}' || c == ' '
    || c == '\U{00A0}' || c == '\U{FEFF}' || c == '\U{1680}'
    || ('\U{2000}' <= c <= '\U{200A}')
    || c == '\U{202F}' || c == '\U{205F}' || c == '\U{3000}'
    || IsLineTerminator(c)
  }

  // ---------------------------------------------------------------- rewriting

  /** `h.replace(/^#/, "")`: removes one leading '#', and only one. */
  function StripHash(h: string): (r: string)
    ensures |h| > 0 && h[0] == '#' ==> h == ['#'] + r
    ensures !(|h| > 0 && h[0] == '#') ==> r == h
  {
    if |h| > 0 && h[0] == '#' then h[1..] else h
  }

  /** `h.replace(/./g, (x) => x + x)`: every character but a line terminator
      is doubled in place. */
  function DoubleEach(h: string): string
  {
    if h == [] then []
    else if IsLineTerminator(h[0]) then [h[0]] + DoubleEach(h[1..])
    else [h[0], h[0]] + DoubleEach(h[1..])
  }

  /** Without line terminators, DoubleEach writes every character twice in
      place: the result is twice as long, with h[i] at 2 * i and 2 * i + 1. */
  lemma {:induction false} DoubleEachDoubles(h: string)
    requires forall i :: 0 <= i < |h| ==> !IsLineTerminator(h[i])
    ensures |DoubleEach(h)| == 2 * |h|
    ensures forall i :: 0 <= i < |h| ==> DoubleEach(h)[2 * i] == h[i] && DoubleEach(h)[2 * i + 1] == h[i]
  {
    if h != [] {
      var rest := h[1..];
      DoubleEachDoubles(rest);
      assert DoubleEach(h) == [h[0], h[0]] + DoubleEach(rest);
      forall i | 1 <= i < |h|
        ensures DoubleEach(h)[2 * i] == h[i] && DoubleEach(h)[2 * i + 1] == h[i]
      {
        assert rest[i - 1] == h[i];
      }
    }
  }

  /** `h.length == 3 && (h = ...)`: only a three-character value is expanded,
      to each of its characters written twice. */
  function ExpandShorthand(h: string): (r: string)
    ensures |h| != 3 ==> r == h
    ensures |h| == 3 && !IsLineTerminator(h[0]) && !IsLineTerminator(h[1]) && !IsLineTerminator(h[2]) ==>
      r == [h[0], h[0], h[1], h[1], h[2], h[2]]
  {
    if |h| == 3 then
      assert !IsLineTerminator(h[0]) && !IsLineTerminator(h[1]) && !IsLineTerminator(h[2]) ==>
        DoubleEach(h) == [h[0], h[0], h[1], h[1], h[2], h[2]] by {
        if !IsLineTerminator(h[0]) && !IsLineTerminator(h[1]) && !IsLineTerminator(h[2]) {
          DoubleEachDoubles(h);
        }
      }
      DoubleEach(h)
    else h
  }

  function Min(a: int, b: int): int {
    if a < b then a else b
  }

  /** `h.slice(start, end)` for 0 <= start <= end: both ends are cut back to
      the length, so a slice past the end is short or empty. */
  function Slice(h: string, start: nat, end: nat): (r: string)
    requires start <= end
    ensures end <= |h| ==> r == h[start..end]
    ensures start >= |h| ==> r == []
    ensures start < |h| < end ==> r == h[start..]
    ensures |r| <= end - start
  {
    h[Min(start, |h|)..Min(end, |h|)]
  }

  // ---------------------------------------------------------------- parseInt

  /** The leading run of hexadecimal digits. */
  function HexPrefix(s: string): (r: string)
    ensures |r| <= |s|
    ensures forall i :: 0 <= i < |r| ==> r[i] == s[i] && IsHexDigit(r[i])
    ensures |r| < |s| ==> !IsHexDigit(s[|r|])
  {
    if s == [] || !IsHexDigit(s[0]) then []
    else [s[0]] + HexPrefix(s[1..])
  }

  /** A string of hexadecimal digits is its own leading digit run. */
  lemma HexPrefixOfDigits(s: string)
    requires AllHexDigits(s)
    ensures HexPrefix(s) == s
  {
    var r := HexPrefix(s);
    assert |r| == |s|;
    assert forall i :: 0 <= i < |r| ==> r[i] == s[i];
  }

  /** The value of a string of hexadecimal digits, most significant first. */
  function HexValue(ds: string): (v: nat)
    requires forall i :: 0 <= i < |ds| ==> IsHexDigit(ds[i])
  {
    if ds == [] then 0
    else HexValue(ds[..|ds| - 1]) * 16 + DigitValue(ds[|ds| - 1])
  }

  /** The length of the leading run of white space of `s`: `s[n..]` is `s`
      without it. */
  function LeadingWhiteSpace(s: string): (n: nat)
    ensures n <= |s|
    ensures forall i :: 0 <= i < n ==> IsJsWhiteSpace(s[i])
    ensures n < |s| ==> !IsJsWhiteSpace(s[n])
  {
    if s != [] && IsJsWhiteSpace(s[0]) then 1 + LeadingWhiteSpace(s[1..]) else 0
  }

  /** `parseInt(s, 16)`: leading white space is skipped, one '+' or '-' is
      read, then one "0x" or "0X", then the longest run of hexadecimal
      digits; when that run is empty the result is NaN. */
  function ParseIntHex(s: string): (r: Option<int>)
  {
    var t := s[LeadingWhiteSpace(s)..];
    var negative := t != [] && t[0] == '-';
    var unsigned := if t != [] && (t[0] == '-' || t[0] == '+') then t[1..] else t;
    var body := if |unsigned| >= 2 && unsigned[0] == '0' && (unsigned[1] == 'x' || unsigned[1] == 'X')
                then unsigned[2..] else unsigned;
    var digits := HexPrefix(body);
    if digits == [] then None
    else if negative then Some(-(HexValue(digits) as int))
    else Some(HexValue(digits))
  }

  /** A nonempty run of hexadecimal digits, and nothing else, parses to its
      value: there is no white space, sign or "0x" to skip. */
  lemma ParseHexDigits(s: string)
    requires s != [] && AllHexDigits(s)
    ensures ParseIntHex(s) == Some(HexValue(s))
  {
    assert !IsJsWhiteSpace(s[0]);
    HexPrefixOfDigits(s);
  }

  /** Two hexadecimal digits read as a byte, most significant first. */
  lemma {:induction false} ParseTwoDigits(a: char, b: char)
    requires IsHexDigit(a) && IsHexDigit(b)
    ensures ParseIntHex([a, b]) == Some(16 * DigitValue(a) + DigitValue(b))
    ensures 0 <= 16 * DigitValue(a) + DigitValue(b) <= 255
  {
    var s := [a, b];
    TwoDigitsUntrimmed(a, b);
    assert !(s[0] == '0' && (s[1] == 'x' || s[1] == 'X'));
    TwoDigitsPrefix(a, b);
    TwoDigitsValue(a, b);
  }

  /** Hexadecimal digits are not white space, so nothing is trimmed. */
  lemma TwoDigitsUntrimmed(a: char, b: char)
    requires IsHexDigit(a)
    ensures LeadingWhiteSpace([a, b]) == 0
  {
    assert !IsJsWhiteSpace(a);
  }

  /** Two hexadecimal digits are their own digit run. */
  lemma TwoDigitsPrefix(a: char, b: char)
    requires IsHexDigit(a) && IsHexDigit(b)
    ensures HexPrefix([a, b]) == [a, b]
  {
    assert [a, b][1..] == [b];
    assert HexPrefix([b]) == [b] by {
      assert [b][1..] == [];
    }
  }

  /** Two hexadecimal digits have the value 16 * first + second. */
  lemma TwoDigitsValue(a: char, b: char)
    requires IsHexDigit(a) && IsHexDigit(b)
    ensures HexValue([a, b]) == 16 * DigitValue(a) + DigitValue(b)
  {
    assert [a, b][..1] == [a];
    assert HexValue([a]) == DigitValue(a) by {
      assert [a][..0] == [];
    }
  }

  /** A string whose first character is '#' does not parse. */
  lemma ParseHashIsNaN(s: string)
    requires s != [] && s[0] == '#'
    ensures ParseIntHex(s) == None
  {
    assert LeadingWhiteSpace(s) == 0;
  }

  // ---------------------------------------------------------------- hexToVec3

  /** The three `parseInt(h.slice(i, i + 2), 16)` for i = 0, 2, 4, on the
      value after the '#' is stripped and a shorthand is expanded. */
  function HexToBytes(h: string): (r: seq<Option<int>>)
    ensures |r| == 3
  {
    var e := ExpandShorthand(StripHash(h));
    [PairAt(e, 0), PairAt(e, 1), PairAt(e, 2)]
  }

  /** `parseInt(e.slice(2 * i, 2 * i + 2), 16)`. */
  function PairAt(e: string, i: nat): Option<int> {
    ParseIntHex(Slice(e, 2 * i, 2 * i + 2))
  }

  /** A parsed byte divided by 255; NaN stays NaN. */
  function Channel(byte: Option<int>): (r: Option<real>)
    ensures r == None <==> byte == None
    ensures r != None ==> r.value * 255.0 == byte.value as real
  {
    match byte
    case None => None
    case Some(v) => Some(v as real / 255.0)
  }

  /** `hexToVec3(h)`: each parsed byte divided by 255.  A 3- or 6-digit
      colour, with or without its '#', gives its three CSS channel values,
      each scaled as a byte by Channel. */
  function HexToVec3(h: string): (r: seq<Option<real>>)
    ensures |r| == 3
    ensures IsHexColourBody(StripHash(h)) ==>
      var s := StripHash(h);
      r == [Channel(Some(CssChannel(s, 0))), Channel(Some(CssChannel(s, 1))), Channel(Some(CssChannel(s, 2)))]
  {
    var bytes := HexToBytes(h);
    if IsHexColourBody(StripHash(h)) then
      BytesOfWellFormed(h);
      [Channel(bytes[0]), Channel(bytes[1]), Channel(bytes[2])]
    else
      [Channel(bytes[0]), Channel(bytes[1]), Channel(bytes[2])]
  }

  // ---------------------------------------------------------------- CSS

  /** All characters are hexadecimal digits. */
  predicate AllHexDigits(s: string) {
    forall i :: 0 <= i < |s| ==> IsHexDigit(s[i])
  }

  /** A well-formed colour after the '#': three or six hexadecimal digits. */
  predicate IsHexColourBody(s: string) {
    (|s| == 3 || |s| == 6) && AllHexDigits(s)
  }

  /** Channel i of a CSS hex colour body, as CSS Color 4 defines it: a pair of
      digits in the six-digit form, a single digit d standing for 17 * d
      (d written twice) in the three-digit form. */
  function CssChannel(s: string, i: nat): nat
    requires IsHexColourBody(s) && i < 3
  {
    if |s| == 3 then 17 * DigitValue(s[i])
    else 16 * DigitValue(s[2 * i]) + DigitValue(s[2 * i + 1])
  }

  /** After expansion a well-formed body is six digits, and the pair at
      2 * i, 2 * i + 1 has the CSS value of channel i. */
  lemma ExpandedPairs(s: string, i: nat)
    requires IsHexColourBody(s) && i < 3
    ensures var e := ExpandShorthand(s);
      && |e| == 6 && AllHexDigits(e)
      && 16 * DigitValue(e[2 * i]) + DigitValue(e[2 * i + 1]) == CssChannel(s, i)
  {
  }

  /** Pair i of a well-formed body, once expanded, parses to channel i's CSS
      value, a byte. */
  lemma {:induction false} ChannelParses(s: string, i: nat)
    requires IsHexColourBody(s) && i < 3
    ensures PairAt(ExpandShorthand(s), i) == Some(CssChannel(s, i))
    ensures 0 <= CssChannel(s, i) <= 255
  {
    var e := ExpandShorthand(s);
    ExpandedPairs(s, i);
    PairSlice(e, i);
    PairOfTwo(e, i, e[2 * i], e[2 * i + 1]);
  }

  /** Within the string, the slice for pair i holds its two characters. */
  lemma PairSlice(e: string, i: nat)
    requires 2 * i + 2 <= |e|
    ensures Slice(e, 2 * i, 2 * i + 2) == [e[2 * i], e[2 * i + 1]]
  {
  }

  /** Pair i, once its slice is known to be two digits a, b, parses to their
      value. */
  lemma PairOfTwo(e: string, i: nat, a: char, b: char)
    requires Slice(e, 2 * i, 2 * i + 2) == [a, b] && IsHexDigit(a) && IsHexDigit(b)
    ensures PairAt(e, i) == Some(16 * DigitValue(a) + DigitValue(b))
  {
    ParseTwoDigits(a, b);
  }

  /** The three bytes of a well-formed colour (with or without one leading
      '#') are its three CSS channel values. */
  lemma {:induction false} BytesOfWellFormed(h: string)
    requires IsHexColourBody(StripHash(h))
    ensures var s := StripHash(h);
      HexToBytes(h) == [Some(CssChannel(s, 0)), Some(CssChannel(s, 1)), Some(CssChannel(s, 2))]
  {
    var s := StripHash(h);
    ChannelParses(s, 0);
    ChannelParses(s, 1);
    ChannelParses(s, 2);
  }

  /** For a well-formed colour, every channel parses, equals the CSS channel
      value, is a byte, and its `byte / 255` lies in [0, 1]. */
  lemma {:induction false} WellFormedColour(h: string)
    requires IsHexColourBody(StripHash(h))
    ensures forall i :: 0 <= i < 3 ==> HexToBytes(h)[i] == Some(CssChannel(StripHash(h), i))
    ensures forall i :: 0 <= i < 3 ==> 0 <= CssChannel(StripHash(h), i) <= 255
    ensures forall i :: 0 <= i < 3 ==> HexToVec3(h)[i] != None && 0.0 <= HexToVec3(h)[i].value <= 1.0
  {
    var s := StripHash(h);
    BytesOfWellFormed(h);
    CssBytes(s, HexToBytes(h));
    CssUnitChannels(s, HexToVec3(h));
  }

  /** The three CSS channels of a well-formed body are bytes; a sequence
      holding them holds channel i at i. */
  lemma CssBytes(s: string, bytes: seq<Option<int>>)
    requires IsHexColourBody(s)
    requires bytes == [Some(CssChannel(s, 0)), Some(CssChannel(s, 1)), Some(CssChannel(s, 2))]
    ensures forall i :: 0 <= i < 3 ==> bytes[i] == Some(CssChannel(s, i))
    ensures forall i :: 0 <= i < 3 ==> 0 <= CssChannel(s, i) <= 255
  {
  }

  /** The three CSS channels of a well-formed body, scaled by Channel, lie in
      [0, 1]. */
  lemma CssUnitChannels(s: string, v: seq<Option<real>>)
    requires IsHexColourBody(s)
    requires v == [Channel(Some(CssChannel(s, 0))), Channel(Some(CssChannel(s, 1))), Channel(Some(CssChannel(s, 2)))]
    ensures forall i :: 0 <= i < 3 ==> v[i] != None && 0.0 <= v[i].value <= 1.0
  {
    CssBytes(s, [Some(CssChannel(s, 0)), Some(CssChannel(s, 1)), Some(CssChannel(s, 2))]);
  }

  /** A three-digit shorthand reads exactly as the six-digit value with every
      digit written twice, e.g. "#abc" as "#aabbcc". */
  lemma ShorthandIsDoubled(a: char, b: char, c: char)
    requires !IsLineTerminator(a) && !IsLineTerminator(b) && !IsLineTerminator(c)
    ensures HexToBytes(['#', a, b, c]) == HexToBytes(['#', a, a, b, b, c, c])
  {
    assert StripHash(['#', a, b, c]) == [a, b, c];
    assert StripHash(['#', a, a, b, b, c, c]) == [a, a, b, b, c, c];
  }

  /** Only one '#' is stripped: after "##" the first channel is NaN. */
  lemma OnlyOneHashStripped(s: string)
    ensures HexToBytes(['#', '#'] + s)[0] == None
  {
    var t := StripHash(['#', '#'] + s);
    assert t == ['#'] + s;
    var e := ExpandShorthand(t);
    assert e[0] == '#';
    var first := Slice(e, 0, 2);
    assert first != [] && first[0] == '#';
    ParseHashIsNaN(first);
  }

  /** "#000" reads as three zero bytes. */
  lemma {:induction false} DefaultBytesB()
    ensures HexToBytes("#000") == [Some(0), Some(0), Some(0)]
  {
    var s := StripHash("#000");
    assert s == "000" && IsHexColourBody(s);
    assert CssChannel(s, 0) == 0 && CssChannel(s, 1) == 0 && CssChannel(s, 2) == 0;
    BytesOfWellFormed("#000");
  }

  /** "#fff" reads as three 255 bytes. */
  lemma {:induction false} DefaultBytesA()
    ensures HexToBytes("#fff") == [Some(255), Some(255), Some(255)]
  {
    var s := StripHash("#fff");
    assert s == "fff" && IsHexColourBody(s);
    assert CssChannel(s, 0) == 255 && CssChannel(s, 1) == 255 && CssChannel(s, 2) == 255;
    BytesOfWellFormed("#fff");
  }

  /** The default of the colorB picker, "#000", is black. */
  lemma {:induction false} DefaultColorB()
    ensures HexToVec3("#000") == [Some(0.0), Some(0.0), Some(0.0)]
  {
    DefaultBytesB();
  }

  /** The default of the colorA picker, "#fff", is white. */
  lemma {:induction false} DefaultColorA()
    ensures HexToVec3("#fff") == [Some(1.0), Some(1.0), Some(1.0)]
  {
    DefaultBytesA();
  }

  // ---------------------------------------------------------------- round trip

  /** Two lower-case hexadecimal digits for a byte. */
  function ByteToHex(v: nat): (r: string)
    requires v <= 255
    ensures |r| == 2 && AllHexDigits(r)
    ensures 16 * DigitValue(r[0]) + DigitValue(r[1]) == v
  {
    [LowerDigit(v / 16), LowerDigit(v % 16)]
  }

  /** A colour as "#rrggbb", the form a colour picker reports its value in. */
  function FormatHexColour(red: nat, green: nat, blue: nat): (h: string)
    requires red <= 255 && green <= 255 && blue <= 255
    ensures |h| == 7 && h[0] == '#' && IsHexColourBody(h[1..])
  {
    var r, g, b := ByteToHex(red), ByteToHex(green), ByteToHex(blue);
    ['#', r[0], r[1], g[0], g[1], b[0], b[1]]
  }

  /** Parsing undoes formatting: the bytes of "#rrggbb" come back unchanged. */
  lemma {:induction false} ParseFormatRoundTrip(red: nat, green: nat, blue: nat)
    requires red <= 255 && green <= 255 && blue <= 255
    ensures HexToBytes(FormatHexColour(red, green, blue)) == [Some(red), Some(green), Some(blue)]
  {
    var h := FormatHexColour(red, green, blue);
    var body := h[1..];
    assert StripHash(h) == body;
    assert CssChannel(body, 0) == red && CssChannel(body, 1) == green && CssChannel(body, 2) == blue;
    BytesOfWellFormed(h);
  }
}
