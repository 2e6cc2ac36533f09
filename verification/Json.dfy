/**
 * JSON text as section 7 of RFC 8259 reads it: string literals are decoded to UTF-16 code
 * units, everything outside them is kept character by character, and a grammar over both
 * gives the value.
 */
module Json {
  import opened Text

  /** A decoded string literal, or one character outside strings. */
  datatype Token = Outside(c: char) | Literal(units: seq<nat>)

  // ---------------------------------------------------------------- string literals

  /** The UTF-16 form of a character, section 2.1 of RFC 2781. */
  function Utf16(c: char): (units: seq<nat>)
    ensures 1 <= |units| <= 2
    ensures forall i :: 0 <= i < |units| ==> units[i] < 0x10000
  {
    var n := c as int;
    if n < 0x10000 then [n]
    else [0xd800 + (n - 0x10000) / 0x400, 0xdc00 + (n - 0x10000) % 0x400]
  }

  function HexValue(c: char): Option<nat> {
    if '0' <= c <= '9' then Some(c as int - '0' as int)
    else if 'a' <= c <= 'f' then Some(c as int - 'a' as int + 10)
    else if 'A' <= c <= 'F' then Some(c as int - 'A' as int + 10)
    else None
  }

  function HexFour(s: string): Option<nat>
    requires |s| == 4
  {
    var a, b, c, d := HexValue(s[0]), HexValue(s[1]), HexValue(s[2]), HexValue(s[3]);
    if a.Some? && b.Some? && c.Some? && d.Some?
    then Some(a.value * 4096 + b.value * 256 + c.value * 16 + d.value) else None
  }

  function SimpleEscape(c: char): Option<nat> {
    if c == '"' || c == '\\' || c == '/' then Some(c as int)
    else if c == 'b' then Some(8)
    else if c == 'f' then Some(12)
    else if c == 'n' then Some(10)
    else if c == 'r' then Some(13)
    else if c == 't' then Some(9)
    else None
  }

  /** One unit of a string literal: its code units and its length in the text. */
  function LexUnit(s: string): (r: Option<(seq<nat>, nat)>)
    ensures r.Some? ==> 1 <= r.value.1 <= |s|
  {
    if s == "" || s[0] == '"' || s[0] as int < 0x20 then None
    else if s[0] != '\\' then Some((Utf16(s[0]), 1))
    else if |s| >= 2 && SimpleEscape(s[1]).Some? then Some(([SimpleEscape(s[1]).value], 2))
    else if |s| >= 6 && s[1] == 'u' && HexFour(s[2..6]).Some? then Some(([HexFour(s[2..6]).value], 6))
    else None
  }

  /** The rest of a string literal: its code units and the text after the closing quote. */
  function LexString(s: string): (r: Option<(seq<nat>, string)>)
    ensures r.Some? ==> |r.value.1| < |s|
    decreases |s|
  {
    if s != "" && s[0] == '"' then Some(([], s[1..]))
    else
      var unit := LexUnit(s);
      if unit.None? then None
      else
        var rest := LexString(s[unit.value.1..]);
        if rest.None? then None else Some((unit.value.0 + rest.value.0, rest.value.1))
  }

  function Lex(s: string): Option<seq<Token>>
    decreases |s|
  {
    if s == "" then Some([])
    else if s[0] != '"' then
      var rest := Lex(s[1..]);
      if rest.None? then None else Some([Outside(s[0])] + rest.value)
    else
      var text := LexString(s[1..]);
      if text.None? then None
      else
        var rest := Lex(text.value.1);
        if rest.None? then None else Some([Literal(text.value.0)] + rest.value)
  }

  // ---------------------------------------------------------------- values

  /** Numbers keep their spelling. */
  datatype Value =
    | Null
    | Bool(b: bool)
    | Number(spelling: string)
    | String(units: seq<nat>)
    | Array(elements: seq<Value>)
    | Object(members: seq<(seq<nat>, Value)>)

  function SkipSpace(ts: seq<Token>): (r: seq<Token>)
    ensures |r| <= |ts|
  {
    if ts != [] && ts[0].Outside? && ts[0].c in {' ', '\t', '\n', '\r'} then SkipSpace(ts[1..]) else ts
  }

  predicate Starts(ts: seq<Token>, word: string) {
    |word| <= |ts| && forall i :: 0 <= i < |word| ==> ts[i] == Outside(word[i])
  }

  function Digits(ts: seq<Token>): (n: nat)
    ensures n <= |ts|
  {
    if ts != [] && ts[0].Outside? && '0' <= ts[0].c <= '9' then 1 + Digits(ts[1..]) else 0
  }

  function Spelling(ts: seq<Token>): string {
    if ts == [] || !ts[0].Outside? then "" else [ts[0].c] + Spelling(ts[1..])
  }

  /** Where an optional fraction that may start at `i` ends. */
  function FractionEnd(ts: seq<Token>, i: nat): (r: Option<nat>)
    requires i <= |ts|
    ensures r.Some? ==> i <= r.value <= |ts|
  {
    if !Starts(ts[i..], ".") then Some(i)
    else if Digits(ts[i + 1..]) == 0 then None
    else Some(i + 1 + Digits(ts[i + 1..]))
  }

  /** Where an optional exponent that may start at `j` ends. */
  function ExponentEnd(ts: seq<Token>, j: nat): (r: Option<nat>)
    requires j <= |ts|
    ensures r.Some? ==> j <= r.value <= |ts|
  {
    if !Starts(ts[j..], "e") && !Starts(ts[j..], "E") then Some(j)
    else
      var k := if Starts(ts[j + 1..], "+") || Starts(ts[j + 1..], "-") then j + 2 else j + 1;
      if Digits(ts[k..]) == 0 then None else Some(k + Digits(ts[k..]))
  }

  /** The length of the number at the front: sign, integer part, fraction, exponent. */
  function NumberLength(ts: seq<Token>): (r: Option<nat>)
    ensures r.Some? ==> 1 <= r.value <= |ts|
  {
    var sign := if Starts(ts, "-") then 1 else 0;
    var whole := Digits(ts[sign..]);
    if whole == 0 || (whole > 1 && ts[sign] == Outside('0')) then None
    else
      var fraction := FractionEnd(ts, sign + whole);
      if fraction.None? then None else ExponentEnd(ts, fraction.value)
  }

  function ParseValue(tokens: seq<Token>): (r: Option<(Value, seq<Token>)>)
    ensures r.Some? ==> |r.value.1| < |tokens|
    decreases |tokens|, 1
  {
    var ts := SkipSpace(tokens);
    if ts == [] then None
    else if ts[0].Literal? then Some((String(ts[0].units), ts[1..]))
    else if Starts(ts, "null") then Some((Null, ts[4..]))
    else if Starts(ts, "true") then Some((Bool(true), ts[4..]))
    else if Starts(ts, "false") then Some((Bool(false), ts[5..]))
    else if ts[0].c == '[' then
      var inner := SkipSpace(ts[1..]);
      if Starts(inner, "]") then Some((Array([]), inner[1..]))
      else
        var elements := ParseElements(inner);
        if elements.None? then None else Some((Array(elements.value.0), elements.value.1))
    else if ts[0].c == '{' then
      var inner := SkipSpace(ts[1..]);
      if Starts(inner, "}") then Some((Object([]), inner[1..]))
      else
        var members := ParseMembers(inner);
        if members.None? then None else Some((Object(members.value.0), members.value.1))
    else
      var n := NumberLength(ts);
      if n.None? then None else Some((Number(Spelling(ts[..n.value])), ts[n.value..]))
  }

  /** The elements of an array up to and including its closing bracket. */
  function ParseElements(ts: seq<Token>): (r: Option<(seq<Value>, seq<Token>)>)
    ensures r.Some? ==> |r.value.1| < |ts|
    decreases |ts|, 2
  {
    var first := ParseValue(ts);
    if first.None? then None
    else
      var after := SkipSpace(first.value.1);
      if Starts(after, "]") then Some(([first.value.0], after[1..]))
      else if !Starts(after, ",") then None
      else
        var rest := ParseElements(after[1..]);
        if rest.None? then None else Some(([first.value.0] + rest.value.0, rest.value.1))
  }

  /** The members of an object up to and including its closing brace. */
  function ParseMembers(tokens: seq<Token>): (r: Option<(seq<(seq<nat>, Value)>, seq<Token>)>)
    ensures r.Some? ==> |r.value.1| < |tokens|
    decreases |tokens|, 2
  {
    var ts := SkipSpace(tokens);
    if ts == [] || !ts[0].Literal? then None
    else
      var colon := SkipSpace(ts[1..]);
      if !Starts(colon, ":") then None
      else
        var value := ParseValue(colon[1..]);
        if value.None? then None
        else
          var member := (ts[0].units, value.value.0);
          var after := SkipSpace(value.value.1);
          if Starts(after, "}") then Some(([member], after[1..]))
          else if !Starts(after, ",") then None
          else
            var rest := ParseMembers(after[1..]);
            if rest.None? then None else Some(([member] + rest.value.0, rest.value.1))
  }

  /** The value of a JSON text, when it is one. */
  function Decode(s: string): Option<Value> {
    var tokens := Lex(s);
    if tokens.None? then None
    else
      var value := ParseValue(tokens.value);
      if value.None? || SkipSpace(value.value.1) != [] then None else Some(value.value.0)
  }
}
