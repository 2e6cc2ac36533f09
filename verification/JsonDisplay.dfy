/** Making JSON text safe to show on a terminal without changing what it decodes to. */
module JsonDisplay {
  import opened Text
  import opened TerminalText
  import opened Json

  // ---------------------------------------------------------------- unicode escapes

  function FourHex(n: nat): (r: string)
    requires n < 0x10000
    ensures |r| == 4
  {
    [HexDigit(n / 4096), HexDigit(n / 256 % 16), HexDigit(n / 16 % 16), HexDigit(n % 16)]
  }

  function UnicodeEscape(unit: nat): (r: string)
    requires unit < 0x10000
    ensures |r| == 6
  {
    "\\u" + FourHex(unit)
  }

  function UnicodeEscapes(units: seq<nat>): string
    requires forall i :: 0 <= i < |units| ==> units[i] < 0x10000
  {
    if units == [] then "" else UnicodeEscape(units[0]) + UnicodeEscapes(units[1..])
  }

  method AppendUnicodeEscape(output: string, c: char) returns (r: string)
    ensures r == output + UnicodeEscapes(Utf16(c))
  {
    var units := Utf16(c);
    r := output;
    var i := 0;
    assert units[0..] == units;
    while i < |units|
      invariant 0 <= i <= |units|
      invariant r + UnicodeEscapes(units[i..]) == output + UnicodeEscapes(units)
    {
      assert units[i..][1..] == units[i + 1..];
      r := r + ("\\u" + FourHex(units[i]));
      i := i + 1;
    }
  }

  /** Four hexadecimal digits read back as the number they were printed from. */
  lemma HexRoundTrip(n: nat)
    requires n < 0x10000
    ensures HexFour(FourHex(n)) == Some(n)
  {
    DigitRoundTrip(n / 4096);
    DigitRoundTrip(n / 256 % 16);
    DigitRoundTrip(n / 16 % 16);
    DigitRoundTrip(n % 16);
    var a, b, c := n / 16, n / 256, n / 4096;
    assert n == a * 16 + n % 16;
    assert a == b * 16 + a % 16 && b == a / 16;
    assert b == c * 16 + b % 16 && c == b / 16;
  }

  lemma DigitRoundTrip(n: nat)
    requires n < 16
    ensures HexValue(HexDigit(n)) == Some(n)
  {
  }

  /** A written escape is read as exactly its code unit, whatever follows. */
  lemma EscapeIsRead(unit: nat, rest: string)
    requires unit < 0x10000
    ensures LexUnit(UnicodeEscape(unit) + rest) == Some(([unit], 6))
    ensures (UnicodeEscape(unit) + rest)[6..] == rest
  {
    var s := UnicodeEscape(unit) + rest;
    assert s[2..6] == FourHex(unit);
    HexRoundTrip(unit);
  }

  /** The literal that remains after some code units were read. */
  function After(units: seq<nat>, rest: Option<(seq<nat>, string)>): Option<(seq<nat>, string)> {
    if rest.None? then None else Some((units + rest.value.0, rest.value.1))
  }

  lemma OneEscapeIsRead(unit: nat, rest: string)
    requires unit < 0x10000
    ensures LexString(UnicodeEscape(unit) + rest) == After([unit], LexString(rest))
  {
    hide LexUnit, FourHex;
    EscapeIsRead(unit, rest);
  }

  lemma OneOrTwoEscapes(c: char)
    ensures var units := Utf16(c);
      UnicodeEscapes(units)
      == if |units| == 1 then UnicodeEscape(units[0]) else UnicodeEscape(units[0]) + UnicodeEscape(units[1])
  {
    hide UnicodeEscape, Utf16;
    var units := Utf16(c);
    if |units| == 1 {
      assert units[1..] == [];
      assert UnicodeEscapes(units[1..]) == "";
    } else {
      assert units[1..] == [units[1]];
      assert units[1..][1..] == [];
      assert UnicodeEscapes(units[1..]) == UnicodeEscape(units[1]) + "";
    }
  }

  /** An escaped character is read as its UTF-16 form, one unit or a surrogate pair. */
  lemma EscapesAreRead(c: char, rest: string)
    ensures LexString(UnicodeEscapes(Utf16(c)) + rest) == After(Utf16(c), LexString(rest))
  {
    hide UnicodeEscape, Utf16, LexUnit;
    var units := Utf16(c);
    OneOrTwoEscapes(c);
    if |units| == 1 {
      assert units == [units[0]];
      OneEscapeIsRead(units[0], rest);
    } else {
      assert units == [units[0]] + [units[1]];
      var tail := UnicodeEscape(units[1]) + rest;
      assert UnicodeEscapes(units) + rest == UnicodeEscape(units[0]) + tail;
      OneEscapeIsRead(units[1], rest);
      OneEscapeIsRead(units[0], tail);
      if LexString(rest).Some? {
        assert [units[0]] + ([units[1]] + LexString(rest).value.0) == units + LexString(rest).value.0;
      }
    }
  }

  // ---------------------------------------------------------------- the escaper

  datatype Mode = OutsideString | InString | AfterBackslash

  function NextMode(mode: Mode, c: char): Mode {
    match mode
    case OutsideString => if c == '"' then InString else OutsideString
    case AfterBackslash => InString
    case InString => if c == '\\' then AfterBackslash else if c == '"' then OutsideString else InString
  }

  function Shown(mode: Mode, c: char): string {
    if mode.InString? && MustEscape(c) then UnicodeEscapes(Utf16(c)) else [c]
  }

  function Display(s: string, mode: Mode): string {
    if s == "" then "" else Shown(mode, s[0]) + Display(s[1..], NextMode(mode, s[0]))
  }

  function ModeAfter(s: string, mode: Mode): Mode {
    if s == "" then mode else ModeAfter(s[1..], NextMode(mode, s[0]))
  }

  lemma {:induction false} DisplaySnoc(s: string, c: char, mode: Mode)
    ensures Display(s + [c], mode) == Display(s, mode) + Shown(ModeAfter(s, mode), c)
    ensures ModeAfter(s + [c], mode) == NextMode(ModeAfter(s, mode), c)
  {
    hide Shown, NextMode;
    if s == "" {
      assert "" + [c] == [c];
    } else {
      assert (s + [c])[1..] == s[1..] + [c];
      DisplaySnoc(s[1..], c, NextMode(mode, s[0]));
    }
  }

  ghost predicate Flags(mode: Mode, inString: bool, escapedInput: bool) {
    mode == if !inString then OutsideString else if escapedInput then AfterBackslash else InString
  }

  method EscapeForDisplay(value: string) returns (escaped: string)
    ensures escaped == Display(value, OutsideString)
  {
    escaped := "";
    var inString, escapedInput := false, false;
    for i := 0 to |value|
      invariant escaped == Display(value[..i], OutsideString)
      invariant Flags(ModeAfter(value[..i], OutsideString), inString, escapedInput)
      invariant escapedInput ==> inString
    {
      var c := value[i];
      DisplaySnoc(value[..i], c, OutsideString);
      assert value[..i] + [c] == value[..i + 1];
      if !inString {
        escaped := escaped + [c];
        if c == '"' {
          inString := true;
        }
      } else if escapedInput {
        escaped := escaped + [c];
        escapedInput := false;
      } else if c == '\\' {
        escaped := escaped + [c];
        escapedInput := true;
      } else if c == '"' {
        escaped := escaped + [c];
        inString := false;
      } else if MustEscape(c) {
        escaped := AppendUnicodeEscape(escaped, c);
      } else {
        escaped := escaped + [c];
      }
    }
    assert value[..|value|] == value;
  }

  // ---------------------------------------------------------------- meaning is preserved

  /** Inside a literal the escaper and the lexer stay in step: they agree on the decoded units and
   *  leave the literal at the same closing quote. */
  lemma {:induction false} StringIsPreserved(s: string)
    requires LexString(s).Some?
    ensures LexString(Display(s, InString))
         == Some((LexString(s).value.0, Display(LexString(s).value.1, OutsideString)))
    decreases |s|
  {
    if s[0] == '"' {
      assert Display(s, InString)[1..] == Display(s[1..], OutsideString);
    } else {
      var unit := LexUnit(s).value;
      StringIsPreserved(s[unit.1..]);
      UnitIsPreserved(s);
    }
  }

  /** A unit is shown as itself or as escapes with the same code units. */
  lemma UnitIsPreserved(s: string)
    requires LexUnit(s).Some? && LexString(s).Some?
    requires LexString(Display(s[LexUnit(s).value.1..], InString)).Some?
    ensures var rest := LexString(Display(s[LexUnit(s).value.1..], InString)).value;
      LexString(Display(s, InString)) == Some((LexUnit(s).value.0 + rest.0, rest.1))
  {
    var length := LexUnit(s).value.1;
    var rest := Display(s[length..], InString);
    if s[0] != '\\' {
      if MustEscape(s[0]) {
        EscapesAreRead(s[0], rest);
      } else {
        assert Display(s, InString) == [s[0]] + rest;
        assert ([s[0]] + rest)[1..] == rest;
      }
    } else if length == 2 {
      EscapePairIsKept(s);
      assert ([s[0], s[1]] + rest)[2..] == rest;
    } else {
      UnicodeEscapeIsKept(s);
      var shown := s[..6] + rest;
      assert shown[2..6] == s[2..6] && shown[6..] == rest;
    }
  }

  lemma CharIsKept(s: string, mode: Mode)
    requires s != "" && (mode.InString? ==> !MustEscape(s[0]))
    ensures Display(s, mode) == [s[0]] + Display(s[1..], NextMode(mode, s[0]))
  {
    hide MustEscape;
  }

  lemma BackslashIsPlain()
    ensures !MustEscape('\\')
  {
  }

  lemma EscapePairIsKept(s: string)
    requires |s| >= 2 && s[0] == '\\'
    ensures Display(s, InString) == [s[0], s[1]] + Display(s[2..], InString)
  {
    hide MustEscape, Display;
    BackslashIsPlain();
    CharIsKept(s, InString);
    CharIsKept(s[1..], AfterBackslash);
    assert s[1..][1..] == s[2..];
  }

  lemma {:induction false} PlainRunIsKept(s: string, n: nat)
    requires n <= |s|
    requires forall i :: 0 <= i < n ==> !MustEscape(s[i]) && s[i] != '"' && s[i] != '\\'
    ensures Display(s, InString) == s[..n] + Display(s[n..], InString)
  {
    hide MustEscape, Display;
    if n > 0 {
      CharIsKept(s, InString);
      PlainRunIsKept(s[1..], n - 1);
      assert s[1..][n - 1..] == s[n..];
      assert s[..n] == [s[0]] + s[1..][..n - 1];
    } else {
      assert s[0..] == s;
    }
  }

  lemma HexIsPlain(s: string, i: nat)
    requires |s| == 4 && HexFour(s).Some? && i < 4
    ensures !MustEscape(s[i]) && s[i] != '"' && s[i] != '\\'
  {
    assert HexValue(s[i]).Some?;
  }

  lemma UnicodeEscapeIsKept(s: string)
    requires |s| >= 6 && s[0] == '\\' && s[1] == 'u' && HexFour(s[2..6]).Some?
    ensures Display(s, InString) == s[..6] + Display(s[6..], InString)
  {
    hide MustEscape, HexFour, Display;
    EscapePairIsKept(s);
    forall i | 0 <= i < 4 ensures !MustEscape(s[2..][i]) && s[2..][i] != '"' && s[2..][i] != '\\' {
      assert s[2..][i] == s[2..6][i];
      HexIsPlain(s[2..6], i);
    }
    PlainRunIsKept(s[2..], 4);
    assert s[2..][4..] == s[6..];
    assert s[..6] == [s[0], s[1]] + s[2..][..4];
  }

  /** Every text the lexer accepts is displayed as a text with the same tokens. */
  lemma {:induction false} TokensArePreserved(s: string)
    requires Lex(s).Some?
    ensures Lex(Display(s, OutsideString)) == Lex(s)
    decreases |s|
  {
    if s != "" {
      var shown := Display(s, OutsideString);
      if s[0] == '"' {
        StringIsPreserved(s[1..]);
        assert shown[1..] == Display(s[1..], InString);
        TokensArePreserved(LexString(s[1..]).value.1);
      } else {
        assert shown[1..] == Display(s[1..], OutsideString);
        TokensArePreserved(s[1..]);
      }
    }
  }

  /** Valid JSON is displayed as valid JSON with the same value. */
  lemma ValueIsPreserved(s: string)
    requires Decode(s).Some?
    ensures Decode(Display(s, OutsideString)) == Decode(s)
  {
    TokensArePreserved(s);
  }

  // ---------------------------------------------------------------- nothing acts on the terminal

  ghost predicate Safe(s: string) {
    forall i :: 0 <= i < |s| ==> !MustEscape(s[i])
  }

  ghost predicate OutsideIsSafe(tokens: seq<Token>) {
    forall i :: 0 <= i < |tokens| && tokens[i].Outside? ==> !MustEscape(tokens[i].c)
  }

  lemma SafeConcat(a: string, b: string)
    ensures Safe(a + b) <==> Safe(a) && Safe(b)
  {
    if Safe(a + b) {
      forall i | 0 <= i < |a| ensures !MustEscape(a[i]) {
        assert (a + b)[i] == a[i];
      }
      forall i | 0 <= i < |b| ensures !MustEscape(b[i]) {
        assert (a + b)[|a| + i] == b[i];
      }
    }
  }

  lemma EscapeIsSafe(unit: nat)
    requires unit < 0x10000
    ensures Safe(UnicodeEscape(unit))
  {
    assert forall x: char :: '0' <= x <= '9' || 'a' <= x <= 'f' ==> !MustEscape(x);
    assert Safe("\\u");
    SafeConcat("\\u", FourHex(unit));
  }

  lemma EscapesAreSafe(c: char)
    ensures Safe(UnicodeEscapes(Utf16(c)))
  {
    hide Safe, UnicodeEscape, Utf16;
    var units := Utf16(c);
    OneOrTwoEscapes(c);
    EscapeIsSafe(units[0]);
    if |units| == 2 {
      EscapeIsSafe(units[1]);
      SafeConcat(UnicodeEscape(units[0]), UnicodeEscape(units[1]));
    } else {
      assert UnicodeEscapes(units) == UnicodeEscape(units[0]);
    }
  }

  /** What is shown of an accepted literal is safe up to its closing quote. */
  lemma {:induction false} LiteralIsSafe(s: string)
    requires LexString(s).Some?
    ensures Safe(Display(s, InString)) <==> Safe(Display(LexString(s).value.1, OutsideString))
    decreases |s|
  {
    hide HexFour, Utf16;
    if s[0] == '"' {
      SafeConcat("\"", Display(s[1..], OutsideString));
    } else {
      var length := LexUnit(s).value.1;
      var rest := Display(s[length..], InString);
      LiteralIsSafe(s[length..]);
      if s[0] != '\\' {
        if MustEscape(s[0]) {
          EscapesAreSafe(s[0]);
        }
        SafeConcat(Shown(InString, s[0]), rest);
      } else if length == 2 {
        EscapePairIsKept(s);
        SafeConcat([s[0], s[1]], rest);
      } else {
        UnicodeEscapeIsKept(s);
        HexIsSafe(s);
        SafeConcat(s[..6], rest);
      }
    }
  }

  lemma HexIsSafe(s: string)
    requires |s| >= 6 && s[0] == '\\' && s[1] == 'u' && HexFour(s[2..6]).Some?
    ensures Safe(s[..6])
  {
    forall i | 0 <= i < 6 ensures !MustEscape(s[i]) {
      if i >= 2 {
        assert s[i] == s[2..6][i - 2];
      }
    }
  }

  /** The displayed form of an accepted text is free of terminal-affecting characters exactly when
   *  the text has none outside its string literals. */
  lemma {:induction false} SafeIffOutsideIsSafe(s: string)
    requires Lex(s).Some?
    ensures Safe(Display(s, OutsideString)) <==> OutsideIsSafe(Lex(s).value)
    decreases |s|
  {
    if s != "" {
      if s[0] == '"' {
        var text := LexString(s[1..]).value;
        SafeConcat("\"", Display(s[1..], InString));
        LiteralIsSafe(s[1..]);
        SafeIffOutsideIsSafe(text.1);
        OutsideCons(Literal(text.0), Lex(text.1).value);
      } else {
        SafeConcat([s[0]], Display(s[1..], OutsideString));
        assert Safe([s[0]]) <==> !MustEscape([s[0]][0]);
        SafeIffOutsideIsSafe(s[1..]);
        OutsideCons(Outside(s[0]), Lex(s[1..]).value);
      }
    }
  }

  lemma OutsideCons(first: Token, rest: seq<Token>)
    ensures OutsideIsSafe([first] + rest)
      <==> (first.Outside? ==> !MustEscape(first.c)) && OutsideIsSafe(rest)
  {
    var all := [first] + rest;
    if OutsideIsSafe(all) {
      forall i | 0 <= i < |rest| && rest[i].Outside? ensures !MustEscape(rest[i].c) {
        assert all[i + 1] == rest[i];
      }
      assert all[0] == first;
    }
  }

  // ---------------------------------------------------------------- idempotence

  lemma EscapesAreKept(c: char, rest: string)
    ensures Display(UnicodeEscapes(Utf16(c)) + rest, InString) == UnicodeEscapes(Utf16(c)) + Display(rest, InString)
  {
    hide UnicodeEscape, Utf16, Display, UnicodeEscapes;
    var units := Utf16(c);
    OneOrTwoEscapes(c);
    if |units| == 1 {
      assert UnicodeEscapes(units) == UnicodeEscape(units[0]);
      OneEscapeIsKept(units[0], rest);
    } else {
      var tail := UnicodeEscape(units[1]) + rest;
      assert UnicodeEscapes(units) + rest == UnicodeEscape(units[0]) + tail;
      OneEscapeIsKept(units[1], rest);
      OneEscapeIsKept(units[0], tail);
    }
  }

  lemma OneEscapeIsKept(unit: nat, rest: string)
    requires unit < 0x10000
    ensures Display(UnicodeEscape(unit) + rest, InString) == UnicodeEscape(unit) + Display(rest, InString)
  {
    var s := UnicodeEscape(unit) + rest;
    assert s[2..6] == FourHex(unit);
    HexRoundTrip(unit);
    UnicodeEscapeIsKept(s);
    assert s[..6] == UnicodeEscape(unit) && s[6..] == rest;
  }

  /** Displaying any text twice is displaying it once. */
  lemma {:induction false} DisplayIsIdempotent(s: string, mode: Mode)
    ensures Display(Display(s, mode), mode) == Display(s, mode)
    decreases |s|
  {
    if s != "" {
      var next := NextMode(mode, s[0]);
      var rest := Display(s[1..], next);
      DisplayIsIdempotent(s[1..], next);
      if mode.InString? && MustEscape(s[0]) {
        EscapesAreKept(s[0], rest);
      } else {
        assert ([s[0]] + rest)[1..] == rest;
      }
    }
  }
}
