/** Rendering untrusted text so that a terminal cannot interpret it as control state. */
module TerminalText {
  import opened Text

  predicate IsControl(c: char) {
    c as int <= 0x1f || 0x7f <= c as int <= 0x9f
  }

  /** Control, bidirectional, format and invisible characters, other than the line feed. */
  predicate MustEscape(c: char) {
    var n := c as int;
    c != '\n' &&
    ( || IsControl(c)
      || n in {0xad, 0x34f, 0x61c, 0x115f, 0x1160, 0x17b4, 0x17b5, 0x3164, 0xfeff, 0xffa0, 0xe0001}
      || 0x180b <= n <= 0x180e
      || 0x200b <= n <= 0x200f
      || 0x2028 <= n <= 0x202f
      || 0x2060 <= n <= 0x206f
      || 0xfe00 <= n <= 0xfe0f
      || 0xfff9 <= n <= 0xfffb
      || 0xe0020 <= n <= 0xe007f
      || 0xe0100 <= n <= 0xe01ef)
  }

  /** Whether text holds a character that can affect terminal presentation. */
  predicate HasTerminalEffect(s: string) {
    exists i :: 0 <= i < |s| && (s[i] == '\n' || MustEscape(s[i]))
  }

  // ---------------------------------------------------------------- hexadecimal

  function HexDigit(n: nat): (c: char)
    requires n < 16
    ensures '0' <= c <= '9' || 'a' <= c <= 'f'
  {
    if n < 10 then '0' + n as char else 'a' + (n - 10) as char
  }

  /** Lower-case hexadecimal without padding. */
  function Hex(n: nat): (r: string)
    ensures forall i :: 0 <= i < |r| ==> '0' <= r[i] <= '9' || 'a' <= r[i] <= 'f'
  {
    if n < 16 then [HexDigit(n)] else Hex(n / 16) + [HexDigit(n % 16)]
  }

  // ---------------------------------------------------------------- escaping

  function EscapeChar(c: char, preserve: bool): string {
    if c == '\n' then if preserve then "\n" else "\\n"
    else if c == '\t' then "\\t"
    else if c == '\r' then "\\r"
    else if c as int == 0x1b then "\\e"
    else if c as int == 0x7f then "\\x7f"
    else if MustEscape(c) then "\\u{" + Hex(c as int) + "}"
    else [c]
  }

  function Escape(s: string, preserve: bool): string {
    if s == "" then "" else EscapeChar(s[0], preserve) + Escape(s[1..], preserve)
  }

  /** Characters that pass through a mode unchanged. */
  predicate Plain(c: char, preserve: bool) {
    !MustEscape(c) && (c == '\n' ==> preserve)
  }

  ghost predicate AllPlain(s: string, preserve: bool) {
    forall i :: 0 <= i < |s| ==> Plain(s[i], preserve)
  }

  lemma {:induction false} EscapeSnoc(s: string, c: char, preserve: bool)
    ensures Escape(s + [c], preserve) == Escape(s, preserve) + EscapeChar(c, preserve)
  {
    if s == "" {
      assert "" + [c] == [c];
    } else {
      assert (s + [c])[1..] == s[1..] + [c];
      EscapeSnoc(s[1..], c, preserve);
    }
  }

  method EscapeText(value: string, preserve: bool) returns (escaped: string)
    ensures escaped == Escape(value, preserve)
  {
    escaped := "";
    for i := 0 to |value|
      invariant escaped == Escape(value[..i], preserve)
    {
      var c := value[i];
      EscapeSnoc(value[..i], c, preserve);
      assert value[..i] + [c] == value[..i + 1];
      if c == '\n' {
        escaped := escaped + (if preserve then "\n" else "\\n");
      } else if c == '\t' {
        escaped := escaped + "\\t";
      } else if c == '\r' {
        escaped := escaped + "\\r";
      } else if c as int == 0x1b {
        escaped := escaped + "\\e";
      } else if c as int == 0x7f {
        escaped := escaped + "\\x7f";
      } else if MustEscape(c) {
        escaped := escaped + ("\\u{" + Hex(c as int) + "}");
      } else {
        escaped := escaped + [c];
      }
    }
    assert value[..|value|] == value;
  }

  /** The number a run of lower-case hexadecimal digits stands for. */
  function CodeOf(s: string): int {
    if s == "" then 0
    else
      var last := s[|s| - 1];
      16 * CodeOf(s[..|s| - 1]) + (if last <= '9' then last as int - '0' as int else last as int - 'a' as int + 10)
  }

  lemma {:induction false} HexIsRead(n: nat)
    ensures CodeOf(Hex(n)) == n && |Hex(n)| > 0 && (n > 0 ==> Hex(n)[0] != '0')
  {
    if n >= 16 {
      HexIsRead(n / 16);
      assert Hex(n)[..|Hex(n)| - 1] == Hex(n / 16);
    } else {
      assert Hex(n)[..|Hex(n)| - 1] == "";
    }
  }

  /** A code in braces, in hexadecimal without padding. */
  ghost predicate Braced(shown: string, code: nat) {
    && |shown| > 4 && shown[..3] == "\\u{" && shown[|shown| - 1] == '}'
    && CodeOf(shown[3..|shown| - 1]) == code && (shown[3] == '0' ==> shown == "\\u{0}")
  }

  predicate HasOwnForm(c: char) {
    c == '\n' || c == '\t' || c == '\r' || c as int == 0x1b || c as int == 0x7f
  }

  /** Every character that does not pass through is shown as an escape naming it: five have a form of
      their own, and any other stands as its code. */
  lemma EscapeNamesCharacter(c: char, preserve: bool)
    ensures var shown := EscapeChar(c, preserve);
            && (shown == [c] <==> Plain(c, preserve))
            && (shown == "\\n" <==> c == '\n' && !preserve)
            && (shown == "\\t" <==> c == '\t')
            && (shown == "\\r" <==> c == '\r')
            && (shown == "\\e" <==> c as int == 0x1b)
            && (shown == "\\x7f" <==> c as int == 0x7f)
            && (Braced(shown, c as int) <==> !Plain(c, preserve) && !HasOwnForm(c))
  {
    hide MustEscape, Braced;
    CodesMustEscape(c);
    CodeIsBraced(c as int);
    UnbracedForms(EscapeChar(c, preserve), c as int);
  }

  lemma CodeIsBraced(n: nat)
    ensures Braced("\\u{" + Hex(n) + "}", n)
  {
    HexIsRead(n);
    var shown := "\\u{" + Hex(n) + "}";
    assert shown[3..|shown| - 1] == Hex(n) && shown[..3] == "\\u{";
    assert n == 0 ==> Hex(n) == "0";
  }

  lemma UnbracedForms(shown: string, n: nat)
    ensures |shown| <= 4 ==> !Braced(shown, n)
  {
  }

  lemma CodesMustEscape(c: char)
    ensures c == '\t' || c == '\r' || c as int == 0x1b || c as int == 0x7f ==> MustEscape(c)
    ensures c == '\n' || c == '\\' ==> !MustEscape(c)
  {
  }

  lemma EscapedCharIsPlain(c: char, preserve: bool)
    ensures AllPlain(EscapeChar(c, preserve), preserve)
  {
    assert forall x: char :: '0' <= x <= '9' || 'a' <= x <= 'f' ==> Plain(x, preserve);
  }

  /** Escaped text holds nothing a terminal would act on; a line feed survives only in document mode. */
  lemma {:induction false} EscapedIsPlain(s: string, preserve: bool)
    ensures AllPlain(Escape(s, preserve), preserve)
  {
    if s != "" {
      EscapedCharIsPlain(s[0], preserve);
      EscapedIsPlain(s[1..], preserve);
    }
  }

  /** Text is left as it is exactly when every character of it is plain. */
  lemma {:induction false} UnchangedIffPlain(s: string, preserve: bool)
    ensures Escape(s, preserve) == s <==> AllPlain(s, preserve)
  {
    if AllPlain(s, preserve) {
      PlainIsUnchanged(s, preserve);
    } else if Escape(s, preserve) == s {
      EscapedIsPlain(s, preserve);
    }
  }

  lemma {:induction false} PlainIsUnchanged(s: string, preserve: bool)
    requires AllPlain(s, preserve)
    ensures Escape(s, preserve) == s
  {
    if s != "" {
      assert Plain(s[0], preserve);
      PlainIsUnchanged(s[1..], preserve);
      assert s == [s[0]] + s[1..];
    }
  }

  /** Inline mode changes a text exactly when the text can affect a terminal. */
  lemma InlineChangesIffEffect(s: string)
    ensures Escape(s, false) != s <==> HasTerminalEffect(s)
  {
    UnchangedIffPlain(s, false);
  }

  /** Escaping again changes nothing. */
  lemma EscapeIsIdempotent(s: string, preserve: bool)
    ensures Escape(Escape(s, preserve), preserve) == Escape(s, preserve)
  {
    EscapedIsPlain(s, preserve);
    PlainIsUnchanged(Escape(s, preserve), preserve);
  }

  /** Text may be escaped piece by piece. */
  lemma {:induction false} EscapeDistributes(a: string, b: string, preserve: bool)
    ensures Escape(a + b, preserve) == Escape(a, preserve) + Escape(b, preserve)
  {
    if a == "" {
      assert "" + b == b;
    } else {
      assert (a + b)[1..] == a[1..] + b;
      EscapeDistributes(a[1..], b, preserve);
    }
  }

  // ---------------------------------------------------------------- lines

  lemma InlineLine(s: string)
    ensures '\n' !in Escape(s, false)
  {
    EscapedIsPlain(s, false);
  }

  lemma {:induction false} LineFree(s: string)
    requires '\n' !in s
    ensures Escape(s, true) == Escape(s, false)
  {
    if s != "" {
      assert s[0] in s && s[0] != '\n';
      LineFree(s[1..]);
    }
  }

  function EscapeLines(lines: seq<string>): (r: seq<string>)
    ensures |r| == |lines|
    ensures forall i :: 0 <= i < |lines| ==> r[i] == Escape(lines[i], false)
  {
    if lines == [] then [] else [Escape(lines[0], false)] + EscapeLines(lines[1..])
  }

  /** Document mode keeps the lines apart: it is inline mode applied to each line, so the number
   *  of line feeds is unchanged. */
  lemma {:induction false} DocumentModeIsInlinePerLine(s: string)
    ensures Split(Escape(s, true), '\n') == EscapeLines(Split(s, '\n'))
  {
    var lines := Split(s, '\n');
    JoinSplit(s, '\n');
    JoinEscapes(lines);
    SplitJoinLines(lines);
  }

  lemma {:induction false} JoinEscapes(lines: seq<string>)
    requires |lines| > 0
    requires forall i :: 0 <= i < |lines| ==> '\n' !in lines[i]
    ensures Escape(Join(lines, '\n'), true) == Join(EscapeLines(lines), '\n')
  {
    LineFree(lines[0]);
    if |lines| > 1 {
      JoinEscapes(lines[1..]);
      var rest := Join(lines[1..], '\n');
      EscapeDistributes(lines[0] + ['\n'], rest, true);
      EscapeSnoc(lines[0], '\n', true);
      assert EscapeLines(lines)[1..] == EscapeLines(lines[1..]);
    }
  }

  lemma SplitJoinLines(lines: seq<string>)
    requires |lines| > 0
    ensures Split(Join(EscapeLines(lines), '\n'), '\n') == EscapeLines(lines)
  {
    forall i | 0 <= i < |lines| ensures '\n' !in EscapeLines(lines)[i] {
      InlineLine(lines[i]);
    }
    SplitJoin(EscapeLines(lines), '\n');
  }
}
