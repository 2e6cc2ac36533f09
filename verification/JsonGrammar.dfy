/** Outside its string literals a valid JSON text holds only printable ASCII and four blanks. */
module JsonGrammar {
  import opened Text
  import opened Json
  import opened JsonDisplay

  predicate Blank(c: char) {
    c in {' ', '\t', '\n', '\r'}
  }

  predicate Ordinary(t: Token) {
    t.Outside? ==> Blank(t.c) || '!' <= t.c <= '~'
  }

  ghost predicate AllOrdinary(ts: seq<Token>) {
    forall i :: 0 <= i < |ts| ==> Ordinary(ts[i])
  }

  /** A stretch of ordinary tokens may be put back in front. */
  lemma PutBack(ts: seq<Token>, n: nat)
    requires n <= |ts| && AllOrdinary(ts[..n]) && AllOrdinary(ts[n..])
    ensures AllOrdinary(ts)
  {
    forall i | 0 <= i < |ts| ensures Ordinary(ts[i]) {
      if i < n {
        assert ts[i] == ts[..n][i];
      } else {
        assert ts[i] == ts[n..][i - n];
      }
    }
  }

  lemma {:induction false} SpaceIsOrdinary(ts: seq<Token>)
    requires AllOrdinary(SkipSpace(ts))
    ensures AllOrdinary(ts)
  {
    if ts != [] && ts[0].Outside? && ts[0].c in {' ', '\t', '\n', '\r'} {
      SpaceIsOrdinary(ts[1..]);
      PutBack(ts, 1);
    }
  }

  lemma WordIsOrdinary(ts: seq<Token>, word: string)
    requires Starts(ts, word) && forall i :: 0 <= i < |word| ==> '!' <= word[i] <= '~'
    requires AllOrdinary(ts[|word|..])
    ensures AllOrdinary(ts)
  {
    PutBack(ts, |word|);
  }

  lemma {:induction false} DigitsAreOrdinary(ts: seq<Token>)
    ensures AllOrdinary(ts[..Digits(ts)])
  {
    if Digits(ts) > 0 {
      DigitsAreOrdinary(ts[1..]);
      assert ts[..Digits(ts)] == [ts[0]] + ts[1..][..Digits(ts[1..])];
    }
  }

  /** Digits at `from` extend an ordinary prefix. */
  lemma DigitsExtend(ts: seq<Token>, from: nat)
    requires from <= |ts| && AllOrdinary(ts[..from])
    ensures AllOrdinary(ts[..from + Digits(ts[from..])])
  {
    var n := Digits(ts[from..]);
    DigitsAreOrdinary(ts[from..]);
    assert ts[..from + n] == ts[..from] + ts[from..][..n];
  }

  lemma CharExtends(ts: seq<Token>, from: nat, c: char)
    requires from <= |ts| && AllOrdinary(ts[..from]) && Starts(ts[from..], [c]) && '!' <= c <= '~'
    ensures from < |ts| && AllOrdinary(ts[..from + 1])
  {
    assert ts[from..][0] == Outside(c);
    assert ts[..from + 1] == ts[..from] + [ts[from]];
  }

  lemma FractionIsOrdinary(ts: seq<Token>, i: nat)
    requires i <= |ts| && AllOrdinary(ts[..i]) && FractionEnd(ts, i).Some?
    ensures AllOrdinary(ts[..FractionEnd(ts, i).value])
  {
    hide AllOrdinary, Starts;
    if Starts(ts[i..], ".") {
      CharExtends(ts, i, '.');
      DigitsExtend(ts, i + 1);
    }
  }

  lemma ExponentIsOrdinary(ts: seq<Token>, j: nat)
    requires j <= |ts| && AllOrdinary(ts[..j]) && ExponentEnd(ts, j).Some?
    ensures AllOrdinary(ts[..ExponentEnd(ts, j).value])
  {
    hide AllOrdinary, Starts;
    if Starts(ts[j..], "e") || Starts(ts[j..], "E") {
      CharExtends(ts, j, if Starts(ts[j..], "e") then 'e' else 'E');
      if Starts(ts[j + 1..], "+") {
        CharExtends(ts, j + 1, '+');
        DigitsExtend(ts, j + 2);
      } else if Starts(ts[j + 1..], "-") {
        CharExtends(ts, j + 1, '-');
        DigitsExtend(ts, j + 2);
      } else {
        DigitsExtend(ts, j + 1);
      }
    }
  }

  lemma NumberIsOrdinary(ts: seq<Token>)
    requires NumberLength(ts).Some?
    ensures AllOrdinary(ts[..NumberLength(ts).value])
  {
    assert AllOrdinary(ts[..0]);
    hide AllOrdinary, Starts, FractionEnd, ExponentEnd;
    var sign := if Starts(ts, "-") then 1 else 0;
    if sign == 1 {
      assert ts[0..] == ts;
      CharExtends(ts, 0, '-');
    }
    DigitsExtend(ts, sign);
    var i := sign + Digits(ts[sign..]);
    FractionIsOrdinary(ts, i);
    ExponentIsOrdinary(ts, FractionEnd(ts, i).value);
  }

  /** Whatever a value is parsed from is ordinary, given that what follows is. */
  lemma {:induction false} ValueIsOrdinary(tokens: seq<Token>)
    requires ParseValue(tokens).Some? && AllOrdinary(ParseValue(tokens).value.1)
    ensures AllOrdinary(tokens)
    decreases |tokens|, 1
  {
    hide AllOrdinary;
    var ts := SkipSpace(tokens);
    if ts[0].Literal? {
      LiteralIsOrdinary(ts);
    } else if Starts(ts, "null") {
      WordIsOrdinary(ts, "null");
    } else if Starts(ts, "true") {
      WordIsOrdinary(ts, "true");
    } else if Starts(ts, "false") {
      WordIsOrdinary(ts, "false");
    } else if ts[0].c == '[' {
      var inner := SkipSpace(ts[1..]);
      if Starts(inner, "]") {
        WordIsOrdinary(inner, "]");
      } else {
        ElementsAreOrdinary(inner);
      }
      SpaceIsOrdinary(ts[1..]);
      WordIsOrdinary(ts, "[");
    } else if ts[0].c == '{' {
      var inner := SkipSpace(ts[1..]);
      if Starts(inner, "}") {
        WordIsOrdinary(inner, "}");
      } else {
        MembersAreOrdinary(inner);
      }
      SpaceIsOrdinary(ts[1..]);
      WordIsOrdinary(ts, "{");
    } else {
      NumberIsOrdinary(ts);
      PutBack(ts, NumberLength(ts).value);
    }
    SpaceIsOrdinary(tokens);
  }

  lemma LiteralIsOrdinary(ts: seq<Token>)
    requires ts != [] && ts[0].Literal? && AllOrdinary(ts[1..])
    ensures AllOrdinary(ts)
  {
    PutBack(ts, 1);
  }

  lemma {:induction false} ElementsAreOrdinary(ts: seq<Token>)
    requires ParseElements(ts).Some? && AllOrdinary(ParseElements(ts).value.1)
    ensures AllOrdinary(ts)
    decreases |ts|, 2
  {
    hide AllOrdinary;
    var after := SkipSpace(ParseValue(ts).value.1);
    if Starts(after, "]") {
      WordIsOrdinary(after, "]");
    } else {
      ElementsAreOrdinary(after[1..]);
      WordIsOrdinary(after, ",");
    }
    SpaceIsOrdinary(ParseValue(ts).value.1);
    ValueIsOrdinary(ts);
  }

  lemma {:induction false} MembersAreOrdinary(tokens: seq<Token>)
    requires ParseMembers(tokens).Some? && AllOrdinary(ParseMembers(tokens).value.1)
    ensures AllOrdinary(tokens)
    decreases |tokens|, 2
  {
    hide AllOrdinary;
    var ts := SkipSpace(tokens);
    var colon := SkipSpace(ts[1..]);
    var value := ParseValue(colon[1..]).value;
    var after := SkipSpace(value.1);
    if Starts(after, "}") {
      WordIsOrdinary(after, "}");
    } else {
      MembersAreOrdinary(after[1..]);
      WordIsOrdinary(after, ",");
    }
    SpaceIsOrdinary(value.1);
    ValueIsOrdinary(colon[1..]);
    WordIsOrdinary(colon, ":");
    SpaceIsOrdinary(ts[1..]);
    LiteralIsOrdinary(ts);
    SpaceIsOrdinary(tokens);
  }

  /** Valid JSON is shown free of terminal-affecting characters exactly when no tab and no carriage
   *  return stands outside its string literals. */
  lemma ValidJsonIsShownSafely(s: string)
    requires Decode(s).Some?
    ensures Safe(Display(s, OutsideString))
      <==> Outside('\t') !in Lex(s).value && Outside('\r') !in Lex(s).value
  {
    var tokens := Lex(s).value;
    SafeIffOutsideIsSafe(s);
    SpaceIsOrdinary(ParseValue(tokens).value.1);
    ValueIsOrdinary(tokens);
    assert forall i :: 0 <= i < |tokens| ==> Ordinary(tokens[i]);
  }

  /** A tab before a value: valid JSON, and its displayed form still holds the tab. */
  lemma TabOutsideIsShown()
    ensures Decode("\tnull") == Some(Null)
    ensures !Safe(Display("\tnull", OutsideString))
  {
    var tokens := [Outside('\t'), Outside('n'), Outside('u'), Outside('l'), Outside('l')];
    assert Lex("") == Some([]);
    LexOutside('l', "");
    assert ['l'] + "" == "l";
    LexOutside('l', "l");
    assert ['l'] + "l" == "ll";
    LexOutside('u', "ll");
    assert ['u'] + "ll" == "ull";
    LexOutside('n', "ull");
    assert ['n'] + "ull" == "null";
    LexOutside('\t', "null");
    assert ['\t'] + "null" == "\tnull";
    assert Lex("\tnull").value == tokens;
    assert SkipSpace(tokens) == tokens[1..];
    assert Starts(tokens[1..], "null");
    assert tokens[1..][4..] == [];
    assert Decode("\tnull") == Some(Null);
    ValidJsonIsShownSafely("\tnull");
    assert tokens[0] == Outside('\t');
  }

  lemma LexOutside(c: char, rest: string)
    requires c != '"' && Lex(rest).Some?
    ensures Lex([c] + rest) == Some([Outside(c)] + Lex(rest).value)
  {
    assert ([c] + rest)[1..] == rest;
  }
}
