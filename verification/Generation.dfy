/** Installation generations on the command line: canonical decimals from 1 to 2^63 - 1. */
module InstallationGeneration {
  import opened Text

  const MAX_GENERATION: nat := 0x7fff_ffff_ffff_ffff
  const MAX_U64: nat := 0xffff_ffff_ffff_ffff

  predicate IsDigit(c: char) {
    '0' <= c <= '9'
  }

  function DigitValue(c: char): nat
    requires IsDigit(c)
  {
    c as int - '0' as int
  }

  ghost predicate AllDigits(s: string) {
    forall i :: 0 <= i < |s| ==> IsDigit(s[i])
  }

  /** The number a digit string denotes. */
  function Denoted(s: string): nat
    requires forall i :: 0 <= i < |s| ==> IsDigit(s[i])
  {
    if s == "" then 0 else Denoted(s[..|s| - 1]) * 10 + DigitValue(s[|s| - 1])
  }

  function ParseU64(s: string): Option<nat>
    requires forall i :: 0 <= i < |s| ==> IsDigit(s[i])
  {
    if Denoted(s) <= MAX_U64 then Some(Denoted(s)) else None
  }

  function Parse(s: string): Option<nat> {
    if s == "" || (exists i :: 0 <= i < |s| && !IsDigit(s[i])) || (|s| > 1 && s[0] == '0') then None
    else
      var value := ParseU64(s);
      if value.None? || value.value > MAX_GENERATION || value.value == 0 then None else value
  }

  function Print(n: nat): (s: string)
    ensures |s| > 0 && forall i :: 0 <= i < |s| ==> IsDigit(s[i])
  {
    if n < 10 then ['0' + n as char] else Print(n / 10) + ['0' + (n % 10) as char]
  }

  lemma {:induction false} PrintDenotes(n: nat)
    ensures Denoted(Print(n)) == n
    ensures n > 0 ==> Print(n)[0] != '0'
  {
    var s := Print(n);
    if n < 10 {
      assert s[..|s| - 1] == "";
    } else {
      PrintDenotes(n / 10);
      assert s[..|s| - 1] == Print(n / 10);
    }
  }

  /** A digit string without a leading zero is the printed form of the number it denotes. */
  lemma {:induction false} DenotedPrints(s: string)
    requires s != "" && AllDigits(s) && s[0] != '0'
    ensures Denoted(s) > 0 && Print(Denoted(s)) == s
    decreases |s|
  {
    var front, last := s[..|s| - 1], DigitValue(s[|s| - 1]);
    assert '0' + last as char == s[|s| - 1];
    if front == "" {
      assert s == [s[0]];
    } else {
      DenotedPrints(front);
      assert Denoted(s) / 10 == Denoted(front) && Denoted(s) % 10 == last;
      assert s == front + [s[|s| - 1]];
    }
  }

  lemma ZeroDenotesZero(s: string)
    requires |s| == 1 && s[0] == '0'
    ensures Denoted(s) == 0
  {
    assert s[..0] == "";
  }

  /** Parsing accepts exactly the printed forms of 1 to 2^63 - 1 and gives back the number. */
  lemma ParseIffPrinted(s: string, n: nat)
    ensures Parse(s) == Some(n) <==> 1 <= n <= MAX_GENERATION && s == Print(n)
  {
    if Parse(s) == Some(n) {
      assert AllDigits(s);
      if |s| == 1 && s[0] == '0' {
        ZeroDenotesZero(s);
      } else {
        DenotedPrints(s);
      }
    }
    if 1 <= n <= MAX_GENERATION && s == Print(n) {
      PrintDenotes(n);
    }
  }
}
