/** Decimal rendering of natural numbers, as the program's string formatting of integers and `int` do. */
module Decimal {
  import opened Text
  import opened Wrappers

  predicate IsDigit(c: char) { '0' <= c <= '9' }

  function DigitChar(d: nat): (c: char)
    requires d < 10
    ensures IsDigit(c)
  {
    ('0' as int + d) as char
  }

  /** The canonical decimal text of `n`, without leading zeros. */
  function Render(n: nat): (s: string)
    ensures s != []
    ensures forall c | c in s :: IsDigit(c)
  {
    if n < 10 then [DigitChar(n)] else Render(n / 10) + [DigitChar(n % 10)]
  }

  /** The number that digits denote; single underscores may stand between them. */
  function Digits(s: string): Option<nat> {
    if s == [] || !IsDigit(s[|s| - 1]) then None
    else
      var d, rest := s[|s| - 1] as int - '0' as int, s[..|s| - 1];
      if rest == [] then Some(d)
      else match Digits(if rest[|rest| - 1] == '_' then rest[..|rest| - 1] else rest)
        case None => None
        case Some(n) => Some(10 * n + d)
  }

  predicate IsSpace(c: char) { c == ' ' || '\t' <= c <= '\r' || '\U{1c}' <= c <= '\U{1f}' }

  /** The integer that digits with an optional sign denote. */
  function Signed(t: string): Option<int> {
    var signed := t != [] && (t[0] == '-' || t[0] == '+');
    match Digits(if signed then t[1..] else t)
    case None => None
    case Some(n) => var magnitude: int := n; Some(if signed && t[0] == '-' then -magnitude else magnitude)
  }

  /** The integer a text denotes, space around it allowed; nothing for any other text. */
  function Parse(s: string): Option<int> { Signed(Stripped(s, IsSpace)) }

  /** The text of an integer. */
  function Written(n: int): string { if n >= 0 then Render(n) else "-" + Render(-n) }

  lemma {:induction false} DigitsRender(n: nat)
    ensures Digits(Render(n)) == Some(n)
  {
    if n >= 10 {
      DigitsRender(n / 10);
      var s, rest := Render(n), Render(n / 10);
      assert s[..|s| - 1] == rest && rest[|rest| - 1] in rest;
    }
  }

  lemma SignedWritten(n: int)
    ensures Signed(Written(n)) == Some(n)
  {
    var magnitude := if n >= 0 then n else -n;
    DigitsRender(magnitude);
    assert Render(magnitude)[0] in Render(magnitude);
    if n < 0 { assert Written(n)[1..] == Render(magnitude); }
  }

  lemma StrippedWritten(n: int)
    ensures Stripped(Written(n), IsSpace) == Written(n)
  {
    var t, digits := Written(n), Render(if n >= 0 then n else -n);
    assert digits[|digits| - 1] in digits && digits[0] in digits;
    assert t[|t| - 1] == digits[|digits| - 1] && (t[0] == digits[0] || t[0] == '-');
  }

  /** The text of an integer reads back as that integer. */
  lemma ParseWritten(n: int)
    ensures Parse(Written(n)) == Some(n)
  {
    SignedWritten(n);
    StrippedWritten(n);
  }

  // ---------- Which texts are integers ----------

  /** Digits, with single underscores between them at most. */
  predicate Numeral(s: string) {
    && s != [] && '0' <= s[0] <= '9' && '0' <= s[|s| - 1] <= '9'
    && (forall i | 0 <= i < |s| :: '0' <= s[i] <= '9' || s[i] == '_')
    && (forall i | 0 <= i < |s| - 1 :: s[i] != '_' || s[i + 1] != '_')
  }

  /** The number that digits read from left to right denote, underscores passed over, after `n` was read. */
  function ValueFrom(n: nat, s: string): nat
    decreases |s|
  {
    if s == [] then n
    else if '0' <= s[0] <= '9' then ValueFrom(10 * n + (s[0] as int - '0' as int), s[1..])
    else ValueFrom(n, s[1..])
  }

  lemma {:induction false} ValueSnoc(n: nat, s: string, c: char)
    ensures ValueFrom(n, s + [c]) ==
      if '0' <= c <= '9' then 10 * ValueFrom(n, s) + (c as int - '0' as int) else ValueFrom(n, s)
    decreases |s|
  {
    if s == [] {
      assert s + [c] == [c];
      assert [c][1..] == [];
    } else {
      assert (s + [c])[1..] == s[1..] + [c];
      ValueSnoc(if '0' <= s[0] <= '9' then 10 * n + (s[0] as int - '0' as int) else n, s[1..], c);
    }
  }

  /** What comes before the last digit and an underscore before that. */
  function Before(s: string): string
    requires |s| >= 2
  {
    var rest := s[..|s| - 1];
    if rest[|rest| - 1] == '_' then rest[..|rest| - 1] else rest
  }

  /** The numeral before its last digit. */
  lemma NumeralWithout(s: string)
    requires |s| >= 2 && '0' <= s[|s| - 1] <= '9'
    ensures Numeral(s) <==> Numeral(Before(s))
  {
    var rest, t := s[..|s| - 1], Before(s);
    assert forall i | 0 <= i < |t| :: t[i] == s[i];
    if Numeral(s) {
      assert |rest| >= 2 ==> s[|rest| - 2] != '_' || s[(|rest| - 2) + 1] != '_';
      assert forall i | 0 <= i < |t| - 1 :: s[i] != '_' || s[i + 1] != '_';
    }
    if Numeral(t) {
      forall i | 0 <= i < |s| - 1 ensures s[i] != '_' || s[i + 1] != '_' {
        if i < |t| - 1 { assert t[i] != '_' || t[i + 1] != '_'; }
      }
    }
  }

  lemma ValueOfLast(s: string)
    requires |s| >= 2 && '0' <= s[|s| - 1] <= '9'
    ensures ValueFrom(0, s) == 10 * ValueFrom(0, Before(s)) + (s[|s| - 1] as int - '0' as int)
  {
    var rest := s[..|s| - 1];
    assert s == rest + [s[|s| - 1]];
    ValueSnoc(0, rest, s[|s| - 1]);
    if rest[|rest| - 1] == '_' {
      assert rest == Before(s) + ['_'];
      ValueSnoc(0, Before(s), '_');
    }
  }

  lemma OneDigit(c: char)
    requires '0' <= c <= '9'
    ensures Numeral([c]) && ValueFrom(0, [c]) == c as int - '0' as int
  {
    assert [c][1..] == [];
  }

  /** Exactly the numerals are numbers, each the one that its digits denote. */
  lemma {:induction false} DigitsMeans(s: string)
    ensures Digits(s) == if Numeral(s) then Some(ValueFrom(0, s)) else None
    decreases |s|
  {
    if s != [] && IsDigit(s[|s| - 1]) {
      if |s| == 1 {
        assert s == [s[0]];
        OneDigit(s[0]);
      } else {
        DigitsMeans(Before(s));
        NumeralWithout(s);
        ValueOfLast(s);
      }
    }
  }

  /** What a text without space around it is read as: a numeral, with or without a sign before it. */
  function Meaning(t: string): Option<int> {
    if t != "" && t[0] == '-' && Numeral(t[1..]) then Some(-(ValueFrom(0, t[1..]) as int))
    else if t != "" && t[0] == '+' && Numeral(t[1..]) then Some(ValueFrom(0, t[1..]) as int)
    else if Numeral(t) then Some(ValueFrom(0, t) as int) else None
  }

  lemma SignedMeans(t: string)
    ensures Signed(t) == Meaning(t)
  {
    DigitsMeans(t);
    if t != "" { DigitsMeans(t[1..]); }
  }

  /** The codes of tab to carriage return, of the four separators and of the space. */
  predicate Blank(c: char) { c as int in {9, 10, 11, 12, 13, 28, 29, 30, 31, 32} }

  lemma BlankIsSpace(c: char)
    ensures Blank(c) <==> IsSpace(c)
  {}

  /** Space around a numeral is passed over, and what is no numeral is no number. */
  lemma ParseMeans(a: string, t: string, b: string)
    requires (forall c <- a + b :: Blank(c)) && (t != "" ==> !Blank(t[0]) && !Blank(t[|t| - 1]))
    ensures Parse(a + t + b) == Meaning(t)
  {
    forall c: char ensures Blank(c) <==> IsSpace(c) { BlankIsSpace(c); }
    StrippedBetween(a, t, b, IsSpace);
    SignedMeans(t);
  }

  /** Two different numbers never have the same text. */
  lemma RenderInjective(m: nat, n: nat)
    requires Render(m) == Render(n)
    ensures m == n
  {
    DigitsRender(m);
    DigitsRender(n);
  }
}
