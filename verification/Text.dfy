/** Text helpers shared by the search filter and the catalog seed. */
module Text {

  /** The text without the characters that `space` accepts at either end. */
  function Stripped(s: string, space: char -> bool): string {
    if s == [] then []
    else if space(s[0]) then Stripped(s[1..], space)
    else if space(s[|s| - 1]) then Stripped(s[..|s| - 1], space)
    else s
  }

  lemma {:induction false} NothingLeft(s: string, space: char -> bool)
    requires forall c <- s :: space(c)
    ensures Stripped(s, space) == ""
  {
    if s != [] { NothingLeft(s[1..], space); }
  }

  /** A text that is empty or begins and ends with other characters is what is left of it between such characters. */
  lemma {:induction false} StrippedBetween(a: string, t: string, b: string, space: char -> bool)
    requires forall c <- a + b :: space(c)
    requires t != "" ==> !space(t[0]) && !space(t[|t| - 1])
    ensures Stripped(a + t + b, space) == t
    decreases |a| + |b|
  {
    var s := a + t + b;
    if t == [] {
      assert s == a + b;
      NothingLeft(s, space);
    } else if a != [] {
      assert a[0] in a + b && s[1..] == a[1..] + t + b;
      assert forall c <- a[1..] + b :: c in a + b;
      StrippedBetween(a[1..], t, b, space);
    } else if b != [] {
      var n := |b| - 1;
      assert b[n] in a + b && s[..|s| - 1] == a + t + b[..n];
      assert forall c <- a + b[..n] :: c in a + b;
      StrippedBetween(a, t, b[..n], space);
    } else {
      assert s == t;
    }
  }
}
