/** Escaping user text for LIKE, against a matcher for LIKE patterns with an escape character. */
module LikeEscape {
  import opened Wrappers
  import opened Text

  // ---------- What the program computes ----------

  /** Replacement of every occurrence of one character by a text. */
  function Replaced(s: string, c: char, sub: string): string {
    if s == [] then [] else (if s[0] == c then sub else [s[0]]) + Replaced(s[1..], c, sub)
  }

  function EscapeLike(s: string): string {
    Replaced(Replaced(Replaced(s, '\\', "\\\\"), '%', "\\%"), '_', "\\_")
  }

  function SearchPattern(s: string): string { "%" + EscapeLike(s) + "%" }

  // ---------- LIKE, as section 8.5 of ISO/IEC 9075-2 describes it ----------

  datatype Item = Literal(c: char) | AnyCharacter | AnyString

  const ESCAPE: char := '\\'

  predicate Special(c: char) { c == '%' || c == '_' || c == ESCAPE }

  /** The items of a pattern; an escape character must be followed by a special one. */
  function Items(p: string): Option<seq<Item>> {
    if p == [] then Some([])
    else if p[0] == ESCAPE then
      if |p| == 1 || !Special(p[1]) then None
      else match Items(p[2..])
        case None => None
        case Some(rest) => Some([Literal(p[1])] + rest)
    else match Items(p[1..])
      case None => None
      case Some(rest) => Some([if p[0] == '%' then AnyString else if p[0] == '_' then AnyCharacter
          else Literal(p[0])] + rest)
  }

  /** A text matches when it is a concatenation of texts that match the items one by one. */
  predicate Matches(items: seq<Item>, t: string)
    decreases |items|
  {
    if items == [] then t == []
    else match items[0]
      case Literal(c) => t != [] && t[0] == c && Matches(items[1..], t[1..])
      case AnyCharacter => t != [] && Matches(items[1..], t[1..])
      case AnyString => exists n | 0 <= n <= |t| :: Matches(items[1..], t[n..])
  }

  predicate Like(p: string, t: string) { Items(p).Some? && Matches(Items(p).value, t) }

  function Folded(s: string, fold: char -> char): (r: string)
    ensures |r| == |s| && forall i | 0 <= i < |s| :: r[i] == fold(s[i])
  {
    seq(|s|, i requires 0 <= i < |s| => fold(s[i]))
  }

  /** A case fold leaves the special characters alone and makes no others. */
  ghost predicate CaseFold(fold: char -> char) {
    forall c: char :: (Special(c) <==> Special(fold(c))) && (Special(c) ==> fold(c) == c)
  }

  /** The case-insensitive form folds both sides first. */
  predicate ILike(p: string, t: string, fold: char -> char) { Like(Folded(p, fold), Folded(t, fold)) }

  predicate OccursAt(t: string, s: string, n: nat) { n + |s| <= |t| && t[n..n + |s|] == s }

  predicate Contains(t: string, s: string) { exists n | 0 <= n <= |t| :: OccursAt(t, s, n) }

  // ---------- The three replacements are one escape per character ----------

  function EscapedChar(c: char): string { if Special(c) then [ESCAPE, c] else [c] }

  function Escaped(s: string): string { if s == [] then [] else EscapedChar(s[0]) + Escaped(s[1..]) }

  lemma {:induction false} ReplacedConcat(a: string, b: string, c: char, sub: string)
    ensures Replaced(a + b, c, sub) == Replaced(a, c, sub) + Replaced(b, c, sub)
  {
    if a == [] {
      assert a + b == b;
    } else {
      assert (a + b)[1..] == a[1..] + b;
      ReplacedConcat(a[1..], b, c, sub);
    }
  }

  lemma ReplacedOne(a: char, c: char, sub: string)
    ensures Replaced([a], c, sub) == if a == c then sub else [a]
  {
    assert [a][1..] == [];
    assert sub + [] == sub;
  }

  /** An escape pair survives the replacement of a character it does not hold. */
  lemma ReplacedPair(a: char, b: char, c: char, sub: string)
    requires a != c && b != c
    ensures Replaced([a, b], c, sub) == [a, b]
  {
    ReplacedConcat([a], [b], c, sub);
    ReplacedOne(a, c, sub);
    ReplacedOne(b, c, sub);
    assert [a] + [b] == [a, b];
  }

  lemma EscapeChar(c: char)
    ensures EscapeLike([c]) == EscapedChar(c)
  {
    ReplacedOne(c, '\\', "\\\\");
    ReplacedOne(c, '%', "\\%");
    ReplacedOne(c, '_', "\\_");
    if c == ESCAPE {
      ReplacedPair(ESCAPE, c, '%', "\\%");
      ReplacedPair(ESCAPE, c, '_', "\\_");
    } else if c == '%' {
      ReplacedPair(ESCAPE, c, '_', "\\_");
    }
  }

  /** Backslash first, then percent, then underscore: no replacement touches what an earlier one added. */
  lemma {:induction false} EscapeIsPerCharacter(s: string)
    ensures EscapeLike(s) == Escaped(s)
  {
    if s != [] {
      assert s == [s[0]] + s[1..];
      var bs, pc := "\\\\", "\\%";
      ReplacedConcat([s[0]], s[1..], '\\', bs);
      var a, b := Replaced([s[0]], '\\', bs), Replaced(s[1..], '\\', bs);
      ReplacedConcat(a, b, '%', pc);
      ReplacedConcat(Replaced(a, '%', pc), Replaced(b, '%', pc), '_', "\\_");
      EscapeChar(s[0]);
      EscapeIsPerCharacter(s[1..]);
    }
  }

  // ---------- The pattern means "contains" ----------

  function Literals(s: string): (r: seq<Item>)
    ensures |r| == |s| && forall i | 0 <= i < |s| :: r[i] == Literal(s[i])
  {
    seq(|s|, i requires 0 <= i < |s| => Literal(s[i]))
  }

  lemma ItemsOfChar(c: char, tail: string)
    requires Items(tail).Some?
    ensures Items(EscapedChar(c) + tail) == Some([Literal(c)] + Items(tail).value)
  {
    var p := EscapedChar(c) + tail;
    if Special(c) { assert p[2..] == tail; } else { assert p[1..] == tail; }
  }

  lemma {:induction false} ItemsOfEscaped(s: string, rest: string)
    requires Items(rest).Some?
    ensures Items(Escaped(s) + rest) == Some(Literals(s) + Items(rest).value)
  {
    if s == [] {
      assert Escaped(s) + rest == rest;
      assert Literals(s) + Items(rest).value == Items(rest).value;
    } else {
      var tail := Escaped(s[1..]) + rest;
      ItemsOfEscaped(s[1..], rest);
      assert Escaped(s) + rest == EscapedChar(s[0]) + tail;
      ItemsOfChar(s[0], tail);
      assert Literals(s) + Items(rest).value == [Literal(s[0])] + (Literals(s[1..]) + Items(rest).value);
    }
  }

  lemma MatchesAnyString(t: string)
    ensures Matches([AnyString], t)
  {
    assert [AnyString][1..] == [] && t[|t|..] == [];
  }

  lemma {:induction false} MatchesPrefix(s: string, t: string)
    ensures Matches(Literals(s) + [AnyString], t) <==> |s| <= |t| && t[..|s|] == s
  {
    var items := Literals(s) + [AnyString];
    if s == [] {
      assert items == [AnyString];
      MatchesAnyString(t);
    } else {
      assert items[1..] == Literals(s[1..]) + [AnyString];
      if t != [] {
        MatchesPrefix(s[1..], t[1..]);
        assert |s| <= |t| ==> t[..|s|] == [t[0]] + t[1..][..|s| - 1];
        assert s == [s[0]] + s[1..];
      }
    }
  }

  lemma FoldedPattern(s: string, fold: char -> char)
    requires CaseFold(fold)
    ensures Folded("%" + Escaped(s) + "%", fold) == "%" + Escaped(Folded(s, fold)) + "%"
  {
    FoldedEscaped(s, fold);
    var p := "%" + Escaped(s) + "%";
    assert Special('%');
    assert |Escaped(s)| == |Folded(Escaped(s), fold)|;
    assert Folded(p, fold) == "%" + Folded(Escaped(s), fold) + "%";
  }

  lemma {:induction false} FoldedEscaped(s: string, fold: char -> char)
    requires CaseFold(fold)
    ensures Folded(Escaped(s), fold) == Escaped(Folded(s, fold))
  {
    if s != [] {
      FoldedEscaped(s[1..], fold);
      assert Folded(s, fold)[1..] == Folded(s[1..], fold);
      assert Special(ESCAPE);
      assert Folded(Escaped(s), fold) == Folded(EscapedChar(s[0]), fold) + Folded(Escaped(s[1..]), fold);
      assert Folded(EscapedChar(s[0]), fold) == EscapedChar(fold(s[0]));
    }
  }

  /** For every text s typed by a user and every stored text t, the search pattern is well formed and matches t exactly
      when s, under the shared fold, occurs in t. */
  lemma PatternMeansContains(s: string, t: string, fold: char -> char)
    requires CaseFold(fold)
    ensures Items(Folded(SearchPattern(s), fold)).Some?
    ensures ILike(SearchPattern(s), t, fold) <==> Contains(Folded(t, fold), Folded(s, fold))
  {
    EscapeIsPerCharacter(s);
    FoldedPattern(s, fold);
    var s', t' := Folded(s, fold), Folded(t, fold);
    var p := "%" + Escaped(s') + "%";
    assert "%"[1..] == [];
    assert Items("%") == Some([AnyString] + []);
    assert [AnyString] + [] == [AnyString];
    ItemsOfEscaped(s', "%");
    assert p[1..] == Escaped(s') + "%";
    var items := [AnyString] + (Literals(s') + [AnyString]);
    assert Items(p) == Some(items);
    assert items[1..] == Literals(s') + [AnyString];
    forall n | 0 <= n <= |t'| ensures Matches(items[1..], t'[n..]) <==> OccursAt(t', s', n) {
      MatchesPrefix(s', t'[n..]);
      assert n <= |t'| - |s'| ==> t'[n..][..|s'|] == t'[n..n + |s'|];
    }
    assert ILike(SearchPattern(s), t, fold) <==> Matches(items, t');
  }

  /** Escaping loses nothing: the items of an escaped text are its own characters, so two texts never share one. */
  lemma EscapeInjective(s: string, t: string)
    requires EscapeLike(s) == EscapeLike(t)
    ensures s == t
  {
    EscapeIsPerCharacter(s);
    EscapeIsPerCharacter(t);
    ItemsOfEscaped(s, "");
    ItemsOfEscaped(t, "");
    assert Escaped(s) + "" == Escaped(s) && Escaped(t) + "" == Escaped(t);
    assert Literals(s) + [] == Literals(s) && Literals(t) + [] == Literals(t);
    forall i | 0 <= i < |s| ensures i < |t| && s[i] == t[i] {
      assert Literals(s)[i] == Literal(s[i]);
    }
    assert |Literals(s)| == |Literals(t)|;
  }

  // ---------- The text filter ----------

  /** The condition the filter adds for a query on the text columns of a row (a column may be null): no condition for
      an absent or blank query, otherwise any column. */
  predicate TextCondition(q: Option<string>, columns: seq<Option<string>>, space: char -> bool, fold: char -> char) {
    if q.None? || q.value == "" then true
    else
      var text := Stripped(q.value, space);
      if text == "" then true
      else exists i | 0 <= i < |columns| :: columns[i].Some? && ILike(SearchPattern(text), columns[i].value, fold)
  }

  method ApplyTextFilter(q: Option<string>, columns: seq<Option<string>>, space: char -> bool, fold: char -> char)
      returns (keep: bool)
    ensures keep <==> TextCondition(q, columns, space, fold)
  {
    if q.None? || q.value == "" { return true; }
    var text := Stripped(q.value, space);
    if text == "" { return true; }
    var pattern := SearchPattern(text);
    keep := false;
    for i := 0 to |columns|
      invariant keep <==> exists j | 0 <= j < i :: columns[j].Some? && ILike(pattern, columns[j].value, fold)
    {
      if columns[i].Some? && ILike(pattern, columns[i].value, fold) { keep := true; }
    }
  }

  /** A row passes the filter exactly when there is no query, it is blank, or it occurs, without the space around it and
      case folded, in one of the row's columns. */
  lemma FilterMeansContains(q: Option<string>, columns: seq<Option<string>>, space: char -> bool, fold: char -> char)
    requires CaseFold(fold)
    ensures TextCondition(q, columns, space, fold) <==>
              q.None? || Stripped(q.value, space) == "" ||
              exists i | 0 <= i < |columns| ::
                  columns[i].Some? && Contains(Folded(columns[i].value, fold), Folded(Stripped(q.value, space), fold))
  {
    if q.Some? {
      var text := Stripped(q.value, space);
      forall i | 0 <= i < |columns| && columns[i].Some?
        ensures ILike(SearchPattern(text), columns[i].value, fold) <==>
            Contains(Folded(columns[i].value, fold), Folded(text, fold))
      {
        PatternMeansContains(text, columns[i].value, fold);
      }
    }
  }
}
