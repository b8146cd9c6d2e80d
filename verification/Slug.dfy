/** Slugs: the normaliser (from the ASCII text on) and the suffix loop that makes a slug unique. */
module Slug {
  import Decimal

  // ---------- What the program computes ----------

  predicate Alnum(c: char) { 'a' <= c <= 'z' || 'A' <= c <= 'Z' || '0' <= c <= '9' }

  function LowerChar(c: char): char { if 'A' <= c <= 'Z' then (c as int + 32) as char else c }

  function Lower(s: string): (r: string)
    ensures |r| == |s| && forall i | 0 <= i < |s| :: r[i] == LowerChar(s[i])
  {
    seq(|s|, i requires 0 <= i < |s| => LowerChar(s[i]))
  }

  /** The length of the longest prefix of characters that are (or are not) alphanumeric. */
  function Run(s: string, alnum: bool): (n: nat)
    ensures n <= |s| && (n > 0 <==> s != [] && Alnum(s[0]) == alnum)
    ensures forall i | 0 <= i < n :: Alnum(s[i]) == alnum
    ensures n < |s| ==> Alnum(s[n]) != alnum
  {
    if s != [] && Alnum(s[0]) == alnum then 1 + Run(s[1..], alnum) else 0
  }

  /** Every maximal run of other characters becomes one dash. */
  function Dashed(s: string): string {
    if s == [] then []
    else if Alnum(s[0]) then [s[0]] + Dashed(s[1..])
    else "-" + Dashed(s[Run(s, false)..])
  }

  function StripDashes(s: string): string {
    if s == [] then []
    else if s[0] == '-' then StripDashes(s[1..])
    else if s[|s| - 1] == '-' then StripDashes(s[..|s| - 1])
    else s
  }

  function Slugify(s: string): string {
    var t := Lower(StripDashes(Dashed(s)));
    if t == "" then "item" else t
  }

  // ---------- The reference: alphanumeric runs joined by single dashes ----------

  function Words(s: string): seq<string>
    decreases |s|
  {
    if s == [] then []
    else if Alnum(s[0]) then [s[..Run(s, true)]] + Words(s[Run(s, true)..])
    else Words(s[Run(s, false)..])
  }

  predicate IsWord(w: string) { w != [] && forall c <- w :: Alnum(c) }

  lemma {:induction false} WordsAreWords(s: string)
    ensures forall w <- Words(s) :: IsWord(w)
    decreases |s|
  {
    if s != [] {
      if Alnum(s[0]) {
        WordsAreWords(s[Run(s, true)..]);
        assert IsWord(s[..Run(s, true)]);
      } else {
        WordsAreWords(s[Run(s, false)..]);
      }
    }
  }

  function Joined(ws: seq<string>): string {
    if ws == [] then "" else if |ws| == 1 then ws[0] else ws[0] + "-" + Joined(ws[1..])
  }

  /** A dash is left at the end when the text ends in another character. */
  function EndDash(s: string): string { if s != [] && !Alnum(s[|s| - 1]) then "-" else "" }

  lemma {:induction false} DashedRun(s: string, n: nat)
    requires n <= |s| && forall i | 0 <= i < n :: Alnum(s[i])
    ensures Dashed(s) == s[..n] + Dashed(s[n..])
  {
    if n > 0 {
      DashedRun(s[1..], n - 1);
      assert s[..n] == [s[0]] + s[1..][..n - 1] && s[1..][n - 1..] == s[n..];
    }
  }

  lemma SkipOther(rest: string) returns (next: string)
    requires rest != [] && !Alnum(rest[0])
    ensures |next| < |rest| && (next != [] ==> Alnum(next[0]))
    ensures Dashed(rest) == "-" + Dashed(next) && Words(rest) == Words(next)
    ensures EndDash(rest) == if next == [] then "-" else EndDash(next)
  {
    next := rest[Run(rest, false)..];
    assert next != [] ==> rest[|rest| - 1] == next[|next| - 1];
  }

  /** A text of two runs at least: a word, other characters, and what follows them. */
  lemma SplitRuns(s: string) returns (word: string, next: string)
    requires s != [] && Alnum(s[0]) && Run(s, true) < |s|
    ensures word != [] && |next| < |s| && (next != [] ==> Alnum(next[0]))
    ensures Dashed(s) == word + "-" + Dashed(next) && Words(s) == [word] + Words(next)
    ensures EndDash(s) == if next == [] then "-" else EndDash(next)
  {
    var k := Run(s, true);
    var rest := s[k..];
    word := s[..k];
    DashedRun(s, k);
    next := SkipOther(rest);
    assert rest[|rest| - 1] == s[|s| - 1];
    DashAfter(word, Dashed(rest), Dashed(next));
  }

  lemma DashAfter(word: string, rest: string, next: string)
    requires rest == "-" + next
    ensures word + rest == word + "-" + next
  {}

  lemma JoinedCons(word: string, ws: seq<string>)
    ensures Joined([word] + ws) == if ws == [] then word else word + "-" + Joined(ws)
  {
    assert ([word] + ws)[1..] == ws;
  }

  lemma {:induction false} DashedIsJoined(s: string)
    requires s != [] ==> Alnum(s[0])
    ensures Dashed(s) == Joined(Words(s)) + EndDash(s)
    ensures s != [] ==> Words(s) != []
    decreases |s|
  {
    if s == [] {
    } else if Run(s, true) == |s| {
      DashedRun(s, |s|);
      assert s[..|s|] == s && s[|s|..] == [];
      assert Words(s) == [s];
    } else {
      var word, next := SplitRuns(s);
      DashedIsJoined(next);
      JoinedCons(word, Words(next));
    }
  }

  predicate Framed(t: string) { t != [] && t[0] != '-' && t[|t| - 1] != '-' }

  lemma StripFrame(before: string, t: string, after: string)
    requires Framed(t) && before in {"", "-"} && after in {"", "-"}
    ensures StripDashes(before + t + after) == t
  {
    var u := t + after;
    assert StripDashes(u) == t by {
      if after == "-" { assert u[..|u| - 1] == t; } else { assert u == t; }
    }
    if before == "-" { assert (before + t + after)[1..] == u; } else { assert before + t + after == u; }
  }

  /** Words joined are framed by alphanumerics, hold only those and dashes, and no two dashes in a row. */
  lemma {:induction false} JoinedShape(ws: seq<string>)
    requires ws != [] && forall w <- ws :: IsWord(w)
    ensures
      var t := Joined(ws);
      && t != [] && Alnum(t[0]) && Alnum(t[|t| - 1])
      && (forall i | 0 <= i < |t| :: Alnum(t[i]) || t[i] == '-')
      && (forall i | 0 <= i < |t| - 1 :: Alnum(t[i]) || Alnum(t[i + 1]))
  {
    assert ws[0] in ws;
    var t := Joined(ws);
    if |ws| > 1 {
      assert forall w <- ws[1..] :: w in ws;
      JoinedShape(ws[1..]);
      var n, u := |ws[0]|, Joined(ws[1..]);
      assert t == ws[0] + "-" + u;
      forall i | 0 <= i < |t| ensures (Alnum(t[i]) || t[i] == '-') && (i < |t| - 1 ==> Alnum(t[i]) || Alnum(t[i + 1])) {
        assert i < n ==> t[i] in ws[0];
        assert i > n ==> t[i] == u[i - n - 1] && (i < |t| - 1 ==> t[i + 1] == u[(i - n - 1) + 1]);
        assert i == n ==> t[i + 1] == u[0];
      }
    } else {
      assert forall i | 0 <= i < |t| :: t[i] in ws[0];
    }
  }

  /** A dash is left at the start when the text begins with another character. */
  function StartDash(s: string): string { if s != [] && !Alnum(s[0]) then "-" else "" }

  lemma DashedShape(s: string)
    ensures Words(s) != [] ==> Dashed(s) == StartDash(s) + Joined(Words(s)) + EndDash(s)
    ensures Words(s) == [] ==> Dashed(s) in {"", "-"}
  {
    if s != [] && !Alnum(s[0]) {
      var rest := SkipOther(s);
      DashedIsJoined(rest);
      assert rest == [] ==> Dashed(s) == "-" + "" == "-";
    } else {
      DashedIsJoined(s);
    }
  }

  /** The normaliser yields the lower-cased alphanumeric runs joined by single dashes, or "item" when there are none. */
  lemma SlugifyIsJoinedWords(s: string)
    ensures Slugify(s) == if Words(s) == [] then "item" else Lower(Joined(Words(s)))
  {
    DashedShape(s);
    if Words(s) == [] {
      assert "-"[1..] == "";
      assert StripDashes(Dashed(s)) == "";
    } else {
      WordsAreWords(s);
      JoinedShape(Words(s));
      StripFrame(StartDash(s), Joined(Words(s)), EndDash(s));
    }
  }

  // ---------- Slugs are the fixed points ----------

  predicate IsSlug(s: string) {
    && Framed(s)
    && (forall i | 0 <= i < |s| :: (Alnum(s[i]) && LowerChar(s[i]) == s[i]) || s[i] == '-')
    && (forall i | 0 <= i < |s| - 1 :: s[i] != '-' || s[i + 1] != '-')
  }

  lemma SlugifyIsSlug(s: string)
    ensures IsSlug(Slugify(s))
  {
    SlugifyIsJoinedWords(s);
    if Words(s) != [] {
      WordsAreWords(s);
      JoinedShape(Words(s));
    }
  }

  lemma {:induction false} DashedFixed(s: string)
    requires forall i | 0 <= i < |s| :: Alnum(s[i]) || s[i] == '-'
    requires forall i | 0 <= i < |s| - 1 :: s[i] != '-' || s[i + 1] != '-'
    ensures Dashed(s) == s
  {
    if s != [] {
      var t := s[1..];
      assert |s| > 1 ==> s[0] != '-' || s[0 + 1] != '-';
      forall i | 0 <= i < |t| - 1 ensures t[i] != '-' || t[i + 1] != '-' {
        assert s[i + 1] != '-' || s[(i + 1) + 1] != '-';
      }
      DashedFixed(t);
      assert s[0] == '-' ==> Run(s, false) == 1;
    }
  }

  /** A text is left alone exactly when it is a slug. */
  lemma FixedIffSlug(s: string)
    ensures Slugify(s) == s <==> IsSlug(s)
  {
    SlugifyIsSlug(s);
    if IsSlug(s) {
      DashedFixed(s);
      assert StripDashes(s) == s;
      assert Lower(s) == s;
    }
  }

  /** Normalising twice changes nothing. */
  lemma SlugifyIdempotent(s: string)
    ensures Slugify(Slugify(s)) == Slugify(s)
  {
    SlugifyIsSlug(s);
    FixedIffSlug(Slugify(s));
  }

  // ---------- Which characters a slug has ----------

  /** The letters and digits of a text in order, capitals made small. */
  function Letters(s: string): string {
    if s == [] then []
    else (if 'a' <= s[0] <= 'z' || '0' <= s[0] <= '9' then [s[0]]
          else if 'A' <= s[0] <= 'Z' then [(s[0] as int - 'A' as int + 'a' as int) as char] else []) + Letters(s[1..])
  }

  lemma {:induction false} LettersConcat(a: string, b: string)
    ensures Letters(a + b) == Letters(a) + Letters(b)
  {
    if a == [] {
      assert a + b == b;
    } else {
      assert (a + b)[1..] == a[1..] + b;
      LettersConcat(a[1..], b);
    }
  }

  lemma {:induction false} NoLetters(s: string)
    requires forall c <- s :: !Alnum(c)
    ensures Letters(s) == ""
  {
    if s != [] {
      assert s[0] in s;
      NoLetters(s[1..]);
    }
  }

  lemma {:induction false} LettersOfLower(s: string)
    ensures Letters(Lower(s)) == Letters(s)
  {
    if s != [] {
      LettersOfLower(s[1..]);
      assert Lower(s)[1..] == Lower(s[1..]);
    }
  }

  lemma {:induction false} LettersOfDashed(s: string)
    ensures Letters(Dashed(s)) == Letters(s)
    decreases |s|
  {
    if s != [] {
      if Alnum(s[0]) {
        LettersOfDashed(s[1..]);
        assert Dashed(s)[1..] == Dashed(s[1..]);
      } else {
        var n := Run(s, false);
        LettersOfDashed(s[n..]);
        assert s == s[..n] + s[n..] && Dashed(s)[1..] == Dashed(s[n..]);
        NoLetters(s[..n]);
        LettersConcat(s[..n], s[n..]);
      }
    }
  }

  lemma {:induction false} LettersOfStripped(s: string)
    ensures Letters(StripDashes(s)) == Letters(s)
    decreases |s|
  {
    if s != [] {
      if s[0] == '-' {
        LettersOfStripped(s[1..]);
      } else if s[|s| - 1] == '-' {
        var n := |s| - 1;
        LettersOfStripped(s[..n]);
        assert s == s[..n] + ['-'] && Letters(['-']) == [] by { assert ['-'][1..] == []; }
        LettersConcat(s[..n], ['-']);
      }
    }
  }

  lemma LettersOfSlug(s: string)
    ensures var t := Lower(StripDashes(Dashed(s)));
      Letters(t) == Letters(s) && (t == "" <==> Letters(s) == "")
  {
    var t := Lower(StripDashes(Dashed(s)));
    LettersOfDashed(s);
    LettersOfStripped(Dashed(s));
    LettersOfLower(StripDashes(Dashed(s)));
    SlugifyIsSlug(s);
    if t != "" { assert Alnum(t[0]) && Letters(t) != ""; }
  }

  /** A slug has small letters, digits and dashes only; its letters and digits are those of the text, capitals made
      small, and it is "item" when the text has none. */
  lemma SlugCharacters(s: string)
    ensures forall c <- Slugify(s) :: 'a' <= c <= 'z' || '0' <= c <= '9' || c == '-'
    ensures if Letters(s) == "" then Slugify(s) == "item" else Letters(Slugify(s)) == Letters(s)
  {
    SlugifyIsSlug(s);
    LettersOfSlug(s);
  }

  // ---------- Suffixes ----------

  function Candidate(base: string, n: nat): string { base + "-" + Decimal.Render(n) }

  /** A slug with a number appended is still a slug, so normalising keeps it. */
  lemma SuffixedIsSlug(base: string, n: nat)
    requires IsSlug(base)
    ensures IsSlug(Candidate(base, n)) && Slugify(Candidate(base, n)) == Candidate(base, n)
  {
    var c, k, d := Candidate(base, n), |base|, Decimal.Render(n);
    forall i | 0 <= i < |c|
      ensures ((Alnum(c[i]) && LowerChar(c[i]) == c[i]) || c[i] == '-') &&
          (i < |c| - 1 ==> c[i] != '-' || c[i + 1] != '-')
    {
      assert i > k ==> c[i] == d[i - k - 1] && c[i] in d;
      assert i < k ==> c[i] == base[i] && (i + 1 < k ==> base[i] != '-' || base[i + 1] != '-');
      assert i == k ==> c[i + 1] == d[0] && d[0] in d;
    }
    assert c[|c| - 1] == d[|d| - 1] && d[|d| - 1] in d;
    FixedIffSlug(c);
  }

  lemma CandidatesDiffer(base: string, m: nat, n: nat)
    ensures Candidate(base, m) != base
    ensures Candidate(base, m) == Candidate(base, n) ==> m == n
  {
    if Candidate(base, m) == Candidate(base, n) {
      assert Candidate(base, m)[|base| + 1..] == Decimal.Render(m);
      assert Candidate(base, n)[|base| + 1..] == Decimal.Render(n);
      Decimal.RenderInjective(m, n);
    }
  }

  /** The texts probed before the one with number `n`. */
  function Probed(base: string, n: nat): set<string> {
    if n <= 2 then {base} else Probed(base, n - 1) + {Candidate(base, n - 1)}
  }

  lemma {:induction false} NotProbed(base: string, n: nat, k: nat)
    requires n <= k
    ensures Candidate(base, k) !in Probed(base, n)
  {
    CandidatesDiffer(base, k, k);
    if n > 2 {
      CandidatesDiffer(base, n - 1, k);
      NotProbed(base, n - 1, k);
    }
  }

  lemma {:induction false} ProbedSize(base: string, n: nat, used: set<string>)
    requires n >= 2 && base in used && forall m | 2 <= m < n :: Candidate(base, m) in used
    ensures |Probed(base, n)| == n - 1 && Probed(base, n) <= used
  {
    if n > 2 {
      ProbedSize(base, n - 1, used);
      NotProbed(base, n - 1, n - 1);
    }
  }

  /** Pigeonhole: the probes that were all taken are no more than the used slugs. */
  lemma ProbesBounded(base: string, used: set<string>, n: nat)
    requires n >= 2 && base in used && forall m | 2 <= m < n :: Candidate(base, m) in used
    ensures n - 1 <= |used|
  {
    ProbedSize(base, n, used);
    assert used == Probed(base, n) + (used - Probed(base, n));
  }

  /** The base if it is free, otherwise the base with the least free number from two on. */
  ghost predicate LeastFree(base: string, used: set<string>, r: string) {
    r !in used &&
    (r == base ||
     (base in used && exists n :: 2 <= n <= |used| + 1 && r == Candidate(base, n) && forall m | 2 <= m < n ::
         Candidate(base, m) in used))
  }

  /** There is only one such slug. */
  lemma LeastFreeUnique(base: string, used: set<string>, r: string, r': string)
    requires LeastFree(base, used, r) && LeastFree(base, used, r')
    ensures r == r'
  {
    if r != base && r' != base {
      var n :| 2 <= n <= |used| + 1 && r == Candidate(base, n) && forall m | 2 <= m < n :: Candidate(base, m) in used;
      var n' :| 2 <= n' <= |used| + 1 && r' == Candidate(base, n') && forall m | 2 <= m < n' ::
          Candidate(base, m) in used;
      assert n >= n' && n' >= n;
    }
  }

  /** The suffix loop: it ends, after at most one probe more than there are used slugs. */
  method ProbeSlug(base: string, used: set<string>) returns (slug: string, probes: nat)
    ensures LeastFree(base, used, slug)
    ensures 1 <= probes <= |used| + 1
    ensures slug == if probes == 1 then base else Candidate(base, probes)
  {
    slug := base;
    var suffix := 2;
    probes := 1;
    while slug in used
      invariant suffix >= 2 && probes == suffix - 1 <= |used| + 1
      invariant slug == if suffix == 2 then base else Candidate(base, suffix - 1)
      invariant suffix > 2 ==> base in used
      invariant forall m | 2 <= m < suffix - 1 :: Candidate(base, m) in used
      decreases |used| + 2 - suffix
    {
      ProbesBounded(base, used, suffix);
      slug := Candidate(base, suffix);
      suffix := suffix + 1;
      probes := probes + 1;
    }
  }

  /** The slug of a new material: the title's slug, made unique among the slugs in the table. */
  method GenerateUniqueSlug(title: string, taken: set<string>) returns (slug: string)
    ensures LeastFree(Slugify(title), taken, slug)
    ensures IsSlug(slug) && slug !in taken
  {
    var probes;
    slug, probes := ProbeSlug(Slugify(title), taken);
    SlugifyIsSlug(title);
    if slug != Slugify(title) {
      ghost var n :| 2 <= n <= |taken| + 1 && slug == Candidate(Slugify(title), n);
      SuffixedIsSlug(Slugify(title), n);
    }
  }
}
