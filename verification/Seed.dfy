/** Seeding the catalog: slugs for universities, for the faculties of each and for the subjects of each faculty. */
module Seed {
  import opened Wrappers
  import opened Text
  import opened Slug

  // A name in the seed data is absent when it is missing or not a text.
  datatype UnitEntry = UnitEntry(kind: string, name: Option<string>, subjects: seq<Option<string>>)
  datatype UniversityEntry = UniversityEntry(name: Option<string>, units: seq<UnitEntry>,
      inputFaculties: seq<Option<string>>)
  datatype FacultyEntry = FacultyEntry(name: Option<string>, subjects: seq<Option<string>>)

  datatype Subject = Subject(name: string, slug: string)
  datatype Faculty = Faculty(name: string, slug: string, subjects: seq<Subject>)
  datatype University = University(name: string, slug: string, faculties: seq<Faculty>)

  function Clean(name: Option<string>, space: char -> bool): string {
    if name.Some? then Stripped(name.value, space) else ""
  }

  /** The faculties listed as academic units, or the plain list of names when there are none. */
  function RawFaculties(e: UniversityEntry): seq<FacultyEntry> {
    var units := Units(e.units);
    if units == [] then seq(|e.inputFaculties|, i
        requires 0 <= i < |e.inputFaculties| => FacultyEntry(e.inputFaculties[i], [])) else units
  }

  function Units(units: seq<UnitEntry>): seq<FacultyEntry> {
    if units == [] then []
    else
      var rest := Units(units[1..]);
      if units[0].kind == "faculty" then [FacultyEntry(units[0].name, units[0].subjects)] + rest else rest
  }

  /** The first entry of each non-empty clean name, in order. */
  function Deduplicated(raw: seq<FacultyEntry>, seen: set<string>, space: char -> bool): (r: seq<FacultyEntry>) {
    if raw == [] then []
    else
      var name := Clean(raw[0].name, space);
      if name == "" || name in seen then Deduplicated(raw[1..], seen, space)
      else [FacultyEntry(Some(name), raw[0].subjects)] + Deduplicated(raw[1..], seen + {name}, space)
  }

  predicate Distinct<T(==)>(s: seq<T>) { forall i, j | 0 <= i < j < |s| :: s[i] != s[j] }

  function Names(fs: seq<FacultyEntry>): (r: seq<string>)
    ensures |r| == |fs| && forall i | 0 <= i < |fs| :: r[i] == if fs[i].name.Some? then fs[i].name.value else ""
  {
    seq(|fs|, i requires 0 <= i < |fs| => if fs[i].name.Some? then fs[i].name.value else "")
  }

  /** Deduplication leaves distinct non-empty names, none of them seen before, and loses no other clean name. */
  lemma {:induction false} DeduplicatedNames(raw: seq<FacultyEntry>, seen: set<string>, space: char -> bool)
    ensures
      var names := Names(Deduplicated(raw, seen, space));
      && Distinct(names)
      && (forall n <- names :: n != "" && n !in seen)
      && (forall e <- raw :: Clean(e.name, space) != "" && Clean(e.name, space) !in seen ==>
          Clean(e.name, space) in names)
  {
    if raw != [] {
      var name := Clean(raw[0].name, space);
      var names := Names(Deduplicated(raw, seen, space));
      if name == "" || name in seen {
        DeduplicatedNames(raw[1..], seen, space);
      } else {
        DeduplicatedNames(raw[1..], seen + {name}, space);
        var rest := Names(Deduplicated(raw[1..], seen + {name}, space));
        assert names == [name] + rest;
        forall e <- raw | Clean(e.name, space) != "" && Clean(e.name, space) !in seen
            ensures Clean(e.name, space) in names {
          if Clean(e.name, space) == name {
            assert names[0] == name;
          } else {
            assert e in raw[1..] && Clean(e.name, space) in rest;
          }
        }
      }
    }
  }

  /** A name counts without the space around it; a missing one is blank. */
  lemma CleanBetween(a: string, name: string, b: string, space: char -> bool)
    requires (forall c <- a + b :: space(c)) && (name != "" ==> !space(name[0]) && !space(name[|name| - 1]))
    ensures Clean(Some(a + name + b), space) == name && Clean(None, space) == ""
  {
    StrippedBetween(a, name, b, space);
  }

  /** One more unit: it is taken, with its name and subjects, exactly when it is a faculty. */
  lemma {:induction false} UnitsSnoc(units: seq<UnitEntry>, u: UnitEntry)
    ensures Units(units + [u]) == Units(units) +
        if u.kind == "faculty" then [FacultyEntry(u.name, u.subjects)] else []
  {
    if units == [] {
      assert units + [u] == [u];
      assert [u][1..] == [];
    } else {
      assert (units + [u])[1..] == units[1..] + [u];
      UnitsSnoc(units[1..], u);
    }
  }

  lemma {:induction false} NoUnits(units: seq<UnitEntry>)
    ensures Units(units) == [] <==> forall u <- units :: u.kind != "faculty"
  {
    if units != [] {
      NoUnits(units[1..]);
      assert units == [units[0]] + units[1..];
    }
  }

  /** Only a university without a faculty among its units has its plain list of names taken, one by one. */
  lemma RawFacultiesFrom(e: UniversityEntry)
    ensures if exists u <- e.units :: u.kind == "faculty" then RawFaculties(e) == Units(e.units)
      else |RawFaculties(e)| == |e.inputFaculties| &&
           forall i | 0 <= i < |e.inputFaculties| :: RawFaculties(e)[i] == FacultyEntry(e.inputFaculties[i], [])
  {
    NoUnits(e.units);
  }

  /** One more entry: it is taken, with its own subjects, unless its clean name is blank or was taken before. */
  lemma {:induction false} DeduplicatedSnoc(raw: seq<FacultyEntry>, e: FacultyEntry, seen: set<string>,
      space: char -> bool)
    ensures
      var name, taken := Clean(e.name, space), Deduplicated(raw, seen, space);
      Deduplicated(raw + [e], seen, space) ==
        taken + if name == "" || name in seen || name in Names(taken) then []
            else [FacultyEntry(Some(name), e.subjects)]
  {
    if raw == [] {
      assert raw + [e] == [e];
      assert [e][1..] == [];
    } else {
      assert (raw + [e])[1..] == raw[1..] + [e];
      var first := Clean(raw[0].name, space);
      if first == "" || first in seen {
        DeduplicatedSnoc(raw[1..], e, seen, space);
      } else {
        DeduplicatedSnoc(raw[1..], e, seen + {first}, space);
        var rest := Deduplicated(raw[1..], seen + {first}, space);
        NamesCons(FacultyEntry(Some(first), raw[0].subjects), rest);
      }
    }
  }

  lemma NamesCons(f: FacultyEntry, rest: seq<FacultyEntry>)
    requires f.name.Some?
    ensures forall n :: n in Names([f] + rest) <==> n == f.name.value || n in Names(rest)
  {
    assert Names([f] + rest) == [f.name.value] + Names(rest);
  }

  method ExtractFacultyEntries(e: UniversityEntry, space: char -> bool) returns (r: seq<FacultyEntry>)
    ensures r == Deduplicated(RawFaculties(e), {}, space)
  {
    var raw := RawFaculties(e);
    var seen := {};
    r := [];
    for i := 0 to |raw|
      invariant r + Deduplicated(raw[i..], seen, space) == Deduplicated(raw, {}, space)
    {
      var name := Clean(raw[i].name, space);
      assert raw[i..][1..] == raw[i + 1..];
      if name != "" && name !in seen {
        seen := seen + {name};
        r := r + [FacultyEntry(Some(name), raw[i].subjects)];
      }
    }
  }

  // ---------- The whole seed ----------

  /** The clean non-empty names, in order. */
  function CleanNames(names: seq<Option<string>>, space: char -> bool): seq<string> {
    if names == [] then []
    else (if Clean(names[0], space) == "" then [] else [Clean(names[0], space)]) + CleanNames(names[1..], space)
  }

  /** One more name: it is kept unless it is blank. */
  lemma {:induction false} CleanNamesSnoc(names: seq<Option<string>>, name: Option<string>, space: char -> bool)
    ensures CleanNames(names + [name], space) == CleanNames(names, space) +
        if Clean(name, space) == "" then [] else [Clean(name, space)]
  {
    if names == [] {
      assert names + [name] == [name];
      assert [name][1..] == [];
    } else {
      assert (names + [name])[1..] == names[1..] + [name];
      CleanNamesSnoc(names[1..], name, space);
    }
  }

  function Elements(s: seq<string>): (r: set<string>)
    ensures forall x :: x in r <==> x in s
  {
    set x | x in s
  }

  /** Each name gets the least free form of its slug among those given before it. */
  ghost predicate Assigned(names: seq<string>, slugs: seq<string>, norm: string -> string) {
    |names| == |slugs| && forall i | 0 <= i < |names| :: LeastFree(norm(names[i]), Elements(slugs[..i]), slugs[i])
  }

  lemma {:induction false} AssignedDistinct(names: seq<string>, slugs: seq<string>, norm: string -> string)
    requires Assigned(names, slugs, norm)
    ensures Distinct(slugs)
  {
    forall i, j | 0 <= i < j < |slugs| ensures slugs[i] != slugs[j] {
      assert LeastFree(norm(names[j]), Elements(slugs[..j]), slugs[j]);
      assert slugs[i] == slugs[..j][i] && slugs[i] in slugs[..j];
    }
  }

  /** The place of the first name with this slug; the number of names if there is none. */
  function FirstWith(names: seq<string>, slug: string, norm: string -> string): (i: nat)
    ensures i <= |names| && (i < |names| ==> norm(names[i]) == slug) && forall j | 0 <= j < i :: norm(names[j]) != slug
  {
    if names == [] || norm(names[0]) == slug then 0 else 1 + FirstWith(names[1..], slug, norm)
  }

  /** A subject under the first name of its slug. */
  predicate FirstOf(names: seq<string>, s: Subject, norm: string -> string) {
    var i := FirstWith(names, s.slug, norm); i < |names| && names[i] == s.name
  }

  /** Subjects keep the first name of each slug, in the order of those first names, and none of the
      names' slugs is lost. */
  ghost predicate SubjectsOk(names: seq<string>, subjects: seq<Subject>, norm: string -> string) {
    && (forall i, j | 0 <= i < j < |subjects| ::
        FirstWith(names, subjects[i].slug, norm) < FirstWith(names, subjects[j].slug, norm))
    && (forall i | 0 <= i < |subjects| :: FirstOf(names, subjects[i], norm))
    && (forall n {:trigger Covered(n, subjects, norm)} :: n in names ==> Covered(n, subjects, norm))
  }

  /** The rule as a relation of names and subjects. */
  ghost function SubjectsRule(norm: string -> string): (r: (seq<string>, seq<Subject>) -> bool) {
    (names, subjects) => SubjectsOk(names, subjects, norm)
  }

  lemma SubjectsRuleMeans(norm: string -> string)
    ensures forall names, subjects :: SubjectsRule(norm)(names, subjects) <==> SubjectsOk(names, subjects, norm)
  {}

  ghost predicate Covered(name: string, subjects: seq<Subject>, norm: string -> string) {
    exists s <- subjects :: s.slug == norm(name)
  }

  /** The first `n` entries seeded: names kept, subjects seeded, slugs assigned in order. */
  ghost predicate FacultiesUpTo(entries: seq<FacultyEntry>, faculties: seq<Faculty>, n: nat, space: char -> bool,
      norm: string -> string)
    requires forall e <- entries :: e.name.Some?
  {
    && |faculties| == n <= |entries|
    && (forall i | 0 <= i < n ::
          faculties[i].name == entries[i].name.value &&
              SubjectsRule(norm)(CleanNames(entries[i].subjects, space), faculties[i].subjects))
    && Assigned(FacultyNames(faculties), FacultySlugs(faculties), norm)
  }

  ghost predicate FacultiesOk(entries: seq<FacultyEntry>, faculties: seq<Faculty>, space: char -> bool,
      norm: string -> string)
    requires forall e <- entries :: e.name.Some?
  {
    FacultiesUpTo(entries, faculties, |entries|, space, norm)
  }

  function FacultyNames(fs: seq<Faculty>): (r: seq<string>)
    ensures |r| == |fs| && forall i | 0 <= i < |fs| :: r[i] == fs[i].name
  {
    seq(|fs|, i requires 0 <= i < |fs| => fs[i].name)
  }

  function FacultySlugs(fs: seq<Faculty>): (r: seq<string>)
    ensures |r| == |fs| && forall i | 0 <= i < |fs| :: r[i] == fs[i].slug
  {
    seq(|fs|, i requires 0 <= i < |fs| => fs[i].slug)
  }

  function UniversityNames(us: seq<University>): (r: seq<string>)
    ensures |r| == |us| && forall i | 0 <= i < |us| :: r[i] == us[i].name
  {
    seq(|us|, i requires 0 <= i < |us| => us[i].name)
  }

  function UniversitySlugs(us: seq<University>): (r: seq<string>)
    ensures |r| == |us| && forall i | 0 <= i < |us| :: r[i] == us[i].slug
  {
    seq(|us|, i requires 0 <= i < |us| => us[i].slug)
  }

  lemma AssignedExtends(names: seq<string>, slugs: seq<string>, name: string, slug: string, norm: string -> string)
    requires Assigned(names, slugs, norm) && LeastFree(norm(name), Elements(slugs), slug)
    ensures Assigned(names + [name], slugs + [slug], norm)
  {
    var ns, ss := names + [name], slugs + [slug];
    forall i | 0 <= i < |ns| ensures LeastFree(norm(ns[i]), Elements(ss[..i]), ss[i]) {
      assert ss[..i] == slugs[..i];
      assert i == |names| ==> slugs[..i] == slugs;
      assert i < |names| ==> LeastFree(norm(names[i]), Elements(slugs[..i]), slugs[i]);
    }
  }

  /** One more name: a new slug adds a subject, a slug already there adds nothing. */
  lemma FirstWithSnoc(names: seq<string>, name: string, slug: string, norm: string -> string)
    ensures var i := FirstWith(names, slug, norm);
      FirstWith(names + [name], slug, norm) == if i < |names| then i else if norm(name) == slug then |names|
          else |names| + 1
  {
    var i, j, all := FirstWith(names, slug, norm), FirstWith(names + [name], slug, norm), names + [name];
    assert forall k | 0 <= k < |names| :: all[k] == names[k];
    assert all[|names|] == name;
    assert i < |names| ==> norm(all[i]) == slug;
    assert j <= |names| ==> norm(all[j]) == slug;
  }

  lemma SubjectsStay(names: seq<string>, r: seq<Subject>, name: string, norm: string -> string, i: nat)
    requires SubjectsOk(names, r, norm) && i < |r|
    ensures FirstOf(names + [name], r[i], norm)
    ensures FirstWith(names + [name], r[i].slug, norm) == FirstWith(names, r[i].slug, norm) < |names|
  {
    FirstWithSnoc(names, name, r[i].slug, norm);
    assert FirstOf(names, r[i], norm);
  }

  lemma NewSubject(names: seq<string>, r: seq<Subject>, name: string, norm: string -> string)
    requires SubjectsOk(names, r, norm) && forall s <- r :: s.slug != norm(name)
    ensures FirstWith(names + [name], norm(name), norm) == |names| &&
        FirstOf(names + [name], Subject(name, norm(name)), norm)
  {
    FirstWithSnoc(names, name, norm(name), norm);
    forall k | 0 <= k < |names| ensures norm(names[k]) != norm(name) {
      assert names[k] in names && Covered(names[k], r, norm);
    }
  }

  lemma SubjectsExtend(names: seq<string>, r: seq<Subject>, name: string, r': seq<Subject>, norm: string -> string)
    requires SubjectsOk(names, r, norm)
    requires if exists s <- r :: s.slug == norm(name) then r' == r else r' == r + [Subject(name, norm(name))]
    ensures SubjectsOk(names + [name], r', norm)
  {
    if r' != r { NewSubject(names, r, name, norm); }
    forall i | 0 <= i < |r'| ensures FirstOf(names + [name], r'[i], norm) {
      if i < |r| { SubjectsStay(names, r, name, norm, i); }
    }
    forall i, j | 0 <= i < j < |r'|
        ensures FirstWith(names + [name], r'[i].slug, norm) < FirstWith(names + [name], r'[j].slug, norm) {
      SubjectsStay(names, r, name, norm, i);
      if j < |r| { SubjectsStay(names, r, name, norm, j); }
    }
    SubjectsCover(names, r, name, r', norm);
  }

  lemma SubjectsCover(names: seq<string>, r: seq<Subject>, name: string, r': seq<Subject>, norm: string -> string)
    requires forall n {:trigger Covered(n, r, norm)} :: n in names ==> Covered(n, r, norm)
    requires if exists s <- r :: s.slug == norm(name) then r' == r else r' == r + [Subject(name, norm(name))]
    ensures forall n {:trigger Covered(n, r', norm)} :: n in names + [name] ==> Covered(n, r', norm)
  {
    assert forall s <- r :: s in r';
    if r' != r { assert r'[|r|] == Subject(name, norm(name)); }
    forall n <- names + [name] ensures Covered(n, r', norm) {
      if n in names {
        assert Covered(n, r, norm);
        var s :| s in r && s.slug == norm(n);
        assert s in r';
      }
    }
  }

  function SubjectSlugs(r: seq<Subject>): set<string> { set s | s in r :: s.slug }

  method AddSubject(ghost names: seq<string>, r: seq<Subject>, seen: set<string>, name: string,
      norm: string -> string) returns (r': seq<Subject>, seen': set<string>)
    requires SubjectsRule(norm)(names, r) && seen == SubjectSlugs(r)
    ensures SubjectsRule(norm)(names + [name], r') && seen' == SubjectSlugs(r')
  {
    SubjectsRuleMeans(norm);
    var slug := norm(name);
    r', seen' := r, seen;
    if slug !in seen {
      seen' := seen + {slug};
      r' := r + [Subject(name, slug)];
      assert forall s <- r :: s in r';
      assert r'[|r|] == Subject(name, slug);
    }
    SubjectsExtend(names, r, name, r', norm);
  }

  lemma CleanAdvances(done: seq<string>, entries: seq<Option<string>>, i: nat, space: char -> bool)
    requires i < |entries|
    ensures done + CleanNames(entries[i..], space)
         == (if Clean(entries[i], space) == "" then done else done + [Clean(entries[i], space)])
             + CleanNames(entries[i + 1..], space)
  {
    assert entries[i..][0] == entries[i] && entries[i..][1..] == entries[i + 1..];
    var tail := CleanNames(entries[i + 1..], space);
    assert done + ([Clean(entries[i], space)] + tail) == done + [Clean(entries[i], space)] + tail;
    assert [] + tail == tail;
  }

  lemma AllClean(done: seq<string>, entries: seq<Option<string>>, space: char -> bool)
    ensures done + CleanNames(entries[|entries|..], space) == done
  {
    assert CleanNames(entries[|entries|..], space) == [];
  }

  lemma NothingSeeded(entries: seq<Option<string>>, space: char -> bool, norm: string -> string)
    ensures SubjectsRule(norm)([], []) && SubjectSlugs([]) == {}
    ensures [] + CleanNames(entries[0..], space) == CleanNames(entries, space)
  {
    SubjectsRuleMeans(norm);
    assert entries[0..] == entries;
    assert [] + CleanNames(entries, space) == CleanNames(entries, space);
  }

  method SeedSubjects(entries: seq<Option<string>>, space: char -> bool, norm: string -> string)
      returns (r: seq<Subject>)
    ensures SubjectsRule(norm)(CleanNames(entries, space), r)
  {
    r := [];
    var seen: set<string> := {};
    ghost var done: seq<string> := [];
    NothingSeeded(entries, space, norm);
    for i := 0 to |entries|
      invariant done + CleanNames(entries[i..], space) == CleanNames(entries, space)
      invariant SubjectsRule(norm)(done, r) && seen == SubjectSlugs(r)
    {
      CleanAdvances(done, entries, i, space);
      if Clean(entries[i], space) != "" {
        r, seen := AddSubject(done, r, seen, Clean(entries[i], space), norm);
        done := done + [Clean(entries[i], space)];
      }
    }
    AllClean(done, entries, space);
  }

  lemma FacultiesExtend(entries: seq<FacultyEntry>, r: seq<Faculty>, n: nat, f: Faculty, space: char -> bool,
      norm: string -> string)
    requires (forall e <- entries :: e.name.Some?) && n < |entries| && FacultiesUpTo(entries, r, n, space, norm)
    requires f.name == entries[n].name.value && SubjectsRule(norm)(CleanNames(entries[n].subjects, space), f.subjects)
    requires LeastFree(norm(f.name), Elements(FacultySlugs(r)), f.slug)
    ensures FacultiesUpTo(entries, r + [f], n + 1, space, norm) &&
        Elements(FacultySlugs(r + [f])) == Elements(FacultySlugs(r)) + {f.slug}
  {
    AssignedExtends(FacultyNames(r), FacultySlugs(r), f.name, f.slug, norm);
    assert FacultyNames(r + [f]) == FacultyNames(r) + [f.name] && FacultySlugs(r + [f]) == FacultySlugs(r) + [f.slug];
  }

  method SeedFaculties(entries: seq<FacultyEntry>, space: char -> bool, norm: string -> string)
      returns (r: seq<Faculty>)
    requires forall e <- entries :: e.name.Some?
    ensures FacultiesOk(entries, r, space, norm)
  {
    r := [];
    var slugs: set<string> := {};
    for i := 0 to |entries|
      invariant FacultiesUpTo(entries, r, i, space, norm) && slugs == Elements(FacultySlugs(r))
    {
      var name := entries[i].name.value;
      var slug, _ := ProbeSlug(norm(name), slugs);
      slugs := slugs + {slug};
      var subjects := SeedSubjects(entries[i].subjects, space, norm);
      FacultiesExtend(entries, r, i, Faculty(name, slug, subjects), space, norm);
      r := r + [Faculty(name, slug, subjects)];
    }
  }

  /** What the seed yields: the named universities in order, with slugs assigned in order, and under each its
      deduplicated faculties in the same way. */
  ghost predicate Seeded(entries: seq<UniversityEntry>, us: seq<University>, space: char -> bool,
      norm: string -> string) {
    var named := Named(entries, space);
    && |us| == |named|
    && Assigned(UniversityNames(us), UniversitySlugs(us), norm)
    && forall i | 0 <= i < |us| :: UniversityOk(named[i], us[i], space, norm)
  }

  ghost predicate UniversityOk(e: UniversityEntry, u: University, space: char -> bool, norm: string -> string) {
    var faculties := Deduplicated(RawFaculties(e), {}, space);
    u.name == Clean(e.name, space) && (forall f <- faculties :: f.name.Some?) &&
        FacultiesOk(faculties, u.faculties, space, norm)
  }

  /** The elements that `keep` accepts, in order. */
  function Selected<T>(s: seq<T>, keep: T -> bool): seq<T> {
    if s == [] then [] else (if keep(s[0]) then [s[0]] else []) + Selected(s[1..], keep)
  }

  function HasName(space: char -> bool): UniversityEntry -> bool { (e: UniversityEntry) => Clean(e.name, space) != "" }

  function Named(entries: seq<UniversityEntry>, space: char -> bool): seq<UniversityEntry> {
    Selected(entries, HasName(space))
  }

  lemma {:induction false} DeduplicatedNamed(raw: seq<FacultyEntry>, seen: set<string>, space: char -> bool)
    ensures forall f <- Deduplicated(raw, seen, space) :: f.name.Some?
  {
    if raw != [] {
      DeduplicatedNamed(raw[1..], seen, space);
      DeduplicatedNamed(raw[1..], seen + {Clean(raw[0].name, space)}, space);
    }
  }

  ghost function Ok(space: char -> bool, norm: string -> string): (r: (UniversityEntry, University) -> bool) {
    (e, u) => UniversityOk(e, u, space, norm)
  }

  lemma OkMeans(space: char -> bool, norm: string -> string)
    ensures forall e, u :: Ok(space, norm)(e, u) <==> UniversityOk(e, u, space, norm)
  {}

  method SeedUniversity(e: UniversityEntry, slugs: set<string>, space: char -> bool, norm: string -> string)
      returns (u: University)
    ensures Ok(space, norm)(e, u) && LeastFree(norm(u.name), slugs, u.slug)
  {
    OkMeans(space, norm);
    var name := Clean(e.name, space);
    var slug, _ := ProbeSlug(norm(name), slugs);
    var faculties := ExtractFacultyEntries(e, space);
    DeduplicatedNamed(RawFaculties(e), {}, space);
    var seeded := SeedFaculties(faculties, space, norm);
    u := University(name, slug, seeded);
  }

  /** The universities made so far from the entries with a name, each related to its entry by `ok`. */
  ghost predicate SeededSoFar(done: seq<UniversityEntry>, us: seq<University>, slugs: set<string>,
      ok: (UniversityEntry, University) -> bool, norm: string -> string) {
    && |us| == |done| && (forall j | 0 <= j < |us| :: ok(done[j], us[j]))
    && Assigned(UniversityNames(us), UniversitySlugs(us), norm) && slugs == Elements(UniversitySlugs(us))
  }

  lemma SeededExtends(done: seq<UniversityEntry>, us: seq<University>, slugs: set<string>,
      ok: (UniversityEntry, University) -> bool, e: UniversityEntry, u: University, norm: string -> string)
    requires SeededSoFar(done, us, slugs, ok, norm) && ok(e, u) && LeastFree(norm(u.name), slugs, u.slug)
    ensures SeededSoFar(done + [e], us + [u], slugs + {u.slug}, ok, norm)
  {
    AssignedExtends(UniversityNames(us), UniversitySlugs(us), u.name, u.slug, norm);
    assert UniversityNames(us + [u]) == UniversityNames(us) + [u.name] &&
        UniversitySlugs(us + [u]) == UniversitySlugs(us) + [u.slug];
  }

  lemma SeededFinished(entries: seq<UniversityEntry>, us: seq<University>, slugs: set<string>, space: char -> bool,
      norm: string -> string)
    requires SeededSoFar(Named(entries, space), us, slugs, Ok(space, norm), norm)
    ensures Seeded(entries, us, space, norm)
  {
    OkMeans(space, norm);
  }

  lemma {:induction false} SelectedSnoc<T>(a: seq<T>, e: T, keep: T -> bool)
    ensures Selected(a + [e], keep) == Selected(a, keep) + if keep(e) then [e] else []
  {
    if a == [] {
      assert a + [e] == [e] && [e][1..] == [];
    } else {
      SelectedSnoc(a[1..], e, keep);
      assert (a + [e])[1..] == a[1..] + [e];
    }
  }

  lemma SelectedOnward<T>(s: seq<T>, i: nat, keep: T -> bool)
    requires i < |s|
    ensures Selected(s[..i + 1], keep) == Selected(s[..i], keep) + if keep(s[i]) then [s[i]] else []
  {
    SelectedSnoc(s[..i], s[i], keep);
    assert s[..i + 1] == s[..i] + [s[i]];
  }

  lemma NamedOnward(entries: seq<UniversityEntry>, i: nat, space: char -> bool)
    requires i < |entries|
    ensures Named(entries[..i + 1], space) == if Clean(entries[i].name, space) == "" then Named(entries[..i], space)
        else Named(entries[..i], space) + [entries[i]]
  {
    SelectedOnward(entries, i, HasName(space));
  }

  /** The seed for any way of making slugs from names. */
  method SeedEntries(entries: seq<UniversityEntry>, space: char -> bool, norm: string -> string)
      returns (us: seq<University>)
    ensures Seeded(entries, us, space, norm)
  {
    us := [];
    var slugs: set<string> := {};
    for i := 0 to |entries|
      invariant SeededSoFar(Named(entries[..i], space), us, slugs, Ok(space, norm), norm)
    {
      NamedOnward(entries, i, space);
      if Clean(entries[i].name, space) != "" {
        var u := SeedUniversity(entries[i], slugs, space, norm);
        SeededExtends(Named(entries[..i], space), us, slugs, Ok(space, norm), entries[i], u, norm);
        slugs := slugs + {u.slug};
        us := us + [u];
      }
    }
    assert entries[..|entries|] == entries;
    SeededFinished(entries, us, slugs, space, norm);
  }

  method SeedCatalog(entries: seq<UniversityEntry>, space: char -> bool) returns (us: seq<University>)
    ensures Seeded(entries, us, space, Slugify)
  {
    us := SeedEntries(entries, space, Slugify);
  }

  lemma FacultiesUnique(e: UniversityEntry, u: University, space: char -> bool, norm: string -> string)
    requires UniversityOk(e, u, space, norm)
    ensures Distinct(FacultySlugs(u.faculties)) && Distinct(FacultyNames(u.faculties))
    ensures forall f <- u.faculties :: forall i, j | 0 <= i < j < |f.subjects| ::
        f.subjects[i].slug != f.subjects[j].slug
  {
    AssignedDistinct(FacultyNames(u.faculties), FacultySlugs(u.faculties), norm);
    DeduplicatedNames(RawFaculties(e), {}, space);
    var ds := Deduplicated(RawFaculties(e), {}, space);
    forall a, b | 0 <= a < b < |u.faculties| ensures FacultyNames(u.faculties)[a] != FacultyNames(u.faculties)[b] {
      assert ds[a] in ds && ds[b] in ds;
      assert Names(ds)[a] != Names(ds)[b];
    }
    forall f <- u.faculties ensures forall i, j | 0 <= i < j < |f.subjects| ::
        f.subjects[i].slug != f.subjects[j].slug {
      var k :| 0 <= k < |u.faculties| && u.faculties[k] == f;
    }
  }

  /** Slugs are unique among the universities, among each university's faculties, and among each faculty's subjects;
      and faculty names are unique within a university. */
  lemma SeededSlugsUnique(entries: seq<UniversityEntry>, us: seq<University>, space: char -> bool,
      norm: string -> string)
    requires Seeded(entries, us, space, norm)
    ensures Distinct(UniversitySlugs(us))
    ensures forall u <- us :: Distinct(FacultySlugs(u.faculties)) && Distinct(FacultyNames(u.faculties))
    ensures forall u <- us, f <- u.faculties :: forall i, j | 0 <= i < j < |f.subjects| ::
        f.subjects[i].slug != f.subjects[j].slug
  {
    AssignedDistinct(UniversityNames(us), UniversitySlugs(us), norm);
    forall u <- us
      ensures Distinct(FacultySlugs(u.faculties)) && Distinct(FacultyNames(u.faculties))
      ensures forall f <- u.faculties :: forall i, j | 0 <= i < j < |f.subjects| ::
          f.subjects[i].slug != f.subjects[j].slug
    {
      var i :| 0 <= i < |us| && us[i] == u;
      FacultiesUnique(Named(entries, space)[i], u, space, norm);
    }
  }
}
