/** Whole runs of one material: its counters, its file order, and what an approval covers. */
module MaterialRuns {
  import opened FiniteSets
  import opened Wrappers
  import opened Budget
  import opened MaterialReview

  // ---------- Counters ----------

  predicate DistinctIds(files: seq<File>) { forall i, j | 0 <= i < j < |files| :: files[i].id != files[j].id }

  predicate Distinct(ids: seq<Id>) { forall i, j | 0 <= i < j < |ids| :: ids[i] != ids[j] }

  /** The counters are those of the rows: files, sizes within the limit, and downloads, one per user. */
  predicate Counted(m: Material, limit: nat) {
    && DistinctIds(m.files) && m.fileCount == |m.files| && m.totalSize == Sum(Sizes(m.files)) <= limit
    && Distinct(m.downloads) && m.downloadCount == |m.downloads|
  }

  /** The ids of the files, in the order of their position. */
  predicate Lists(files: seq<File>, listing: seq<Id>) {
    && |listing| == |files| && Distinct(listing) && (forall f <- files :: f.id in listing)
    && forall i, j | 0 <= i < |files| && 0 <= j < |files| && files[i].order < files[j].order ::
         Position(listing, files[i].id) < Position(listing, files[j].id)
  }

  /** What the surroundings guarantee: new files have new ids, and a listing is one of the files. */
  predicate Feasible(m: Material, s: Step) {
    match s
    case ByOwner(_, AttachFiles(files)) => DistinctIds(m.files + files)
    case ByOwner(_, DeleteFile(_, listing)) => Lists(m.files, listing)
    case _ => true
  }

  lemma {:induction false} SumConcat(a: seq<nat>, b: seq<nat>)
    ensures Sum(a + b) == Sum(a) + Sum(b)
  {
    if a == [] {
      assert a + b == b;
    } else {
      assert (a + b)[1..] == a[1..] + b;
      SumConcat(a[1..], b);
    }
  }

  lemma SizesConcat(a: seq<File>, b: seq<File>)
    ensures Sum(Sizes(a + b)) == Sum(Sizes(a)) + Sum(Sizes(b))
  {
    assert Sizes(a + b) == Sizes(a) + Sizes(b);
    SumConcat(Sizes(a), Sizes(b));
  }

  lemma SizesWithout(files: seq<File>, i: nat)
    requires i < |files|
    ensures Sum(Sizes(files[..i] + files[i + 1..])) + files[i].size == Sum(Sizes(files))
  {
    var a, b := files[..i], files[i + 1..];
    SizesConcat(a, b);
    SizesConcat(a, [files[i]]);
    SizesConcat(a + [files[i]], b);
    assert a + [files[i]] + b == files;
    assert Sizes([files[i]]) == [files[i].size];
    assert Sum([files[i].size]) == files[i].size + Sum([]);
  }

  /** The clamps of the deletion of a file never fire: the counters never fall below zero by themselves. */
  lemma ClampsNeverFire(m: Material, file: Id, limit: nat)
    requires Counted(m, limit) && Place(m.files, file) < |m.files|
    ensures m.fileCount - 1 >= 0 && m.totalSize - m.files[Place(m.files, file)].size >= 0
  {
    SizesWithout(m.files, Place(m.files, file));
  }

  lemma WithoutFileCounts(m: Material, i: nat, listing: seq<Id>, limit: nat)
    requires Counted(m, limit) && i < |m.files|
    ensures Counted(WithoutFile(m, i, listing), limit)
  {
    SizesWithout(m.files, i);
    var rest := m.files[..i] + m.files[i + 1..];
    var r := WithoutFile(m, i, listing);
    assert Sizes(r.files) == Sizes(rest);
    forall a, b | 0 <= a < b < |r.files| ensures r.files[a].id != r.files[b].id {
      assert rest[a].id != rest[b].id;
    }
  }

  lemma RenumberedCounts(m: Material, ids: seq<Id>, limit: nat)
    requires Counted(m, limit)
    ensures Counted(m.(files := Renumbered(m.files, ids)), limit)
  {
    assert Sizes(Renumbered(m.files, ids)) == Sizes(m.files);
  }

  lemma AttachKeepsCounted(m: Material, actor: Id, files: seq<File>, limit: nat)
    requires Counted(m, limit) && DistinctIds(m.files + files) && Owned(m, AttachFiles(files), limit).Changed?
    ensures Counted(Owned(m, AttachFiles(files), limit).material, limit)
  {
    SizesConcat(m.files, files);
    if files == [] { assert m.files + files == m.files; }
  }

  lemma OwnerKeepsCounted(m: Material, actor: Id, edit: Edit, limit: nat)
    requires Counted(m, limit) && Feasible(m, ByOwner(actor, edit)) && Owned(m, edit, limit).Changed?
    ensures Counted(Owned(m, edit, limit).material, limit)
  {
    match edit
    case AttachFiles(files) => AttachKeepsCounted(m, actor, files, limit);
    case DeleteFile(file, listing) => WithoutFileCounts(Rereviewed(m), Place(m.files, file), listing, limit);
    case ReorderFiles(ids) => RenumberedCounts(Rereviewed(m), ids, limit);
    case _ =>
  }

  lemma StepKeepsCounted(m: Material, s: Step, limit: nat)
    requires Counted(m, limit) && Feasible(m, s)
    ensures Counted(After(m, s, limit), limit)
  {
    match s
    case ByOwner(actor, edit) => if Apply(m, s, limit).Changed? { OwnerKeepsCounted(m, actor, edit, limit); }
    case PreviewBuilt(_, _) => assert Sizes(After(m, s, limit).files) == Sizes(m.files);
    case _ =>
  }

  // ---------- File order ----------

  lemma {:induction false} IdSetSize(files: seq<File>)
    requires DistinctIds(files)
    ensures |IdSet(files)| == |files|
  {
    if files != [] {
      IdSetSize(files[1..]);
      assert files == [files[0]] + files[1..];
      assert IdSet(files) == IdSet(files[1..]) + {files[0].id};
    }
  }

  lemma {:induction false} PositionAt(ids: seq<Id>, i: nat)
    requires Distinct(ids) && i < |ids|
    ensures Position(ids, ids[i]) == i
  {
    if i > 0 { PositionAt(ids[1..], i - 1); }
  }

  /** A reordering is accepted exactly for the permutations of the files, and then each file stands where it was put. */
  lemma ReorderFollowsIds(m: Material, ids: seq<Id>, i: nat)
    requires DistinctIds(m.files) && Prechecked(m, ReorderFiles(ids)).Changed? && i < |ids|
    ensures Distinct(ids)
    ensures var r := Renumbered(m.files, ids); exists k | 0 <= k < |r| ::
        r[k] == m.files[k].(order := i) && r[k].id == ids[i]
  {
    IdSetSize(m.files);
    ElementsSize(ids);
    assert Elements(ids) == set i | i in ids;
    PositionAt(ids, i);
    assert ids[i] in IdSet(m.files);
    var k :| 0 <= k < |m.files| && m.files[k].id == ids[i];
    assert Renumbered(m.files, ids)[k] == m.files[k].(order := i);
  }

  lemma {:induction false} WithoutIdDrops(ids: seq<Id>, id: Id)
    requires Distinct(ids) && id in ids
    ensures |WithoutId(ids, id)| == |ids| - 1 && Distinct(WithoutId(ids, id))
    ensures forall x :: x in WithoutId(ids, id) <==> x in ids && x != id
    ensures forall x, y | x in ids && y in ids && x != id && y != id && Position(ids, x) < Position(ids, y) ::
              Position(WithoutId(ids, id), x) < Position(WithoutId(ids, id), y)
  {
    if ids[0] == id {
      WithoutIdSame(ids[1..], id);
      assert WithoutId(ids, id) == ids[1..];
    } else {
      WithoutIdDrops(ids[1..], id);
      assert forall j | 0 <= j < |ids[1..]| :: ids[1..][j] == ids[j + 1] != ids[0];
      assert ids[0] !in WithoutId(ids[1..], id);
      assert WithoutId(ids, id) == [ids[0]] + WithoutId(ids[1..], id);
    }
  }

  lemma {:induction false} WithoutIdSame(ids: seq<Id>, id: Id)
    requires id !in ids
    ensures WithoutId(ids, id) == ids
  {
    if ids != [] { WithoutIdSame(ids[1..], id); }
  }

  lemma RestMember(files: seq<File>, i: nat, k: nat)
    requires DistinctIds(files) && i < |files| && k < |files| - 1
    ensures var f := (files[..i] + files[i + 1..])[k]; f in files && f.id != files[i].id
  {
    assert (files[..i] + files[i + 1..])[k] == files[if k < i then k else k + 1];
  }

  lemma RestNumbered(m: Material, i: nat, listing: seq<Id>, k: nat)
    requires DistinctIds(m.files) && Lists(m.files, listing) && i < |m.files| && k < |m.files| - 1
    ensures var rest, r, ids := m.files[..i] + m.files[i + 1..], WithoutFile(m, i, listing).files,
        WithoutId(listing, m.files[i].id);
      && rest[k] in m.files && rest[k].id != m.files[i].id && r[k].id == rest[k].id &&
          r[k].order == Position(ids, rest[k].id)
      && 0 <= r[k].order < |ids| && ids[r[k].order] == rest[k].id && |ids| == |m.files| - 1
  {
    RestMember(m.files, i, k);
    var rest, ids := m.files[..i] + m.files[i + 1..], WithoutId(listing, m.files[i].id);
    assert m.files[i].id in listing by { assert m.files[i] in m.files; }
    WithoutIdDrops(listing, m.files[i].id);
    assert rest[k].id in ids;
    assert WithoutFile(m, i, listing).files == Renumbered(rest, ids);
  }

  /** After a deletion the other files are numbered from zero without gaps and in the order they had. */
  lemma DeletionCloses(m: Material, i: nat, listing: seq<Id>)
    requires DistinctIds(m.files) && Lists(m.files, listing) && i < |m.files|
    ensures var r := WithoutFile(m, i, listing).files;
      && (forall k | 0 <= k < |r| :: 0 <= r[k].order < |r|)
      && (forall k, l | 0 <= k < |r| && 0 <= l < |r| && k != l :: r[k].order != r[l].order)
    ensures var rest, r := m.files[..i] + m.files[i + 1..], WithoutFile(m, i, listing).files;
      forall k, l | 0 <= k < |r| && 0 <= l < |r| && rest[k].order < rest[l].order :: r[k].order < r[l].order
  {
    var rest, r := m.files[..i] + m.files[i + 1..], WithoutFile(m, i, listing).files;
    forall k | 0 <= k < |r| ensures 0 <= r[k].order < |r| { RestNumbered(m, i, listing, k); }
    forall k, l | 0 <= k < |r| && 0 <= l < |r| && k != l ensures r[k].order != r[l].order {
      RestNumbered(m, i, listing, k);
      RestNumbered(m, i, listing, l);
      assert rest[k].id != rest[l].id by { RestDistinct(m.files, i); }
    }
    forall k, l | 0 <= k < |r| && 0 <= l < |r| && rest[k].order < rest[l].order ensures r[k].order < r[l].order {
      RestNumbered(m, i, listing, k);
      RestNumbered(m, i, listing, l);
      RestBefore(m.files, listing, i, rest[k], rest[l]);
    }
  }

  lemma RestDistinct(files: seq<File>, i: nat)
    requires DistinctIds(files) && i < |files|
    ensures DistinctIds(files[..i] + files[i + 1..])
  {}

  lemma RestBefore(files: seq<File>, listing: seq<Id>, i: nat, f: File, g: File)
    requires Lists(files, listing) && i < |files| && f in files && g in files && f.id != files[i].id &&
        g.id != files[i].id && f.order < g.order
    ensures Position(WithoutId(listing, files[i].id), f.id) < Position(WithoutId(listing, files[i].id), g.id)
  {
    WithoutIdDrops(listing, files[i].id);
    var x :| 0 <= x < |files| && files[x] == f;
    var y :| 0 <= y < |files| && files[y] == g;
    assert Position(listing, files[x].id) < Position(listing, files[y].id);
  }

  // ---------- What an approval covers ----------

  /** What an owner may edit, the subject apart. */
  datatype Content = Content(details: Details, tags: set<Id>, files: seq<(Id, int)>)

  function FileList(files: seq<File>): (r: seq<(Id, int)>)
    ensures |r| == |files|
  {
    seq(|files|, i requires 0 <= i < |files| => (files[i].id, files[i].order))
  }

  function ContentOf(m: Material): Content { Content(m.details, m.tags, FileList(m.files)) }

  datatype Sanction = Sanction(content: Content, subject: Id)

  function Run(m: Material, steps: seq<Step>, limit: nat): Material
    decreases |steps|
  {
    if steps == [] then m else After(Run(m, steps[..|steps| - 1], limit), steps[|steps| - 1], limit)
  }

  /** What moderators have put their name to: the content and subject that the last approval saw, and after it the
      subject that a moderator chose. */
  function Sanctioned(m: Material, steps: seq<Step>, limit: nat): Option<Sanction>
    decreases |steps|
  {
    if steps == [] then None else
    var earlier, s := steps[..|steps| - 1], steps[|steps| - 1];
    Extended(Run(m, earlier, limit), s, limit, Sanctioned(m, earlier, limit))
  }

  function Extended(m: Material, s: Step, limit: nat, before: Option<Sanction>): Option<Sanction> {
    if !(s.ByModerator? && Apply(m, s, limit).Changed?) then before
    else if s.decision.Approve? then Some(Sanction(ContentOf(m), m.subject))
    else if s.decision.MoveSubject? && before.Some? then Some(before.value.(subject := s.decision.subject))
    else before
  }

  /** A step leaves a material approved in two ways only: it is the approval, which changes no content, or the material
      was approved before, the content is untouched, and only a moderator may have moved the subject. */
  lemma ApprovedSteps(m: Material, s: Step, limit: nat)
    requires After(m, s, limit).status == Approved
    ensures var m' := After(m, s, limit);
      && ContentOf(m') == ContentOf(m)
      && (m'.subject == m.subject || (s.ByModerator? && s.decision == MoveSubject(m'.subject, true)))
      && (m.status == Approved || (s.ByModerator? && s.decision.Approve? && Apply(m, s, limit).Changed?))
  {
    var m' := After(m, s, limit);
    match s
    case ByOwner(_, edit) => OwnerLeavesApproved(m, edit, limit);
    case PreviewBuilt(_, _) => assert FileList(m'.files) == FileList(m.files);
    case _ =>
  }

  lemma OwnerLeavesApproved(m: Material, edit: Edit, limit: nat)
    ensures var o := Owned(m, edit, limit);
      o.Changed? && o.material.status == Approved ==> o.material == m.(deleted := true) && m.status == Approved
  {}

  /** While a material is approved, its content is exactly what the last approval saw, and its subject what that
      approval saw or a moderator has moved it to since. */
  lemma {:induction false} ApprovedAsSanctioned(m: Material, steps: seq<Step>, limit: nat)
    requires m.status != Approved && Run(m, steps, limit).status == Approved
    ensures Sanctioned(m, steps, limit) == Some(Sanction(ContentOf(Run(m, steps, limit)), Run(m, steps, limit).subject))
    decreases |steps|
  {
    var earlier, s := steps[..|steps| - 1], steps[|steps| - 1];
    var before := Run(m, earlier, limit);
    ApprovedSteps(before, s, limit);
    if before.status == Approved { ApprovedAsSanctioned(m, earlier, limit); }
  }

  predicate AllFeasible(m: Material, steps: seq<Step>, limit: nat)
    decreases |steps|
  {
    steps == [] || (AllFeasible(m, steps[..|steps| - 1], limit) &&
        Feasible(Run(m, steps[..|steps| - 1], limit), steps[|steps| - 1]))
  }

  lemma {:induction false} RunKeeps(m: Material, steps: seq<Step>, limit: nat)
    requires Sound(m) && Counted(m, limit) && AllFeasible(m, steps, limit)
    ensures Sound(Run(m, steps, limit)) && Counted(Run(m, steps, limit), limit)
    decreases |steps|
  {
    if steps != [] {
      var earlier, s := steps[..|steps| - 1], steps[|steps| - 1];
      RunKeeps(m, earlier, limit);
      StepKeepsSound(Run(m, earlier, limit), s, limit);
      StepKeepsCounted(Run(m, earlier, limit), s, limit);
    }
  }

  /** Every run of a new draft: the status is the reading of its log, the counters are right, and once approved it has
      files, an approver, no reason of rejection, and the content that was approved. */
  lemma EveryRun(owner: Id, slug: string, details: Details, subject: Id, steps: seq<Step>, limit: nat)
    requires AllFeasible(NewDraft(owner, slug, details, subject), steps, limit)
    ensures var m := Run(NewDraft(owner, slug, details, subject), steps, limit);
      && Reading(m.log) == Some(m.status)
      && m.fileCount == |m.files| && m.totalSize == Sum(Sizes(m.files)) <= limit
      && m.downloadCount == |m.downloads| && Distinct(m.downloads)
      && (m.status == Approved ==>
            m.files != [] && m.approvedBy.Some? && m.rejectedReason.None?
            && Sanctioned(NewDraft(owner, slug, details, subject), steps, limit)
                == Some(Sanction(ContentOf(m), m.subject)))
  {
    var draft := NewDraft(owner, slug, details, subject);
    RunKeeps(draft, steps, limit);
    if Run(draft, steps, limit).status == Approved { ApprovedAsSanctioned(draft, steps, limit); }
  }
}
