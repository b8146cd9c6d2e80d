/** All materials with the storage and the caches: what every run of the services keeps. */
module MaterialWorld {
  import opened FiniteSets
  import opened Wrappers
  import opened Storage
  import opened MaterialReview
  import opened MaterialEffects
  import opened MaterialRuns
  import opened MaterialFiles
  import opened MaterialCache

  /** The rows, named by their index, the stored files, and the cached answers. */
  datatype World = World(rows: seq<Material>, store: Files, stats: Option<Stats>, trending: Option<seq<nat>>)

  datatype Op =
    | Create(owner: Id, slug: string, details: Details, subject: Id, subjectKnown: bool)
    | Act(id: nat, step: Step)
    | AttachUploads(id: nat, actor: Id, ins: seq<Incoming>, orders: seq<int>, course: Course)
    | RemoveFile(id: nat, actor: Id, file: Id, listing: seq<Id>, commits: bool, failing: set<string>)
    | BuildPreview(id: nat, file: Id, key: string, content: Bytes, commits: bool)
    | ExpireDrafts(stale: set<nat>)
    | ListTrending(found: seq<nat>, keeps: bool)
    | SummariseStats(keeps: bool)
    | Evict(ofStats: bool, ofTrending: bool)

  function Invalidated(w: World): World { w.(stats := None, trending := None) }

  function WithRow(w: World, id: nat, m: Material): World
    requires id < |w.rows|
  {
    w.(rows := w.rows[id := m])
  }

  /** Steps that touch neither the store nor rows of files. */
  predicate Plain(s: Step) {
    s.ByModerator? || s.Report? || s.Download? || (s.ByOwner? && !s.edit.AttachFiles? && !s.edit.DeleteFile?)
  }

  /** A changed row is committed and the caches are invalidated, unless it is a report, which changes no figure. */
  function Acted(w: World, id: nat, s: Step, c: Settings): World {
    if id >= |w.rows| then w else
    var o := Apply(w.rows[id], s, c.maxTotal);
    if !o.Changed? then w
    else if s.Report? then WithRow(w, id, o.material)
    else Invalidated(WithRow(w, id, o.material))
  }

  /** Orders with repetitions are replaced by the next free numbers. */
  function Normalized(orders: seq<int>, count: int): (r: seq<int>)
    ensures |r| == |orders|
  {
    if |set o | o in orders| != |orders| then seq(|orders|, i => count + i) else orders
  }

  function AttachRefused(m: Material, actor: Id, uploads: nat, orders: nat, c: Settings): Option<Error> {
    if m.deleted then Some(NotFound) else if m.owner != actor then Some(Denied)
        else if m.status != Draft then Some(Conflict)
    else if uploads != orders || uploads > c.maxCount then Some(Invalid) else None
  }

  function Attached(w: World, id: nat, actor: Id, ins: seq<Incoming>, orders: seq<int>, course: Course,
      c: Settings): World {
    if id >= |w.rows| || AttachRefused(w.rows[id], actor, |ins|, |orders|, c).Some? then w else
    var m := w.rows[id];
    var a := Attach(w.store, m.totalSize, ins, Normalized(orders, m.fileCount), c, course);
    if a.files.None? then w.(store := a.store) else
    var w' := WithRow(w, id, After(m, ByOwner(actor, AttachFiles(a.files.value)), c.maxTotal)).(store := a.store);
    if a.raised then w' else Invalidated(w')
  }

  function FileKeys(f: File): set<string> { {f.key} + (if f.preview.Some? then {f.preview.value} else {}) }

  /** The row goes first; then the stored files, as far as deleting them works. */
  function Removed(w: World, id: nat, actor: Id, file: Id, listing: seq<Id>, commits: bool, failing: set<string>,
      c: Settings): World {
    if id >= |w.rows| then w else
    var o, i := Apply(w.rows[id], ByOwner(actor, DeleteFile(file, listing)), c.maxTotal), Place(w.rows[id].files, file);
    if !o.Changed? || !commits || i == |w.rows[id].files| then w
    else Invalidated(WithRow(w, id, o.material).(store := w.store - (FileKeys(w.rows[id].files[i]) - failing)))
  }

  function WithPreview(w: World, id: nat, file: Id, key: string, content: Bytes, commits: bool, c: Settings): World {
    if id >= |w.rows| then w else
    var o := Apply(w.rows[id], PreviewBuilt(file, key), c.maxTotal);
    if !o.Changed? then w
    else if !commits then w.(store := w.store[key := content])
    else WithRow(w, id, o.material).(store := w.store[key := content])
  }

  function Expired(w: World, stale: set<nat>, c: Settings): World {
    var rows := seq(|w.rows|, i
        requires 0 <= i < |w.rows| => if i in stale then After(w.rows[i], Expire, c.maxTotal) else w.rows[i]);
    if rows == w.rows then w else Invalidated(w.(rows := rows))
  }

  /** A cached list answers if it is not empty and none of its materials has been deleted. */
  predicate Hit(w: World) {
    w.trending.Some? && w.trending.value != [] && forall i | 0 <= i < |w.trending.value| ::
        w.trending.value[i] < |w.rows| && !w.rows[w.trending.value[i]].deleted
  }

  function Performed(w: World, op: Op, c: Settings): World {
    match op
    case Create(owner, slug, details, subject, known) =>
      if known then Invalidated(w.(rows := w.rows + [NewDraft(owner, slug, details, subject)])) else w
    case Act(id, s) => Acted(w, id, s, c)
    case AttachUploads(id, actor, ins, orders, course) => Attached(w, id, actor, ins, orders, course, c)
    case RemoveFile(id, actor, file, listing, commits, failing) => Removed(w, id, actor, file, listing, commits,
        failing, c)
    case BuildPreview(id, file, key, content, commits) => WithPreview(w, id, file, key, content, commits, c)
    case ExpireDrafts(stale) => Expired(w, stale, c)
    case ListTrending(found, keeps) => if Hit(w) || !keeps then w else w.(trending := Some(found))
    case SummariseStats(keeps) => if w.stats.Some? || !keeps then w else w.(stats := Some(StatsOf(w.rows)))
    case Evict(s, t) => w.(stats := if s then None else w.stats, trending := if t then None else w.trending)
  }

  // ---------- What holds in every run ----------

  predicate NewIds(files: seq<File>, ins: seq<Incoming>) {
    && (forall i, j | 0 <= i < j < |ins| :: ins[i].id != ins[j].id)
    && (forall f, u | f in files && u in ins :: f.id != u.id)
  }

  /** The slugs taken, those of deleted materials too. */
  function Slugs(rows: seq<Material>): set<string> { set m | m in rows :: m.slug }

  predicate SlugsApart(rows: seq<Material>) { forall i, j | 0 <= i < j < |rows| :: rows[i].slug != rows[j].slug }

  /** New slugs, keys and ids are new, the database lists and sorts as asked, and caches can be invalidated. */
  predicate Possible(w: World, op: Op) {
    match op
    case Create(_, slug, _, _, _) => slug !in Slugs(w.rows)
    case Act(_, s) => Plain(s)
    case AttachUploads(id, _, ins, _, course) => NewKeys(w.store, ins) && course.invalidates &&
        (id < |w.rows| ==> NewIds(w.rows[id].files, ins))
    case RemoveFile(id, _, _, listing, _, _) => id < |w.rows| ==> Lists(w.rows[id].files, listing)
    case BuildPreview(_, _, key, _, _) => key !in w.store
    case ListTrending(found, _) => TopTen(w.rows, found)
    case _ => true
  }

  predicate AllBacked(rows: seq<Material>, store: Files) {
    forall i, f | 0 <= i < |rows| && f in rows[i].files :: Backed(store, f)
  }

  predicate Uses(rows: seq<Material>, i: nat, id: Id, k: string) {
    i < |rows| && exists f :: f in rows[i].files && f.id == id && k in FileKeys(f)
  }

  /** No two files share a key. */
  ghost predicate Apart(rows: seq<Material>) {
    forall i: nat, j: nat, a, b, k :: Uses(rows, i, a, k) && Uses(rows, j, b, k) ==> i == j && a == b
  }

  /** A cached answer is the one that would be computed now. */
  predicate CacheRight(w: World) {
    (w.stats.Some? ==> w.stats.value == StatsOf(w.rows)) && (w.trending.Some? ==> TopTen(w.rows, w.trending.value))
  }

  ghost predicate Inv(w: World, c: Settings) {
    && (forall i | 0 <= i < |w.rows| :: Sound(w.rows[i]) && Counted(w.rows[i], c.maxTotal))
    && AllBacked(w.rows, w.store) && Apart(w.rows) && CacheRight(w) && SlugsApart(w.rows)
  }

  // ---------- Rows ----------

  lemma AttachFeasible(m: Material, actor: Id, ins: seq<Incoming>, orders: seq<int>, files: seq<File>)
    requires DistinctIds(m.files) && NewIds(m.files, ins) && |files| == |ins| == |orders|
    requires forall i | 0 <= i < |ins| :: FromUpload(files[i], ins[i], orders[i])
    ensures Feasible(m, ByOwner(actor, AttachFiles(files)))
  {
    var all := m.files + files;
    forall i, j | 0 <= i < j < |all| ensures all[i].id != all[j].id {
      if j >= |m.files| {
        assert FromUpload(files[j - |m.files|], ins[j - |m.files|], orders[j - |m.files|]);
        if i >= |m.files| {
          assert FromUpload(files[i - |m.files|], ins[i - |m.files|], orders[i - |m.files|]);
        } else {
          assert m.files[i] in m.files && ins[j - |m.files|] in ins;
        }
      }
    }
  }

  /** The step that an operation takes a row by, if any. */
  function StepOf(w: World, op: Op, i: nat, c: Settings): Option<Step>
    requires i < |w.rows|
  {
    match op
    case Act(id, s) => if id == i then Some(s) else None
    case AttachUploads(id, actor, ins, orders, course) =>
      if id != i || AttachRefused(w.rows[i], actor, |ins|, |orders|, c).Some? then None else
      var a := Attach(w.store, w.rows[i].totalSize, ins, Normalized(orders, w.rows[i].fileCount), c, course);
      if a.files.None? then None else Some(ByOwner(actor, AttachFiles(a.files.value)))
    case RemoveFile(id, actor, file, listing, commits, _) => if id == i && commits
        then Some(ByOwner(actor, DeleteFile(file, listing))) else None
    case BuildPreview(id, file, key, _, commits) => if id == i && commits then Some(PreviewBuilt(file, key)) else None
    case ExpireDrafts(stale) => if i in stale then Some(Expire) else None
    case _ => None
  }

  function Stepped(m: Material, s: Option<Step>, limit: nat): Material {
    if s.None? then m else After(m, s.value, limit)
  }

  lemma AttachStepFeasible(w: World, id: nat, actor: Id, ins: seq<Incoming>, orders: seq<int>, course: Course,
      c: Settings)
    requires id < |w.rows| && Counted(w.rows[id], c.maxTotal) && NewKeys(w.store, ins) && NewIds(w.rows[id].files, ins)
    ensures var s := StepOf(w, AttachUploads(id, actor, ins, orders, course), id, c); s.Some? ==>
        Feasible(w.rows[id], s.value)
  {
    var m := w.rows[id];
    if AttachRefused(m, actor, |ins|, |orders|, c).None? {
      var numbers := Normalized(orders, m.fileCount);
      AttachIsSafe(w.store, m.totalSize, ins, numbers, c, course);
      var a := Attach(w.store, m.totalSize, ins, numbers, c, course);
      if a.files.Some? { AttachFeasible(m, actor, ins, numbers, a.files.value); }
    }
  }

  lemma RemovedRow(w: World, id: nat, actor: Id, file: Id, listing: seq<Id>, commits: bool, failing: set<string>,
      c: Settings)
    requires id < |w.rows|
    ensures Removed(w, id, actor, file, listing, commits, failing, c).rows
         == if commits then w.rows[id := After(w.rows[id], ByOwner(actor, DeleteFile(file, listing)), c.maxTotal)]
             else w.rows
  {
    assert w.rows[id := w.rows[id]] == w.rows;
    if Apply(w.rows[id], ByOwner(actor, DeleteFile(file, listing)), c.maxTotal).Changed? {
      DeletionDrops(w.rows[id], file, listing);
    }
  }

  lemma RowAttached(w: World, op: Op, c: Settings, i: nat)
    requires op.AttachUploads? && i < |w.rows|
    ensures |Performed(w, op, c).rows| == |w.rows| &&
        Performed(w, op, c).rows[i] == Stepped(w.rows[i], StepOf(w, op, i, c), c.maxTotal)
  {}

  /** Each row moves by its own feasible step, and new rows are new drafts. */
  lemma RowsStep(w: World, op: Op, c: Settings, i: nat)
    requires Possible(w, op) && i < |w.rows| && Counted(w.rows[i], c.maxTotal)
    ensures i < |Performed(w, op, c).rows| &&
        Performed(w, op, c).rows[i] == Stepped(w.rows[i], StepOf(w, op, i, c), c.maxTotal)
    ensures StepOf(w, op, i, c).Some? ==> Feasible(w.rows[i], StepOf(w, op, i, c).value)
  {
    match op
    case AttachUploads(id, actor, ins, orders, course) =>
      RowAttached(w, op, c, i);
      if i == id { AttachStepFeasible(w, id, actor, ins, orders, course, c); }
    case RemoveFile(id, actor, file, listing, commits, failing) => if id < |w.rows| {
      RemovedRow(w, id, actor, file, listing, commits, failing, c);
    }
    case _ =>
  }

  lemma RowsStaySound(w: World, op: Op, c: Settings, i: nat)
    requires Possible(w, op) && (forall k | 0 <= k < |w.rows| :: Sound(w.rows[k]) && Counted(w.rows[k], c.maxTotal)) &&
        i < |Performed(w, op, c).rows|
    ensures Sound(Performed(w, op, c).rows[i]) && Counted(Performed(w, op, c).rows[i], c.maxTotal)
  {
    if i < |w.rows| {
      RowsStep(w, op, c, i);
      var s := StepOf(w, op, i, c);
      if s.Some? {
        StepKeepsSound(w.rows[i], s.value, c.maxTotal);
        StepKeepsCounted(w.rows[i], s.value, c.maxTotal);
      }
    } else {
      NewRowsAreDrafts(w, op, c, i);
    }
  }

  lemma RowKeepsSlug(w: World, op: Op, c: Settings, i: nat)
    requires Possible(w, op) && i < |w.rows| && Counted(w.rows[i], c.maxTotal)
    ensures i < |Performed(w, op, c).rows| && Performed(w, op, c).rows[i].slug == w.rows[i].slug
  {
    RowsStep(w, op, c, i);
    if StepOf(w, op, i, c).Some? { SlugStays(w.rows[i], StepOf(w, op, i, c).value, c.maxTotal); }
  }

  /** No two materials ever share a slug. */
  lemma SlugsStayApart(w: World, op: Op, c: Settings)
    requires Possible(w, op) && SlugsApart(w.rows) && forall k | 0 <= k < |w.rows| :: Counted(w.rows[k], c.maxTotal)
    ensures SlugsApart(Performed(w, op, c).rows)
  {
    var rows' := Performed(w, op, c).rows;
    forall i, j | 0 <= i < j < |rows'| ensures rows'[i].slug != rows'[j].slug {
      if j < |w.rows| {
        RowKeepsSlug(w, op, c, i);
        RowKeepsSlug(w, op, c, j);
      } else {
        NewRowsAreDrafts(w, op, c, j);
        if i < |w.rows| {
          RowKeepsSlug(w, op, c, i);
          assert w.rows[i].slug in Slugs(w.rows);
        }
      }
    }
  }

  lemma NewRowsAreDrafts(w: World, op: Op, c: Settings, i: nat)
    requires |w.rows| <= i < |Performed(w, op, c).rows|
    ensures op.Create? && i == |w.rows| &&
        Performed(w, op, c).rows[i] == NewDraft(op.owner, op.slug, op.details, op.subject)
  {}

  // ---------- What each operation does ----------

  /** A new draft is added for a known subject, and nothing otherwise. */
  lemma CreateAdds(w: World, owner: Id, slug: string, details: Details, subject: Id, known: bool, c: Settings)
    ensures var w' := Performed(w, Create(owner, slug, details, subject, known), c);
      && w'.rows == w.rows + (if known then [NewDraft(owner, slug, details, subject)] else [])
      && w'.store == w.store && (!known ==> w' == w)
  {}

  /** A step takes its own row where its conditions hold, and no other; refused, it changes nothing at all. */
  lemma ActDoes(w: World, id: nat, s: Step, c: Settings)
    ensures var w' := Performed(w, Act(id, s), c);
      if id < |w.rows| && Allowed(w.rows[id], s, c.maxTotal)
      then w'.rows == w.rows[id := After(w.rows[id], s, c.maxTotal)] && w'.store == w.store
      else w' == w
  {
    if id < |w.rows| { ChangedIff(w.rows[id], s, c.maxTotal); }
  }

  /** A file that may be deleted is taken out of its row if the commit works, and then exactly those of its stored keys
      go whose deletion works. */
  lemma RemoveDoes(w: World, id: nat, actor: Id, file: Id, listing: seq<Id>, commits: bool, failing: set<string>,
      c: Settings)
    ensures var w' := Performed(w, RemoveFile(id, actor, file, listing, commits, failing), c);
      var s := ByOwner(actor, DeleteFile(file, listing));
      if id < |w.rows| && Allowed(w.rows[id], s, c.maxTotal) && commits
      then
        && w'.rows == w.rows[id := After(w.rows[id], s, c.maxTotal)]
        && var i := Place(w.rows[id].files, file);
           i < |w.rows[id].files| &&
           var f := w.rows[id].files[i];
           f.id == file && forall k: string ::
             && (k in w'.store <==> k in w.store && (k in failing || (k != f.key && f.preview != Some(k))))
             && (k in w'.store ==> w'.store[k] == w.store[k])
      else w' == w
  {
    if id < |w.rows| {
      ChangedIff(w.rows[id], ByOwner(actor, DeleteFile(file, listing)), c.maxTotal);
      PlaceIff(w.rows[id], file);
    }
  }

  /** A preview is stored when its file has none, and noted if the commit works. */
  lemma PreviewDoes(w: World, id: nat, file: Id, key: string, content: Bytes, commits: bool, c: Settings)
    ensures var w' := Performed(w, BuildPreview(id, file, key, content, commits), c);
      var s := PreviewBuilt(file, key);
      if id < |w.rows| && Allowed(w.rows[id], s, c.maxTotal)
      then
        && w'.store == w.store[key := content]
        && w'.rows == if commits then w.rows[id := After(w.rows[id], s, c.maxTotal)] else w.rows
      else w' == w
  {
    if id < |w.rows| { ChangedIff(w.rows[id], PreviewBuilt(file, key), c.maxTotal); }
  }

  /** Uploads are tried where they may be attached, and their rows are added exactly when the attempt commits. */
  lemma AttachDoes(w: World, id: nat, actor: Id, ins: seq<Incoming>, orders: seq<int>, course: Course, c: Settings)
    requires NewKeys(w.store, ins)
    ensures var w' := Performed(w, AttachUploads(id, actor, ins, orders, course), c);
      if id < |w.rows| && AttachRefused(w.rows[id], actor, |ins|, |orders|, c) == None
      then
        var m := w.rows[id];
        var a := Attach(w.store, m.totalSize, ins, Normalized(orders, m.fileCount), c, course);
        && w'.store == a.store
        && w'.rows == if a.files.None? then w.rows else w.rows[id := FilesAttached(m, a.files.value)]
      else w' == w
  {
    if id < |w.rows| && AttachRefused(w.rows[id], actor, |ins|, |orders|, c) == None {
      var m := w.rows[id];
      AttachIsSafe(w.store, m.totalSize, ins, Normalized(orders, m.fileCount), c, course);
    }
  }

  /** The clean-up deletes exactly the stale drafts, and reading fills a cache at most. */
  lemma OthersDo(w: World, op: Op, c: Settings)
    requires op.ExpireDrafts? || op.ListTrending? || op.SummariseStats? || op.Evict?
    ensures var w' := Performed(w, op, c);
      && w'.store == w.store && |w'.rows| == |w.rows|
      && forall i | 0 <= i < |w.rows| :: w'.rows[i] ==
           if op.ExpireDrafts? && i in op.stale && w.rows[i].status == Draft then w.rows[i].(deleted := true)
           else w.rows[i]
  {}

  /** The positions given to new files are different: those asked for, or the next free numbers. */
  lemma NormalizedApart(orders: seq<int>, count: int)
    ensures var r := Normalized(orders, count);
      && (forall i, j | 0 <= i < j < |r| :: r[i] != r[j])
      && (if forall i, j | 0 <= i < j < |orders| :: orders[i] != orders[j] then r == orders
          else forall i | 0 <= i < |r| :: r[i] == count + i)
  {
    ElementsSize(orders);
    assert Elements(orders) == set o | o in orders;
  }

  /** Files may be attached to a draft of one's own, with a position each and no more than the limit. */
  lemma AttachRefusedIff(m: Material, actor: Id, uploads: nat, orders: nat, c: Settings)
    ensures AttachRefused(m, actor, uploads, orders, c) == None <==>
        !m.deleted && m.owner == actor && m.status == Draft && uploads == orders && uploads <= c.maxCount
    ensures m.deleted ==> AttachRefused(m, actor, uploads, orders, c) == Some(NotFound)
    ensures !m.deleted && m.owner != actor ==> AttachRefused(m, actor, uploads, orders, c) == Some(Denied)
    ensures !m.deleted && m.owner == actor && m.status != Draft ==>
        AttachRefused(m, actor, uploads, orders, c) == Some(Conflict)
  {}

  // ---------- Stored files ----------

  /** Up to their order, the files of a row are among those of another. */
  predicate FilesFrom(files': seq<File>, files: seq<File>) { Bare(files') <= Bare(files) }

  function Bare(files: seq<File>): set<File> { set f | f in files :: f.(order := 0) }

  lemma Source(files': seq<File>, files: seq<File>, f: File) returns (g: File)
    requires FilesFrom(files', files) && f in files'
    ensures g in files && f == g.(order := f.order)
  {
    assert f.(order := 0) in Bare(files');
    g :| g in files && f.(order := 0) == g.(order := 0);
    assert f == g.(order := f.order);
  }

  predicate RowsFrom(rows': seq<Material>, rows: seq<Material>) {
    forall i | 0 <= i < |rows'| :: if i < |rows| then FilesFrom(rows'[i].files, rows[i].files) else rows'[i].files == []
  }

  lemma RowsFromKeeps(rows': seq<Material>, rows: seq<Material>, store: Files)
    requires RowsFrom(rows', rows) && AllBacked(rows, store) && Apart(rows)
    ensures AllBacked(rows', store) && Apart(rows')
  {
    forall i, f | 0 <= i < |rows'| && f in rows'[i].files ensures Backed(store, f) {
      var g := Source(rows'[i].files, rows[i].files, f);
      assert Backed(store, g);
    }
    forall i: nat, a, k | Uses(rows', i, a, k) ensures Uses(rows, i, a, k) {
      var f :| f in rows'[i].files && f.id == a && k in FileKeys(f);
      var g := Source(rows'[i].files, rows[i].files, f);
      assert g.id == a && k in FileKeys(g);
    }
  }

  lemma RenumberedFrom(files: seq<File>, ids: seq<Id>)
    ensures FilesFrom(Renumbered(files, ids), files)
  {
    var r := Renumbered(files, ids);
    forall b | b in Bare(r) ensures b in Bare(files) {
      var i :| 0 <= i < |r| && r[i].(order := 0) == b;
      assert files[i] in files && b == files[i].(order := 0);
    }
  }

  lemma OwnerKeepsFiles(m: Material, edit: Edit, limit: nat)
    requires !edit.AttachFiles? && !edit.DeleteFile? && Owned(m, edit, limit).Changed?
    ensures Owned(m, edit, limit).material.files == if edit.ReorderFiles? then Renumbered(m.files, edit.ids)
        else m.files
  {}

  lemma PlainKeepsFiles(m: Material, s: Step, limit: nat)
    requires Plain(s) || s.Expire?
    ensures FilesFrom(After(m, s, limit).files, m.files)
  {
    if s.ByOwner? {
      if Apply(m, s, limit).Changed? {
        OwnerKeepsFiles(m, s.edit, limit);
        if s.edit.ReorderFiles? { RenumberedFrom(m.files, s.edit.ids); }
      }
    } else {
      assert After(m, s, limit).files == m.files;
    }
  }

  lemma PlainOpsKeepFiles(w: World, op: Op, c: Settings)
    requires Possible(w, op) && !op.AttachUploads? && !op.RemoveFile? && !op.BuildPreview?
    ensures RowsFrom(Performed(w, op, c).rows, w.rows) && Performed(w, op, c).store == w.store
  {
    var rows' := Performed(w, op, c).rows;
    forall i | 0 <= i < |w.rows| ensures FilesFrom(rows'[i].files, w.rows[i].files) {
      if op.Act? { PlainKeepsFiles(w.rows[i], op.step, c.maxTotal); }
      if op.ExpireDrafts? { PlainKeepsFiles(w.rows[i], Expire, c.maxTotal); }
    }
  }

  lemma ExtendedStoreBacks(rows: seq<Material>, store: Files, store': Files)
    requires AllBacked(rows, store) && Extends(store, store')
    ensures AllBacked(rows, store')
  {
    forall i, f | 0 <= i < |rows| && f in rows[i].files ensures Backed(store', f) { assert Backed(store, f); }
  }

  lemma UsedIsStored(rows: seq<Material>, store: Files, i: nat, a: Id, k: string)
    requires AllBacked(rows, store) && Uses(rows, i, a, k)
    ensures k in store
  {
    var f :| f in rows[i].files && f.id == a && k in FileKeys(f);
    assert Backed(store, f);
  }

  /** Two uses of one key, after files were appended under new keys, are one. */
  lemma OneUse(rows: seq<Material>, store: Files, id: nat, m': Material, ins: seq<Incoming>, files: seq<File>,
      orders: seq<int>,
               i: nat, a: Id, j: nat, b: Id, k: string)
    requires id < |rows| && AllBacked(rows, store) && Apart(rows) && NewKeys(store, ins) && |files| == |ins| == |orders|
    requires m'.files == rows[id].files + files && forall x | 0 <= x < |ins| :: FromUpload(files[x], ins[x], orders[x])
    requires Uses(rows[id := m'], i, a, k) && Uses(rows[id := m'], j, b, k)
    ensures i == j && a == b
  {
    UseIsOldOrNew(rows, id, m', ins, files, orders, i, a, k);
    UseIsOldOrNew(rows, id, m', ins, files, orders, j, b, k);
    if Uses(rows, i, a, k) {
      UsedIsStored(rows, store, i, a, k);
      NewIsUnstored(store, ins, k);
    } else {
      if Uses(rows, j, b, k) { UsedIsStored(rows, store, j, b, k); }
      NewIsUnstored(store, ins, k);
      var x :| 0 <= x < |ins| && k in KeysOf(ins[x]) && ins[x].id == a;
      var y :| 0 <= y < |ins| && k in KeysOf(ins[y]) && ins[y].id == b;
      NewIsOnce(store, ins, k, x, y);
    }
  }

  lemma NewIsUnstored(store: Files, ins: seq<Incoming>, k: string)
    requires NewKeys(store, ins)
    ensures k in store ==> forall x | 0 <= x < |ins| :: k !in KeysOf(ins[x])
  {
    forall x | 0 <= x < |ins| ensures KeysOf(ins[x]) !! store.Keys {}
  }

  lemma NewIsOnce(store: Files, ins: seq<Incoming>, k: string, x: nat, y: nat)
    requires NewKeys(store, ins) && x < |ins| && y < |ins| && k in KeysOf(ins[x]) && k in KeysOf(ins[y])
    ensures x == y
  {}

  lemma AppendedFilesApart(rows: seq<Material>, store: Files, id: nat, m': Material, ins: seq<Incoming>,
      files: seq<File>, orders: seq<int>)
    requires id < |rows| && AllBacked(rows, store) && Apart(rows) && NewKeys(store, ins) && |files| == |ins| == |orders|
    requires m'.files == rows[id].files + files && forall i | 0 <= i < |ins| :: FromUpload(files[i], ins[i], orders[i])
    ensures Apart(rows[id := m'])
  {
    var rows' := rows[id := m'];
    forall i: nat, j: nat, a, b, k | Uses(rows', i, a, k) && Uses(rows', j, b, k) ensures i == j && a == b {
      OneUse(rows, store, id, m', ins, files, orders, i, a, j, b, k);
    }
  }

  lemma UseIsOldOrNew(rows: seq<Material>, id: nat, m': Material, ins: seq<Incoming>, files: seq<File>,
      orders: seq<int>, i: nat, a: Id, k: string)
    requires id < |rows| && |files| == |ins| == |orders| && Uses(rows[id := m'], i, a, k)
    requires m'.files == rows[id].files + files && forall x | 0 <= x < |ins| :: FromUpload(files[x], ins[x], orders[x])
    ensures Uses(rows, i, a, k) || (i == id && exists x :: 0 <= x < |ins| && k in KeysOf(ins[x]) && ins[x].id == a)
  {
    var f :| f in rows[id := m'][i].files && f.id == a && k in FileKeys(f);
    if i == id && f in files {
      var x :| 0 <= x < |files| && files[x] == f;
      assert FromUpload(files[x], ins[x], orders[x]);
    } else {
      assert f in rows[i].files;
    }
  }

  lemma AttachedFilesKeep(rows: seq<Material>, store: Files, store': Files, id: nat, m': Material, ins: seq<Incoming>,
      files: seq<File>, numbers: seq<int>)
    requires id < |rows| && AllBacked(rows, store) && Apart(rows) && NewKeys(store, ins) &&
        |files| == |ins| == |numbers|
    requires m'.files == rows[id].files + files && forall i | 0 <= i < |ins| :: FromUpload(files[i], ins[i], numbers[i])
    requires Extends(store, store') && forall f <- files :: Backed(store', f)
    ensures AllBacked(rows[id := m'], store') && Apart(rows[id := m'])
  {
    ExtendedStoreBacks(rows, store, store');
    AppendedFilesApart(rows, store, id, m', ins, files, numbers);
  }

  /** The row after an attempt: as before, or with the files appended. */
  lemma AttachedRowFiles(m: Material, actor: Id, files: seq<File>, limit: nat)
    ensures var m' := After(m, ByOwner(actor, AttachFiles(files)), limit); m' == m || m'.files == m.files + files
  {}

  lemma AttachKeepsStored(w: World, id: nat, actor: Id, ins: seq<Incoming>, orders: seq<int>, course: Course,
      c: Settings)
    requires Possible(w, AttachUploads(id, actor, ins, orders, course)) && AllBacked(w.rows, w.store) && Apart(w.rows)
    ensures var w' := Attached(w, id, actor, ins, orders, course, c); AllBacked(w'.rows, w'.store) && Apart(w'.rows)
  {
    if id < |w.rows| && AttachRefused(w.rows[id], actor, |ins|, |orders|, c).None? {
      var m := w.rows[id];
      var numbers := Normalized(orders, m.fileCount);
      var a := Attach(w.store, m.totalSize, ins, numbers, c, course);
      AttachIsSafe(w.store, m.totalSize, ins, numbers, c, course);
      ExtendedStoreBacks(w.rows, w.store, a.store);
      if a.files.Some? {
        var m' := After(m, ByOwner(actor, AttachFiles(a.files.value)), c.maxTotal);
        AttachedRowFiles(m, actor, a.files.value, c.maxTotal);
        if m' != m {
          assert !a.raised;
          AttachedFilesKeep(w.rows, w.store, a.store, id, m', ins, a.files.value, numbers);
        }
        assert w.rows[id := m] == w.rows;
      }
    }
  }

  lemma RemovalKeepsOthers(m: Material, i: nat, listing: seq<Id>)
    requires i < |m.files| && DistinctIds(m.files)
    ensures FilesFrom(WithoutFile(m, i, listing).files, m.files)
    ensures forall f <- WithoutFile(m, i, listing).files :: f.id != m.files[i].id
  {
    var rest, r := m.files[..i] + m.files[i + 1..], WithoutFile(m, i, listing).files;
    forall x | 0 <= x < |r| ensures r[x].id != m.files[i].id && r[x].(order := 0) in Bare(m.files) {
      assert rest[x] == m.files[if x < i then x else x + 1] && rest[x] in m.files;
      assert r[x].(order := 0) == rest[x].(order := 0);
    }
  }

  lemma OtherFileStays(rows: seq<Material>, store: Files, id: nat, target: File, gone: set<string>, x: nat, f: File,
      g: File)
    requires AllBacked(rows, store) && Apart(rows) && id < |rows| && target in rows[id].files &&
        gone <= FileKeys(target)
    requires x < |rows| && g in rows[x].files && f == g.(order := f.order) && (x != id || f.id != target.id)
    ensures Backed(store - gone, f)
  {
    assert Backed(store, g);
    KeysDiffer(rows, x, g, id, target);
    assert f.key in FileKeys(g) && (f.preview.Some? ==> f.preview.value in FileKeys(g));
  }

  /** Without a file, and without some of its stored keys, everything else is still there. */
  lemma RemovalKeepsStored(rows: seq<Material>, store: Files, id: nat, m': Material, target: File, gone: set<string>)
    requires AllBacked(rows, store) && Apart(rows) && id < |rows| && target in rows[id].files &&
        gone <= FileKeys(target)
    requires FilesFrom(m'.files, rows[id].files) && forall f <- m'.files :: f.id != target.id
    ensures AllBacked(rows[id := m'], store - gone) && Apart(rows[id := m'])
  {
    var rows' := rows[id := m'];
    RowsFromKeeps(rows', rows, store);
    forall x, f | 0 <= x < |rows'| && f in rows'[x].files ensures Backed(store - gone, f) {
      var g := Source(rows'[x].files, rows[x].files, f);
      OtherFileStays(rows, store, id, target, gone, x, f, g);
    }
  }

  lemma KeysDiffer(rows: seq<Material>, x: nat, g: File, y: nat, h: File)
    requires Apart(rows) && x < |rows| && y < |rows| && g in rows[x].files && h in rows[y].files &&
        (x != y || g.id != h.id)
    ensures FileKeys(g) !! FileKeys(h)
  {
    forall k | k in FileKeys(g) && k in FileKeys(h) ensures false {
      assert Uses(rows, x, g.id, k) && Uses(rows, y, h.id, k);
    }
  }

  lemma RemoveKeepsStored(w: World, id: nat, actor: Id, file: Id, listing: seq<Id>, commits: bool,
      failing: set<string>, c: Settings)
    requires AllBacked(w.rows, w.store) && Apart(w.rows) && (id < |w.rows| ==> DistinctIds(w.rows[id].files))
    ensures var w' := Removed(w, id, actor, file, listing, commits, failing, c);
      AllBacked(w'.rows, w'.store) && Apart(w'.rows)
  {
    if id < |w.rows| && Place(w.rows[id].files, file) < |w.rows[id].files| {
      var m, i := w.rows[id], Place(w.rows[id].files, file);
      var o := Apply(m, ByOwner(actor, DeleteFile(file, listing)), c.maxTotal);
      if o.Changed? {
        DeletionDrops(m, file, listing);
        RemovalKeepsOthers(Rereviewed(m), i, listing);
        RemovalKeepsStored(w.rows, w.store, id, o.material, m.files[i], FileKeys(m.files[i]) - failing);
      }
    }
  }

  lemma DeletionDrops(m: Material, file: Id, listing: seq<Id>)
    requires Owned(m, DeleteFile(file, listing), 0).Changed?
    ensures Place(m.files, file) < |m.files| &&
        Owned(m, DeleteFile(file, listing), 0).material == WithoutFile(Rereviewed(m), Place(m.files, file), listing)
  {}

  lemma PreviewKeepsStored(w: World, id: nat, file: Id, key: string, content: Bytes, commits: bool, c: Settings)
    requires AllBacked(w.rows, w.store) && Apart(w.rows) && key !in w.store
    ensures var w' := WithPreview(w, id, file, key, content, commits, c); AllBacked(w'.rows, w'.store) && Apart(w'.rows)
  {
    var w' := WithPreview(w, id, file, key, content, commits, c);
    ExtendedStoreBacks(w.rows, w.store, w.store[key := content]);
    if w'.rows != w.rows {
      var m, n := w.rows[id], Place(w.rows[id].files, file);
      forall x, f | 0 <= x < |w'.rows| && f in w'.rows[x].files ensures Backed(w'.store, f) {
        if f !in w.rows[x].files { assert f == m.files[n].(preview := Some(key)) && Backed(w.store, m.files[n]); }
      }
      forall x: nat, a, k | Uses(w'.rows, x, a, k)
          ensures Uses(w.rows, x, a, k) || (k == key && x == id && a == m.files[n].id) {
        var f :| f in w'.rows[x].files && f.id == a && k in FileKeys(f);
        if f !in w.rows[x].files { assert m.files[n] in m.files && f == m.files[n].(preview := Some(key)); }
      }
      forall x: nat, a | Uses(w.rows, x, a, key) ensures false { UsedIsStored(w.rows, w.store, x, a, key); }
    }
  }

  // ---------- Caches ----------

  /** Every operation that changes a figure the cached answers are computed from drops both of them. */
  lemma FiguresOrDropped(w: World, op: Op, c: Settings)
    requires Possible(w, op)
    ensures var w' := Performed(w, op, c);
      SameTable(w.rows, w'.rows) || (w'.stats.None? && w'.trending.None?)
  {
    match op
    case AttachUploads(id, actor, ins, orders, course) =>
      if id < |w.rows| && AttachRefused(w.rows[id], actor, |ins|, |orders|, c).None? {
        AttachIsSafe(w.store, w.rows[id].totalSize, ins, Normalized(orders, w.rows[id].fileCount), c, course);
      }
    case _ =>
  }

  lemma SameTableStaysRight(w: World, w': World)
    requires CacheRight(w) && SameTable(w.rows, w'.rows) && (w'.stats == w.stats || w'.stats.None?) &&
        (w'.trending == w.trending || w'.trending.None?)
    ensures CacheRight(w')
  {
    if w.trending.Some? { SameAnswers(w.rows, w'.rows, w.trending.value); }
    SameAnswers(w.rows, w'.rows, []);
  }

  /** Only the two readings fill a cache. */
  lemma NothingElseCaches(w: World, op: Op, c: Settings)
    requires !op.ListTrending? && !op.SummariseStats?
    ensures var w' := Performed(w, op, c);
      (w'.stats == w.stats || w'.stats.None?) && (w'.trending == w.trending || w'.trending.None?)
  {}

  /** A cached answer stays the one that would be computed now. */
  lemma CacheStaysRight(w: World, op: Op, c: Settings)
    requires Possible(w, op) && CacheRight(w)
    ensures CacheRight(Performed(w, op, c))
  {
    if !op.ListTrending? && !op.SummariseStats? {
      FiguresOrDropped(w, op, c);
      NothingElseCaches(w, op, c);
      if SameTable(w.rows, Performed(w, op, c).rows) { SameTableStaysRight(w, Performed(w, op, c)); }
    }
  }

  // ---------- Runs ----------

  lemma StepKeepsInv(w: World, op: Op, c: Settings)
    requires Inv(w, c) && Possible(w, op)
    ensures Inv(Performed(w, op, c), c)
  {
    forall i | 0 <= i < |Performed(w, op, c).rows|
        ensures Sound(Performed(w, op, c).rows[i]) && Counted(Performed(w, op, c).rows[i], c.maxTotal) {
      RowsStaySound(w, op, c, i);
    }
    CacheStaysRight(w, op, c);
    SlugsStayApart(w, op, c);
    match op
    case AttachUploads(id, actor, ins, orders, course) => AttachKeepsStored(w, id, actor, ins, orders, course, c);
    case RemoveFile(id, actor, file, listing, commits, failing) =>
      RemoveKeepsStored(w, id, actor, file, listing, commits, failing, c);
    case BuildPreview(id, file, key, content, commits) => PreviewKeepsStored(w, id, file, key, content, commits, c);
    case _ =>
      PlainOpsKeepFiles(w, op, c);
      RowsFromKeeps(Performed(w, op, c).rows, w.rows, w.store);
  }

  const EMPTY := World([], map[], None, None)

  function Reached(ops: seq<Op>, c: Settings): World
    decreases |ops|
  {
    if ops == [] then EMPTY else Performed(Reached(ops[..|ops| - 1], c), ops[|ops| - 1], c)
  }

  predicate AllPossible(ops: seq<Op>, c: Settings)
    decreases |ops|
  {
    ops == [] || (AllPossible(ops[..|ops| - 1], c) && Possible(Reached(ops[..|ops| - 1], c), ops[|ops| - 1]))
  }

  /** In every reachable world each file row has its stored bytes and shares no key, each material has a sound review
      log and true counters, and each cached answer is the one that would be computed now. */
  lemma {:induction false} EveryReachableWorld(ops: seq<Op>, c: Settings)
    requires AllPossible(ops, c)
    ensures Inv(Reached(ops, c), c)
    decreases |ops|
  {
    if ops != [] {
      EveryReachableWorld(ops[..|ops| - 1], c);
      StepKeepsInv(Reached(ops[..|ops| - 1], c), ops[|ops| - 1], c);
    }
  }

  /** The row as it was created, and the steps taken by it since. */
  function Origin(ops: seq<Op>, i: nat, c: Settings): Material
    requires i < |Reached(ops, c).rows|
    decreases |ops|
  {
    if ops != [] && i < |Reached(ops[..|ops| - 1], c).rows| then Origin(ops[..|ops| - 1], i, c)
        else Reached(ops, c).rows[i]
  }

  function StepsOf(ops: seq<Op>, i: nat, c: Settings): seq<Step>
    decreases |ops|
  {
    if ops == [] then [] else
    var earlier := ops[..|ops| - 1];
    if i >= |Reached(earlier, c).rows| then [] else
    var s := StepOf(Reached(earlier, c), ops[|ops| - 1], i, c);
    StepsOf(earlier, i, c) + if s.Some? then [s.value] else []
  }

  /** Each row of a reachable world started as an empty draft and has run through its own steps,
      all of them feasible. */
  lemma {:induction false} RowRanItsSteps(ops: seq<Op>, i: nat, c: Settings)
    requires AllPossible(ops, c) && i < |Reached(ops, c).rows|
    ensures var draft, steps := Origin(ops, i, c), StepsOf(ops, i, c);
      draft == NewDraft(draft.owner, draft.slug, draft.details, draft.subject) && AllFeasible(draft, steps, c.maxTotal)
      && Reached(ops, c).rows[i] == Run(draft, steps, c.maxTotal)
    decreases |ops|
  {
    var earlier, op := ops[..|ops| - 1], ops[|ops| - 1];
    var w := Reached(earlier, c);
    if i < |w.rows| {
      RowRanItsSteps(earlier, i, c);
      EveryReachableWorld(earlier, c);
      RowsStep(w, op, c, i);
      var steps, s := StepsOf(earlier, i, c), StepOf(w, op, i, c);
      if s.Some? {
        assert StepsOf(ops, i, c) == steps + [s.value] && (steps + [s.value])[..|steps|] == steps;
      } else {
        assert StepsOf(ops, i, c) == steps + [] == steps;
      }
    } else {
      NewRowsAreDrafts(w, op, c, i);
    }
  }

  /** In every reachable world an approved material has files, an approver, no reason of rejection, the content that its
      last approval saw, and the subject seen then or chosen by a moderator since. */
  lemma ApprovedContentReviewed(ops: seq<Op>, i: nat, c: Settings)
    requires AllPossible(ops, c) && i < |Reached(ops, c).rows| && Reached(ops, c).rows[i].status == Approved
    ensures var m := Reached(ops, c).rows[i];
      m.files != [] && m.approvedBy.Some? && m.rejectedReason.None?
      && Sanctioned(Origin(ops, i, c), StepsOf(ops, i, c), c.maxTotal) == Some(Sanction(ContentOf(m), m.subject))
  {
    RowRanItsSteps(ops, i, c);
    var draft := Origin(ops, i, c);
    EveryRun(draft.owner, draft.slug, draft.details, draft.subject, StepsOf(ops, i, c), c.maxTotal);
  }
}
