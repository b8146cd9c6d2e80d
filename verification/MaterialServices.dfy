/** The services over materials: owners' edits, moderators' decisions, readers' downloads, and the cached lists. */
module MaterialServices {
  import opened FiniteSets
  import opened Wrappers
  import opened Storage
  import opened MaterialReview
  import opened MaterialRuns
  import opened MaterialFiles
  import opened MaterialCache
  import opened MaterialWorld
  import Slug

  /** The error that a step is refused with. */
  function Refusal(w: World, id: nat, s: Step, c: Settings): Option<Error> {
    if id >= |w.rows| then Some(NotFound)
    else match Apply(w.rows[id], s, c.maxTotal) case Failed(e) => Some(e) case _ => None
  }

  /** Whether the file that a download is for has its stored bytes. */
  predicate StoredFor(w: World, id: nat, wanted: Option<Id>) {
    id < |w.rows| && Wanted(w.rows[id], wanted).Some?
    && var i := Place(w.rows[id].files, Wanted(w.rows[id], wanted).value);
       i < |w.rows[id].files| && w.rows[id].files[i].key in w.store
  }

  /** Gives each file the position of its id. */
  method Renumber(files: seq<File>, ids: seq<Id>) returns (r: seq<File>)
    requires DistinctIds(files) && Distinct(ids) && forall f <- files :: f.id in ids
    ensures r == Renumbered(files, ids)
  {
    r := files;
    for index := 0 to |ids|
      invariant |r| == |files|
      invariant forall k | 0 <= k < |files| :: r[k] == NumberedUpTo(files[k], ids, index)
    {
      PositionAt(ids, index);
      var k := Place(r, ids[index]);
      forall x | 0 <= x < |files| && x != k ensures Position(ids, files[x].id) != index {}
      if k < |r| { r := r[k := r[k].(order := index)]; }
    }
    assert forall k | 0 <= k < |files| :: files[k] in files && r[k] == Renumbered(files, ids)[k];
  }

  function NumberedUpTo(f: File, ids: seq<Id>, n: nat): File {
    if Position(ids, f.id) < n then f.(order := Position(ids, f.id)) else f
  }

  function AfterStored(stored: seq<StoredFile>, r: Saving): Saving { r.(stored := stored + r.stored) }

  /** What is left of saving the uploads after the first `i`, one upload further on. */
  lemma SaveAllAdvances(stored: seq<StoredFile>, store: Files, total: int, ins: seq<Incoming>, i: nat, c: Settings)
    requires i < |ins|
    ensures var rest, one := SaveAll(store, total, ins[i..], c), SavedOne(store, total, ins[i], c);
      AfterStored(stored, rest) == if one.1.None? then Saving(one.0, stored, false)
        else AfterStored(stored + [one.1.value], SaveAll(one.0, total + one.1.value.size, ins[i + 1..], c))
  {
    assert ins[i..][0] == ins[i] && ins[i..][1..] == ins[i + 1..];
    var one := SavedOne(store, total, ins[i], c);
    if one.1.Some? {
      var rest := SaveAll(one.0, total + one.1.value.size, ins[i + 1..], c);
      assert stored + ([one.1.value] + rest.stored) == stored + [one.1.value] + rest.stored;
    } else {
      assert stored + [] == stored;
    }
  }

  function AfterRows(files: seq<File>, r: Previewing): Previewing { r.(files := files + r.files) }

  /** An attempt that commits nothing does so whether or not the caches could be invalidated. */
  lemma NothingCommitted(store: Files, total: int, ins: seq<Incoming>, orders: seq<int>, c: Settings, course: Course)
    requires |ins| == |orders| && Attach(store, total, ins, orders, c, course.(invalidates := true)).files.None?
    ensures var a := Attach(store, total, ins, orders, c, course);
      a == Attach(store, total, ins, orders, c, course.(invalidates := true)) && a.raised
  {}

  /** The row step accepts the files of a committed attempt: the total size was checked upload by upload. */
  lemma AttachedRow(store: Files, m: Material, user: Id, ins: seq<Incoming>, orders: seq<int>, c: Settings,
      course: Course, files: seq<File>)
    requires |ins| == |orders| && NewKeys(store, ins) && !m.deleted && m.owner == user && m.status == Draft
    requires Attach(store, m.totalSize, ins, orders, c, course.(invalidates := true)).files == Some(files)
    ensures After(m, ByOwner(user, AttachFiles(files)), c.maxTotal) == FilesAttached(m, files)
    ensures var a := Attach(store, m.totalSize, ins, orders, c, course);
      a.files == Some(files) && a.raised == !course.invalidates
      && a.store == if course.invalidates
          then Attach(store, m.totalSize, ins, orders, c, course.(invalidates := true)).store
                    else Attach(store, m.totalSize, ins, orders, c, course.(invalidates := true)).store
                         - DeletedOf(StoredKeys(SaveAll(store, m.totalSize, ins, c).stored), course.deletions)
  {
    AttachIsSafe(store, m.totalSize, ins, orders, c, course.(invalidates := true));
  }

  predicate KeysUnused(store: Files, ins: seq<Incoming>, n: nat) {
    && (forall i | n <= i < |ins| :: ins[i].key !in store)
    && (forall i, j | n <= i < j < |ins| :: ins[i].key != ins[j].key)
  }

  lemma NewKeysUnused(store: Files, ins: seq<Incoming>)
    requires NewKeys(store, ins)
    ensures KeysUnused(store, ins, 0)
  {
    forall i | 0 <= i < |ins| ensures ins[i].key in KeysOf(ins[i]) && ins[i].key !in store {
      assert KeysOf(ins[i]) !! store.Keys;
    }
    forall i, j | 0 <= i < j < |ins| ensures ins[i].key != ins[j].key { assert KeysOf(ins[i]) !! KeysOf(ins[j]); }
  }

  lemma SavedOneUses(store: Files, total: int, ins: seq<Incoming>, i: nat, c: Settings)
    requires i < |ins| && KeysUnused(store, ins, i)
    ensures KeysUnused(SavedOne(store, total, ins[i], c).0, ins, i + 1)
  {}

  /** What deleting a file of one's own does, case by case. */
  lemma RemovedMeans(w: World, id: nat, user: Id, file: Id, listing: seq<Id>, commits: bool, failing: set<string>,
      c: Settings)
    requires id < |w.rows| && !w.rows[id].deleted && w.rows[id].owner == user
    ensures var m, i := w.rows[id], Place(w.rows[id].files, file);
      var r, refused := Removed(w, id, user, file, listing, commits, failing, c),
          Refusal(w, id, ByOwner(user, DeleteFile(file, listing)), c);
      if i == |m.files| then r == w && refused == Some(NotFound)
      else if m.status == PendingReview then r == w && refused == Some(Conflict)
      else refused == None && r == if !commits then w
        else Invalidated(WithRow(w, id,
            WithoutFile(Rereviewed(m), i, listing)).(store := w.store - (FileKeys(m.files[i]) - failing)))
  {}

  lemma RemainingListed(files: seq<File>, i: nat, listing: seq<Id>)
    requires i < |files| && DistinctIds(files) && Lists(files, listing)
    ensures var rest, ids := files[..i] + files[i + 1..], WithoutId(listing, files[i].id);
      DistinctIds(rest) && Distinct(ids) && forall f <- rest :: f.id in ids
  {
    assert files[i] in files;
    WithoutIdDrops(listing, files[i].id);
    var rest := files[..i] + files[i + 1..];
    forall k | 0 <= k < |rest| ensures rest[k] in files && rest[k].id != files[i].id {
      assert rest[k] == files[if k < i then k else k + 1];
    }
  }

  /** The drafts among the first `n` rows that are stale and not yet deleted. */
  function Marked(rows: seq<Material>, stale: set<nat>, n: nat): set<nat>
    requires n <= |rows|
  {
    set i: nat | i < n && i in stale && rows[i].status == Draft && !rows[i].deleted
  }

  /** The marked ones among the first `n` are deleted, everything else is as before. */
  predicate MarkedUpTo(before: seq<Material>, rows: seq<Material>, stale: set<nat>, n: nat)
    requires |rows| == |before| && n <= |rows|
  {
    forall k | 0 <= k < |rows| ::
        rows[k] == if k in Marked(before, stale, n) then before[k].(deleted := true) else before[k]
  }

  lemma MarkedStep(before: seq<Material>, rows: seq<Material>, stale: set<nat>, i: nat)
    requires |rows| == |before| && i < |rows| && MarkedUpTo(before, rows, stale, i)
    ensures
      var here := i in stale && rows[i].status == Draft && !rows[i].deleted;
      && MarkedUpTo(before, if here then rows[i := rows[i].(deleted := true)] else rows, stale, i + 1)
      && |Marked(before, stale, i + 1)| == |Marked(before, stale, i)| + if here then 1 else 0
  {
    assert i !in Marked(before, stale, i) && rows[i] == before[i];
    var here := i in stale && rows[i].status == Draft && !rows[i].deleted;
    assert Marked(before, stale, i + 1) == Marked(before, stale, i) + (if here then {i} else {});
  }

  lemma MarkedMeans(w: World, rows: seq<Material>, stale: set<nat>, c: Settings)
    requires |rows| == |w.rows| && MarkedUpTo(w.rows, rows, stale, |rows|)
    ensures Expired(w, stale, c) == if |Marked(w.rows, stale, |rows|)| > 0 then Invalidated(w.(rows := rows))
        else w.(rows := rows)
  {
    var marked := Marked(w.rows, stale, |rows|);
    var expired := seq(|w.rows|, i
        requires 0 <= i < |w.rows| => if i in stale then After(w.rows[i], Expire, c.maxTotal) else w.rows[i]);
    assert expired == rows;
    if marked == {} {
      assert rows == w.rows;
    } else {
      var i :| i in marked;
      assert rows[i] != w.rows[i];
    }
  }

  /** Of some materials one that no other is ahead of. */
  method Best(rows: seq<Material>, left: set<nat>) returns (b: nat)
    requires left != {} && forall x <- left :: x < |rows|
    ensures b in left && forall x <- left :: !Ahead(rows[x], rows[b])
  {
    b :| b in left;
    var rest := left - {b};
    while rest != {}
      invariant rest <= left && b in left && forall x | x in left && x !in rest :: !Ahead(rows[x], rows[b])
      decreases rest
    {
      var y :| y in rest;
      if Ahead(rows[y], rows[b]) { b := y; }
      rest := rest - {y};
    }
  }

  /** The trending query. */
  method Trending(rows: seq<Material>) returns (ids: seq<nat>)
    ensures TopTen(rows, ids)
  {
    ids := [];
    var left := set i: nat | i < |rows| && Public(rows[i]);
    assert left == PublicOnes(rows);
    while left != {} && |ids| < 10
      invariant left <= PublicOnes(rows) && |ids| + |left| == |PublicOnes(rows)| && |ids| <= 10
      invariant forall i | 0 <= i < |ids| :: ids[i] in PublicOnes(rows) && ids[i] !in left
      invariant forall x | x in PublicOnes(rows) :: x in left || x in ids
      invariant forall i, j | 0 <= i < j < |ids| :: ids[i] != ids[j] && !Ahead(rows[ids[j]], rows[ids[i]])
      invariant forall x, i | x in left && 0 <= i < |ids| :: !Ahead(rows[x], rows[ids[i]])
      decreases left
    {
      var b := Best(rows, left);
      ids := ids + [b];
      left := left - {b};
    }
  }

  /** The database session, the storage and the cache that the services share. */
  class Session {
    var rows: seq<Material>
    var stats: Option<Stats>
    var trending: Option<seq<nat>>
    const storage: LocalStorageProvider

    constructor (signature: Signature)
      ensures State() == EMPTY && storage.signature == signature
    {
      rows, stats, trending := [], None, None;
      storage := new LocalStorageProvider(signature);
    }

    function State(): World
      reads this, storage
    {
      World(rows, storage.files, stats, trending)
    }

    method InvalidateMaterialCaches()
      modifies this
      ensures State() == Invalidated(old(State()))
    {
      stats := None;
      trending := None;
    }

    /** Commits a changed row. */
    method Commit(id: nat, m: Material)
      requires id < |rows|
      modifies this
      ensures State() == Invalidated(WithRow(old(State()), id, m))
    {
      rows := rows[id := m];
      InvalidateMaterialCaches();
    }
  }

  class MaterialService {
    const session: Session
    const settings: Settings

    constructor (session: Session, settings: Settings)
      requires settings.signature == session.storage.signature
      ensures this.session == session && this.settings == settings
    {
      this.session, this.settings := session, settings;
    }

    /** A material that is there and belongs to the user; otherwise the error. */
    method GetOwned(id: nat, user: Id) returns (error: Option<Error>)
      ensures error == if id >= |session.rows| || session.rows[id].deleted then Some(NotFound)
                       else if session.rows[id].owner != user then Some(Denied) else None
    {
      if id >= |session.rows| { return Some(NotFound); }
      var material := session.rows[id];
      if material.deleted { return Some(NotFound); }
      if material.owner != user { return Some(Denied); }
      return None;
    }

    /** The slug is the least free form of that of the title. */
    method CreateDraft(user: Id, details: Details, subject: Id, subjectKnown: bool)
        returns (error: Option<Error>, slug: string)
      modifies session
      ensures session.State() == Performed(old(session.State()),
          Create(user, slug, details, subject, subjectKnown), settings)
      ensures error == if subjectKnown then None else Some(NotFound)
      ensures subjectKnown ==>
        && Slug.LeastFree(Slug.Slugify(details.title), Slugs(old(session.rows)), slug)
        && slug !in Slugs(old(session.rows))
    {
      if !subjectKnown { return Some(NotFound), ""; }
      slug := Slug.GenerateUniqueSlug(details.title, Slugs(session.rows));
      session.rows := session.rows + [NewDraft(user, slug, details, subject)];
      session.InvalidateMaterialCaches();
      return None, slug;
    }

    method SubmitForReview(id: nat, user: Id) returns (error: Option<Error>)
      modifies session
      ensures session.State() == Performed(old(session.State()), Act(id, ByOwner(user, Submit)), settings)
      ensures error == Refusal(old(session.State()), id, ByOwner(user, Submit), settings)
    {
      error := GetOwned(id, user);
      if error.Some? { return; }
      var material := session.rows[id];
      var action := if material.status == Draft then SUBMITTED else RESUBMITTED;
      if material.status != Draft && material.status != Rejected { return Some(Conflict); }
      if material.fileCount < 1 { return Some(Invalid); }
      material := material.(status := PendingReview);
      material := material.(log := material.log + [action]);
      session.Commit(id, material);
    }

    method WithdrawFromReview(id: nat, user: Id) returns (error: Option<Error>)
      modifies session
      ensures session.State() == Performed(old(session.State()), Act(id, ByOwner(user, Withdraw)), settings)
      ensures error == Refusal(old(session.State()), id, ByOwner(user, Withdraw), settings)
    {
      error := GetOwned(id, user);
      if error.Some? { return; }
      var material := session.rows[id];
      if material.status != PendingReview { return Some(Conflict); }
      material := material.(status := Draft);
      material := material.(log := material.log + [WITHDRAWN]);
      session.Commit(id, material);
    }

    /** The state of review lets the owner edit: not while pending, and from approved only with a new review. */
    method OpenForEdit(material: Material) returns (r: Option<Material>)
      ensures r == if material.status == PendingReview then None else Some(Rereviewed(material))
    {
      if material.status == PendingReview { return None; }
      var edited := material;
      if edited.status == Approved {
        edited := edited.(status := PendingReview);
        edited := edited.(log := edited.log + [RESUBMITTED]);
      }
      return Some(edited);
    }

    /** Sets the fields that the patch sets. */
    method SetFields(d: Details, patch: Patch) returns (details: Details)
      ensures details == Patched(d, patch)
    {
      details := d;
      if patch.title.Some? { details := details.(title := patch.title.value); }
      if patch.description.Some? { details := details.(description := patch.description.value); }
      if patch.kind.Some? { details := details.(kind := patch.kind.value); }
      if patch.semesters.Some? { details := details.(semesters := patch.semesters.value); }
      if patch.cover.Some? { details := details.(cover := patch.cover.value); }
      if patch.primary.Some? { details := details.(primary := patch.primary.value); }
    }

    method UpdateMaterial(id: nat, user: Id, patch: Patch, subjectKnown: bool) returns (error: Option<Error>)
      modifies session
      ensures session.State() == Performed(old(session.State()),
          Act(id, ByOwner(user, Update(patch, subjectKnown))), settings)
      ensures error == Refusal(old(session.State()), id, ByOwner(user, Update(patch, subjectKnown)), settings)
    {
      error := GetOwned(id, user);
      if error.Some? { return; }
      if patch.subject.Some? && !subjectKnown { return Some(NotFound); }
      var open := OpenForEdit(session.rows[id]);
      if open.None? { return Some(Conflict); }
      var material := open.value;
      var details := SetFields(material.details, patch);
      if patch.subject.Some? { material := material.(subject := patch.subject.value); }
      session.Commit(id, material.(details := details));
    }

    method DeleteMaterial(id: nat, user: Id) returns (error: Option<Error>)
      modifies session
      ensures session.State() == Performed(old(session.State()), Act(id, ByOwner(user, Delete)), settings)
      ensures error == Refusal(old(session.State()), id, ByOwner(user, Delete), settings)
    {
      error := GetOwned(id, user);
      if error.Some? { return; }
      session.Commit(id, session.rows[id].(deleted := true));
    }

    method AddTag(id: nat, user: Id, tag: Id, tagKnown: bool) returns (error: Option<Error>)
      modifies session
      ensures session.State() == Performed(old(session.State()),
          Act(id, ByOwner(user, AttachTag(tag, tagKnown))), settings)
      ensures error == Refusal(old(session.State()), id, ByOwner(user, AttachTag(tag, tagKnown)), settings)
    {
      error := GetOwned(id, user);
      if error.Some? { return; }
      if !tagKnown { return Some(NotFound); }
      if tag in session.rows[id].tags { return None; }
      var open := OpenForEdit(session.rows[id]);
      if open.None? { return Some(Conflict); }
      session.Commit(id, open.value.(tags := open.value.tags + {tag}));
    }

    method RemoveTag(id: nat, user: Id, tag: Id) returns (error: Option<Error>)
      modifies session
      ensures session.State() == Performed(old(session.State()), Act(id, ByOwner(user, DetachTag(tag))), settings)
      ensures error == Refusal(old(session.State()), id, ByOwner(user, DetachTag(tag)), settings)
    {
      error := GetOwned(id, user);
      if error.Some? { return; }
      if tag !in session.rows[id].tags { return Some(NotFound); }
      var open := OpenForEdit(session.rows[id]);
      if open.None? { return Some(Conflict); }
      session.Commit(id, open.value.(tags := open.value.tags - {tag}));
    }

    method Reorder(id: nat, user: Id, ids: seq<Id>) returns (error: Option<Error>)
      requires id < |session.rows| ==> DistinctIds(session.rows[id].files)
      modifies session
      ensures session.State() == Performed(old(session.State()), Act(id, ByOwner(user, ReorderFiles(ids))), settings)
      ensures error == Refusal(old(session.State()), id, ByOwner(user, ReorderFiles(ids)), settings)
    {
      error := GetOwned(id, user);
      if error.Some? { return; }
      var files := session.rows[id].files;
      if |ids| != |files| || (set i | i in ids) != (set f | f in files :: f.id) { return Some(Invalid); }
      var open := OpenForEdit(session.rows[id]);
      if open.None? { return Some(Conflict); }
      IdSetSize(files);
      ElementsSize(ids);
      assert Elements(ids) == set i | i in ids;
      forall f | f in open.value.files ensures f.id in ids { assert f.id in IdSet(files); }
      var renumbered := Renumber(open.value.files, ids);
      session.Commit(id, open.value.(files := renumbered));
    }

    method UpdateFileSelection(id: nat, user: Id, file: Id, asCover: Option<bool>, asPrimary: Option<bool>)
        returns (error: Option<Error>)
      modifies session
      ensures session.State() == Performed(old(session.State()),
          Act(id, ByOwner(user, SelectFile(file, asCover, asPrimary))), settings)
      ensures error == Refusal(old(session.State()), id, ByOwner(user, SelectFile(file, asCover, asPrimary)), settings)
    {
      error := GetOwned(id, user);
      if error.Some? { return; }
      if Place(session.rows[id].files, file) == |session.rows[id].files| { return Some(NotFound); }
      if asCover.None? && asPrimary.None? { return Some(Invalid); }
      var open := OpenForEdit(session.rows[id]);
      if open.None? { return Some(Conflict); }
      var details := open.value.details;
      if asCover == Some(true) {
        details := details.(cover := Some(file));
      } else if asCover == Some(false) && details.cover == Some(file) {
        details := details.(cover := None);
      }
      if asPrimary == Some(true) {
        details := details.(primary := Some(file));
      } else if asPrimary == Some(false) && details.primary == Some(file) {
        details := details.(primary := None);
      }
      session.Commit(id, open.value.(details := details));
    }

    method ReportMaterial(id: nat) returns (error: Option<Error>)
      modifies session
      ensures session.State() == Performed(old(session.State()), Act(id, Report), settings)
      ensures error == Refusal(old(session.State()), id, Report, settings)
    {
      if id >= |session.rows| || session.rows[id].status != Approved { return Some(NotFound); }
      session.rows := session.rows[id := session.rows[id].(log := session.rows[id].log + [REPORTED])];
      return None;
    }

    method PrepareDownload(id: nat, reader: Option<Reader>, wanted: Option<Id>) returns (error: Option<Error>)
      modifies session
      ensures var step := Download(reader, wanted, StoredFor(old(session.State()), id, wanted));
        session.State() == Performed(old(session.State()), Act(id, step), settings) &&
            error == Refusal(old(session.State()), id, step, settings)
    {
      if id >= |session.rows| { return Some(NotFound); }
      var material := session.rows[id];
      var refused := Viewed(material, reader);
      if refused.Some? { return refused; }
      if material.status == Approved && reader.None? { return Some(Unauthenticated); }
      var file := Wanted(material, wanted);
      if file.None? { return Some(Fault); }
      var i := Place(material.files, file.value);
      if i == |material.files| { return Some(NotFound); }
      if material.files[i].key !in session.storage.files { return Some(NotFound); }
      var counts := true;
      if reader.Some? {
        if reader.value.id in material.downloads {
          counts := false;
        } else {
          material := material.(downloads := material.downloads + [reader.value.id]);
        }
      }
      if counts { material := material.(downloadCount := material.downloadCount + 1); }
      session.Commit(id, material);
      return None;
    }

    method CleanupStaleDrafts(stale: set<nat>) returns (count: nat)
      modifies session
      ensures session.State() == Performed(old(session.State()), ExpireDrafts(stale), settings)
      ensures count == |Marked(old(session.rows), stale, |old(session.rows)|)|
    {
      count := 0;
      ghost var before := session.rows;
      var rows, n := session.rows, |session.rows|;
      for i := 0 to n
        invariant session.rows == before && session.stats == old(session.stats) &&
            session.trending == old(session.trending)
        invariant |rows| == |before| == n && MarkedUpTo(before, rows, stale, i) && count == |Marked(before, stale, i)|
      {
        MarkedStep(before, rows, stale, i);
        if i in stale && rows[i].status == Draft && !rows[i].deleted {
          rows := rows[i := rows[i].(deleted := true)];
          count := count + 1;
        }
      }
      MarkedMeans(session.State(), rows, stale, settings);
      session.rows := rows;
      if count > 0 { session.InvalidateMaterialCaches(); }
    }

    /** Saves one upload, and deletes it again if it goes over the total size. */
    method SaveOne(u: Incoming, total: int) returns (stored: Option<StoredFile>)
      requires settings.signature == session.storage.signature && u.key !in session.storage.files &&
          WellFormed(u.upload)
      modifies session.storage
      ensures (session.storage.files, stored) == SavedOne(old(session.storage.files), total, u, settings)
    {
      stored := session.storage.Save(u.upload, u.key, settings.maxFile);
      if stored.Some? && total + stored.value.size > settings.maxTotal {
        var _ := session.storage.Delete(u.key, !u.removable);
        stored := None;
      }
    }

    /** Saves one upload after the other until one is not stored. */
    method SaveUploads(ins: seq<Incoming>, size: int) returns (stored: seq<StoredFile>, ok: bool)
      requires settings.signature == session.storage.signature
      requires KeysUnused(session.storage.files, ins, 0) && forall u <- ins :: WellFormed(u.upload)
      modifies session.storage
      ensures Saving(session.storage.files, stored, ok) == SaveAll(old(session.storage.files), size, ins, settings)
    {
      var total := size;
      stored := [];
      assert ins[0..] == ins;
      for i := 0 to |ins|
        invariant KeysUnused(session.storage.files, ins, i)
        invariant SaveAll(old(session.storage.files), size, ins, settings)
            == AfterStored(stored, SaveAll(session.storage.files, total, ins[i..], settings))
      {
        SaveAllAdvances(stored, session.storage.files, total, ins, i, settings);
        SavedOneUses(session.storage.files, total, ins, i, settings);
        var saved := SaveOne(ins[i], total);
        if saved.None? { return stored, false; }
        total := total + saved.value.size;
        stored := stored + [saved.value];
      }
      ok := true;
    }

    method BuildAllPreviews(stored: seq<StoredFile>, ins: seq<Incoming>, orders: seq<int>) returns (files: seq<File>,
        ok: bool)
      requires |stored| == |ins| == |orders|
      modifies session.storage
      ensures Previewing(session.storage.files, files, ok)
          == BuildPreviews(old(session.storage.files), stored, ins, orders)
    {
      files := [];
      var storage := session.storage;
      for i := 0 to |ins|
        invariant BuildPreviews(old(session.storage.files), stored, ins, orders)
               == AfterRows(files, BuildPreviews(storage.files, stored[i..], ins[i..], orders[i..]))
      {
        assert ins[i..][1..] == ins[i + 1..] && stored[i..][1..] == stored[i + 1..] &&
            orders[i..][1..] == orders[i + 1..];
        var preview := None;
        if IsPdf(stored[i].extension) {
          match ins[i].preview {
            case Unbuilt => return files, false;
            case Partly(key, part) =>
              storage.SaveBytes(part, key);
              return files, false;
            case Built(key, whole) =>
              storage.SaveBytes(whole, key);
              preview := Some(key);
          }
        }
        files := files + [Row(stored[i], ins[i], orders[i], preview)];
      }
      ok := true;
    }

    /** The rollback takes back nothing that was committed; the stored files of the attempt are deleted. */
    method CleanUp(stored: seq<StoredFile>, working: nat)
      modifies session.storage
      ensures session.storage.files == old(session.storage.files) - DeletedOf(StoredKeys(stored), working)
    {
      var _ := session.storage.DeleteMany(StoredKeys(stored), working);
    }

    /** All of the attempt up to the commit, with the clean-up of a failure; `stored` are the files saved. */
    method StoreAndBuild(ins: seq<Incoming>, size: int, orders: seq<int>, course: Course)
        returns (files: Option<seq<File>>, stored: seq<StoredFile>)
      requires settings.signature == session.storage.signature && |ins| == |orders|
      requires NewKeys(session.storage.files, ins) && forall u <- ins :: WellFormed(u.upload)
      modifies session.storage
      ensures var a := Attach(old(session.storage.files), size, ins, orders, settings, course.(invalidates := true));
        files == a.files && session.storage.files == a.store
      ensures stored == SaveAll(old(session.storage.files), size, ins, settings).stored
    {
      NewKeysUnused(session.storage.files, ins);
      var saved;
      stored, saved := SaveUploads(ins, size);
      if !saved {
        CleanUp(stored, course.deletions);
        return None, stored;
      }
      var rows, built := BuildAllPreviews(stored, ins, orders);
      if !built || !course.commits {
        CleanUp(stored, course.deletions);
        return None, stored;
      }
      return Some(rows), stored;
    }

    method AttachMaterialFiles(id: nat, user: Id, ins: seq<Incoming>, orders: seq<int>, course: Course)
        returns (error: Option<Error>)
      requires settings.signature == session.storage.signature
      requires NewKeys(session.storage.files, ins) && forall u <- ins :: WellFormed(u.upload)
      modifies session, session.storage
      ensures session.State() == Performed(old(session.State()), AttachUploads(id, user, ins, orders, course), settings)
      ensures id >= |old(session.rows)| ==> error == Some(NotFound)
      ensures id < |old(session.rows)| ==>
        var m := old(session.rows)[id];
        var refused := AttachRefused(m, user, |ins|, |orders|, settings);
        if refused.Some? then error == refused
        else error.Some? <==> Attach(old(session.storage.files), m.totalSize, ins, Normalized(orders, m.fileCount),
            settings, course).raised
    {
      error := GetOwned(id, user);
      if error.Some? { return; }
      var material := session.rows[id];
      if material.status != Draft { return Some(Conflict); }
      if |ins| != |orders| || |ins| > settings.maxCount { return Some(Invalid); }
      var numbers := orders;
      if |set o | o in orders| != |orders| { numbers := seq(|orders|, i => material.fileCount + i); }
      assert numbers == Normalized(orders, material.fileCount);
      var files, stored := StoreAndBuild(ins, material.totalSize, numbers, course);
      if files.None? {
        NothingCommitted(old(session.storage.files), material.totalSize, ins, numbers, settings, course);
        return Some(Fault);
      }
      AttachedRow(old(session.storage.files), material, user, ins, numbers, settings, course, files.value);
      session.rows := session.rows[id := FilesAttached(material, files.value)];
      if !course.invalidates {
        CleanUp(stored, course.deletions);
        return Some(Fault);
      }
      session.InvalidateMaterialCaches();
      return None;
    }

    /** The other files, numbered in the order of the listing, and the one that then comes first. */
    method CloseGap(files: seq<File>, i: nat, listing: seq<Id>) returns (rest: seq<File>, first: Option<Id>)
      requires i < |files| && DistinctIds(files) && Lists(files, listing)
      ensures var ids := WithoutId(listing, files[i].id);
        rest == Renumbered(files[..i] + files[i + 1..], ids) && first == if ids == [] then None else Some(ids[0])
    {
      var remaining := WithoutId(listing, files[i].id);
      RemainingListed(files, i, listing);
      rest := Renumber(files[..i] + files[i + 1..], remaining);
      first := if remaining == [] then None else Some(remaining[0]);
    }

    method TakeOut(material: Material, i: nat, listing: seq<Id>) returns (r: Material)
      requires i < |material.files| && DistinctIds(material.files) && Lists(material.files, listing)
      ensures r == WithoutFile(material, i, listing)
    {
      var target := material.files[i];
      var rest, fallback := CloseGap(material.files, i, listing);
      var details := material.details;
      if details.cover == Some(target.id) { details := details.(cover := fallback); }
      if details.primary == Some(target.id) { details := details.(primary := fallback); }
      r := material.(files := rest, details := details, fileCount := Max0(material.fileCount - 1),
          totalSize := Max0(material.totalSize - target.size));
    }

    method RemoveStoredFile(id: nat, user: Id, file: Id, listing: seq<Id>, commits: bool, failing: set<string>)
        returns (error: Option<Error>)
      requires id < |session.rows| ==> DistinctIds(session.rows[id].files) && Lists(session.rows[id].files, listing)
      modifies session, session.storage
      ensures session.State() == Performed(old(session.State()),
          RemoveFile(id, user, file, listing, commits, failing), settings)
      ensures error == if Refusal(old(session.State()), id, ByOwner(user, DeleteFile(file, listing)), settings).Some?
                       then Refusal(old(session.State()), id, ByOwner(user, DeleteFile(file, listing)), settings)
                       else if commits then None else Some(Fault)
    {
      error := GetOwned(id, user);
      if error.Some? { return; }
      RemovedMeans(session.State(), id, user, file, listing, commits, failing, settings);
      var i := Place(session.rows[id].files, file);
      if i == |session.rows[id].files| { return Some(NotFound); }
      var open := OpenForEdit(session.rows[id]);
      if open.None? { return Some(Conflict); }
      var target := open.value.files[i];
      var material := TakeOut(open.value, i, listing);
      if !commits { return Some(Fault); }
      session.rows := session.rows[id := material];
      DeleteKeysOf(target, failing);
      session.InvalidateMaterialCaches();
      return None;
    }

    method DeleteKeysOf(f: File, failing: set<string>)
      modifies session.storage
      ensures session.storage.files == old(session.storage.files) - (FileKeys(f) - failing)
    {
      var keys := [f.key] + if f.preview.Some? then [f.preview.value] else [];
      BestEffortDelete(keys, failing);
      assert (set k | k in keys) == FileKeys(f);
    }

    /** Deletes the keys one by one and goes on after a failure. */
    method BestEffortDelete(keys: seq<string>, failing: set<string>)
      modifies session.storage
      ensures session.storage.files == old(session.storage.files) - ((set k | k in keys) - failing)
    {
      for i := 0 to |keys|
        invariant session.storage.files == old(session.storage.files) - ((set k | k in keys[..i]) - failing)
      {
        assert keys[..i + 1] == keys[..i] + [keys[i]];
        var _ := session.storage.Delete(keys[i], keys[i] in failing);
      }
      assert keys[..|keys|] == keys;
    }

    /** The cached list if it answers, and otherwise a new one, which is cached if the cache keeps it. */
    method ListTrendingMaterials(keeps: bool) returns (ids: seq<nat>)
      modifies session
      ensures session.State() == Performed(old(session.State()), ListTrending(ids, keeps), settings)
      ensures Hit(old(session.State())) ==> ids == old(session.State()).trending.value
      ensures CacheRight(old(session.State())) ==> TopTen(session.rows, ids)
    {
      if session.trending.Some? && session.trending.value != [] {
        var found := [];
        for i := 0 to |session.trending.value|
          invariant |found| <= i
          invariant |found| == i <==> forall k | 0 <= k < i ::
              session.trending.value[k] < |session.rows| && !session.rows[session.trending.value[k]].deleted
          invariant |found| == i ==> found == session.trending.value[..i]
        {
          var id := session.trending.value[i];
          if id < |session.rows| && !session.rows[id].deleted { found := found + [id]; }
        }
        if |found| == |session.trending.value| { return found; }
      }
      ids := Trending(session.rows);
      if keeps { session.trending := Some(ids); }
    }

    method StatsSummary(keeps: bool) returns (stats: Stats)
      modifies session
      ensures session.State() == Performed(old(session.State()), SummariseStats(keeps), settings)
      ensures CacheRight(old(session.State())) ==> stats == StatsOf(session.rows)
    {
      if session.stats.Some? { return session.stats.value; }
      stats := StatsOf(session.rows);
      if keeps { session.stats := Some(stats); }
    }
  }

  class ModerationService {
    const session: Session
    const settings: Settings

    constructor (session: Session, settings: Settings)
      ensures this.session == session && this.settings == settings
    {
      this.session, this.settings := session, settings;
    }

    method GetScoped(id: nat, inScope: bool) returns (error: Option<Error>)
      ensures error == if id >= |session.rows| || session.rows[id].deleted then Some(NotFound)
          else if !inScope then Some(Denied) else None
    {
      if id >= |session.rows| { return Some(NotFound); }
      if session.rows[id].deleted { return Some(NotFound); }
      return if inScope then None else Some(Denied);
    }

    method ApproveMaterial(id: nat, actor: Id, inScope: bool, now: int) returns (error: Option<Error>)
      modifies session
      ensures session.State() == Performed(old(session.State()),
          Act(id, ByModerator(actor, inScope, Approve, now)), settings)
      ensures error == Refusal(old(session.State()), id, ByModerator(actor, inScope, Approve, now), settings)
    {
      error := GetScoped(id, inScope);
      if error.Some? { return; }
      var material := session.rows[id];
      if material.status != PendingReview { return Some(Conflict); }
      if material.fileCount < 1 { return Some(Conflict); }
      material := material.(status := Approved, approvedBy := Some(actor));
      material := material.(lastReviewedBy := Some(actor), reviewedAt := Some(now), rejectedReason := None);
      material := material.(log := material.log + [APPROVED]);
      session.Commit(id, material);
    }

    method RejectMaterial(id: nat, actor: Id, inScope: bool, reason: string, now: int) returns (error: Option<Error>)
      modifies session
      ensures session.State() == Performed(old(session.State()),
          Act(id, ByModerator(actor, inScope, Reject(reason), now)), settings)
      ensures error == Refusal(old(session.State()), id, ByModerator(actor, inScope, Reject(reason), now), settings)
    {
      error := GetScoped(id, inScope);
      if error.Some? { return; }
      var material := session.rows[id];
      if material.status != PendingReview { return Some(Conflict); }
      material := material.(status := Rejected, rejectedReason := Some(reason));
      material := material.(lastReviewedBy := Some(actor), reviewedAt := Some(now), log := material.log + [REJECTED]);
      session.Commit(id, material);
    }

    method RequestMaterialRevision(id: nat, actor: Id, inScope: bool, reason: string, now: int)
        returns (error: Option<Error>)
      modifies session
      ensures session.State() == Performed(old(session.State()),
          Act(id, ByModerator(actor, inScope, RequestRevision(reason), now)), settings)
      ensures error == Refusal(old(session.State()), id,
          ByModerator(actor, inScope, RequestRevision(reason), now), settings)
    {
      error := GetScoped(id, inScope);
      if error.Some? { return; }
      var material := session.rows[id];
      if material.status != PendingReview { return Some(Conflict); }
      material := material.(status := Rejected, rejectedReason := Some(reason));
      material := material.(lastReviewedBy := Some(actor), reviewedAt := Some(now),
          log := material.log + [REQUESTED_REVISION]);
      session.Commit(id, material);
    }

    method MoveToSubject(id: nat, actor: Id, inScope: bool, subject: Id, subjectKnown: bool, now: int)
        returns (error: Option<Error>)
      modifies session
      ensures session.State() == Performed(old(session.State()),
          Act(id, ByModerator(actor, inScope, MoveSubject(subject, subjectKnown), now)), settings)
      ensures error == Refusal(old(session.State()), id,
          ByModerator(actor, inScope, MoveSubject(subject, subjectKnown), now), settings)
    {
      error := GetScoped(id, inScope);
      if error.Some? { return; }
      if !subjectKnown { return Some(NotFound); }
      var material := session.rows[id].(subject := subject);
      material := material.(lastReviewedBy := Some(actor), reviewedAt := Some(now),
          log := material.log + [MOVED_SUBJECT]);
      session.Commit(id, material);
    }
  }
}
