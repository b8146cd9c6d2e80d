/** What each step on a material asks for, and what it changes: field by field, and for the downloads over runs. */
module MaterialEffects {
  import opened FiniteSets
  import opened Wrappers
  import opened Budget
  import opened MaterialReview
  import opened MaterialRuns

  // ---------- What a step asks for ----------

  predicate HasFile(m: Material, id: Id) { exists f <- m.files :: f.id == id }

  /** The list names every file once. */
  predicate NamesAll(m: Material, ids: seq<Id>) {
    |ids| == |m.files| && (forall i <- ids :: HasFile(m, i)) && forall f <- m.files :: f.id in ids
  }

  /** What an owner's edit asks for, the owner and the deletion apart. */
  predicate EditAllowed(m: Material, edit: Edit, limit: nat) {
    match edit
    case Submit => m.status in {Draft, Rejected} && m.fileCount >= 1
    case Withdraw => m.status == PendingReview
    case Delete => true
    case AttachFiles(files) => m.status == Draft && (files == [] || m.totalSize + Sum(Sizes(files)) <= limit)
    case Update(p, known) => m.status != PendingReview && (known || p.subject == None)
    case AttachTag(t, known) => m.status != PendingReview && known && t !in m.tags
    case DetachTag(t) => m.status != PendingReview && t in m.tags
    case DeleteFile(f, _) => m.status != PendingReview && HasFile(m, f)
    case ReorderFiles(ids) => m.status != PendingReview && NamesAll(m, ids)
    case SelectFile(f, c, p) => m.status != PendingReview && HasFile(m, f) && (c != None || p != None)
  }

  /** Everybody with an account may have a file of an approved material, only its owner and the staff one of another;
      the file is the one asked for, or the primary one, or the cover, or the first, and its bytes are stored. */
  predicate DownloadAllowed(m: Material, reader: Option<Reader>, file: Option<Id>, stored: bool) {
    && !m.deleted && stored && reader.Some?
    && (m.status == Approved || reader.value.staff || reader.value.id == m.owner)
    && match file
       case Some(id) => HasFile(m, id)
       case None =>
         match m.details.primary
         case Some(id) => HasFile(m, id)
         case None => match m.details.cover
           case Some(id) => HasFile(m, id)
           case None => m.files != []
  }

  predicate Allowed(m: Material, s: Step, limit: nat) {
    match s
    case ByOwner(actor, edit) => !m.deleted && actor == m.owner && EditAllowed(m, edit, limit)
    case ByModerator(_, inScope, Approve, _) =>
      !m.deleted && inScope && m.status == PendingReview && m.fileCount >= 1
    case ByModerator(_, inScope, MoveSubject(_, known), _) => !m.deleted && inScope && known
    case ByModerator(_, inScope, _, _) => !m.deleted && inScope && m.status == PendingReview
    case Report => m.status == Approved
    case Download(reader, file, stored) => DownloadAllowed(m, reader, file, stored)
    case PreviewBuilt(file, _) => !m.deleted && HasFile(m, file) && m.files[Place(m.files, file)].preview == None
    case Expire => !m.deleted && m.status == Draft
  }

  lemma PlaceIff(m: Material, id: Id)
    ensures Place(m.files, id) < |m.files| <==> HasFile(m, id)
  {}

  lemma NamesAllIff(m: Material, ids: seq<Id>)
    ensures NamesAll(m, ids) <==> |ids| == |m.files| && (set i | i in ids) == IdSet(m.files)
  {
    if (set i | i in ids) == IdSet(m.files) {
      forall i <- ids ensures HasFile(m, i) { assert i in IdSet(m.files); }
      forall f <- m.files ensures f.id in ids { assert f.id in IdSet(m.files) && f.id in (set i | i in ids); }
    }
  }

  lemma EditAllowedIff(m: Material, edit: Edit, limit: nat)
    ensures Owned(m, edit, limit).Changed? <==> EditAllowed(m, edit, limit)
  {
    match edit
    case DeleteFile(f, _) => PlaceIff(m, f);
    case SelectFile(f, _, _) => PlaceIff(m, f);
    case ReorderFiles(ids) => NamesAllIff(m, ids);
    case _ =>
  }

  lemma DownloadAllowedIff(m: Material, reader: Option<Reader>, file: Option<Id>, stored: bool)
    ensures Downloaded(m, reader, file, stored).Changed? <==> DownloadAllowed(m, reader, file, stored)
  {
    if Wanted(m, file).Some? { PlaceIff(m, Wanted(m, file).value); }
    if m.files != [] { assert HasFile(m, m.files[0].id); }
  }

  /** A step goes through exactly when what it asks for holds, and otherwise leaves the material as it was. */
  lemma ChangedIff(m: Material, s: Step, limit: nat)
    ensures Apply(m, s, limit).Changed? <==> Allowed(m, s, limit)
    ensures !Allowed(m, s, limit) ==> After(m, s, limit) == m
  {
    match s
    case ByOwner(_, edit) => EditAllowedIff(m, edit, limit);
    case Download(reader, file, stored) => DownloadAllowedIff(m, reader, file, stored);
    case PreviewBuilt(file, _) => PlaceIff(m, file);
    case _ =>
  }

  // ---------- What a step changes ----------

  predicate IsEdit(e: Edit) { !e.Submit? && !e.Withdraw? && !e.Delete? && !e.AttachFiles? }

  /** The actions that a step adds to the log. */
  function Logs(m: Material, s: Step, limit: nat): seq<Action> {
    if !Allowed(m, s, limit) then []
    else match s
      case ByOwner(_, Submit) => [if m.status == Draft then SUBMITTED else RESUBMITTED]
      case ByOwner(_, Withdraw) => [WITHDRAWN]
      case ByOwner(_, edit) => if IsEdit(edit) && m.status == Approved then [RESUBMITTED] else []
      case ByModerator(_, _, Approve, _) => [APPROVED]
      case ByModerator(_, _, Reject(_), _) => [REJECTED]
      case ByModerator(_, _, RequestRevision(_), _) => [REQUESTED_REVISION]
      case ByModerator(_, _, MoveSubject(_, _), _) => [MOVED_SUBJECT]
      case Report => [REPORTED]
      case _ => []
  }

  lemma LogAfter(m: Material, s: Step, limit: nat)
    ensures After(m, s, limit).log == m.log + Logs(m, s, limit)
  {
    ChangedIff(m, s, limit);
    assert m.log + [] == m.log;
  }

  /** Who made a material stays for ever, and it goes by a deletion of its owner or the clean-up only. */
  lemma DeletedAfter(m: Material, s: Step, limit: nat)
    ensures var m' := After(m, s, limit);
      && m'.owner == m.owner && m'.slug == m.slug
      && (m'.deleted <==> m.deleted || (Allowed(m, s, limit) && (s.Expire? || (s.ByOwner? && s.edit == Delete))))
  {
    ChangedIff(m, s, limit);
  }

  lemma TagsAfter(m: Material, s: Step, limit: nat)
    ensures forall t: Id :: t in After(m, s, limit).tags <==>
      if s.ByOwner? && s.edit.AttachTag? && s.edit.tag == t && Allowed(m, s, limit) then true
      else if s.ByOwner? && s.edit.DetachTag? && s.edit.tag == t && Allowed(m, s, limit) then false
      else t in m.tags
  {
    ChangedIff(m, s, limit);
  }

  lemma SubjectAfter(m: Material, s: Step, limit: nat)
    ensures After(m, s, limit).subject ==
      if !Allowed(m, s, limit) then m.subject
      else if s.ByOwner? && s.edit.Update? && s.edit.patch.subject.Some? then s.edit.patch.subject.value
      else if s.ByModerator? && s.decision.MoveSubject? then s.decision.subject
      else m.subject
  {
    ChangedIff(m, s, limit);
  }

  /** A field of a patch that is set is the new value, any other leaves the old one. */
  predicate SetTo<T(==)>(patch: Option<T>, was: T, now: T) {
    (patch.Some? ==> now == patch.value) && (patch.None? ==> now == was)
  }

  /** A choice of a file: taken, given up if it was the one, or no choice. */
  predicate Chosen(choice: Option<bool>, file: Id, was: Option<Id>, now: Option<Id>) {
    && (choice == Some(true) ==> now == Some(file))
    && (choice == Some(false) ==> now != Some(file) && (was != Some(file) ==> now == was) && (was == Some(file) ==>
        now == None))
    && (choice == None ==> now == was)
  }

  lemma DetailsAfter(m: Material, s: Step, limit: nat)
    ensures var d, d' := m.details, After(m, s, limit).details;
      if !Allowed(m, s, limit) || !s.ByOwner? then d' == d
      else match s.edit
        case Update(p, _) =>
          && SetTo(p.title, d.title, d'.title) && SetTo(p.description, d.description, d'.description)
          && SetTo(p.kind, d.kind, d'.kind) && SetTo(p.semesters, d.semesters, d'.semesters)
          && SetTo(p.cover, d.cover, d'.cover) && SetTo(p.primary, d.primary, d'.primary)
        case SelectFile(f, c, p) =>
          && Chosen(c, f, d.cover, d'.cover) && Chosen(p, f, d.primary, d'.primary)
          && d' == d.(cover := d'.cover, primary := d'.primary)
        case DeleteFile(f, _) =>
          && (d.cover != Some(f) ==> d'.cover == d.cover) && (d.primary != Some(f) ==> d'.primary == d.primary)
          && d' == d.(cover := d'.cover, primary := d'.primary)
        case _ => d' == d
  {
    ChangedIff(m, s, limit);
  }

  /** When the cover or the primary file is deleted, the file that then stands first takes its place. */
  lemma FirstTakesOver(m: Material, file: Id, listing: seq<Id>, limit: nat)
    requires DistinctIds(m.files) && Lists(m.files, listing) && Allowed(m, ByOwner(m.owner, DeleteFile(file, listing)),
        limit)
    ensures var m' := After(m, ByOwner(m.owner, DeleteFile(file, listing)), limit);
      && (m.details.cover == Some(file) ==> Leads(m'.files, m'.details.cover))
      && (m.details.primary == Some(file) ==> Leads(m'.files, m'.details.primary))
  {
    var s, i := ByOwner(m.owner, DeleteFile(file, listing)), Place(m.files, file);
    ChangedIff(m, s, limit);
    PlaceIff(m, file);
    var r := Rereviewed(m);
    var m' := After(m, s, limit);
    assert m' == WithoutFile(r, i, listing);
    FallbackLeads(r, i, listing);
  }

  /** The first of the files by position, if there is any. */
  predicate Leads(files: seq<File>, id: Option<Id>) {
    if files == [] then id == None else exists f <- files :: f.order == 0 && id == Some(f.id)
  }

  lemma FallbackLeads(m: Material, i: nat, listing: seq<Id>)
    requires DistinctIds(m.files) && Lists(m.files, listing) && i < |m.files|
    ensures var ids := WithoutId(listing, m.files[i].id);
      Leads(WithoutFile(m, i, listing).files, if ids == [] then None else Some(ids[0]))
  {
    var ids, r := WithoutId(listing, m.files[i].id), WithoutFile(m, i, listing).files;
    assert m.files[i] in m.files;
    WithoutIdDrops(listing, m.files[i].id);
    if ids != [] {
      assert ids[0] in ids;
      var k := Surviving(m.files, listing, i, ids[0]);
      RestNumbered(m, i, listing, k);
      assert r[k] in r && r[k].id == ids[0] && r[k].order == Position(ids, ids[0]) == 0;
    }
  }

  /** An id that the listing keeps is that of a file that stays. */
  lemma Surviving(files: seq<File>, listing: seq<Id>, i: nat, id: Id) returns (j: nat)
    requires DistinctIds(files) && Lists(files, listing) && i < |files| && id in listing && id != files[i].id
    ensures j < |files| - 1 && (files[..i] + files[i + 1..])[j].id == id
  {
    ListedIsFile(files, listing, id);
    var k :| 0 <= k < |files| && files[k].id == id;
    j := if k < i then k else k - 1;
    assert (files[..i] + files[i + 1..])[j] == files[k];
  }

  lemma ListedIsFile(files: seq<File>, listing: seq<Id>, id: Id)
    requires DistinctIds(files) && Lists(files, listing) && id in listing
    ensures exists k :: 0 <= k < |files| && files[k].id == id
  {
    IdSetSize(files);
    var listed := Elements(listing);
    ElementsSize(listing);
    assert IdSet(files) <= listed;
    assert listed == IdSet(files) + (listed - IdSet(files));
    assert id in IdSet(files);
  }

  lemma FilesAfter(m: Material, s: Step, limit: nat)
    ensures var m' := After(m, s, limit);
      if !Allowed(m, s, limit) then m'.files == m.files
      else match s
        case ByOwner(_, AttachFiles(files)) => m'.files == m.files + files
        case ByOwner(_, DeleteFile(f, _)) =>
          |m'.files| == |m.files| - 1 && forall k | 0 <= k < |m'.files| ::
              m'.files[k] == m.files[if k < Place(m.files, f) then k else k + 1].(order := m'.files[k].order)
        case ByOwner(_, ReorderFiles(ids)) =>
          |m'.files| == |m.files| && forall i | 0 <= i < |m.files| ::
              m'.files[i] == m.files[i].(order := m'.files[i].order)
        case PreviewBuilt(f, key) =>
          |m'.files| == |m.files| && forall i | 0 <= i < |m.files| ::
              m'.files[i] == if i == Place(m.files, f) then m.files[i].(preview := Some(key)) else m.files[i]
        case _ => m'.files == m.files
  {
    ChangedIff(m, s, limit);
    if s.ByOwner? && s.edit.DeleteFile? { PlaceIff(m, s.edit.file); }
  }

  /** Only decisions note who reviewed, when and why; an approval takes the reason away. */
  lemma ReviewAfter(m: Material, s: Step, limit: nat)
    ensures var m' := After(m, s, limit);
      if s.ByModerator? && Allowed(m, s, limit) then
        && m'.lastReviewedBy == Some(s.actor) && m'.reviewedAt == Some(s.now)
        && m'.approvedBy == (if s.decision == Approve then Some(s.actor) else m.approvedBy)
        && m'.rejectedReason == (match s.decision
             case Approve => None
             case Reject(reason) => Some(reason)
             case RequestRevision(reason) => Some(reason)
             case MoveSubject(_, _) => m.rejectedReason)
      else
        m'.lastReviewedBy == m.lastReviewedBy && m'.reviewedAt == m.reviewedAt && m'.approvedBy == m.approvedBy &&
            m'.rejectedReason == m.rejectedReason
  {
    ChangedIff(m, s, limit);
  }

  /** A new draft has what it was given and nothing else. */
  lemma DraftIsEmpty(owner: Id, slug: string, details: Details, subject: Id)
    ensures var m := NewDraft(owner, slug, details, subject);
      && m.owner == owner && m.slug == slug && m.details == details && m.subject == subject
      && m.tags == {} && m.files == [] && m.log == [] && m.downloads == [] && m.status == Draft && !m.deleted
      && m.fileCount == m.totalSize == m.downloadCount == 0
      && m.approvedBy == m.lastReviewedBy == None && m.rejectedReason == None && m.reviewedAt == None
  {}

  // ---------- Refusals ----------

  /** What a step is refused with: who asks comes first, then what is asked about, then the state of review. */
  lemma RefusedWith(m: Material, actor: Id, edit: Edit, limit: nat)
    ensures var o := Apply(m, ByOwner(actor, edit), limit);
      && (m.deleted ==> o == Failed(NotFound))
      && (!m.deleted && actor != m.owner ==> o == Failed(Denied))
      && (!m.deleted && actor == m.owner && !EditAllowed(m, edit, limit) ==>
            o == match edit
                 case Submit => if m.status in {Draft, Rejected} then Failed(Invalid) else Failed(Conflict)
                 case Withdraw => Failed(Conflict)
                 case AttachFiles(_) => if m.status == Draft then Failed(Invalid) else Failed(Conflict)
                 case Update(p, known) => if known || p.subject == None then Failed(Conflict) else Failed(NotFound)
                 case AttachTag(t, known) =>
                   if !known then Failed(NotFound) else if t in m.tags then Kept else Failed(Conflict)
                 case DetachTag(t) => if t in m.tags then Failed(Conflict) else Failed(NotFound)
                 case DeleteFile(f, _) => if HasFile(m, f) then Failed(Conflict) else Failed(NotFound)
                 case ReorderFiles(ids) => if NamesAll(m, ids) then Failed(Conflict) else Failed(Invalid)
                 case SelectFile(f, c, p) =>
                   if !HasFile(m, f) then Failed(NotFound)
                   else if c == None && p == None then Failed(Invalid) else Failed(Conflict)
                 case Delete => o)
  {
    match edit
    case DeleteFile(f, _) => PlaceIff(m, f);
    case SelectFile(f, _, _) => PlaceIff(m, f);
    case ReorderFiles(ids) => NamesAllIff(m, ids);
    case _ =>
  }

  lemma DecisionRefusedWith(m: Material, actor: Id, inScope: bool, d: Decision, now: int, limit: nat)
    ensures var s := ByModerator(actor, inScope, d, now);
      !Allowed(m, s, limit) ==> Apply(m, s, limit) == Failed(
        if m.deleted then NotFound else if !inScope then Denied else if d.MoveSubject? then NotFound else Conflict)
  {}

  /** A reader is refused for the material first, then for himself, then for the file. */
  lemma DownloadRefusedWith(m: Material, reader: Option<Reader>, file: Option<Id>, stored: bool, limit: nat)
    ensures var o := Apply(m, Download(reader, file, stored), limit);
      !DownloadAllowed(m, reader, file, stored) ==>
        o == Failed(
          if m.deleted then NotFound
          else if m.status != Approved && (reader.None? || (!reader.value.staff && reader.value.id != m.owner))
              then Denied
          else if reader.None? then Unauthenticated
          else if file.None? && m.details.primary.None? && m.details.cover.None? && m.files == [] then Fault
          else NotFound)
  {
    DownloadAllowedIff(m, reader, file, stored);
    if Wanted(m, file).Some? { PlaceIff(m, Wanted(m, file).value); }
  }

  // ---------- Downloads ----------

  /** A download that goes through records its reader, and counts him once. */
  lemma DownloadsAfter(m: Material, s: Step, limit: nat)
    ensures var m' := After(m, s, limit);
      if s.Download? && Allowed(m, s, limit) then
        && (forall u: Id :: u in m'.downloads <==> u in m.downloads || u == s.reader.value.id)
        && m'.downloadCount == m.downloadCount + (if s.reader.value.id in m.downloads then 0 else 1)
      else m'.downloads == m.downloads && m'.downloadCount == m.downloadCount
  {
    ChangedIff(m, s, limit);
  }

  /** The readers whose download went through in a run. */
  function Readers(m: Material, steps: seq<Step>, limit: nat): set<Id>
    decreases |steps|
  {
    if steps == [] then {} else
    var earlier, s := steps[..|steps| - 1], steps[|steps| - 1];
    Readers(m, earlier, limit) +
        if s.Download? && Allowed(Run(m, earlier, limit), s, limit) then {s.reader.value.id} else {}
  }

  lemma {:induction false} DownloadsAreReaders(m: Material, steps: seq<Step>, limit: nat)
    ensures forall u: Id :: u in Run(m, steps, limit).downloads <==>
        u in m.downloads || u in Readers(m, steps, limit)
    decreases |steps|
  {
    if steps != [] {
      var earlier, s := steps[..|steps| - 1], steps[|steps| - 1];
      DownloadsAreReaders(m, earlier, limit);
      DownloadsAfter(Run(m, earlier, limit), s, limit);
    }
  }

  /** In every run of a new draft the downloads are exactly the readers whose download went through, and the count is
      how many they are. */
  lemma DownloadsCountReaders(owner: Id, slug: string, details: Details, subject: Id, steps: seq<Step>, limit: nat)
    requires AllFeasible(NewDraft(owner, slug, details, subject), steps, limit)
    ensures
      var draft := NewDraft(owner, slug, details, subject);
      var m, readers := Run(draft, steps, limit), Readers(draft, steps, limit);
      (forall u: Id :: u in m.downloads <==> u in readers) && m.downloadCount == |readers|
  {
    var draft := NewDraft(owner, slug, details, subject);
    var m := Run(draft, steps, limit);
    DownloadsAreReaders(draft, steps, limit);
    EveryRun(owner, slug, details, subject, steps, limit);
    ElementsSize(m.downloads);
    assert Elements(m.downloads) == Readers(draft, steps, limit);
  }
}
