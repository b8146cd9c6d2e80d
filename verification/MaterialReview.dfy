/** One material: its rows, and what owners, moderators and readers may do to it. */
module MaterialReview {
  import opened Wrappers
  import opened Budget
  import opened Storage

  type Id = string

  datatype Status = Draft | PendingReview | Approved | Rejected

  datatype Action = SUBMITTED | APPROVED | REJECTED | RESUBMITTED | MOVED_SUBJECT | REQUESTED_REVISION
      | WITHDRAWN | REPORTED

  /** A file row; the checksum stands for the content it was computed from. */
  datatype File = File(id: Id, key: string, preview: Option<string>, size: nat, order: int, checksum: Bytes)

  datatype Details = Details(title: string, description: Option<string>, kind: string, semesters: seq<int>,
      cover: Option<Id>, primary: Option<Id>)

  datatype Material = Material(
    owner: Id, slug: string, details: Details, subject: Id, tags: set<Id>, files: seq<File>,
    status: Status, log: seq<Action>, approvedBy: Option<Id>, rejectedReason: Option<string>,
    lastReviewedBy: Option<Id>, reviewedAt: Option<int>,
    fileCount: int, totalSize: int, downloadCount: int, downloads: seq<Id>, deleted: bool)

  function NewDraft(owner: Id, slug: string, details: Details, subject: Id): Material {
    Material(owner, slug, details, subject, {}, [], Draft, [], None, None, None, None, 0, 0, 0, [], false)
  }

  // ---------- Steps ----------

  /** The fields of an update that are set. */
  datatype Patch = Patch(title: Option<string>, description: Option<Option<string>>, kind: Option<string>,
      subject: Option<Id>,
                         semesters: Option<seq<int>>, cover: Option<Option<Id>>, primary: Option<Option<Id>>)

  /** What an owner asks for; whether a subject or a tag exists is found in the catalog. For the deletion of a file,
      `listing` is the order in which the database lists the files. */
  datatype Edit =
    | Submit
    | Withdraw
    | Update(patch: Patch, subjectKnown: bool)
    | Delete
    | AttachTag(tag: Id, tagKnown: bool)
    | DetachTag(tag: Id)
    | AttachFiles(files: seq<File>)
    | DeleteFile(file: Id, listing: seq<Id>)
    | ReorderFiles(ids: seq<Id>)
    | SelectFile(file: Id, asCover: Option<bool>, asPrimary: Option<bool>)

  datatype Decision =
    | Approve
    | Reject(reason: string)
    | RequestRevision(reason: string)
    | MoveSubject(subject: Id, subjectKnown: bool)

  datatype Reader = Reader(id: Id, staff: bool)

  datatype Step =
    | ByOwner(actor: Id, edit: Edit)
    | ByModerator(actor: Id, inScope: bool, decision: Decision, now: int)
    | Report
    | Download(reader: Option<Reader>, wanted: Option<Id>, stored: bool)
    | PreviewBuilt(file: Id, key: string)
    | Expire

  datatype Error = NotFound | Denied | Conflict | Invalid | Unauthenticated | Fault

  datatype Outcome = Failed(error: Error) | Kept | Changed(material: Material)

  /** Where the file of this id stands; the number of files if there is none. */
  function Place(files: seq<File>, id: Id): (i: nat)
    ensures i <= |files| && (i < |files| ==> files[i].id == id)
    ensures i == |files| ==> forall f <- files :: f.id != id
  {
    if files == [] || files[0].id == id then 0 else 1 + Place(files[1..], id)
  }

  function Position(ids: seq<Id>, id: Id): (i: nat)
    ensures i <= |ids| && (i < |ids| ==> ids[i] == id)
    ensures i == |ids| ==> id !in ids
  {
    if ids == [] || ids[0] == id then 0 else 1 + Position(ids[1..], id)
  }

  function Renumbered(files: seq<File>, ids: seq<Id>): (r: seq<File>)
    ensures |r| == |files|
  {
    seq(|files|, i requires 0 <= i < |files| => files[i].(order := Position(ids, files[i].id)))
  }

  function IdSet(files: seq<File>): set<Id> { set f | f in files :: f.id }

  function Sizes(files: seq<File>): (r: seq<nat>)
    ensures |r| == |files|
  {
    seq(|files|, i requires 0 <= i < |files| => files[i].size)
  }

  function Max0(x: int): int { if x > 0 then x else 0 }

  /** An edit of an approved material sends it back to review. */
  function Rereviewed(m: Material): Material {
    if m.status == Approved then m.(status := PendingReview, log := m.log + [RESUBMITTED]) else m
  }

  function Patched(d: Details, p: Patch): Details {
    Details(if p.title.Some? then p.title.value else d.title,
            if p.description.Some? then p.description.value else d.description,
            if p.kind.Some? then p.kind.value else d.kind,
            if p.semesters.Some? then p.semesters.value else d.semesters,
            if p.cover.Some? then p.cover.value else d.cover,
            if p.primary.Some? then p.primary.value else d.primary)
  }

  function Updated(m: Material, p: Patch): Material {
    m.(details := Patched(m.details, p), subject := if p.subject.Some? then p.subject.value else m.subject)
  }

  function Submitted(m: Material): Outcome {
    if m.status != Draft && m.status != Rejected then Failed(Conflict)
    else if m.fileCount < 1 then Failed(Invalid)
    else Changed(m.(status := PendingReview, log := m.log + [if m.status == Draft then SUBMITTED else RESUBMITTED]))
  }

  function Withdrawn(m: Material): Outcome {
    if m.status != PendingReview then Failed(Conflict) else Changed(m.(status := Draft, log := m.log + [WITHDRAWN]))
  }

  function FilesAttached(m: Material, files: seq<File>): Material {
    m.(files := m.files + files, fileCount := m.fileCount + |files|, totalSize := m.totalSize + Sum(Sizes(files)))
  }

  function WithoutId(ids: seq<Id>, id: Id): seq<Id> {
    if ids == [] then [] else (if ids[0] == id then [] else [ids[0]]) + WithoutId(ids[1..], id)
  }

  function WithoutFile(m: Material, i: nat, listing: seq<Id>): Material
    requires i < |m.files|
  {
    var target, remaining := m.files[i], WithoutId(listing, m.files[i].id);
    var fallback := if remaining == [] then None else Some(remaining[0]);
    m.(files := Renumbered(m.files[..i] + m.files[i + 1..], remaining),
       details := m.details.(cover := if m.details.cover == Some(target.id) then fallback else m.details.cover,
                             primary := if m.details.primary == Some(target.id) then fallback else m.details.primary),
       fileCount := Max0(m.fileCount - 1), totalSize := Max0(m.totalSize - target.size))
  }

  function Selected(current: Option<Id>, file: Id, choice: Option<bool>): Option<Id> {
    if choice == Some(true) then Some(file) else if choice == Some(false) && current == Some(file) then None
        else current
  }

  /** An edit of the content: refused while in review, and with a new review if approved. */
  function Edited(m: Material, edit: Edit): Outcome
  {
    if m.status == PendingReview then Failed(Conflict) else
    var r := Rereviewed(m);
    match edit
    case Update(p, _) => Changed(Updated(r, p))
    case AttachTag(t, _) => Changed(r.(tags := r.tags + {t}))
    case DetachTag(t) => Changed(r.(tags := r.tags - {t}))
    case DeleteFile(f, listing) =>
      var i := Place(r.files, f);
      if i < |r.files| then Changed(WithoutFile(r, i, listing)) else Failed(NotFound)
    case ReorderFiles(ids) => Changed(r.(files := Renumbered(r.files, ids)))
    case SelectFile(f, c, p) =>
      Changed(r.(details := r.details.(cover := Selected(r.details.cover, f, c),
          primary := Selected(r.details.primary, f, p))))
    case _ => Kept
  }

  /** The checks an edit makes before the state of review is looked at. */
  function Prechecked(m: Material, edit: Edit): Outcome {
    match edit
    case Update(p, known) => if p.subject.Some? && !known then Failed(NotFound) else Changed(m)
    case AttachTag(t, known) => if !known then Failed(NotFound) else if t in m.tags then Kept else Changed(m)
    case DetachTag(t) => if t !in m.tags then Failed(NotFound) else Changed(m)
    case DeleteFile(f, _) => if Place(m.files, f) == |m.files| then Failed(NotFound) else Changed(m)
    case ReorderFiles(ids) =>
      if |ids| != |m.files| || (set i | i in ids) != IdSet(m.files) then Failed(Invalid) else Changed(m)
    case SelectFile(f, c, p) =>
      if Place(m.files, f) == |m.files| then Failed(NotFound) else if c.None? && p.None? then Failed(Invalid)
          else Changed(m)
    case _ => Changed(m)
  }

  function Owned(m: Material, edit: Edit, limit: nat): Outcome {
    match edit
    case Submit => Submitted(m)
    case Withdraw => Withdrawn(m)
    case Delete => Changed(m.(deleted := true))
    case AttachFiles(files) =>
      if m.status != Draft then Failed(Conflict)
      else if files != [] && m.totalSize + Sum(Sizes(files)) > limit then Failed(Invalid)
          else Changed(FilesAttached(m, files))
    case _ => var p := Prechecked(m, edit); if p.Changed? then Edited(m, edit) else p
  }

  function Reviewed(m: Material, actor: Id, now: int, a: Action): Material {
    m.(log := m.log + [a], lastReviewedBy := Some(actor), reviewedAt := Some(now))
  }

  function Decided(m: Material, actor: Id, d: Decision, now: int): Outcome {
    match d
    case Approve =>
      if m.status != PendingReview || m.fileCount < 1 then Failed(Conflict)
      else Changed(Reviewed(m, actor, now, APPROVED).(status := Approved, approvedBy := Some(actor),
          rejectedReason := None))
    case Reject(reason) =>
      if m.status != PendingReview then Failed(Conflict)
      else Changed(Reviewed(m, actor, now, REJECTED).(status := Rejected, rejectedReason := Some(reason)))
    case RequestRevision(reason) =>
      if m.status != PendingReview then Failed(Conflict)
      else Changed(Reviewed(m, actor, now, REQUESTED_REVISION).(status := Rejected, rejectedReason := Some(reason)))
    case MoveSubject(subject, known) =>
      if !known then Failed(NotFound) else Changed(Reviewed(m, actor, now, MOVED_SUBJECT).(subject := subject))
  }

  /** Who may see a material: everybody once it is approved, before that its owner and the staff. */
  function Viewed(m: Material, reader: Option<Reader>): Option<Error> {
    if m.deleted then Some(NotFound)
    else if m.status == Approved || (reader.Some? && reader.value.staff) then None
    else if reader.None? || m.owner != reader.value.id then Some(Denied)
    else None
  }

  /** The file asked for, or the primary file, or the cover, or the first of the list. */
  function Wanted(m: Material, file: Option<Id>): Option<Id> {
    if file.Some? then file else if m.details.primary.Some? then m.details.primary
    else if m.details.cover.Some? then m.details.cover else if m.files != [] then Some(m.files[0].id) else None
  }

  /** A first download of a user is recorded and counted, a later one is not; a reader without
      account is only counted. */
  function DownloadCounted(m: Material, reader: Option<Reader>): Material {
    if reader.None? then m.(downloadCount := m.downloadCount + 1)
    else if reader.value.id in m.downloads then m
    else m.(downloads := m.downloads + [reader.value.id], downloadCount := m.downloadCount + 1)
  }

  function Downloaded(m: Material, reader: Option<Reader>, file: Option<Id>, stored: bool): Outcome {
    if Viewed(m, reader).Some? then Failed(Viewed(m, reader).value)
    else if m.status == Approved && reader.None? then Failed(Unauthenticated)
    else if Wanted(m, file).None? then Failed(Fault)
    else if Place(m.files, Wanted(m, file).value) == |m.files| || !stored then Failed(NotFound)
    else Changed(DownloadCounted(m, reader))
  }

  function Previewed(m: Material, file: Id, key: string): Outcome {
    var i := Place(m.files, file);
    if m.deleted || i == |m.files| then Failed(NotFound)
    else if m.files[i].preview.Some? then Kept
    else Changed(m.(files := m.files[i := m.files[i].(preview := Some(key))]))
  }

  function Apply(m: Material, s: Step, limit: nat): Outcome {
    match s
    case ByOwner(actor, edit) =>
      if m.deleted then Failed(NotFound) else if m.owner != actor then Failed(Denied) else Owned(m, edit, limit)
    case ByModerator(actor, inScope, d, now) =>
      if m.deleted then Failed(NotFound) else if !inScope then Failed(Denied) else Decided(m, actor, d, now)
    case Report => if m.status != Approved then Failed(NotFound) else Changed(m.(log := m.log + [REPORTED]))
    case Download(reader, file, stored) => Downloaded(m, reader, file, stored)
    case PreviewBuilt(file, key) => Previewed(m, file, key)
    case Expire => if m.status == Draft && !m.deleted then Changed(m.(deleted := true)) else Kept
  }

  function After(m: Material, s: Step, limit: nat): Material {
    var o := Apply(m, s, limit);
    if o.Changed? then o.material else m
  }

  /** A slug is for ever, whatever happens to the title. */
  lemma SlugStays(m: Material, s: Step, limit: nat)
    ensures After(m, s, limit).slug == m.slug
  {}

  // ---------- The review log ----------

  /** The review cycle as an automaton over the log. */
  function Next(s: Status, a: Action): Option<Status> {
    match a
    case SUBMITTED => if s == Draft then Some(PendingReview) else None
    case RESUBMITTED => if s == Rejected || s == Approved then Some(PendingReview) else None
    case WITHDRAWN => if s == PendingReview then Some(Draft) else None
    case APPROVED => if s == PendingReview then Some(Approved) else None
    case REJECTED | REQUESTED_REVISION => if s == PendingReview then Some(Rejected) else None
    case REPORTED => if s == Approved then Some(s) else None
    case MOVED_SUBJECT => Some(s)
  }

  /** The status a log leads to from a draft, if the log is a word of the automaton. */
  function Reading(log: seq<Action>): Option<Status> {
    if log == [] then Some(Draft)
    else
      var before := Reading(log[..|log| - 1]);
      if before.None? then None else Next(before.value, log[|log| - 1])
  }

  lemma ReadingSnoc(log: seq<Action>, a: Action)
    ensures Reading(log + [a]) == if Reading(log).None? then None else Next(Reading(log).value, a)
  {
    assert (log + [a])[..|log|] == log;
  }

  /** What review keeps: the status is the reading of the log, and an approved material has a file, an approver and no
      reason of rejection. */
  predicate Sound(m: Material) {
    && Reading(m.log) == Some(m.status)
    && (m.status == Approved ==> m.fileCount >= 1 && m.approvedBy.Some? && m.rejectedReason.None?)
  }

  /** A step that logs an action of the automaton keeps a material sound. */
  lemma LoggedKeepsSound(m: Material, o: Material, a: Action)
    requires Sound(m) && o.log == m.log + [a] && Next(m.status, a) == Some(o.status)
    requires o.status == Approved ==> o.fileCount >= 1 && o.approvedBy.Some? && o.rejectedReason.None?
    ensures Sound(o)
  {
    ReadingSnoc(m.log, a);
  }

  /** A step that logs nothing and keeps the status keeps a material sound, unless it takes from an approved one. */
  lemma UnloggedKeepsSound(m: Material, o: Material)
    requires Sound(m) && o.log == m.log && o.status == m.status
    requires m.status == Approved ==>
        o.fileCount == m.fileCount && o.approvedBy == m.approvedBy && o.rejectedReason == m.rejectedReason
    ensures Sound(o)
  {}

  lemma RereviewKeepsSound(m: Material)
    requires Sound(m)
    ensures Sound(Rereviewed(m)) && (m.status != PendingReview ==> Rereviewed(m).status != Approved)
  {
    if m.status == Approved { LoggedKeepsSound(m, Rereviewed(m), RESUBMITTED); }
  }

  /** An edit leaves the log and the status as the new review does. */
  lemma EditedAfterRereview(m: Material, edit: Edit)
    requires Edited(m, edit).Changed?
    ensures var r, o := Rereviewed(m), Edited(m, edit).material;
      m.status != PendingReview && o.status == r.status && o.log == r.log && r.status != Approved
  {}

  /** What the steps of an owner that are no edits log. */
  lemma OwnedLogs(m: Material, edit: Edit, limit: nat)
    requires Owned(m, edit, limit).Changed?
    ensures var o := Owned(m, edit, limit).material;
      match edit
      case Submit =>
        var a := if m.status == Draft then SUBMITTED else RESUBMITTED;
        o.log == m.log + [a] && Next(m.status, a) == Some(o.status) && o.status != Approved
      case Withdraw =>
        o.log == m.log + [WITHDRAWN] && Next(m.status, WITHDRAWN) == Some(o.status) && o.status != Approved
      case Delete => o == m.(deleted := true)
      case AttachFiles(_) => o.log == m.log && o.status == m.status && m.status == Draft
      case _ => Edited(m, edit) == Changed(o)
  {}

  lemma OwnerKeepsSound(m: Material, edit: Edit, limit: nat)
    requires Sound(m) && Owned(m, edit, limit).Changed?
    ensures Sound(Owned(m, edit, limit).material)
  {
    var o := Owned(m, edit, limit).material;
    OwnedLogs(m, edit, limit);
    match edit
    case Submit => LoggedKeepsSound(m, o, if m.status == Draft then SUBMITTED else RESUBMITTED);
    case Withdraw => LoggedKeepsSound(m, o, WITHDRAWN);
    case Delete => UnloggedKeepsSound(m, o);
    case AttachFiles(_) => UnloggedKeepsSound(m, o);
    case _ =>
      RereviewKeepsSound(m);
      EditedAfterRereview(m, edit);
      UnloggedKeepsSound(Rereviewed(m), o);
  }

  function ActionOf(d: Decision): Action {
    match d
    case Approve => APPROVED
    case Reject(_) => REJECTED
    case RequestRevision(_) => REQUESTED_REVISION
    case MoveSubject(_, _) => MOVED_SUBJECT
  }

  /** What a decision logs, and what an approval needs and leaves. */
  lemma DecidedLogs(m: Material, actor: Id, d: Decision, now: int)
    requires Decided(m, actor, d, now).Changed?
    ensures var o := Decided(m, actor, d, now).material;
      && o.log == m.log + [ActionOf(d)] && Next(m.status, ActionOf(d)) == Some(o.status) && o.fileCount == m.fileCount
      && (d.Approve? ==> o.fileCount >= 1 && o.approvedBy == Some(actor) && o.rejectedReason == None)
      && (d.MoveSubject? ==> o.approvedBy == m.approvedBy && o.rejectedReason == m.rejectedReason)
  {}

  lemma ModeratorKeepsSound(m: Material, actor: Id, d: Decision, now: int)
    requires Sound(m) && Decided(m, actor, d, now).Changed?
    ensures Sound(Decided(m, actor, d, now).material)
  {
    DecidedLogs(m, actor, d, now);
    LoggedKeepsSound(m, Decided(m, actor, d, now).material, ActionOf(d));
  }

  /** The steps of readers and of the clean-up log a report at most. */
  lemma OthersLog(m: Material, s: Step, limit: nat)
    requires !s.ByOwner? && !s.ByModerator?
    ensures var o := After(m, s, limit);
      && o.status == m.status && o.fileCount == m.fileCount && o.approvedBy == m.approvedBy &&
          o.rejectedReason == m.rejectedReason
      && (o.log == m.log || (o.log == m.log + [REPORTED] && m.status == Approved))
  {}

  lemma StepKeepsSound(m: Material, s: Step, limit: nat)
    requires Sound(m)
    ensures Sound(After(m, s, limit))
  {
    match s
    case ByOwner(_, edit) => if Apply(m, s, limit).Changed? { OwnerKeepsSound(m, edit, limit); }
    case ByModerator(actor, _, d, now) => if Apply(m, s, limit).Changed? { ModeratorKeepsSound(m, actor, d, now); }
    case _ =>
      var o := After(m, s, limit);
      OthersLog(m, s, limit);
      if o.log == m.log { UnloggedKeepsSound(m, o); } else { LoggedKeepsSound(m, o, REPORTED); }
  }

  predicate Decisive(a: Action) { a in {APPROVED, REJECTED, REQUESTED_REVISION, WITHDRAWN} }

  /** A submission at `j` that no decision or withdrawal follows before `i`. */
  predicate Opens(log: seq<Action>, j: nat, i: nat) {
    j < i <= |log| && log[j] in {SUBMITTED, RESUBMITTED} && forall k | j < k < i :: !Decisive(log[k])
  }

  lemma {:induction false} PendingWasSubmitted(log: seq<Action>)
    requires Reading(log) == Some(PendingReview)
    ensures exists j: nat :: Opens(log, j, |log|)
  {
    var n := |log| - 1;
    var shorter := log[..n];
    if log[n] in {SUBMITTED, RESUBMITTED} {
      assert Opens(log, n, |log|);
    } else {
      PendingWasSubmitted(shorter);
      var j: nat :| Opens(shorter, j, n);
      assert forall k | j < k < n :: log[k] == shorter[k];
      assert Opens(log, j, |log|);
    }
  }

  lemma {:induction false} PrefixReads(log: seq<Action>, n: nat)
    requires Reading(log).Some? && n <= |log|
    ensures Reading(log[..n]).Some?
  {
    if n < |log| {
      PrefixReads(log[..|log| - 1], n);
      assert log[..|log| - 1][..n] == log[..n];
    } else {
      assert log[..n] == log;
    }
  }

  /** Every decision in a log of the automaton, approvals among them, answers a submission that is still open: no
      decision or withdrawal lies between the two. */
  lemma DecisionsAnswerSubmissions(log: seq<Action>, i: nat)
    requires Reading(log).Some? && i < |log| && Decisive(log[i])
    ensures exists j: nat :: Opens(log, j, i)
  {
    PrefixReads(log, i + 1);
    var upTo := log[..i];
    assert log[..i + 1][..i] == upTo;
    PendingWasSubmitted(upTo);
    var j: nat :| Opens(upTo, j, i);
    assert forall k | j < k < i :: log[k] == upTo[k];
    assert Opens(log, j, i);
  }
}
