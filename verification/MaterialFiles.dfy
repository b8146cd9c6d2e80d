/** Attaching files: saving the uploads, building previews, committing the rows, and the clean-up after a failure. */
module MaterialFiles {
  import opened Wrappers
  import opened Budget
  import opened Storage
  import opened MaterialReview

  datatype Settings = Settings(maxFile: nat, maxTotal: nat, maxCount: nat, signature: Signature)

  /** How building the preview of a document goes: it fails before or while its file is written, or it is written. */
  datatype Preview = Unbuilt | Partly(previewKey: string, part: Bytes) | Built(previewKey: string, whole: Bytes)

  /** An upload with the keys and the id drawn for it; `removable` says whether deleting it again works. */
  datatype Incoming = Incoming(upload: Upload, key: string, id: Id, preview: Preview, removable: bool)

  /** The course of the rest: whether the database commits, whether invalidating the caches works after that, and how
      many deletions of the clean-up work. */
  datatype Course = Course(commits: bool, invalidates: bool, deletions: nat)

  predicate IsPdf(extension: string) { extension == "pdf" }

  // ---------- Saving ----------

  datatype Saving = Saving(store: Files, stored: seq<StoredFile>, ok: bool)

  /** One upload: refused and not stored, or over the total size and deleted again if that works, or stored. */
  function SavedOne(store: Files, total: int, u: Incoming, c: Settings): (Files, Option<StoredFile>) {
    if !Accepted(u.upload, c.maxFile, c.signature) then (store, None) else
    var f, saved := Stored(u.upload, u.key, c.signature), store[u.key := Contents(u.upload)];
    if total + f.size > c.maxTotal then (if u.removable then saved - {u.key} else saved, None) else (saved, Some(f))
  }

  /** Saves one upload after the other until one is not stored. */
  function SaveAll(store: Files, total: int, ins: seq<Incoming>, c: Settings): (r: Saving)
    ensures r.ok ==> |r.stored| == |ins|
    decreases |ins|
  {
    if ins == [] then Saving(store, [], true) else
    var one := SavedOne(store, total, ins[0], c);
    if one.1.None? then Saving(one.0, [], false)
        else Before(one.1.value, SaveAll(one.0, total + one.1.value.size, ins[1..], c))
  }

  function Before(f: StoredFile, r: Saving): Saving { r.(stored := [f] + r.stored) }

  function PreviewKeys(p: Preview): set<string> { if p.Unbuilt? then {} else {p.previewKey} }

  function KeysOf(u: Incoming): set<string> { {u.key} + PreviewKeys(u.preview) }

  /** All keys drawn are new and different. */
  predicate NewKeys(store: Files, ins: seq<Incoming>) {
    && (forall i | 0 <= i < |ins| :: KeysOf(ins[i]) !! store.Keys && ins[i].key !in PreviewKeys(ins[i].preview))
    && (forall i, j | 0 <= i < j < |ins| :: KeysOf(ins[i]) !! KeysOf(ins[j]))
  }

  predicate Extends(a: Files, b: Files) { forall k | k in a :: k in b && b[k] == a[k] }

  function StoredKeys(stored: seq<StoredFile>): (r: seq<string>)
    ensures |r| == |stored|
  {
    seq(|stored|, i requires 0 <= i < |stored| => stored[i].key)
  }

  function StoredSizes(stored: seq<StoredFile>): (r: seq<nat>)
    ensures |r| == |stored|
  {
    seq(|stored|, i requires 0 <= i < |stored| => stored[i].size)
  }

  /** A stored file is there, whole. */
  predicate Whole(store: Files, f: StoredFile) {
    f.key in store && store[f.key] == f.checksum && f.size == |f.checksum|
  }

  lemma NewKeysTail(store: Files, ins: seq<Incoming>, content: Bytes)
    requires ins != [] && NewKeys(store, ins)
    ensures NewKeys(store[ins[0].key := content], ins[1..])
  {
    forall i | 0 <= i < |ins[1..]|
        ensures KeysOf(ins[1..][i]) !! store[ins[0].key := content].Keys &&
        ins[1..][i].key !in PreviewKeys(ins[1..][i].preview) {
      assert KeysOf(ins[0]) !! KeysOf(ins[i + 1]) && ins[0].key in KeysOf(ins[0]);
    }
    forall i, j | 0 <= i < j < |ins[1..]| ensures KeysOf(ins[1..][i]) !! KeysOf(ins[1..][j]) {
      assert KeysOf(ins[i + 1]) !! KeysOf(ins[j + 1]);
    }
  }

  /** Each stored file is there, whole, under the key of its upload. */
  predicate StoredFrom(stored: seq<StoredFile>, ins: seq<Incoming>, store: Files) {
    |stored| <= |ins| && forall i | 0 <= i < |stored| :: stored[i].key == ins[i].key && Whole(store, stored[i])
  }

  lemma StoredFromCons(f: StoredFile, stored: seq<StoredFile>, ins: seq<Incoming>, store: Files)
    requires ins != [] && StoredFrom(stored, ins[1..], store) && f.key == ins[0].key && Whole(store, f)
    ensures StoredFrom([f] + stored, ins, store)
  {
    forall i | 0 <= i < |[f] + stored| ensures ([f] + stored)[i].key == ins[i].key && Whole(store, ([f] + stored)[i]) {
      if i > 0 { assert ([f] + stored)[i] == stored[i - 1] && ins[i] == ins[1..][i - 1]; }
    }
  }

  lemma {:induction false} SaveAllFacts(store: Files, total: int, ins: seq<Incoming>, c: Settings)
    requires NewKeys(store, ins)
    ensures var r := SaveAll(store, total, ins, c); Extends(store, r.store) && StoredFrom(r.stored, ins, r.store)
    decreases |ins|
  {
    if ins != [] {
      assert KeysOf(ins[0]) !! store.Keys && ins[0].key in KeysOf(ins[0]);
      var one := SavedOne(store, total, ins[0], c);
      if one.1.Some? {
        NewKeysTail(store, ins, Contents(ins[0].upload));
        SaveAllFacts(one.0, total + one.1.value.size, ins[1..], c);
        assert Whole(one.0, one.1.value);
        var rest := SaveAll(one.0, total + one.1.value.size, ins[1..], c);
        StoredFromCons(one.1.value, rest.stored, ins, rest.store);
      }
    }
  }

  /** Uploads that were all stored are within the total size. */
  lemma {:induction false} SaveAllWithin(store: Files, total: int, ins: seq<Incoming>, c: Settings)
    requires SaveAll(store, total, ins, c).ok && ins != []
    ensures total + Sum(StoredSizes(SaveAll(store, total, ins, c).stored)) <= c.maxTotal
    decreases |ins|
  {
    var one := SavedOne(store, total, ins[0], c);
    var f := one.1.value;
    var rest := SaveAll(one.0, total + f.size, ins[1..], c);
    assert StoredSizes([f] + rest.stored) == [f.size] + StoredSizes(rest.stored);
    if ins[1..] == [] { assert StoredSizes(rest.stored) == []; } else {
      SaveAllWithin(one.0, total + f.size, ins[1..], c);
    }
  }

  predicate AllAccepted(ins: seq<Incoming>, c: Settings) {
    forall u <- ins :: Accepted(u.upload, c.maxFile, c.signature)
  }

  function TotalSize(ins: seq<Incoming>): nat {
    if ins == [] then 0 else |Contents(ins[0].upload)| + TotalSize(ins[1..])
  }

  lemma AcceptedCons(ins: seq<Incoming>, c: Settings)
    requires ins != []
    ensures AllAccepted(ins, c) <==> Accepted(ins[0].upload, c.maxFile, c.signature) && AllAccepted(ins[1..], c)
  {
    assert ins == [ins[0]] + ins[1..];
  }

  /** All uploads are stored exactly when each is accepted and together they stay within the total size. */
  lemma {:induction false} SavedIff(store: Files, total: int, ins: seq<Incoming>, c: Settings)
    ensures SaveAll(store, total, ins, c).ok <==>
        AllAccepted(ins, c) && (ins != [] ==> total + TotalSize(ins) <= c.maxTotal)
    decreases |ins|
  {
    if ins != [] {
      AcceptedCons(ins, c);
      var one := SavedOne(store, total, ins[0], c);
      if one.1.Some? { SavedIff(one.0, total + one.1.value.size, ins[1..], c); }
    }
  }

  /** A stored file has the extension of its upload. */
  predicate ExtensionsOf(stored: seq<StoredFile>, ins: seq<Incoming>) {
    |stored| <= |ins| && forall i | 0 <= i < |stored| :: stored[i].extension == ins[i].upload.extension
  }

  lemma {:induction false} SavedExtensions(store: Files, total: int, ins: seq<Incoming>, c: Settings)
    ensures ExtensionsOf(SaveAll(store, total, ins, c).stored, ins)
    decreases |ins|
  {
    if ins != [] {
      var one := SavedOne(store, total, ins[0], c);
      if one.1.Some? {
        var f, rest := one.1.value, SaveAll(one.0, total + one.1.value.size, ins[1..], c);
        SavedExtensions(one.0, total + f.size, ins[1..], c);
        forall i | 0 <= i < |[f] + rest.stored| ensures ([f] + rest.stored)[i].extension == ins[i].upload.extension {
          if i > 0 { assert ([f] + rest.stored)[i] == rest.stored[i - 1] && ins[i] == ins[1..][i - 1]; }
        }
      }
    }
  }

  /** The keys added are those of the stored files, if the deletion of the one too large works. */
  lemma {:induction false} SaveAllAdds(store: Files, total: int, ins: seq<Incoming>, c: Settings)
    requires forall u <- ins :: u.removable
    ensures var r := SaveAll(store, total, ins, c); forall k | k in r.store :: k in store || k in StoredKeys(r.stored)
    decreases |ins|
  {
    if ins != [] {
      var one := SavedOne(store, total, ins[0], c);
      if one.1.Some? {
        var rest := SaveAll(one.0, total + one.1.value.size, ins[1..], c);
        SaveAllAdds(one.0, total + one.1.value.size, ins[1..], c);
        assert StoredKeys([one.1.value] + rest.stored) == [one.1.value.key] + StoredKeys(rest.stored);
        forall k | k in rest.store ensures k in store || k in StoredKeys([one.1.value] + rest.stored) {
          assert k in one.0 ==> k in store || k == one.1.value.key;
        }
      }
    }
  }

  // ---------- Previews ----------

  datatype Previewing = Previewing(store: Files, files: seq<File>, ok: bool)

  function Row(f: StoredFile, u: Incoming, order: int, preview: Option<string>): File {
    File(u.id, f.key, preview, f.size, order, f.checksum)
  }

  /** Builds the preview of every document, and the row of every file, until a preview fails. */
  function BuildPreviews(store: Files, stored: seq<StoredFile>, ins: seq<Incoming>, orders: seq<int>): Previewing
    requires |stored| == |ins| == |orders|
    decreases |ins|
  {
    if ins == [] then Previewing(store, [], true) else
    var f, u := stored[0], ins[0];
    if !IsPdf(f.extension) then
      var rest := BuildPreviews(store, stored[1..], ins[1..], orders[1..]);
      rest.(files := [Row(f, u, orders[0], None)] + rest.files)
    else match u.preview
      case Unbuilt => Previewing(store, [], false)
      case Partly(key, part) => Previewing(store[key := part], [], false)
      case Built(key, whole) =>
        var rest := BuildPreviews(store[key := whole], stored[1..], ins[1..], orders[1..]);
        rest.(files := [Row(f, u, orders[0], Some(key))] + rest.files)
  }

  /** No preview key is in use. */
  predicate NewPreviews(store: Files, ins: seq<Incoming>) {
    && (forall i | 0 <= i < |ins| :: PreviewKeys(ins[i].preview) !! store.Keys)
    && (forall i, j | 0 <= i < j < |ins| :: PreviewKeys(ins[i].preview) !! PreviewKeys(ins[j].preview))
  }

  /** The row of a file says what was stored and under which keys. */
  predicate RowOf(f: File, s: StoredFile, u: Incoming, order: int, store: Files) {
    && f.id == u.id && f.key == s.key && f.size == s.size && f.checksum == s.checksum && f.order == order
    && (f.preview.Some? ==> f.preview.value in PreviewKeys(u.preview) && f.preview.value in store)
  }

  predicate RowsOf(files: seq<File>, stored: seq<StoredFile>, ins: seq<Incoming>, orders: seq<int>, store: Files)
    requires |stored| == |ins| == |orders|
  {
    |files| == |ins| && forall i | 0 <= i < |ins| :: RowOf(files[i], stored[i], ins[i], orders[i], store)
  }

  lemma RowsOfCons(f: File, files: seq<File>, stored: seq<StoredFile>, ins: seq<Incoming>, orders: seq<int>,
      store: Files)
    requires |stored| == |ins| == |orders| && ins != [] && RowOf(f, stored[0], ins[0], orders[0], store)
    requires RowsOf(files, stored[1..], ins[1..], orders[1..], store)
    ensures RowsOf([f] + files, stored, ins, orders, store)
  {
    forall i | 0 <= i < |ins| ensures RowOf(([f] + files)[i], stored[i], ins[i], orders[i], store) {
      if i > 0 { assert RowOf(files[i - 1], stored[1..][i - 1], ins[1..][i - 1], orders[1..][i - 1], store); }
    }
  }

  lemma NewPreviewsTail(store: Files, ins: seq<Incoming>, content: Bytes)
    requires ins != [] && NewPreviews(store, ins)
    ensures NewPreviews(store, ins[1..])
    ensures ins[0].preview.Built? ==> NewPreviews(store[ins[0].preview.previewKey := content], ins[1..])
  {
    forall i | 0 <= i < |ins[1..]|
      ensures PreviewKeys(ins[1..][i].preview) !! store.Keys &&
          PreviewKeys(ins[0].preview) !! PreviewKeys(ins[1..][i].preview)
    {
      assert ins[1..][i] == ins[i + 1] && PreviewKeys(ins[0].preview) !! PreviewKeys(ins[i + 1].preview);
    }
    forall i, j | 0 <= i < j < |ins[1..]| ensures PreviewKeys(ins[1..][i].preview) !! PreviewKeys(ins[1..][j].preview) {
      assert PreviewKeys(ins[i + 1].preview) !! PreviewKeys(ins[j + 1].preview);
    }
  }

  lemma {:induction false} PreviewFacts(store: Files, stored: seq<StoredFile>, ins: seq<Incoming>, orders: seq<int>)
    requires |stored| == |ins| == |orders| && NewPreviews(store, ins)
    ensures var r := BuildPreviews(store, stored, ins, orders);
      Extends(store, r.store) && (r.ok ==> RowsOf(r.files, stored, ins, orders, r.store))
    decreases |ins|
  {
    if ins != [] {
      var u, pdf := ins[0], IsPdf(stored[0].extension);
      assert PreviewKeys(u.preview) !! store.Keys;
      if !pdf || u.preview.Built? {
        var next := if pdf then store[u.preview.previewKey := u.preview.whole] else store;
        var rest := BuildPreviews(next, stored[1..], ins[1..], orders[1..]);
        NewPreviewsTail(store, ins, if pdf then u.preview.whole else []);
        PreviewFacts(next, stored[1..], ins[1..], orders[1..]);
        if rest.ok {
          RowsOfCons(Row(stored[0], u, orders[0], if pdf then Some(u.preview.previewKey) else None), rest.files, stored,
              ins, orders, rest.store);
        }
      }
    }
  }

  /** The files that building the previews writes, as far as it gets: those of the documents before the first failure,
      and the one that this failure may leave. */
  function WrittenPreviews(ins: seq<Incoming>): set<string> {
    if ins == [] then {}
    else if !IsPdf(ins[0].upload.extension) then WrittenPreviews(ins[1..])
    else PreviewKeys(ins[0].preview) + if ins[0].preview.Built? then WrittenPreviews(ins[1..]) else {}
  }

  lemma {:induction false} WrittenArePreviews(ins: seq<Incoming>)
    ensures forall k | k in WrittenPreviews(ins) :: exists u <- ins :: k in PreviewKeys(u.preview)
  {
    if ins != [] {
      WrittenArePreviews(ins[1..]);
      assert ins[0] in ins && forall v <- ins[1..] :: v in ins;
    }
  }

  /** Whether building the previews writes a file: it does unless there is no document or the first one fails early. */
  predicate WritesPreview(ins: seq<Incoming>) {
    ins != [] && if IsPdf(ins[0].upload.extension) then !ins[0].preview.Unbuilt? else WritesPreview(ins[1..])
  }

  lemma {:induction false} WritesPreviewIff(ins: seq<Incoming>)
    ensures WritesPreview(ins) <==> WrittenPreviews(ins) != {}
  {
    if ins != [] {
      WritesPreviewIff(ins[1..]);
      if ins[0].preview.Unbuilt? {} else { assert ins[0].preview.previewKey in PreviewKeys(ins[0].preview); }
    }
  }

  /** Building the previews adds exactly the files written. */
  lemma {:induction false} PreviewsWritten(store: Files, stored: seq<StoredFile>, ins: seq<Incoming>, orders: seq<int>)
    requires |stored| == |ins| == |orders| && ExtensionsOf(stored, ins)
    ensures BuildPreviews(store, stored, ins, orders).store.Keys == store.Keys + WrittenPreviews(ins)
    decreases |ins|
  {
    if ins != [] {
      var u, pdf := ins[0], IsPdf(stored[0].extension);
      assert stored[0].extension == u.upload.extension;
      if !pdf || u.preview.Built? {
        var next := if pdf then store[u.preview.previewKey := u.preview.whole] else store;
        forall i | 0 <= i < |stored[1..]| ensures stored[1..][i].extension == ins[1..][i].upload.extension {
          assert stored[i + 1].extension == ins[i + 1].upload.extension;
        }
        PreviewsWritten(next, stored[1..], ins[1..], orders[1..]);
      }
    }
  }

  // ---------- Attaching ----------

  /** What an attempt leaves: the store, the rows if they were committed, and whether it raised. */
  datatype Attaching = Attaching(store: Files, files: Option<seq<File>>, raised: bool)

  function Attach(store: Files, total: int, ins: seq<Incoming>, orders: seq<int>, c: Settings,
      course: Course): Attaching
    requires |ins| == |orders|
  {
    var s := SaveAll(store, total, ins, c);
    var clean := DeletedOf(StoredKeys(s.stored), course.deletions);
    if !s.ok then Attaching(s.store - clean, None, true) else
    var p := BuildPreviews(s.store, s.stored, ins, orders);
    if !p.ok || !course.commits then Attaching(p.store - clean, None, true)
    else if !course.invalidates then Attaching(p.store - clean, Some(p.files), true)
    else Attaching(p.store, Some(p.files), false)
  }

  /** The store has all that a file row says. */
  predicate Backed(store: Files, f: File) {
    f.key in store && store[f.key] == f.checksum && |f.checksum| == f.size &&
        (f.preview.Some? ==> f.preview.value in store)
  }

  lemma CleanIsNew(store: Files, total: int, ins: seq<Incoming>, c: Settings, n: nat)
    requires NewKeys(store, ins)
    ensures DeletedOf(StoredKeys(SaveAll(store, total, ins, c).stored), n) !! store.Keys
  {
    SaveAllFacts(store, total, ins, c);
    var stored := SaveAll(store, total, ins, c).stored;
    forall k | k in DeletedOf(StoredKeys(stored), n) ensures k !in store {
      var i :| 0 <= i < |stored| && StoredKeys(stored)[i] == k;
      assert stored[i].key == ins[i].key && ins[i].key in KeysOf(ins[i]);
    }
  }

  lemma PreviewsAreNew(store: Files, total: int, ins: seq<Incoming>, c: Settings)
    requires NewKeys(store, ins) && SaveAll(store, total, ins, c).ok
    ensures NewPreviews(SaveAll(store, total, ins, c).store, ins)
  {
    SavedKeys(store, total, ins, c);
    var r := SaveAll(store, total, ins, c);
    forall i | 0 <= i < |ins| ensures PreviewKeys(ins[i].preview) !! r.store.Keys {
      forall k | k in PreviewKeys(ins[i].preview) ensures k !in r.store {
        assert k in KeysOf(ins[i]);
        if j :| 0 <= j < |ins| && k == ins[j].key { assert k in KeysOf(ins[j]); }
      }
    }
    forall i, j | 0 <= i < j < |ins| ensures PreviewKeys(ins[i].preview) !! PreviewKeys(ins[j].preview) {
      assert KeysOf(ins[i]) !! KeysOf(ins[j]);
    }
  }

  lemma {:induction false} SavedKeys(store: Files, total: int, ins: seq<Incoming>, c: Settings)
    ensures forall k | k in SaveAll(store, total, ins, c).store :: k in store || exists j ::
        0 <= j < |ins| && k == ins[j].key
    decreases |ins|
  {
    if ins != [] && Accepted(ins[0].upload, c.maxFile, c.signature) {
      var f, saved := Stored(ins[0].upload, ins[0].key, c.signature), store[ins[0].key := Contents(ins[0].upload)];
      if total + f.size <= c.maxTotal {
        SavedKeys(saved, total + f.size, ins[1..], c);
        forall k | k in SaveAll(store, total, ins, c).store
            ensures k in store || exists j :: 0 <= j < |ins| && k == ins[j].key {
          if k !in saved {
            var j :| 0 <= j < |ins[1..]| && k == ins[1..][j].key;
            assert k == ins[j + 1].key;
          } else {
            assert k in store || k == ins[0].key;
          }
        }
      }
    }
  }

  /** Whatever fails, what was stored before is still stored; the rows of an attempt that did not raise are backed. */
  lemma AttachIsSafe(store: Files, total: int, ins: seq<Incoming>, orders: seq<int>, c: Settings, course: Course)
    requires |ins| == |orders| && NewKeys(store, ins)
    ensures var r := Attach(store, total, ins, orders, c, course);
      && Extends(store, r.store)
      && (r.files.Some? ==> |r.files.value| == |ins| && forall i | 0 <= i < |ins| ::
          FromUpload(r.files.value[i], ins[i], orders[i]))
      && (!r.raised ==> r.files.Some? && forall f <- r.files.value :: Backed(r.store, f))
      && (r.files.Some? && ins != [] ==> total + Sum(Sizes(r.files.value)) <= c.maxTotal)
  {
    SaveAllFacts(store, total, ins, c);
    CleanIsNew(store, total, ins, c, course.deletions);
    var s := SaveAll(store, total, ins, c);
    if s.ok {
      if ins != [] { SaveAllWithin(store, total, ins, c); }
      PreviewsAreNew(store, total, ins, c);
      PreviewFacts(s.store, s.stored, ins, orders);
      var p := BuildPreviews(s.store, s.stored, ins, orders);
      if p.ok {
        assert Sizes(p.files) == StoredSizes(s.stored) by {
          forall i | 0 <= i < |ins| ensures p.files[i].size == s.stored[i].size {
            assert RowOf(p.files[i], s.stored[i], ins[i], orders[i], p.store);
          }
        }
        forall i | 0 <= i < |ins| ensures FromUpload(p.files[i], ins[i], orders[i]) && Backed(p.store, p.files[i]) {
          assert RowOf(p.files[i], s.stored[i], ins[i], orders[i], p.store) && Whole(s.store, s.stored[i]);
        }
      }
    }
  }

  lemma {:induction false} SavedContents(store: Files, total: int, ins: seq<Incoming>, c: Settings)
    ensures var stored := SaveAll(store, total, ins, c).stored;
      |stored| <= |ins| && forall i | 0 <= i < |stored| ::
          stored[i].checksum == Contents(ins[i].upload) && stored[i].size == |Contents(ins[i].upload)|
    decreases |ins|
  {
    if ins != [] {
      var one := SavedOne(store, total, ins[0], c);
      if one.1.Some? {
        var f, rest := one.1.value, SaveAll(one.0, total + one.1.value.size, ins[1..], c);
        SavedContents(one.0, total + f.size, ins[1..], c);
        forall i | 0 <= i < |[f] + rest.stored|
          ensures ([f] + rest.stored)[i].checksum == Contents(ins[i].upload)
          ensures ([f] + rest.stored)[i].size == |Contents(ins[i].upload)|
        {
          if i > 0 { assert ([f] + rest.stored)[i] == rest.stored[i - 1] && ins[i] == ins[1..][i - 1]; }
        }
      }
    }
  }

  function UploadKeys(ins: seq<Incoming>): set<string> { set u | u in ins :: u.key }

  /** An attempt goes through exactly when every upload is stored, every preview is built, and the commit and the
      dropping of the caches work. It then adds each upload, whole, and the previews, and nothing else. */
  lemma AttachStores(store: Files, total: int, ins: seq<Incoming>, orders: seq<int>, c: Settings, course: Course)
    requires |ins| == |orders| && NewKeys(store, ins)
    ensures var r := Attach(store, total, ins, orders, c, course);
      && (!r.raised <==>
            AllAccepted(ins, c) && (ins != [] ==> total + TotalSize(ins) <= c.maxTotal) && AllBuilt(ins)
            && course.commits && course.invalidates)
      && (!r.raised ==>
            && r.store.Keys == store.Keys + UploadKeys(ins) + WrittenPreviews(ins)
            && r.files.Some? && |r.files.value| == |ins| && forall i | 0 <= i < |ins| ::
                 ins[i].key in r.store && r.store[ins[i].key] == Contents(ins[i].upload)
                 && r.files.value[i].checksum == Contents(ins[i].upload))
  {
    var s := SaveAll(store, total, ins, c);
    SavedIff(store, total, ins, c);
    if s.ok {
      SavedExtensions(store, total, ins, c);
      BuiltIff(s.store, s.stored, ins, orders);
      if !Attach(store, total, ins, orders, c, course).raised {
        AttachIsSafe(store, total, ins, orders, c, course);
        SavedContents(store, total, ins, c);
        SaveAllFacts(store, total, ins, c);
        PreviewsWritten(s.store, s.stored, ins, orders);
        SavedUploads(store, total, ins, c);
        PreviewsAreNew(store, total, ins, c);
        PreviewFacts(s.store, s.stored, ins, orders);
        var p := BuildPreviews(s.store, s.stored, ins, orders);
        forall i | 0 <= i < |ins|
          ensures ins[i].key in p.store && p.store[ins[i].key] == Contents(ins[i].upload)
          ensures p.files[i].checksum == Contents(ins[i].upload)
        {
          assert Whole(s.store, s.stored[i]) && s.stored[i].key == ins[i].key;
          assert RowOf(p.files[i], s.stored[i], ins[i], orders[i], p.store);
        }
      }
    }
  }

  lemma {:induction false} SavedUploads(store: Files, total: int, ins: seq<Incoming>, c: Settings)
    requires SaveAll(store, total, ins, c).ok
    ensures SaveAll(store, total, ins, c).store.Keys == store.Keys + UploadKeys(ins)
    decreases |ins|
  {
    if ins != [] {
      var one := SavedOne(store, total, ins[0], c);
      SavedUploads(one.0, total + one.1.value.size, ins[1..], c);
      assert ins == [ins[0]] + ins[1..];
      assert UploadKeys(ins) == {ins[0].key} + UploadKeys(ins[1..]);
    }
  }

  /** Every document has its preview built. */
  predicate AllBuilt(ins: seq<Incoming>) { forall u <- ins :: IsPdf(u.upload.extension) ==> u.preview.Built? }

  lemma {:induction false} BuiltIff(store: Files, stored: seq<StoredFile>, ins: seq<Incoming>, orders: seq<int>)
    requires |stored| == |ins| == |orders| && ExtensionsOf(stored, ins)
    ensures BuildPreviews(store, stored, ins, orders).ok <==> AllBuilt(ins)
    decreases |ins|
  {
    if ins != [] {
      var u, pdf := ins[0], IsPdf(stored[0].extension);
      assert ins == [u] + ins[1..] && stored[0].extension == u.upload.extension;
      if !pdf || u.preview.Built? {
        var next := if pdf then store[u.preview.previewKey := u.preview.whole] else store;
        forall i | 0 <= i < |stored[1..]| ensures stored[1..][i].extension == ins[1..][i].upload.extension {
          assert stored[i + 1].extension == ins[i + 1].upload.extension;
        }
        BuiltIff(next, stored[1..], ins[1..], orders[1..]);
      }
    }
  }

  /** A row carries the id, the order and the keys of its upload. */
  predicate FromUpload(f: File, u: Incoming, order: int) {
    f.id == u.id && f.order == order && f.key == u.key &&
        (f.preview.Some? ==> f.preview.value in PreviewKeys(u.preview))
  }

  /** A failed attempt whose clean-up works leaves what was stored and the files of the previews it wrote. */
  lemma FailedAttachLeavesPreviewsOnly(store: Files, total: int, ins: seq<Incoming>, orders: seq<int>, c: Settings,
      course: Course)
    requires |ins| == |orders| && NewKeys(store, ins) && course.deletions >= |ins| && forall u <- ins :: u.removable
    requires Attach(store, total, ins, orders, c, course).files.None?
    ensures var r := Attach(store, total, ins, orders, c, course);
      && Extends(store, r.store)
      && (forall k | k in r.store && k !in store :: exists u <- ins :: k in PreviewKeys(u.preview))
      && r.store.Keys == store.Keys + if SaveAll(store, total, ins, c).ok then WrittenPreviews(ins) else {}
  {
    AttachIsSafe(store, total, ins, orders, c, course);
    SavedExactly(store, total, ins, c, course.deletions);
    var s := SaveAll(store, total, ins, c);
    var clean := DeletedOf(StoredKeys(s.stored), course.deletions);
    if s.ok {
      SavedExtensions(store, total, ins, c);
      PreviewsWritten(s.store, s.stored, ins, orders);
      PreviewsNotStored(store, total, ins, c);
      CleanLeaves(store.Keys, s.store.Keys, clean, WrittenPreviews(ins));
      WrittenArePreviews(ins);
    } else {
      CleanLeaves(store.Keys, s.store.Keys, clean, {});
    }
  }

  /** Saving adds exactly what a clean-up deletes if all its deletions work. */
  lemma SavedExactly(store: Files, total: int, ins: seq<Incoming>, c: Settings, deletions: nat)
    requires NewKeys(store, ins) && deletions >= |ins| && forall u <- ins :: u.removable
    ensures var s := SaveAll(store, total, ins, c);
      s.store.Keys == store.Keys + DeletedOf(StoredKeys(s.stored), deletions) &&
          DeletedOf(StoredKeys(s.stored), deletions) !! store.Keys
  {
    SaveAllFacts(store, total, ins, c);
    SaveAllAdds(store, total, ins, c);
    CleanIsNew(store, total, ins, c, deletions);
    var s := SaveAll(store, total, ins, c);
    forall k ensures k in DeletedOf(StoredKeys(s.stored), deletions) <==> k in StoredKeys(s.stored) {}
    forall k | k in StoredKeys(s.stored) ensures k in s.store {
      var i :| 0 <= i < |s.stored| && StoredKeys(s.stored)[i] == k;
      assert Whole(s.store, s.stored[i]);
    }
  }

  lemma CleanLeaves(kept: set<string>, saved: set<string>, clean: set<string>, written: set<string>)
    requires saved == kept + clean && clean !! kept && written !! saved
    ensures saved + written - clean == kept + written
  {}

  /** No preview is written under a key that is there already. */
  lemma PreviewsNotStored(store: Files, total: int, ins: seq<Incoming>, c: Settings)
    requires NewKeys(store, ins) && SaveAll(store, total, ins, c).ok
    ensures WrittenPreviews(ins) !! SaveAll(store, total, ins, c).store.Keys
  {
    PreviewsAreNew(store, total, ins, c);
    WrittenAreNew(SaveAll(store, total, ins, c).store, ins);
  }

  lemma {:induction false} WrittenAreNew(store: Files, ins: seq<Incoming>)
    requires NewPreviews(store, ins)
    ensures WrittenPreviews(ins) !! store.Keys
    decreases |ins|
  {
    if ins != [] {
      NewPreviewsTail(store, ins, []);
      WrittenAreNew(store, ins[1..]);
      assert PreviewKeys(ins[0].preview) !! store.Keys;
    }
  }

  /** A failed attempt whose clean-up works leaves the store as it was exactly when an upload was refused, they were
      too large together, or the first document, if any, failed before its preview was written. */
  lemma FailedAttachCleanIff(store: Files, total: int, ins: seq<Incoming>, orders: seq<int>, c: Settings,
      course: Course)
    requires |ins| == |orders| && NewKeys(store, ins) && course.deletions >= |ins| && forall u <- ins :: u.removable
    requires Attach(store, total, ins, orders, c, course).files.None?
    ensures Attach(store, total, ins, orders, c, course).store == store <==>
        !AllAccepted(ins, c) || total + TotalSize(ins) > c.maxTotal || !WritesPreview(ins)
  {
    SavedIff(store, total, ins, c);
    FailedAttachLeavesPreviewsOnly(store, total, ins, orders, c, course);
    WritesPreviewIff(ins);
    var r := Attach(store, total, ins, orders, c, course);
    if SaveAll(store, total, ins, c).ok {
      PreviewsAreNew(store, total, ins, c);
      SaveAllFacts(store, total, ins, c);
      WrittenAreNew(SaveAll(store, total, ins, c).store, ins);
    }
    if r.store.Keys == store.Keys { assert r.store == store; }
  }

  /** An input that shows it: one small document is saved and its preview built, the commit fails, every deletion works,
      and the file of the preview stays. */
  lemma PreviewLeftBehind(key: string, previewKey: string, id: Id)
    requires key != previewKey
    ensures
      var c := Settings(10, 10, 1, (extension, header, content) => Some("document"));
      var ins := [Incoming(Upload([[65]], false, "pdf"), key, id, Built(previewKey, [66]), true)];
      var r := Attach(map[], 0, ins, [0], c, Course(false, true, 1));
      r.raised && r.files.None? && r.store.Keys == {previewKey}
  {
    var c := Settings(10, 10, 1, (extension, header, content) => Some("document"));
    var ins := [Incoming(Upload([[65]], false, "pdf"), key, id, Built(previewKey, [66]), true)];
    OnePreviewLeft(ins, c);
  }

  lemma OnePreviewLeft(ins: seq<Incoming>, c: Settings)
    requires |ins| == 1 && Accepted(ins[0].upload, c.maxFile, c.signature) && |Contents(ins[0].upload)| <= c.maxTotal
    requires IsPdf(ins[0].upload.extension) && ins[0].preview.Built? && ins[0].preview.previewKey != ins[0].key
    requires ins[0].removable
    ensures var r := Attach(map[], 0, ins, [0], c, Course(false, true, 1));
      r.raised && r.files.None? && r.store.Keys == {ins[0].preview.previewKey}
  {
    assert NewKeys(map[], ins);
    SavedIff(map[], 0, ins, c);
    assert TotalSize(ins[1..]) == 0;
    FailedAttachLeavesPreviewsOnly(map[], 0, ins, [0], c, Course(false, true, 1));
    assert WrittenPreviews(ins[1..]) == {};
  }

  /** An input that shows the loss: one small upload is saved and committed, the caches cannot be invalidated, and the
      clean-up deletes the file of the committed row. */
  lemma CommittedFileLost(key: string, id: Id)
    ensures
      var c := Settings(10, 10, 1, (extension, header, content) => Some("document"));
      var ins := [Incoming(Upload([[65]], false, "txt"), key, id, Unbuilt, true)];
      var r := Attach(map[], 0, ins, [0], c, Course(true, false, 1));
      r.files.Some? && |r.files.value| == 1 && r.files.value[0].key == key && key !in r.store
  {
    var c := Settings(10, 10, 1, (extension, header, content) => Some("document"));
    var ins := [Incoming(Upload([[65]], false, "txt"), key, id, Unbuilt, true)];
    OneUploadLost(ins, c);
  }

  lemma OneUploadLost(ins: seq<Incoming>, c: Settings)
    requires |ins| == 1 && Accepted(ins[0].upload, c.maxFile, c.signature) && |Contents(ins[0].upload)| <= c.maxTotal
    requires !IsPdf(ins[0].upload.extension)
    ensures var r := Attach(map[], 0, ins, [0], c, Course(true, false, 1));
      r.files.Some? && |r.files.value| == 1 && r.files.value[0].key == ins[0].key && ins[0].key !in r.store
  {
    var one := SavedOne(map[], 0, ins[0], c);
    var s := SaveAll(map[], 0, ins, c);
    assert SaveAll(one.0, one.1.value.size, ins[1..], c) == Saving(one.0, [], true);
    assert s == Saving(one.0, [one.1.value], true);
    var p := BuildPreviews(s.store, s.stored, ins, [0]);
    assert BuildPreviews(s.store, s.stored[1..], ins[1..], [0][1..]) == Previewing(s.store, [], true);
    assert p.ok && p.files == [Row(one.1.value, ins[0], 0, None)];
    assert StoredKeys(s.stored)[0] == ins[0].key && ins[0].key in DeletedOf(StoredKeys(s.stored), 1);
  }

  /** When the caches cannot be invalidated after the commit, the clean-up deletes files of committed rows: their rows
      stay backed exactly when nothing was uploaded or not even the first deletion works. */
  lemma CommittedRowsBackedIff(store: Files, total: int, ins: seq<Incoming>, orders: seq<int>, c: Settings,
      course: Course)
    requires |ins| == |orders| && NewKeys(store, ins)
    requires Attach(store, total, ins, orders, c, course).files.Some?
    ensures var r := Attach(store, total, ins, orders, c, course);
      (forall f <- r.files.value :: Backed(r.store, f)) <==> course.invalidates || ins == [] || course.deletions == 0
  {
    AttachIsSafe(store, total, ins, orders, c, course);
    var r := Attach(store, total, ins, orders, c, course);
    if !course.invalidates && ins != [] {
      SaveAllFacts(store, total, ins, c);
      var keys := StoredKeys(SaveAll(store, total, ins, c).stored);
      if course.deletions > 0 {
        assert keys[0] in DeletedOf(keys, course.deletions);
        assert FromUpload(r.files.value[0], ins[0], orders[0]) && !Backed(r.store, r.files.value[0]);
      } else {
        AttachIsSafe(store, total, ins, orders, c, course.(invalidates := true));
        assert DeletedOf(keys, 0) == {};
        assert r.store == Attach(store, total, ins, orders, c, course.(invalidates := true)).store;
      }
    }
  }
}
