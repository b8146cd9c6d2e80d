/** The backup service: its local directory and its copies off site, and what a restore still finds. */
module BackupRestore {
  import opened Wrappers
  import opened BackupNames
  import opened BackupRetention

  // ---------- Off site ----------

  /** Where the copies go: the folder, with its final slash, and how many backups are kept there. */
  datatype Offsite = Offsite(folder: string, retention: int)

  function DumpKey(f: Offsite, id: string): string { f.folder + id + DUMP }
  function ManifestKey(f: Offsite, id: string): string { f.folder + id + MANIFEST }

  predicate EndsWith(s: string, e: string) { |s| >= |e| && s[|s| - |e|..] == e }

  /** The name that a stored object belongs to, if it is one of a backup. */
  function RemoteStem(key: string): Option<string> {
    if EndsWith(key, MANIFEST) then Some(key[..|key| - |MANIFEST|])
    else if EndsWith(key, DUMP) then Some(key[..|key| - |DUMP|])
    else None
  }

  function Stems(keys: set<string>): set<string> { set k | k in keys && RemoteStem(k).Some? :: RemoteStem(k).value }

  /** A key of a name that is not among the newest, at least one being kept. */
  predicate Stale(key: string, keys: set<string>, retention: int) {
    RemoteStem(key).Some? && Rank(RemoteStem(key).value, Stems(keys), ByName("")) >= Max1(retention)
  }

  function Unstale(keys: set<string>, retention: int): set<string> { set k | k in keys && !Stale(k, keys, retention) }

  function KeySet(keys: seq<string>): set<string> { set k | k in keys }

  /** The keys of these names. */
  function OfStems(keys: set<string>, stems: seq<string>): set<string> {
    set k | k in keys && RemoteStem(k).Some? && RemoteStem(k).value in stems
  }

  lemma OfStemsSnoc(keys: set<string>, stems: seq<string>, stem: string)
    ensures OfStems(keys, stems + [stem]) == OfStems(keys, stems) + OfStems(keys, [stem])
  {}

  lemma KeysJoin(a: seq<string>, b: seq<string>)
    ensures KeySet(a + b) == KeySet(a) + KeySet(b)
  {}

  /** The keys, in some order. */
  method Listing(keys: set<string>) returns (listing: seq<string>)
    ensures KeySet(listing) == keys
  {
    ByNameIsStrict("");
    listing := Sorted(keys, ByName(""));
  }

  method StaleStems(names: set<string>, retention: int) returns (stale: seq<string>)
    ensures forall m :: m in stale <==> m in names && Rank(m, names, ByName("")) >= Max1(retention)
    ensures forall j | 0 <= j < |stale| :: stale[j] in names
  {
    ByNameIsStrict("");
    stale := StaleNames(names, retention, ByName(""));
  }

  /** Without the keys of the stale names those are left that are not stale. */
  lemma StaleKeys(keys: set<string>, stale: seq<string>, retention: int)
    requires forall m :: m in stale <==> m in Stems(keys) && Rank(m, Stems(keys), ByName("")) >= Max1(retention)
    ensures keys - OfStems(keys, stale) == Unstale(keys, retention)
  {
    forall k | k in keys ensures k in OfStems(keys, stale) <==> Stale(k, keys, retention) {}
  }

  method GroupByStem(keys: seq<string>) returns (grouped: map<string, seq<string>>)
    ensures grouped.Keys == Stems(KeySet(keys))
    ensures forall s | s in grouped :: KeySet(grouped[s]) == OfStems(KeySet(keys), [s])
  {
    grouped := map[];
    for i := 0 to |keys|
      invariant grouped.Keys == Stems(KeySet(keys[..i]))
      invariant forall s, k | s in grouped :: k in grouped[s] <==> k in keys[..i] && RemoteStem(k) == Some(s)
    {
      var stem := RemoteStem(keys[i]);
      assert keys[..i + 1] == keys[..i] + [keys[i]];
      assert KeySet(keys[..i + 1]) == KeySet(keys[..i]) + {keys[i]};
      if stem.Some? {
        grouped := grouped[stem.value := (if stem.value in grouped then grouped[stem.value] else []) + [keys[i]]];
      }
    }
    assert keys[..|keys|] == keys;
    forall s | s in grouped ensures KeySet(grouped[s]) == OfStems(KeySet(keys), [s]) {}
  }

  // ---------- The service ----------

  datatype Config = Config(prefix: string, retention: int, offsite: Option<Offsite>)

  /** The local directory, the names whose local manifest records a dump off site, and the keys off site. A manifest is
      sent before its dump's key is recorded, so no manifest off site records one. */
  datatype State = State(dir: Dir, keyed: set<string>, remote: set<string>)

  const NOTHING := State(EMPTY, {}, {})

  /** The keys off site after a run. */
  function RemoteAfter(keys: set<string>, f: Offsite, id: string, o: Outcome): set<string> {
    var sent := keys + {DumpKey(f, id), ManifestKey(f, id)};
    match o
    case Done => Unstale(sent, f.retention)
    case UploadFails(DumpSent) => keys + {DumpKey(f, id)}
    case UploadFails(BothSent(deleted)) => set k | k in sent && !(k in deleted && Stale(k, sent, f.retention))
    case _ => keys
  }

  /** A manifest that is written records no dump off site until the upload is complete. */
  function KeyedAfter(keyed: set<string>, id: string, o: Outcome, offsite: bool): set<string> {
    if o.Done? && offsite then keyed + {id} else if Makes(o) then keyed - {id} else keyed
  }

  function Ran(s: State, c: Config, id: string, o: Outcome): State {
    State(RunTo(s.dir, id, o, c.retention), KeyedAfter(s.keyed, id, o, c.offsite.Some?),
          if c.offsite.Some? then RemoteAfter(s.remote, c.offsite.value, id, o) else s.remote)
  }

  datatype Restored = NotFound | BackupFailed | FromLocal | FromOffsite | DownloadFailed | Unavailable

  /** A backup is known if its manifest is in the directory, or off site and the listing there works. */
  predicate Known(s: State, c: Config, target: string, listed: bool) {
    target in s.dir.manifests || (c.offsite.Some? && listed && ManifestKey(c.offsite.value, target) in s.remote)
  }

  /** Where a restore takes the dump from: what was known before its own backup, as far as it is
      still there after it. */
  function Source(was: State, s: State, c: Config, target: string, download: bool): Restored {
    if target in was.dir.dumps && target in s.dir.dumps then FromLocal
    else if c.offsite.None? || target !in was.dir.manifests || target !in was.keyed then Unavailable
    else if download && DumpKey(c.offsite.value, target) in s.remote then FromOffsite
    else DownloadFailed
  }

  /** A restore takes its own backup first, and only then looks for the dump of its target; `listed` says whether the
      listing off site works, `download` whether fetching an existing object does. */
  function Restore(s: State, c: Config, target: string, listed: bool, download: bool, t: Timestamp,
      o: Outcome): (State, Restored)
  {
    if !Known(s, c, target, listed) then (s, NotFound) else
    var after := Ran(s, c, BackupId(c.prefix, t, PRE_RESTORE), o);
    (after, if o.Done? then Source(s, after, c, target, download) else BackupFailed)
  }

  /** An unknown target changes nothing; otherwise the restore's own backup is run, and only if that completes is a dump
      looked for. */
  lemma RestoreAnswers(s: State, c: Config, target: string, listed: bool, download: bool, t: Timestamp, o: Outcome)
    ensures
      var (s', r) := Restore(s, c, target, listed, download, t, o);
      var known := target in s.dir.manifests ||
          (listed && c.offsite.Some? && c.offsite.value.folder + target + ".manifest.json" in s.remote);
      && (r == NotFound <==> !known)
      && (r == BackupFailed <==> known && o != Done)
      && s' == (if known then Ran(s, c, BackupId(c.prefix, t, "pre-restore"), o) else s)
      && (known && o == Done ==>
            var local := target in s.dir.dumps && target in s'.dir.dumps;
            var recorded := c.offsite.Some? && target in s.dir.manifests && target in s.keyed;
            r == if local then FromLocal else if !recorded then Unavailable
                 else if download && c.offsite.value.folder + target + ".dump" in s'.remote then FromOffsite
                 else DownloadFailed)
  {}

  /** A manifest records a dump off site exactly if its last run was completed with a copy off site. */
  lemma KeyedAfterRun(s: State, c: Config, id: string, o: Outcome)
    ensures forall x: string :: x in Ran(s, c, id, o).keyed <==>
      if x != id || o.CheckFails? || o.DumpFails? then x in s.keyed else o.Done? && c.offsite.Some?
  {}

  class BackupService {
    const config: Config
    var dir: Dir
    var keyed: set<string>
    var remote: set<string>

    ghost function Contents(): State
      reads this
    {
      State(dir, keyed, remote)
    }

    constructor (config: Config)
      ensures Contents() == NOTHING && this.config == config
    {
      this.config := config;
      dir, keyed, remote := EMPTY, {}, {};
    }

    /** Deletes what pruning removes, and reports the dumps and the manifests deleted. */
    method PruneLocalBackups() returns (dumps: seq<string>, manifests: seq<string>)
      modifies this`dir
      ensures dir == Pruned(old(dir), config.retention)
      ensures forall f :: f in dumps <==> f in old(dir).dumps && f !in dir.dumps
      ensures forall f :: f in manifests <==> f in old(dir).manifests && f !in dir.manifests
    {
      ByNameIsStrict(MANIFEST);
      ghost var was := dir;
      var stale := StaleNames(dir.manifests.Keys, config.retention, ByName(MANIFEST));
      dumps, manifests := DeleteStale(stale);
      PrunedWithoutStale(was, Max1(config.retention), ByName(MANIFEST), stale);
    }

    method DeleteStale(stale: seq<string>) returns (dumps: seq<string>, manifests: seq<string>)
      requires forall j | 0 <= j < |stale| :: stale[j] in dir.manifests
      requires forall j, k | 0 <= j < |stale| && 0 <= k < |stale| && j != k :: stale[j] != stale[k]
      modifies this`dir
      ensures dir.dumps == old(dir).dumps - (set m | m in old(dir).manifests && m in stale :: old(dir).manifests[m])
      ensures dir.manifests == map m | m in old(dir).manifests && m !in stale :: old(dir).manifests[m]
      ensures forall f :: f in dumps <==> f in old(dir).dumps && f !in dir.dumps
      ensures forall f :: f in manifests <==> f in old(dir).manifests && f !in dir.manifests
    {
      dumps, manifests := [], [];
      ghost var before := dir;
      for i := 0 to |stale|
        invariant dir.dumps == before.dumps - (set j | 0 <= j < i :: before.manifests[stale[j]])
        invariant dir.manifests == before.manifests - (set j | 0 <= j < i :: stale[j])
        invariant forall f :: f in dumps <==> f in before.dumps && f !in dir.dumps
        invariant forall f :: f in manifests <==> f in before.manifests && f !in dir.manifests
      {
        var manifest := stale[i];
        var dump := dir.manifests[manifest];
        if dump in dir.dumps {
          dir := dir.(dumps := dir.dumps - {dump});
          dumps := dumps + [dump];
        }
        dir := dir.(manifests := dir.manifests - {manifest});
        manifests := manifests + [manifest];
      }
      assert (set j | 0 <= j < |stale| :: before.manifests[stale[j]])
          == (set m | m in before.manifests && m in stale :: before.manifests[m]);
    }

    /** Deletes the objects of the names that are not among the newest off site, and reports their keys. */
    method PruneOffsiteBackups(retention: int) returns (deleted: seq<string>)
      modifies this`remote
      ensures remote == Unstale(old(remote), retention)
      ensures forall k :: k in deleted <==> k in old(remote) && k !in remote
    {
      var listing := Listing(remote);
      var grouped := GroupByStem(listing);
      var stale := StaleStems(grouped.Keys, retention);
      StaleKeys(remote, stale, retention);
      deleted := DeleteGroups(grouped, stale, remote);
    }

    method DeleteGroups(grouped: map<string, seq<string>>, stale: seq<string>, ghost was: set<string>)
        returns (deleted: seq<string>)
      requires remote == was && forall j | 0 <= j < |stale| :: stale[j] in grouped
      requires forall s | s in grouped :: KeySet(grouped[s]) == OfStems(was, [s])
      modifies this`remote
      ensures remote == was - OfStems(was, stale) && forall k :: k in deleted <==> k in was && k !in remote
    {
      deleted := [];
      for i := 0 to |stale|
        invariant KeySet(deleted) == OfStems(was, stale[..i]) && remote == was - OfStems(was, stale[..i])
      {
        var group := grouped[stale[i]];
        OfStemsSnoc(was, stale[..i], stale[i]);
        KeysJoin(deleted, group);
        assert stale[..i + 1] == stale[..i] + [stale[i]];
        deleted := deleted + group;
        remote := remote - KeySet(group);
      }
      assert stale[..|stale|] == stale;
      assert forall k :: k in deleted <==> k in KeySet(deleted);
    }

    /** Sends the dump and the manifest, and prunes off site; how far that gets is `upload`, or all the way. */
    method UploadAndPruneOffsite(f: Offsite, id: string, upload: Option<Upload>) returns (ok: bool)
      modifies this`remote
      ensures remote == RemoteAfter(old(remote), f, id, if upload.Some? then UploadFails(upload.value) else Done)
      ensures ok <==> upload.None?
    {
      if upload == Some(NothingSent) { return false; }
      remote := remote + {DumpKey(f, id)};
      if upload == Some(DumpSent) { return false; }
      remote := remote + {ManifestKey(f, id)};
      assert remote == old(remote) + {DumpKey(f, id), ManifestKey(f, id)};
      if upload.Some? {
        remote := set k | k in remote && !(k in upload.value.deleted && Stale(k, remote, f.retention));
        return false;
      }
      var _ := PruneOffsiteBackups(f.retention);
      return true;
    }

    method RunBackup(t: Timestamp, trigger: string, o: Outcome) returns (ok: bool)
      requires o.UploadFails? ==> config.offsite.Some?
      modifies this
      ensures Contents() == Ran(old(Contents()), config, BackupId(config.prefix, t, trigger), o)
      ensures ok <==> o == Done
    {
      var id := BackupId(config.prefix, t, trigger);
      if o.DumpFails? && !o.partial { return false; }
      dir := dir.(dumps := dir.dumps + {id});
      if o.DumpFails? || o.CheckFails? { return false; }
      dir := dir.(manifests := dir.manifests[id := id]);
      keyed := keyed - {id};
      if config.offsite.Some? {
        var sent := UploadAndPruneOffsite(config.offsite.value, id, if o.UploadFails? then Some(o.upload) else None);
        if !sent { return false; }
        keyed := keyed + {id};
      }
      var _, _ := PruneLocalBackups();
      return true;
    }

    method RestoreBackup(target: string, listed: bool, download: bool, t: Timestamp, o: Outcome) returns (r: Restored)
      requires o.UploadFails? ==> config.offsite.Some?
      modifies this
      ensures (Contents(), r) == Restore(old(Contents()), config, target, listed, download, t, o)
    {
      var known := target in dir.manifests;
      var recorded := known && target in keyed;
      if config.offsite.Some? && listed { known := known || ManifestKey(config.offsite.value, target) in remote; }
      if !known { return NotFound; }
      var available := target in dir.dumps;
      var ok := RunBackup(t, PRE_RESTORE, o);
      if !ok { return BackupFailed; }
      if available && target in dir.dumps { return FromLocal; }
      if config.offsite.None? || !recorded { return Unavailable; }
      return if download && DumpKey(config.offsite.value, target) in remote then FromOffsite else DownloadFailed;
    }
  }

  // ---------- What pruning keeps off site ----------

  lemma StemOf(stem: string)
    ensures RemoteStem(stem + DUMP) == Some(stem) && RemoteStem(stem + MANIFEST) == Some(stem)
  {
    var d, m := stem + DUMP, stem + MANIFEST;
    assert m[|m| - |MANIFEST|..] == MANIFEST && d[|d| - |DUMP|..] == DUMP;
    assert !EndsWith(d, MANIFEST) by {
      assert d[|d| - 1] == 'p';
      if |d| >= |MANIFEST| { assert d[|d| - |MANIFEST|..][|MANIFEST| - 1] == 'p'; }
    }
  }

  /** Names under a folder. */
  function Under(folder: string, names: set<string>): set<string> { set x | x in names :: folder + x }

  lemma SameUnder(folder: string, x: string, y: string)
    ensures folder + x == folder + y <==> x == y
  {
    assert (folder + x)[|folder|..] == x && (folder + y)[|folder|..] == y;
  }

  lemma UnderIff(folder: string, names: set<string>, x: string)
    ensures folder + x in Under(folder, names) <==> x in names
  {
    if folder + x in Under(folder, names) {
      var y :| y in names && folder + y == folder + x;
      SameUnder(folder, x, y);
    }
  }

  lemma {:induction false} UnderSize(folder: string, names: set<string>)
    ensures |Under(folder, names)| == |names|
    decreases names
  {
    if names != {} {
      var x :| x in names;
      UnderSize(folder, names - {x});
      UnderIff(folder, names - {x}, x);
      assert Under(folder, names) == Under(folder, names - {x}) + {folder + x};
    }
  }

  /** Under a folder names have the rank that they have without it. */
  lemma RankUnder(folder: string, x: string, names: set<string>)
    ensures Rank(folder + x, Under(folder, names), ByName("")) == Rank(x, names, ByName(""))
  {
    var later := set y | y in names && ByName("")(x, y);
    forall z ensures z in Under(folder, names) && ByName("")(folder + x, z) <==> z in Under(folder, later) {
      if z in Under(folder, names) {
        var y :| y in names && z == folder + y;
        UnderIff(folder, later, y);
        LessUnder(folder, x, y);
      }
    }
    assert (set z | z in Under(folder, names) && ByName("")(folder + x, z)) == Under(folder, later);
    UnderSize(folder, later);
  }

  lemma LessUnder(folder: string, x: string, y: string)
    ensures ByName("")(folder + x, folder + y) <==> ByName("")(x, y)
  {
    assert folder + x + "" == folder + x && folder + y + "" == folder + y && x + "" == x && y + "" == y;
    LessAfterPrefix(folder, x, y);
  }

  /** The names off site are those of the backups. */
  predicate StemsAre(keys: set<string>, f: Offsite, bs: set<Backup>) { Stems(keys) == Under(f.folder, Ids(bs)) }

  lemma StaleIff(keys: set<string>, f: Offsite, bs: set<Backup>, b: Backup, before: Order)
    requires before == ByName("") && Apart(bs, before) && b in bs && StemsAre(keys, f, bs)
    ensures Stale(DumpKey(f, b.id), keys, f.retention) <==> b !in Newest(bs, Max1(f.retention))
    ensures Stale(ManifestKey(f, b.id), keys, f.retention) <==> b !in Newest(bs, Max1(f.retention))
  {
    ByNameIsStrict("");
    RankIsAge(bs, before, b);
    RankUnder(f.folder, b.id, Ids(bs));
    StemOf(f.folder + b.id);
  }

  /** Off site too, for backups of one prefix in different seconds and whatever the folder: exactly the newest are kept,
      each with all its keys. */
  lemma OffsiteKeepsNewest(prefix: string, f: Offsite, keys: set<string>, bs: set<Backup>)
    requires AllGenuine(bs, prefix) && Timed(bs) && StemsAre(keys, f, bs)
    ensures StemsAre(Unstale(keys, f.retention), f, Newest(bs, Max1(f.retention)))
    ensures forall k, b | k in keys && b in bs && RemoteStem(k) == Some(f.folder + b.id) ::
      k in Unstale(keys, f.retention) <==> b in Newest(bs, Max1(f.retention))
  {
    var newest, kept := Newest(bs, Max1(f.retention)), Unstale(keys, f.retention);
    GenuineApart(bs, prefix, "");
    forall k, b | k in keys && b in bs && RemoteStem(k) == Some(f.folder + b.id) ensures k in kept <==> b in newest {
      NameKept(f, keys, bs, b, k, ByName(""));
    }
    forall x ensures x in Stems(kept) <==> x in Under(f.folder, Ids(newest)) {
      if x in Stems(keys) {
        var k :| k in keys && RemoteStem(k) == Some(x);
        var b :| b in bs && x == f.folder + b.id;
        NameKept(f, keys, bs, b, k, ByName(""));
      }
    }
  }

  lemma NameKept(f: Offsite, keys: set<string>, bs: set<Backup>, b: Backup, k: string, before: Order)
    requires before == ByName("") && Apart(bs, before) && StemsAre(keys, f, bs) && b in bs
    requires k in keys && RemoteStem(k) == Some(f.folder + b.id)
    ensures k in Unstale(keys, f.retention) <==> b in Newest(bs, Max1(f.retention))
    ensures f.folder + b.id in Stems(Unstale(keys, f.retention)) <==> b in Newest(bs, Max1(f.retention))
    ensures f.folder + b.id in Under(f.folder, Ids(Newest(bs, Max1(f.retention)))) <==>
        b in Newest(bs, Max1(f.retention))
  {
    StaleIff(keys, f, bs, b, before);
    StemOf(f.folder + b.id);
    assert Stale(k, keys, f.retention) <==> Stale(DumpKey(f, b.id), keys, f.retention);
    if f.folder + b.id in Stems(Unstale(keys, f.retention)) {
      var j :| j in Unstale(keys, f.retention) && RemoteStem(j) == Some(f.folder + b.id);
      assert Stale(j, keys, f.retention) <==> Stale(k, keys, f.retention);
    }
    UnderIff(f.folder, Ids(Newest(bs, Max1(f.retention))), b.id);
    ByNameIsStrict("");
    if b.id in Ids(Newest(bs, Max1(f.retention))) {
      var c :| c in Newest(bs, Max1(f.retention)) && c.id == b.id;
      IdsDiffer(bs, b, c, before);
    }
  }

  // ---------- Off site over runs ----------

  function AfterAll(s: State, c: Config, events: seq<Event>): State
    decreases |events|
  {
    if events == [] then s else AfterAll(Ran(s, c, events[0].backup.id, events[0].outcome), c, events[1..])
  }

  function RemoteAfterAll(keys: set<string>, f: Offsite, events: seq<Event>): set<string>
    decreases |events|
  {
    if events == [] then keys
    else RemoteAfterAll(RemoteAfter(keys, f, events[0].backup.id, events[0].outcome), f, events[1..])
  }

  function KeyedAfterAll(keyed: set<string>, events: seq<Event>): set<string>
    decreases |events|
  {
    if events == [] then keyed
    else KeyedAfterAll(KeyedAfter(keyed, events[0].backup.id, events[0].outcome, true), events[1..])
  }

  /** Directory, recorded keys and keys off site go their own ways. */
  lemma {:induction false} PartsOf(s: State, c: Config, events: seq<Event>)
    ensures AfterAll(s, c, events).dir == After(s.dir, events, c.retention)
    ensures c.offsite.Some? ==> AfterAll(s, c, events).remote == RemoteAfterAll(s.remote, c.offsite.value, events)
    ensures c.offsite.Some? ==> AfterAll(s, c, events).keyed == KeyedAfterAll(s.keyed, events)
    decreases |events|
  {
    if events != [] { PartsOf(Ran(s, c, events[0].backup.id, events[0].outcome), c, events[1..]); }
  }

  /** Whether the run sent its dump off site. */
  predicate Sends(o: Outcome) { o.Done? || (o.UploadFails? && !o.upload.NothingSent?) }

  function SentBy(events: seq<Event>): set<Backup> {
    if events == [] then {} else (if Sends(events[0].outcome) then {events[0].backup} else {}) + SentBy(events[1..])
  }

  function CompletedBy(events: seq<Event>): set<Backup> {
    if events == [] then {}
    else (if events[0].outcome.Done? then {events[0].backup} else {}) + CompletedBy(events[1..])
  }

  /** Off site are the dumps of the newest of all backups sent, with their manifests if they were sent whole, and
      perhaps objects of others of them that are still to be pruned. */
  predicate RemoteCovers(keys: set<string>, f: Offsite, all: set<Backup>, whole: set<Backup>) {
    && whole <= all && Stems(keys) <= Under(f.folder, Ids(all))
    && forall b | b in Newest(all, Max1(f.retention)) ::
      DumpKey(f, b.id) in keys && (b in whole ==> ManifestKey(f, b.id) in keys)
  }

  /** The backups that have an object off site. */
  function ListedRemote(keys: set<string>, f: Offsite, all: set<Backup>): set<Backup> {
    set b | b in all && f.folder + b.id in Stems(keys)
  }

  lemma CoversStems(keys: set<string>, f: Offsite, all: set<Backup>, whole: set<Backup>)
    requires RemoteCovers(keys, f, all, whole)
    ensures StemsAre(keys, f, ListedRemote(keys, f, all))
    ensures Newest(all, Max1(f.retention)) <= ListedRemote(keys, f, all)
  {
    var bs := ListedRemote(keys, f, all);
    forall b | b in Newest(all, Max1(f.retention)) ensures b in bs { StemOf(f.folder + b.id); }
    forall x ensures x in Stems(keys) <==> x in Under(f.folder, Ids(bs)) {
      if x in Stems(keys) {
        var b :| b in all && x == f.folder + b.id;
        assert b in bs && b.id in Ids(bs);
      }
      if x in Under(f.folder, Ids(bs)) {
        var y :| y in Ids(bs) && x == f.folder + y;
        var b :| b in bs && b.id == y;
      }
    }
  }

  /** An object off site is stale exactly when its backup is not among the newest sent. */
  lemma ObjectStaleIff(keys: set<string>, f: Offsite, all: set<Backup>, whole: set<Backup>, b: Backup, k: string,
      before: Order)
    requires before == ByName("") && Apart(all, before) && RemoteCovers(keys, f, all, whole)
    requires b in all && k in keys && (k == DumpKey(f, b.id) || k == ManifestKey(f, b.id))
    ensures Stale(k, keys, f.retention) <==> b !in Newest(all, Max1(f.retention))
  {
    var bs := ListedRemote(keys, f, all);
    CoversStems(keys, f, all, whole);
    StemOf(f.folder + b.id);
    assert Timed(all) by { ApartTimed(all, before); }
    SameNewest(all, bs, Max1(f.retention));
    StaleIff(keys, f, bs, b, before);
  }

  lemma ApartTimed(bs: set<Backup>, before: Order)
    requires Apart(bs, before)
    ensures Timed(bs)
  {
    forall b, c | b in bs && c in bs && b != c ensures b.at != c.at { assert Sorts(b, c, before); }
  }

  /** Deleting some of the stale objects keeps the newest. */
  lemma DeletionCovers(keys: set<string>, f: Offsite, all: set<Backup>, whole: set<Backup>, left: set<string>,
      before: Order)
    requires before == ByName("") && Apart(all, before) && RemoteCovers(keys, f, all, whole)
    requires left <= keys && forall k | k in keys && k !in left :: Stale(k, keys, f.retention)
    ensures RemoteCovers(left, f, all, whole)
  {
    forall b | b in Newest(all, Max1(f.retention))
      ensures DumpKey(f, b.id) in left && (b in whole ==> ManifestKey(f, b.id) in left)
    {
      ObjectStaleIff(keys, f, all, whole, b, DumpKey(f, b.id), before);
      if b in whole { ObjectStaleIff(keys, f, all, whole, b, ManifestKey(f, b.id), before); }
    }
  }

  /** After pruning the dumps off site are those of the newest backups sent. */
  lemma PrunedDump(keys: set<string>, f: Offsite, all: set<Backup>, whole: set<Backup>, b: Backup, before: Order)
    requires before == ByName("") && Apart(all, before) && RemoteCovers(keys, f, all, whole) && b in all
    ensures DumpKey(f, b.id) in Unstale(keys, f.retention) <==> b in Newest(all, Max1(f.retention))
  {
    if DumpKey(f, b.id) in keys { ObjectStaleIff(keys, f, all, whole, b, DumpKey(f, b.id), before); }
  }

  /** Sending one more backup, its dump alone or all of it. */
  lemma SendCovers(keys: set<string>, f: Offsite, all: set<Backup>, whole: set<Backup>, b: Backup, both: bool)
    requires RemoteCovers(keys, f, all, whole) && forall c <- all :: c.at < b.at
    ensures
      var more := if both then {DumpKey(f, b.id), ManifestKey(f, b.id)} else {DumpKey(f, b.id)};
      RemoteCovers(keys + more, f, all + {b}, if both then whole + {b} else whole)
  {
    var more := if both then {DumpKey(f, b.id), ManifestKey(f, b.id)} else {DumpKey(f, b.id)};
    StemOf(f.folder + b.id);
    NewestOfMore(all, b, Max1(f.retention));
    assert Ids(all + {b}) == Ids(all) + {b.id};
    forall x | x in Stems(keys + more) ensures x in Under(f.folder, Ids(all + {b})) {
      var k :| k in keys + more && RemoteStem(k) == Some(x);
      if k in keys {
        assert x in Stems(keys);
        var y :| y in Ids(all) && x == f.folder + y;
      } else {
        assert b.id in Ids(all + {b});
      }
    }
  }

  lemma CoversFewerWhole(keys: set<string>, f: Offsite, all: set<Backup>, whole: set<Backup>, fewer: set<Backup>)
    requires RemoteCovers(keys, f, all, whole) && fewer <= whole
    ensures RemoteCovers(keys, f, all, fewer)
  {}

  lemma RemoteStepCovers(keys: set<string>, f: Offsite, all: set<Backup>, whole: set<Backup>, e: Event, before: Order)
    requires before == ByName("") && Apart(all + {e.backup}, before) && forall c <- all :: c.at < e.backup.at
    requires RemoteCovers(keys, f, all, whole)
    ensures RemoteCovers(RemoteAfter(keys, f, e.backup.id, e.outcome), f, all + SentBy([e]), whole + CompletedBy([e]))
  {
    var b, o := e.backup, e.outcome;
    SentOne(e);
    if Sends(o) {
      var both := o != UploadFails(DumpSent);
      SendCovers(keys, f, all, whole, b, both);
      if both {
        var sent := keys + {DumpKey(f, b.id), ManifestKey(f, b.id)};
        DeletionCovers(sent, f, all + {b}, whole + {b}, RemoteAfter(keys, f, b.id, o), before);
        CoversFewerWhole(RemoteAfter(keys, f, b.id, o), f, all + {b}, whole + {b}, whole + CompletedBy([e]));
      } else {
        assert whole + {} == whole;
      }
    } else {
      assert all + {} == all && whole + {} == whole;
    }
  }

  lemma SentOne(e: Event)
    ensures SentBy([e]) == if Sends(e.outcome) then {e.backup} else {}
    ensures CompletedBy([e]) == if e.outcome.Done? then {e.backup} else {}
  {
    assert [e][1..] == [] && SentBy([]) == {} && CompletedBy([]) == {};
  }

  lemma SentCons(events: seq<Event>)
    requires events != []
    ensures SentBy(events) == SentBy([events[0]]) + SentBy(events[1..])
    ensures CompletedBy(events) == CompletedBy([events[0]]) + CompletedBy(events[1..])
  {
    SentOne(events[0]);
  }

  lemma SentOnward(sent: set<Backup>, whole: set<Backup>, events: seq<Event>)
    requires events != []
    ensures sent + SentBy([events[0]]) + SentBy(events[1..]) == sent + SentBy(events)
    ensures whole + CompletedBy([events[0]]) + CompletedBy(events[1..]) == whole + CompletedBy(events)
  {
    SentCons(events);
  }

  lemma {:induction false} RemoteRunCovers(keys: set<string>, f: Offsite, every: set<Backup>, sent: set<Backup>,
      whole: set<Backup>, events: seq<Event>, before: Order)
    requires before == ByName("") && Apart(every, before) && sent <= every && Forward(every, events, before)
    requires RemoteCovers(keys, f, sent, whole)
    ensures RemoteCovers(RemoteAfterAll(keys, f, events), f, sent + SentBy(events), whole + CompletedBy(events))
    decreases |events|
  {
    if events == [] {
      assert sent + SentBy(events) == sent && whole + CompletedBy(events) == whole;
    } else {
      var e, rest := events[0], events[1..];
      var keys1 := RemoteAfter(keys, f, e.backup.id, e.outcome);
      var sent1, whole1 := sent + SentBy([e]), whole + CompletedBy([e]);
      FollowsApart(every, e.backup, before);
      RemoteStepCovers(keys, f, sent, whole, e, before);
      SentOne(e);
      RemoteRunCovers(keys1, f, every + {e.backup}, sent1, whole1, rest, before);
      SentOnward(sent, whole, events);
    }
  }

  lemma {:induction false} KeyedRun(keyed: set<string>, every: set<Backup>, done: set<Backup>, events: seq<Event>,
      before: Order)
    requires Strict(before) && Apart(every, before) && done <= every && Forward(every, events, before)
    requires keyed == Ids(done)
    ensures KeyedAfterAll(keyed, events) == Ids(done + CompletedBy(events))
    decreases |events|
  {
    if events == [] {
      assert done + CompletedBy(events) == done;
    } else {
      var e, rest := events[0], events[1..];
      FollowsApart(every, e.backup, before);
      SentOne(e);
      IdsPlus(done, CompletedBy([e]));
      NewId(every, done, e.backup, before);
      KeyedRun(KeyedAfter(keyed, e.backup.id, e.outcome, true), every + {e.backup}, done + CompletedBy([e]), rest,
          before);
      SentCons(events);
      assert done + CompletedBy([e]) + CompletedBy(rest) == done + CompletedBy(events);
    }
  }

  lemma NewId(every: set<Backup>, part: set<Backup>, b: Backup, before: Order)
    requires Strict(before) && Apart(every + {b}, before) && part <= every && b !in every
    ensures b.id !in Ids(part)
  {
    if b.id in Ids(part) {
      var c :| c in part && c.id == b.id;
      IdsDiffer(every + {b}, b, c, before);
    }
  }

  // ---------- What a restore finds after a run ----------

  function Backups(events: seq<Event>): set<Backup> {
    if events == [] then {} else {events[0].backup} + Backups(events[1..])
  }

  lemma {:induction false} PartsOfBackups(events: seq<Event>)
    ensures Made(events) + Left(events) + SentBy(events) + CompletedBy(events) <= Backups(events)
    ensures CompletedBy(events) <= SentBy(events)
  {
    if events != [] { PartsOfBackups(events[1..]); }
  }

  lemma {:induction false} BackupsOfRuns(prefix: string, runs: seq<Run>, since: int, until: int)
    requires Increasing(runs) && forall r <- runs :: since < Seconds(r.time) < until
    ensures var bs := Backups(EventsOf(prefix, runs));
      AllGenuine(bs, prefix) && Timed(bs) && forall b <- bs :: since < b.at < until
    decreases |runs|
  {
    if runs != [] {
      var r, rest := runs[0], runs[1..];
      TakenIsGenuine(prefix, r.time, r.trigger);
      LaterRuns(runs, until);
      BackupsOfRuns(prefix, rest, Seconds(r.time), until);
      assert EventsOf(prefix, runs)[1..] == EventsOf(prefix, rest);
      OneMoreBackup(prefix, Taken(prefix, r.time, r.trigger), Backups(EventsOf(prefix, rest)), since, until);
    }
  }

  lemma LaterRuns(runs: seq<Run>, until: int)
    requires Increasing(runs) && runs != [] && forall r <- runs :: Seconds(r.time) < until
    ensures Increasing(runs[1..]) && forall r <- runs[1..] :: Seconds(runs[0].time) < Seconds(r.time) < until
  {
    forall q | q in runs[1..] ensures Seconds(runs[0].time) < Seconds(q.time) < until {
      var i :| 0 <= i < |runs[1..]| && runs[1..][i] == q;
      assert runs[i + 1] == q;
    }
  }

  lemma OneMoreBackup(prefix: string, b: Backup, bs: set<Backup>, since: int, until: int)
    requires Genuine(b, prefix) && since < b.at < until && AllGenuine(bs, prefix) && Timed(bs)
    requires forall c <- bs :: b.at < c.at < until
    ensures AllGenuine({b} + bs, prefix) && Timed({b} + bs) && forall c <- {b} + bs :: since < c.at < until
  {
    TimedPlus(b, bs);
  }

  lemma TimedPlus(b: Backup, bs: set<Backup>)
    requires Timed(bs) && forall c <- bs :: b.at < c.at
    ensures Timed({b} + bs)
  {}

  /** After one more completed run a backup's dump is in the directory exactly when it is among the newest. */
  lemma LocalAfterOwn(d: Dir, made: set<Backup>, left: set<Backup>, target: Backup, own: Backup, n: nat, before: Order)
    requires Strict(before) && Apart(made + left, before) && Follows(made + left, own, before)
    requires Covers(d, made, n) && HasDumps(d, made, left) && target in made
    ensures target.id in RunBy(d, own.id, Done, n, before).dumps <==> Age(target, made) < n - 1
    ensures Age(target, made) < n - 1 ==> target.id in d.dumps
  {
    var e := Event(own, Done);
    MadeOne(e);
    LeftOne(e);
    StepCovers(d, made, e, n, before);
    StepDumps(d, made, left, e, n, before);
    FollowsApart(made + left, own, before);
    AgesGrow(made, own, target);
    assert left + {} == left;
    var kept := Newest(made + {own}, n);
    if target.id in Ids(kept) + Ids(left) {
      var b :| b in kept + left && b.id == target.id;
      IdsDiffer(made + left + {own}, b, target, before);
    }
    if Age(target, made) < n - 1 { assert target in Newest(made, n); }
  }

  lemma RemoteAfterOwn(keys: set<string>, f: Offsite, sent: set<Backup>, whole: set<Backup>, target: Backup,
      own: Backup,
      before: Order)
    requires before == ByName("") && Apart(sent, before) && Follows(sent, own, before)
    requires RemoteCovers(keys, f, sent, whole) && target in sent
    ensures DumpKey(f, target.id) in RemoteAfter(keys, f, own.id, Done) <==>
        Age(target, sent) < Max1(f.retention) - 1
  {
    FollowsApart(sent, own, before);
    SendCovers(keys, f, sent, whole, own, true);
    PrunedDump(keys + {DumpKey(f, own.id), ManifestKey(f, own.id)}, f, sent + {own}, whole + {own}, target, before);
    AgesGrow(sent, own, target);
  }

  /** What a run leaves: the directory, its recorded keys and the keys off site, in terms of the backups. */
  predicate Leftover(s: State, c: Config, events: seq<Event>) {
    && Keeps(s.dir, Made(events), Max1(c.retention), Completes(events))
    && HasDumps(s.dir, Made(events), Left(events))
    && (c.offsite.Some? ==>
          && RemoteCovers(s.remote, c.offsite.value, SentBy(events), CompletedBy(events))
          && s.keyed == Ids(CompletedBy(events)))
  }

  lemma RunLeaves(c: Config, runs: seq<Run>)
    requires Increasing(runs)
    ensures Leftover(AfterAll(NOTHING, c, EventsOf(c.prefix, runs)), c, EventsOf(c.prefix, runs))
  {
    var events, before, none: set<Backup> := EventsOf(c.prefix, runs), ByName(""), {};
    PartsOf(NOTHING, c, events);
    RunKeepsNewest(c.prefix, runs, c.retention);
    if c.offsite.Some? {
      var f := c.offsite.value;
      ByNameIsStrict("");
      RunsGoForward(c.prefix, none, runs, "");
      assert Stems({}) == {} && Newest(none, Max1(f.retention)) == {} && Ids(none) == {};
      RemoteRunCovers({}, f, none, none, none, events, before);
      KeyedRun({}, none, none, events, before);
      assert none + SentBy(events) == SentBy(events) && none + CompletedBy(events) == CompletedBy(events);
    }
  }

  /** What is found: in the directory exactly the newest retention - 1 backups, and off site those of the others that
      the directory still lists, that were sent completely, and that are among the newest retention - 1 sent. */
  predicate Finds(found: Restored, s: State, c: Config, events: seq<Event>, target: Backup) {
    var local := Age(target, Made(events)) < Max1(c.retention) - 1;
    && (found == FromLocal <==> local)
    && (found == FromOffsite <==>
          && !local && c.offsite.Some? && target in Listed(s.dir, Made(events)) && target in CompletedBy(events)
          && Age(target, SentBy(events)) < Max1(c.offsite.value.retention) - 1)
  }

  /** The backup of a run. */
  function BackupOf(prefix: string, r: Run): Backup { EventOf(prefix, r).backup }

  lemma {:induction false} MadeIn(prefix: string, runs: seq<Run>, i: nat)
    requires i < |runs| && Makes(runs[i].outcome)
    ensures BackupOf(prefix, runs[i]) in Made(EventsOf(prefix, runs))
    decreases i
  {
    assert EventsOf(prefix, runs)[1..] == EventsOf(prefix, runs[1..]);
    if i > 0 { MadeIn(prefix, runs[1..], i - 1); }
  }

  /** What a restore of the backup of run `i` finds after the runs, everything working. */
  lemma RestoreAfterRuns(c: Config, runs: seq<Run>, i: nat, listed: bool, t: Timestamp)
    requires Increasing(runs) && Valid(t) && forall r <- runs :: Seconds(r.time) < Seconds(t)
    requires i < |runs| && Makes(runs[i].outcome)
    ensures
      var events, target := EventsOf(c.prefix, runs), BackupOf(c.prefix, runs[i]);
      var s := AfterAll(NOTHING, c, events);
      Finds(Restore(s, c, target.id, listed, true, t, Done).1, s, c, events, target)
  {
    var events := EventsOf(c.prefix, runs);
    RunLeaves(c, runs);
    BackupsOfRuns(c.prefix, runs, Seconds(runs[0].time) - 1, Seconds(t));
    MadeIn(c.prefix, runs, i);
    TakenIsGenuine(c.prefix, t, PRE_RESTORE);
    RestoreOf(AfterAll(NOTHING, c, events), c, events, BackupOf(c.prefix, runs[i]), Taken(c.prefix, t, PRE_RESTORE),
        listed, t);
  }

  lemma RestoreOf(s: State, c: Config, events: seq<Event>, target: Backup, own: Backup, listed: bool, t: Timestamp)
    requires AllGenuine(Backups(events), c.prefix) && Timed(Backups(events)) && Leftover(s, c, events)
    requires Genuine(own, c.prefix) && own.id == BackupId(c.prefix, t, PRE_RESTORE)
    requires target in Made(events) && forall b <- Backups(events) :: b.at < own.at
    ensures Finds(Restore(s, c, target.id, listed, true, t, Done).1, s, c, events, target)
  {
    PartsOfBackups(events);
    LocalOf(s, c, events, target, own);
    if c.offsite.Some? { RemoteOf(s, c, events, target, own); }
  }

  lemma LocalOf(s: State, c: Config, events: seq<Event>, target: Backup, own: Backup)
    requires AllGenuine(Backups(events), c.prefix) && Timed(Backups(events)) && Leftover(s, c, events)
    requires Genuine(own, c.prefix) && target in Made(events) && forall b <- Backups(events) :: b.at < own.at
    ensures target.id in Ran(s, c, own.id, Done).dir.dumps <==> Age(target, Made(events)) < Max1(c.retention) - 1
    ensures Age(target, Made(events)) < Max1(c.retention) - 1 ==> target.id in s.dir.dumps
    ensures target.id in s.dir.manifests <==> target in Listed(s.dir, Made(events))
    ensures Newest(Made(events), Max1(c.retention)) <= Listed(s.dir, Made(events))
  {
    var every := Made(events) + Left(events);
    PartsOfBackups(events);
    ByNameIsStrict(MANIFEST);
    GenuineApart(every, c.prefix, MANIFEST);
    GenuineFollows(every, own, c.prefix, MANIFEST);
    LocalAfterOwn(s.dir, Made(events), Left(events), target, own, Max1(c.retention), ByName(MANIFEST));
  }

  lemma RemoteOf(s: State, c: Config, events: seq<Event>, target: Backup, own: Backup)
    requires AllGenuine(Backups(events), c.prefix) && Timed(Backups(events)) && Leftover(s, c, events)
    requires Genuine(own, c.prefix) && target in Made(events) && forall b <- Backups(events) :: b.at < own.at
    requires c.offsite.Some?
    ensures target.id in s.keyed <==> target in CompletedBy(events)
    ensures target in CompletedBy(events) ==>
      (DumpKey(c.offsite.value, target.id) in Ran(s, c, own.id, Done).remote <==>
        Age(target, SentBy(events)) < Max1(c.offsite.value.retention) - 1)
  {
    PartsOfBackups(events);
    ByNameIsStrict("");
    GenuineApart(Backups(events), c.prefix, "");
    if target.id in s.keyed {
      var b :| b in CompletedBy(events) && b.id == target.id;
      IdsDiffer(Backups(events), b, target, ByName(""));
    }
    if target in CompletedBy(events) {
      GenuineApart(SentBy(events), c.prefix, "");
      GenuineFollows(SentBy(events), own, c.prefix, "");
      RemoteAfterOwn(s.remote, c.offsite.value, SentBy(events), CompletedBy(events), target, own, ByName(""));
    }
  }

  // ---------- Runs that all complete ----------

  predicate AllDone(runs: seq<Run>) { forall r <- runs :: r.outcome.Done? }

  lemma {:induction false} AllDoneMakes(prefix: string, runs: seq<Run>)
    requires AllDone(runs)
    ensures var events := EventsOf(prefix, runs);
      Made(events) == SentBy(events) == CompletedBy(events) && (runs != [] ==> Completes(events))
  {
    if runs != [] {
      AllDoneMakes(prefix, runs[1..]);
      assert EventsOf(prefix, runs)[1..] == EventsOf(prefix, runs[1..]);
    }
  }

  /** How many backups are kept in the one place or in the other. */
  function KeptAnywhere(c: Config): nat {
    var local := Max1(c.retention);
    if c.offsite.Some? && Max1(c.offsite.value.retention) > local then Max1(c.offsite.value.retention) else local
  }

  lemma AgeWithOlder(b: Backup, bs: set<Backup>)
    requires forall c <- bs :: b.at < c.at
    ensures Age(b, {b} + bs) == |bs| && b !in bs && forall c <- bs :: Age(c, {b} + bs) == Age(c, bs)
  {
    assert (set c | c in {b} + bs && c.at > b.at) == bs;
    forall c <- bs ensures Age(c, {b} + bs) == Age(c, bs) {
      assert (set e | e in {b} + bs && e.at > c.at) == (set e | e in bs && e.at > c.at);
    }
  }

  /** The backups of completed runs are the first one and later ones. */
  lemma FirstAndLater(prefix: string, runs: seq<Run>)
    requires Increasing(runs) && runs != [] && Makes(runs[0].outcome)
    ensures Increasing(runs[1..])
    ensures var b, bs := BackupOf(prefix, runs[0]), Made(EventsOf(prefix, runs[1..]));
      Made(EventsOf(prefix, runs)) == {b} + bs && forall c <- bs :: b.at < c.at
  {
    var until := Seconds(runs[|runs| - 1].time) + 1;
    LaterRuns(runs, until);
    BackupsOfRuns(prefix, runs[1..], Seconds(runs[0].time), until);
    PartsOfBackups(EventsOf(prefix, runs[1..]));
    assert EventsOf(prefix, runs)[1..] == EventsOf(prefix, runs[1..]);
  }

  /** As many backups are newer as there are later runs. */
  lemma {:induction false} AgeIsLaterRuns(prefix: string, runs: seq<Run>, i: nat)
    requires Increasing(runs) && AllDone(runs) && i <= |runs|
    ensures |Made(EventsOf(prefix, runs))| == |runs|
    ensures i < |runs| ==> Age(BackupOf(prefix, runs[i]), Made(EventsOf(prefix, runs))) == |runs| - 1 - i
    decreases |runs|
  {
    if runs != [] {
      FirstAndLater(prefix, runs);
      AgeIsLaterRuns(prefix, runs[1..], if i == 0 then 0 else i - 1);
      if 0 < i < |runs| { MadeIn(prefix, runs[1..], i - 1); }
      AgeWithOlder(BackupOf(prefix, runs[0]), Made(EventsOf(prefix, runs[1..])));
    }
  }

  /** When every run completed, a restore finds a backup exactly when the directory still holds it and fewer are newer
      than the larger retention less one: a copy off site helps one backup at most. */
  lemma RestoreFindsIff(c: Config, runs: seq<Run>, i: nat, listed: bool, t: Timestamp)
    requires Increasing(runs) && AllDone(runs) && Valid(t) && forall r <- runs :: Seconds(r.time) < Seconds(t)
    requires i < |runs|
    ensures
      var s, newer := AfterAll(NOTHING, c, EventsOf(c.prefix, runs)), |runs| - 1 - i;
      Restore(s, c, BackupOf(c.prefix, runs[i]).id, listed, true, t, Done).1 in {FromLocal, FromOffsite} <==>
        newer < Max1(c.retention) && newer < KeptAnywhere(c) - 1
  {
    AllDoneMakes(c.prefix, runs);
    RunLeaves(c, runs);
    MadeIn(c.prefix, runs, i);
    AgeIsLaterRuns(c.prefix, runs, i);
    RestoreAfterRuns(c, runs, i, listed, t);
  }

  /** A backup that is kept off site only is listed but cannot be restored, although its dump is there before and after:
      its manifest off site does not record the dump. */
  lemma OffsiteOnlyIsLost(c: Config, runs: seq<Run>, i: nat, t: Timestamp)
    requires Increasing(runs) && AllDone(runs) && Valid(t) && forall r <- runs :: Seconds(r.time) < Seconds(t)
    requires c.offsite.Some? && i < |runs|
    requires Max1(c.retention) <= |runs| - 1 - i < Max1(c.offsite.value.retention) - 1
    ensures
      var s, target := AfterAll(NOTHING, c, EventsOf(c.prefix, runs)), BackupOf(c.prefix, runs[i]).id;
      var (after, found) := Restore(s, c, target, true, true, t, Done);
      DumpKey(c.offsite.value, target) in s.remote * after.remote && found == Unavailable
  {
    var events, target, own := EventsOf(c.prefix, runs), BackupOf(c.prefix, runs[i]), Taken(c.prefix, t, PRE_RESTORE);
    var s := AfterAll(NOTHING, c, events);
    AllDoneMakes(c.prefix, runs);
    MadeIn(c.prefix, runs, i);
    AgeIsLaterRuns(c.prefix, runs, i);
    RunLeaves(c, runs);
    RestoreFindsIff(c, runs, i, true, t);
    BackupsOfRuns(c.prefix, runs, Seconds(runs[0].time) - 1, Seconds(t));
    TakenIsGenuine(c.prefix, t, PRE_RESTORE);
    RemoteOf(s, c, events, target, own);
    LocalOf(s, c, events, target, own);
    assert target in Newest(SentBy(events), Max1(c.offsite.value.retention));
  }

  /** The oldest backup of a directory that is full, without copies off site, is listed with its dump and lost by its
      own restore. */
  lemma OldestIsLost(c: Config, runs: seq<Run>, i: nat, listed: bool, t: Timestamp)
    requires Increasing(runs) && AllDone(runs) && Valid(t) && forall r <- runs :: Seconds(r.time) < Seconds(t)
    requires c.offsite.None? && i < |runs| && |runs| - 1 - i == Max1(c.retention) - 1
    ensures
      var s, target := AfterAll(NOTHING, c, EventsOf(c.prefix, runs)), BackupOf(c.prefix, runs[i]).id;
      && target in s.dir.manifests && target in s.dir.dumps
      && Restore(s, c, target, listed, true, t, Done).1 == Unavailable
  {
    AllDoneMakes(c.prefix, runs);
    MadeIn(c.prefix, runs, i);
    AgeIsLaterRuns(c.prefix, runs, i);
    RunLeaves(c, runs);
    RestoreAfterRuns(c, runs, i, listed, t);
    assert BackupOf(c.prefix, runs[i]) in Newest(Made(EventsOf(c.prefix, runs)), Max1(c.retention));
  }

  /** Two completed backups. */
  function TwoRuns(t: Timestamp, u: Timestamp): seq<Run> { [Run(t, MANUAL, Done), Run(u, MANUAL, Done)] }

  /** After backups at two times, with this retention, a restore of the older one at a third time gets nothing, although
      the directory lists it and has its dump. */
  predicate LostLocally(c: Config, t: Timestamp, u: Timestamp, v: Timestamp) {
    var s, target := AfterAll(NOTHING, c, EventsOf(c.prefix, TwoRuns(t, u))), BackupId(c.prefix, t, MANUAL);
    && target in s.dir.manifests && target in s.dir.dumps
    && Restore(s, c, target, true, true, v, Done).1 == Unavailable
  }

  /** The same, although the dump is off site before and after. */
  predicate LostOffsite(c: Config, f: Offsite, t: Timestamp, u: Timestamp, v: Timestamp) {
    var s, target := AfterAll(NOTHING, c, EventsOf(c.prefix, TwoRuns(t, u))), BackupId(c.prefix, t, MANUAL);
    var (after, found) := Restore(s, c, target, true, true, v, Done);
    DumpKey(f, target) in s.remote * after.remote && found == Unavailable
  }

  lemma LostAt(prefix: string, folder: string, t: Timestamp, u: Timestamp, v: Timestamp)
    requires Valid(t) && Valid(u) && Valid(v) && Seconds(t) < Seconds(u) < Seconds(v)
    ensures LostLocally(Config(prefix, 2, None), t, u, v)
    ensures LostOffsite(Config(prefix, 1, Some(Offsite(folder, 3))), Offsite(folder, 3), t, u, v)
  {
    OldestIsLost(Config(prefix, 2, None), TwoRuns(t, u), 0, true, v);
    OffsiteOnlyIsLost(Config(prefix, 1, Some(Offsite(folder, 3))), TwoRuns(t, u), 0, v);
  }

  /** A second of the night of the first of January 2024. */
  function Night(second: nat): Timestamp { Timestamp(2024, 1, 1, 0, 0, second) }

  lemma NightValid(second: nat)
    requires second < 60
    ensures Valid(Night(second))
  {}

  lemma Nights(i: nat, j: nat)
    requires i < j < 60
    ensures Seconds(Night(i)) < Seconds(Night(j))
  {
    NightValid(i);
    NightValid(j);
    EarlierIsChronological(Night(i), Night(j));
  }

  /** An input that shows the losses: backups of two seconds of one night and a restore of the older one in the third;
      with two kept locally and none off site, and with one kept locally and three off site. */
  lemma OldestLostByItsRestore(prefix: string, folder: string)
    ensures LostLocally(Config(prefix, 2, None), Night(1), Night(2), Night(3))
    ensures LostOffsite(Config(prefix, 1, Some(Offsite(folder, 3))), Offsite(folder, 3), Night(1), Night(2), Night(3))
  {
    NightValid(1);
    NightValid(2);
    NightValid(3);
    Nights(1, 2);
    Nights(2, 3);
    LostAt(prefix, folder, Night(1), Night(2), Night(3));
  }
}
