/** Backup retention: what pruning keeps of the local directory, over runs and in terms of time. */
module BackupRetention {
  import opened FiniteSets
  import opened BackupNames

  // ---------- Sorting names ----------

  /** A strict total order of names; `before(x, y)` says that x comes first. */
  type Order = (string, string) -> bool

  ghost predicate Strict(before: Order) {
    && (forall x, y :: !(before(x, y) && before(y, x)) && (x == y || before(x, y) || before(y, x)))
    && (forall x, y, z :: before(x, y) && before(y, z) ==> before(x, z))
  }

  /** The order of file names: of the names with an extension. */
  function ByName(extension: string): Order { (x: string, y: string) => Less(x + extension, y + extension) }

  lemma ByNameIsStrict(extension: string)
    ensures Strict(ByName(extension))
  {
    var before := ByName(extension);
    forall x, y ensures !(before(x, y) && before(y, x)) && (x == y || before(x, y) || before(y, x)) {
      LessTotal(x + extension, y + extension);
      if x + extension == y + extension {
        assert |x| == |y|;
        assert (x + extension)[..|x|] == x && (y + extension)[..|y|] == y;
      }
    }
    forall x, y, z | before(x, y) && before(y, z) ensures before(x, z) {
      LessTransitive(x + extension, y + extension, z + extension);
    }
  }

  predicate Descending(r: seq<string>, before: Order) { forall i, j | 0 <= i < j < |r| :: before(r[j], r[i]) }

  /** How many names of `s` come after `x`. */
  function Rank(x: string, s: set<string>, before: Order): nat { |set y | y in s && before(x, y)| }

  function Max1(retention: int): nat { if retention >= 1 then retention else 1 }

  method Largest(s: set<string>, before: Order) returns (m: string)
    requires s != {} && Strict(before)
    ensures m in s && forall x | x in s :: x == m || before(x, m)
  {
    m :| m in s;
    var left := s - {m};
    while left != {}
      invariant m in s && left <= s
      invariant forall x | x in s && x !in left :: x == m || before(x, m)
      decreases left
    {
      var y :| y in left;
      if before(m, y) { m := y; }
      left := left - {y};
    }
  }

  /** The names sorted in reverse. */
  method Sorted(s: set<string>, before: Order) returns (r: seq<string>)
    requires Strict(before)
    ensures Descending(r, before) && forall x :: x in r <==> x in s
  {
    r := [];
    var left := s;
    while left != {}
      invariant left <= s && Descending(r, before)
      invariant forall x :: x in r <==> x in s && x !in left
      invariant forall i, x | 0 <= i < |r| && x in left :: before(x, r[i])
      decreases left
    {
      var m := Largest(left, before);
      r := r + [m];
      left := left - {m};
    }
  }

  lemma {:induction false} PrefixSize(r: seq<string>, before: Order, i: nat)
    requires Strict(before) && Descending(r, before) && i <= |r|
    ensures |set j | 0 <= j < i :: r[j]| == i
  {
    if i > 0 {
      PrefixSize(r, before, i - 1);
      var a, b := set j | 0 <= j < i - 1 :: r[j], set j | 0 <= j < i :: r[j];
      assert b == a + {r[i - 1]};
    }
  }

  /** In a reverse-sorted list the position of a name is its rank, and no name occurs twice. */
  lemma RankIsIndex(r: seq<string>, s: set<string>, before: Order, i: nat)
    requires Strict(before) && Descending(r, before) && (forall x :: x in r <==> x in s) && i < |r|
    ensures Rank(r[i], s, before) == i
    ensures forall j | 0 <= j < |r| && j != i :: r[j] != r[i]
  {
    var later := set j | 0 <= j < i :: r[j];
    forall y ensures y in s && before(r[i], y) <==> y in later {
      if y in s && before(r[i], y) {
        var j :| 0 <= j < |r| && r[j] == y;
      }
    }
    assert (set y | y in s && before(r[i], y)) == later;
    PrefixSize(r, before, i);
  }

  /** The names past the first `keep` of a reverse-sorted list are those of that rank or more, each once. */
  lemma StaleOnes(names: set<string>, keep: nat, before: Order, sorted: seq<string>, stale: seq<string>)
    requires Strict(before) && Descending(sorted, before) && (forall x :: x in sorted <==> x in names)
    requires stale == if keep <= |sorted| then sorted[keep..] else []
    ensures forall m :: m in stale <==> m in names && Rank(m, names, before) >= keep
    ensures forall j | 0 <= j < |stale| :: stale[j] in names
    ensures forall j, k | 0 <= j < |stale| && 0 <= k < |stale| && j != k :: stale[j] != stale[k]
  {
    forall j, k | 0 <= j < |stale| && 0 <= k < |stale| && j != k ensures stale[j] != stale[k] {
      RankIsIndex(sorted, names, before, keep + j);
      assert stale[j] == sorted[keep + j] && stale[k] == sorted[keep + k];
    }
    forall m ensures m in stale <==> m in names && Rank(m, names, before) >= keep {
      if m in names {
        var i :| 0 <= i < |sorted| && sorted[i] == m;
        RankIsIndex(sorted, names, before, i);
        if i >= keep { assert stale[i - keep] == m; }
        if k :| 0 <= k < |stale| && stale[k] == m { assert sorted[keep + k] == m; }
      }
    }
  }

  /** The names that are not among the first `retention`, at least one being kept. */
  method StaleNames(names: set<string>, retention: int, before: Order) returns (stale: seq<string>)
    requires Strict(before)
    ensures forall m :: m in stale <==> m in names && Rank(m, names, before) >= Max1(retention)
    ensures forall j | 0 <= j < |stale| :: stale[j] in names
    ensures forall j, k | 0 <= j < |stale| && 0 <= k < |stale| && j != k :: stale[j] != stale[k]
  {
    var sorted := Sorted(names, before);
    var keep := if retention < 1 then 1 else retention;
    stale := if keep <= |sorted| then sorted[keep..] else [];
    StaleOnes(names, keep, before, sorted, stale);
  }

  // ---------- The local directory ----------

  /** The daily directory, its files named by backup id: the dumps, and the manifests with the dump each records. */
  datatype Dir = Dir(dumps: set<string>, manifests: map<string, string>)

  const MANIFEST: string := ".manifest.json"
  const DUMP: string := ".dump"
  const MANUAL: string := "manual"
  const PRE_RESTORE: string := "pre-restore"

  /** The manifests among the first `n` in reverse order. */
  function Kept(d: Dir, n: nat, before: Order): set<string> {
    set m | m in d.manifests && Rank(m, d.manifests.Keys, before) < n
  }

  /** Pruning removes each manifest that is not kept, with the dump it records. */
  function PrunedBy(d: Dir, n: nat, before: Order): Dir {
    Dir(d.dumps - (set m | m in d.manifests && m !in Kept(d, n, before) :: d.manifests[m]),
        map m | m in d.manifests && m in Kept(d, n, before) :: d.manifests[m])
  }

  lemma PrunedWithoutStale(d: Dir, n: nat, before: Order, stale: seq<string>)
    requires forall m :: m in stale <==> m in d.manifests.Keys && Rank(m, d.manifests.Keys, before) >= n
    ensures PrunedBy(d, n, before) == Dir(d.dumps - (set m | m in d.manifests && m in stale :: d.manifests[m]),
                                          map m | m in d.manifests && m !in stale :: d.manifests[m])
  {
    forall m | m in d.manifests ensures m in Kept(d, n, before) <==> m !in stale {}
  }

  /** The program sorts manifest files by name and keeps at least one. */
  function Pruned(d: Dir, retention: int): Dir { PrunedBy(d, Max1(retention), ByName(MANIFEST)) }

  /** How far a failing upload gets: nothing or only the dump is sent, or both files are and pruning off site fails
      after some of its deletions. */
  datatype Upload = NothingSent | DumpSent | BothSent(deleted: set<string>)

  /** How far a run of the backup gets: the dump command may fail (leaving a partial file or not), its check may, the
      manifest is then written, and the upload off site may fail. */
  datatype Outcome = DumpFails(partial: bool) | CheckFails | UploadFails(upload: Upload) | Done

  function Written(d: Dir, id: string): Dir { Dir(d.dumps + {id}, d.manifests[id := id]) }

  function RunBy(d: Dir, id: string, o: Outcome, n: nat, before: Order): Dir {
    match o
    case DumpFails(partial) => if partial then d.(dumps := d.dumps + {id}) else d
    case CheckFails => d.(dumps := d.dumps + {id})
    case UploadFails(_) => Written(d, id)
    case Done => PrunedBy(Written(d, id), n, before)
  }

  function RunTo(d: Dir, id: string, o: Outcome, retention: int): Dir {
    RunBy(d, id, o, Max1(retention), ByName(MANIFEST))
  }

  // ---------- Retention in terms of time ----------

  /** A backup: its name, the second it was taken in, and the time and trigger that the two come from. */
  datatype Backup = Backup(id: string, at: int, time: Timestamp, trigger: string)

  /** How many of the backups are newer. */
  function Age(b: Backup, bs: set<Backup>): nat { |set c | c in bs && c.at > b.at| }

  function Newest(bs: set<Backup>, n: nat): set<Backup> { set b | b in bs && Age(b, bs) < n }

  /** Backups in different seconds whose names sort by time. */
  predicate Apart(bs: set<Backup>, before: Order) { forall b, c | b in bs && c in bs && b != c :: Sorts(b, c, before) }

  predicate Sorts(b: Backup, c: Backup, before: Order) { b.at != c.at && (before(b.id, c.id) <==> b.at < c.at) }

  predicate Timed(bs: set<Backup>) { forall b, c | b in bs && c in bs && b != c :: b.at != c.at }

  /** The backup that a run with this time and trigger makes. */
  function Taken(prefix: string, t: Timestamp, trigger: string): Backup {
    Backup(BackupId(prefix, t, trigger), Seconds(t), t, trigger)
  }

  /** Backups of one prefix with four-digit years in different seconds sort by time. */
  lemma TakenSort(prefix: string, t: Timestamp, u: Timestamp, triggerT: string, triggerU: string, extension: string)
    requires Valid(t) && Valid(u) && Seconds(t) != Seconds(u)
    ensures Sorts(Taken(prefix, t, triggerT), Taken(prefix, u, triggerU), ByName(extension))
  {
    NamesSortByTime(prefix, t, u, triggerT, triggerU, extension);
  }

  /** A backup that the program made under this prefix, in a year of four digits. */
  predicate Genuine(b: Backup, prefix: string) { Valid(b.time) && b == Taken(prefix, b.time, b.trigger) }

  predicate AllGenuine(bs: set<Backup>, prefix: string) { forall b <- bs :: Genuine(b, prefix) }

  lemma TakenIsGenuine(prefix: string, t: Timestamp, trigger: string)
    requires Valid(t)
    ensures Genuine(Taken(prefix, t, trigger), prefix) && Taken(prefix, t, trigger).at == Seconds(t)
  {}

  lemma GenuineSort(b: Backup, c: Backup, prefix: string, extension: string)
    requires Genuine(b, prefix) && Genuine(c, prefix) && b.at != c.at
    ensures Sorts(b, c, ByName(extension))
  {
    TakenSort(prefix, b.time, c.time, b.trigger, c.trigger, extension);
  }

  lemma GenuineApart(bs: set<Backup>, prefix: string, extension: string)
    requires AllGenuine(bs, prefix) && Timed(bs)
    ensures Apart(bs, ByName(extension))
  {
    var before := ByName(extension);
    forall b, c | b in bs && c in bs && b != c ensures Sorts(b, c, before) { GenuineSort(b, c, prefix, extension); }
  }

  lemma GenuineFollows(bs: set<Backup>, own: Backup, prefix: string, extension: string)
    requires AllGenuine(bs, prefix) && Genuine(own, prefix) && forall b <- bs :: b.at < own.at
    ensures Follows(bs, own, ByName(extension))
  {
    var before := ByName(extension);
    forall b | b in bs ensures b.at < own.at && Sorts(b, own, before) && Sorts(own, b, before) {
      GenuineSort(b, own, prefix, extension);
      GenuineSort(own, b, prefix, extension);
    }
  }

  function Ids(bs: set<Backup>): set<string> { set b | b in bs :: b.id }

  /** The manifests of the directory are those of the backups, each recording its own dump, which is there. */
  predicate Holds(d: Dir, bs: set<Backup>) {
    d.manifests.Keys == Ids(bs) && forall b | b in bs :: d.manifests[b.id] == b.id && b.id in d.dumps
  }

  lemma IdsDiffer(bs: set<Backup>, b: Backup, c: Backup, before: Order)
    requires Strict(before) && Apart(bs, before) && b in bs && c in bs && b.id == c.id
    ensures b == c
  {
    assert b != c ==> Sorts(b, c, before) && Sorts(c, b, before);
  }

  lemma {:induction false} IdsSize(bs: set<Backup>, before: Order)
    requires Strict(before) && Apart(bs, before)
    ensures |Ids(bs)| == |bs|
    decreases bs
  {
    if bs != {} {
      var b :| b in bs;
      IdsSize(bs - {b}, before);
      assert Ids(bs) == Ids(bs - {b}) + {b.id};
      if c :| c in bs - {b} && c.id == b.id { IdsDiffer(bs, b, c, before); }
    }
  }

  /** The rank of a name among names is the age of its backup. */
  lemma RankIsAge(bs: set<Backup>, before: Order, b: Backup)
    requires Strict(before) && Apart(bs, before) && b in bs
    ensures Rank(b.id, Ids(bs), before) == Age(b, bs)
  {
    var newer := set c | c in bs && c.at > b.at;
    forall y ensures y in Ids(bs) && before(b.id, y) <==> y in Ids(newer) {
      if y in Ids(bs) {
        var c :| c in bs && y == c.id;
        assert c != b ==> Sorts(b, c, before);
        if y in Ids(newer) {
          var e :| e in newer && y == e.id;
          IdsDiffer(bs, c, e, before);
        }
      }
    }
    assert (set y | y in Ids(bs) && before(b.id, y)) == Ids(newer);
    IdsSize(newer, before);
  }

  lemma IdsApart(bs: set<Backup>, part: set<Backup>, before: Order)
    requires Strict(before) && Apart(bs, before) && part <= bs
    ensures Ids(part) !! Ids(bs - part) && Ids(part) + Ids(bs - part) == Ids(bs)
  {
    if x :| x in Ids(part) && x in Ids(bs - part) {
      var b :| b in part && b.id == x;
      var c :| c in bs - part && c.id == x;
      IdsDiffer(bs, b, c, before);
    }
    forall x | x in Ids(bs) ensures x in Ids(part) + Ids(bs - part) {
      var b :| b in bs && b.id == x;
      assert b in part || b in bs - part;
    }
  }

  lemma KeptAreNewest(d: Dir, bs: set<Backup>, n: nat, before: Order)
    requires Strict(before) && Apart(bs, before) && Holds(d, bs)
    ensures Kept(d, n, before) == Ids(Newest(bs, n))
  {
    forall b | b in bs ensures b.id in Kept(d, n, before) <==> b in Newest(bs, n) { RankIsAge(bs, before, b); }
    forall m ensures m in Kept(d, n, before) <==> m in Ids(Newest(bs, n)) {
      if m in d.manifests { var b :| b in bs && b.id == m; }
    }
  }

  /** Pruning keeps exactly the newest backups by time, each with its dump, deletes the dumps of the others, and touches
      no other dump. */
  lemma PruneKeepsNewest(d: Dir, bs: set<Backup>, n: nat, before: Order)
    requires Strict(before) && Apart(bs, before) && Holds(d, bs)
    ensures Holds(PrunedBy(d, n, before), Newest(bs, n))
    ensures PrunedBy(d, n, before).dumps == d.dumps - Ids(bs - Newest(bs, n))
  {
    KeptAreNewest(d, bs, n, before);
    IdsApart(bs, Newest(bs, n), before);
    var d' := PrunedBy(d, n, before);
    forall m | m in d.manifests ensures d.manifests[m] == m { var b :| b in bs && b.id == m; }
    assert (set m | m in d.manifests && m !in Kept(d, n, before) :: d.manifests[m]) == Ids(bs - Newest(bs, n)) by {
      forall m ensures m in d.manifests && m !in Kept(d, n, before) <==> m in Ids(bs - Newest(bs, n)) {}
    }
  }

  lemma HoldsWritten(d: Dir, bs: set<Backup>, b: Backup)
    requires Holds(d, bs)
    ensures Holds(Written(d, b.id), bs + {b})
  {
    assert Ids(bs + {b}) == Ids(bs) + {b.id};
  }

  // ---------- Runs ----------

  datatype Event = Event(backup: Backup, outcome: Outcome)

  function AfterBy(d: Dir, events: seq<Event>, n: nat, before: Order): Dir
    decreases |events|
  {
    if events == [] then d else AfterBy(RunBy(d, events[0].backup.id, events[0].outcome, n, before),
        events[1..], n, before)
  }

  function After(d: Dir, events: seq<Event>, retention: int): Dir {
    AfterBy(d, events, Max1(retention), ByName(MANIFEST))
  }

  /** Time moves forward from backup to backup, and names sort by time. */
  predicate Forward(bs: set<Backup>, events: seq<Event>, before: Order)
    decreases |events|
  {
    events == [] ||
    (Follows(bs, events[0].backup, before) && Forward(bs + {events[0].backup}, events[1..], before))
  }

  predicate Follows(bs: set<Backup>, n: Backup, before: Order) {
    forall b | b in bs :: b.at < n.at && Sorts(b, n, before) && Sorts(n, b, before)
  }

  /** A run as it is started: when, by what, and how far it gets. */
  datatype Run = Run(time: Timestamp, trigger: string, outcome: Outcome)

  /** Every run starts in a later second than the one before, in a year of four digits. */
  predicate Increasing(runs: seq<Run>) {
    && (forall i | 0 <= i < |runs| :: Valid(runs[i].time))
    && (forall i, j | 0 <= i < j < |runs| :: Seconds(runs[i].time) < Seconds(runs[j].time))
  }

  function EventOf(prefix: string, r: Run): Event { Event(Taken(prefix, r.time, r.trigger), r.outcome) }

  function EventsOf(prefix: string, runs: seq<Run>): seq<Event> {
    if runs == [] then [] else [EventOf(prefix, runs[0])] + EventsOf(prefix, runs[1..])
  }

  /** The names of runs in later and later seconds sort by time. */
  lemma {:induction false} RunsGoForward(prefix: string, bs: set<Backup>, runs: seq<Run>, extension: string)
    requires Increasing(runs) && AllGenuine(bs, prefix)
    requires runs != [] ==> forall b <- bs :: b.at < Seconds(runs[0].time)
    ensures Forward(bs, EventsOf(prefix, runs), ByName(extension))
    decreases |runs|
  {
    if runs != [] {
      var own, rest := Taken(prefix, runs[0].time, runs[0].trigger), runs[1..];
      TakenIsGenuine(prefix, runs[0].time, runs[0].trigger);
      GenuineFollows(bs, own, prefix, extension);
      RunsGoForward(prefix, bs + {own}, rest, extension);
      assert EventsOf(prefix, runs)[1..] == EventsOf(prefix, rest);
    }
  }

  /** Whether the run wrote its manifest; an upload that fails comes after that. */
  predicate Makes(o: Outcome) { o.Done? || o.UploadFails? }

  /** The backups of the events that were made. */
  function Made(events: seq<Event>): set<Backup> {
    if events == [] then {} else (if Makes(events[0].outcome) then {events[0].backup} else {}) + Made(events[1..])
  }

  /** The backups of `all` that the directory lists. */
  function Listed(d: Dir, all: set<Backup>): set<Backup> { set b | b in all && b.id in d.manifests }

  lemma AgesGrow(bs: set<Backup>, n: Backup, b: Backup)
    requires b in bs && forall c | c in bs :: c.at < n.at
    ensures Age(b, bs + {n}) == Age(b, bs) + 1 && Age(n, bs + {n}) == 0 && n !in bs
  {
    assert (set c | c in bs + {n} && c.at > b.at) == (set c | c in bs && c.at > b.at) + {n};
    assert (set c | c in bs + {n} && c.at > n.at) == {};
  }

  lemma {:induction false} Oldest(bs: set<Backup>) returns (o: Backup)
    requires bs != {} && Timed(bs)
    ensures o in bs && forall b | b in bs && b != o :: o.at < b.at
    decreases bs
  {
    o :| o in bs;
    if bs != {o} {
      var p := Oldest(bs - {o});
      if p.at < o.at { o := p; }
    }
  }

  lemma NewestWithOldest(bs: set<Backup>, o: Backup, n: nat)
    requires o in bs && forall b | b in bs && b != o :: o.at < b.at
    ensures Newest(bs, n) == Newest(bs - {o}, n) + (if |bs| - 1 < n then {o} else {})
  {
    var rest := bs - {o};
    assert (set c | c in bs && c.at > o.at) == rest;
    forall b | b in rest ensures Age(b, bs) == Age(b, rest) {
      assert (set c | c in bs && c.at > b.at) == (set c | c in rest && c.at > b.at);
    }
    forall b ensures b in Newest(bs, n) <==> b in Newest(rest, n) + (if |bs| - 1 < n then {o} else {}) {}
  }

  /** There are as many of the newest `n` as asked for, if there are as many backups. */
  lemma {:induction false} NewestSize(bs: set<Backup>, n: nat)
    requires Timed(bs)
    ensures |Newest(bs, n)| == if |bs| < n then |bs| else n
    decreases bs
  {
    if bs != {} {
      var o := Oldest(bs);
      var rest := bs - {o};
      NewestSize(rest, n);
      NewestWithOldest(bs, o, n);
    } else {
      assert Newest(bs, n) == {};
    }
  }

  /** Backups that include the newest of all have the same newest. */
  lemma SameNewest(all: set<Backup>, bs: set<Backup>, n: nat)
    requires Timed(all) && Newest(all, n) <= bs <= all
    ensures Newest(bs, n) == Newest(all, n)
  {
    forall b | b in bs ensures b in Newest(bs, n) <==> b in Newest(all, n) {
      var here, there := set c | c in bs && c.at > b.at, set c | c in all && c.at > b.at;
      SubsetSize(here, there);
      if b !in Newest(all, n) {
        forall c | c in Newest(all, n) ensures c in here {
          if c.at <= b.at { SubsetSize(there, set e | e in all && e.at > c.at); }
        }
        SubsetSize(Newest(all, n), here);
        SubsetSize(there, all);
        NewestSize(all, n);
      }
    }
  }

  /** With one newer backup more, the newest are among the newest before and the new one. */
  lemma NewestOfMore(all: set<Backup>, n: Backup, limit: nat)
    requires forall c | c in all :: c.at < n.at
    ensures Newest(all + {n}, limit) <= Newest(all, limit) + {n}
  {
    forall b | b in Newest(all + {n}, limit) && b != n ensures b in Newest(all, limit) { AgesGrow(all, n, b); }
  }

  lemma ForwardLess(fewer: set<Backup>, bs: set<Backup>, events: seq<Event>, before: Order)
    requires Forward(bs, events, before) && fewer <= bs
    ensures Forward(fewer, events, before)
    decreases |events|
  {
    if events != [] { ForwardLess(fewer + {events[0].backup}, bs + {events[0].backup}, events[1..], before); }
  }

  /** The directory holds the newest of all backups made, and perhaps others of them that are still to be pruned. */
  predicate Covers(d: Dir, all: set<Backup>, n: nat) { Holds(d, Listed(d, all)) && Newest(all, n) <= Listed(d, all) }

  lemma HoldsIsListed(d: Dir, all: set<Backup>, bs: set<Backup>, before: Order)
    requires Strict(before) && Apart(all, before) && bs <= all && Holds(d, bs)
    ensures Listed(d, all) == bs
  {
    forall b | b in all && b.id in d.manifests ensures b in bs {
      var c :| c in bs && c.id == b.id;
      IdsDiffer(all, b, c, before);
    }
  }

  lemma MadeCovers(d: Dir, all: set<Backup>, b: Backup, n: nat, before: Order)
    requires Strict(before) && Apart(all, before) && Follows(all, b, before) && Covers(d, all, n)
    ensures Apart(all + {b}, before) && Covers(Written(d, b.id), all + {b}, n)
    ensures Listed(Written(d, b.id), all + {b}) == Listed(d, all) + {b}
  {
    HoldsWritten(d, Listed(d, all), b);
    HoldsIsListed(Written(d, b.id), all + {b}, Listed(d, all) + {b}, before);
    NewestOfMore(all, b, n);
  }

  lemma PruneCovers(d: Dir, all: set<Backup>, n: nat, before: Order)
    requires Strict(before) && Apart(all, before) && Covers(d, all, n)
    ensures Covers(PrunedBy(d, n, before), all, n) && Listed(PrunedBy(d, n, before), all) == Newest(all, n)
  {
    assert Timed(all) by {
      forall b, c | b in all && c in all && b != c ensures b.at != c.at { assert Sorts(b, c, before); }
    }
    SameNewest(all, Listed(d, all), n);
    PruneKeepsNewest(d, Listed(d, all), n, before);
    HoldsIsListed(PrunedBy(d, n, before), all, Newest(all, n), before);
  }

  lemma StepCovers(d: Dir, all: set<Backup>, e: Event, n: nat, before: Order)
    requires Strict(before) && Apart(all, before) && Follows(all, e.backup, before) && Covers(d, all, n)
    ensures var d1, all1 := RunBy(d, e.backup.id, e.outcome, n, before), all + Made([e]);
      Apart(all1, before) && Covers(d1, all1, n) && (e.outcome.Done? ==> Listed(d1, all1) == Newest(all1, n))
  {
    MadeOne(e);
    if Makes(e.outcome) {
      MadeCovers(d, all, e.backup, n, before);
      if e.outcome.Done? { PruneCovers(Written(d, e.backup.id), all + {e.backup}, n, before); }
    } else {
      assert all + {} == all;
      assert Listed(RunBy(d, e.backup.id, e.outcome, n, before), all) == Listed(d, all);
    }
  }

  predicate Completes(events: seq<Event>) { events != [] && events[|events| - 1].outcome.Done? }

  /** The newest are there, and after a completed run nothing else is. */
  predicate Keeps(d: Dir, all: set<Backup>, n: nat, completed: bool) {
    Covers(d, all, n) && (completed ==> Listed(d, all) == Newest(all, n))
  }

  lemma MadeCons(events: seq<Event>)
    requires events != []
    ensures Made(events) == Made([events[0]]) + Made(events[1..])
  {}

  /** What the rest of a run keeps is what the whole run keeps. */
  lemma KeepsCons(d: Dir, d1: Dir, all: set<Backup>, all1: set<Backup>, events: seq<Event>, n: nat, before: Order)
    requires events != [] && d1 == RunBy(d, events[0].backup.id, events[0].outcome, n, before) &&
        all1 == all + Made([events[0]])
    requires Keeps(d1, all1, n, events[0].outcome.Done?)
    requires Keeps(AfterBy(d1, events[1..], n, before), all1 + Made(events[1..]), n, Completes(events[1..]))
    ensures Keeps(AfterBy(d, events, n, before), all + Made(events), n, Completes(events))
  {
    MadeCons(events);
    assert all1 + Made(events[1..]) == all + Made(events);
    if events[1..] == [] { assert all + Made(events) == all1; }
  }

  lemma {:induction false} RunCovers(d: Dir, all: set<Backup>, events: seq<Event>, n: nat, before: Order)
    requires Strict(before) && Apart(all, before) && Forward(all, events, before) && Covers(d, all, n)
    ensures Keeps(AfterBy(d, events, n, before), all + Made(events), n, Completes(events))
    decreases |events|
  {
    if events == [] {
      assert all + Made(events) == all;
    } else {
      var e := events[0];
      var d1, all1 := RunBy(d, e.backup.id, e.outcome, n, before), all + Made([e]);
      StepCovers(d, all, e, n, before);
      MadeOne(e);
      ForwardLess(all1, all + {e.backup}, events[1..], before);
      RunCovers(d1, all1, events[1..], n, before);
      KeepsCons(d, d1, all, all1, events, n, before);
    }
  }

  lemma MadeOne(e: Event)
    ensures Made([e]) == if Makes(e.outcome) then {e.backup} else {}
  {
    assert [e][1..] == [] && Made([]) == {};
  }

  // ---------- Dumps without a manifest ----------

  /** Whether the run left a dump without a manifest. */
  predicate Leaves(o: Outcome) { o.CheckFails? || (o.DumpFails? && o.partial) }

  /** The backups of the events that were left as a dump without a manifest. */
  function Left(events: seq<Event>): set<Backup> {
    if events == [] then {} else (if Leaves(events[0].outcome) then {events[0].backup} else {}) + Left(events[1..])
  }

  /** The dumps are those of the backups listed, and those without a manifest. */
  predicate HasDumps(d: Dir, all: set<Backup>, left: set<Backup>) {
    all !! left && d.dumps == Ids(Listed(d, all)) + Ids(left)
  }

  lemma IdsPlus(bs: set<Backup>, cs: set<Backup>)
    ensures Ids(bs + cs) == Ids(bs) + Ids(cs)
  {}

  lemma IdsDisjoint(bs: set<Backup>, cs: set<Backup>, every: set<Backup>, before: Order)
    requires Strict(before) && Apart(every, before) && bs + cs <= every && bs !! cs
    ensures Ids(bs) !! Ids(cs)
  {
    IdsApart(every, bs, before);
    forall x | x in Ids(cs) ensures x in Ids(every - bs) { var c :| c in cs && c.id == x; assert c in every - bs; }
  }

  lemma FollowsApart(bs: set<Backup>, b: Backup, before: Order)
    requires Apart(bs, before) && Follows(bs, b, before)
    ensures Apart(bs + {b}, before) && b !in bs
  {}

  lemma PrunedDumps(d: Dir, all: set<Backup>, left: set<Backup>, n: nat, before: Order)
    requires Strict(before) && Apart(all + left, before) && Covers(d, all, n) && HasDumps(d, all, left)
    ensures HasDumps(PrunedBy(d, n, before), all, left)
  {
    var bs := Listed(d, all);
    PruneKeepsNewest(d, bs, n, before);
    PruneCovers(d, all, n, before);
    assert Listed(PrunedBy(d, n, before), all) == Newest(bs, n) by {
      HoldsIsListed(PrunedBy(d, n, before), all, Newest(bs, n), before);
    }
    IdsApart(bs, Newest(bs, n), before);
    IdsDisjoint(bs - Newest(bs, n), left, all + left, before);
  }

  lemma StepDumps(d: Dir, all: set<Backup>, left: set<Backup>, e: Event, n: nat, before: Order)
    requires Strict(before) && Apart(all + left, before) && Follows(all + left, e.backup, before)
    requires Covers(d, all, n) && HasDumps(d, all, left)
    ensures var all1, left1 := all + Made([e]), left + Left([e]);
      Apart(all1 + left1, before) && HasDumps(RunBy(d, e.backup.id, e.outcome, n, before), all1, left1)
  {
    var b := e.backup;
    FollowsApart(all + left, b, before);
    MadeOne(e);
    LeftOne(e);
    IdsPlus(left, {b});
    if Makes(e.outcome) {
      assert all + {b} + left == all + left + {b} && left + {} == left;
      MadeCovers(d, all, b, n, before);
      IdsPlus(Listed(d, all), {b});
      if e.outcome.Done? { PrunedDumps(Written(d, b.id), all + {b}, left, n, before); }
    } else {
      assert all + {} == all;
      assert Listed(RunBy(d, b.id, e.outcome, n, before), all) == Listed(d, all);
      if Leaves(e.outcome) { assert all + (left + {b}) == all + left + {b}; } else { assert left + {} == left; }
    }
  }

  lemma LeftOne(e: Event)
    ensures Left([e]) == if Leaves(e.outcome) then {e.backup} else {}
  {
    assert [e][1..] == [] && Left([]) == {};
  }

  lemma PartsOnward(all: set<Backup>, left: set<Backup>, events: seq<Event>)
    requires events != []
    ensures all + Made([events[0]]) + Made(events[1..]) == all + Made(events)
    ensures left + Left([events[0]]) + Left(events[1..]) == left + Left(events)
  {
    MadeOne(events[0]);
    LeftOne(events[0]);
  }

  lemma {:induction false} RunDumps(d: Dir, all: set<Backup>, left: set<Backup>, events: seq<Event>, n: nat,
      before: Order)
    requires Strict(before) && Apart(all + left, before) && Forward(all + left, events, before)
    requires Covers(d, all, n) && HasDumps(d, all, left)
    ensures HasDumps(AfterBy(d, events, n, before), all + Made(events), left + Left(events))
    decreases |events|
  {
    if events == [] {
      assert all + Made(events) == all && left + Left(events) == left;
    } else {
      var e, rest := events[0], events[1..];
      var d1, all1, left1 := RunBy(d, e.backup.id, e.outcome, n, before), all + Made([e]), left + Left([e]);
      StepCovers(d, all, e, n, before);
      StepDumps(d, all, left, e, n, before);
      MadeOne(e);
      LeftOne(e);
      ForwardLess(all1 + left1, all + left + {e.backup}, rest, before);
      RunDumps(d1, all1, left1, rest, n, before);
      PartsOnward(all, left, events);
    }
  }

  const EMPTY := Dir({}, map[])

  /** Whatever runs were started in later and later seconds under one prefix, and whatever failed on the way, the
      directory holds the newest of all backups made, each with its dump, and after a completed run exactly those. The
      only other dumps are the ones that runs left without a manifest; they stay for ever. */
  lemma RunKeepsNewest(prefix: string, runs: seq<Run>, retention: int)
    requires Increasing(runs)
    ensures var events := EventsOf(prefix, runs);
      && Keeps(After(EMPTY, events, retention), Made(events), Max1(retention), Completes(events))
      && HasDumps(After(EMPTY, events, retention), Made(events), Left(events))
  {
    var events := EventsOf(prefix, runs);
    ByNameIsStrict(MANIFEST);
    RunsGoForward(prefix, {}, runs, MANIFEST);
    assert Ids({}) == {} && Listed(EMPTY, {}) == {} && Newest({}, Max1(retention)) == {};
    RunCovers(EMPTY, {}, events, Max1(retention), ByName(MANIFEST));
    var none: set<Backup> := {};
    assert none + none == none && none + Made(events) == Made(events) && none + Left(events) == Left(events);
    RunDumps(EMPTY, none, none, events, Max1(retention), ByName(MANIFEST));
  }

  // ---------- What one more run leaves ----------

  lemma KeptBesideOwn(d: Dir, bs: set<Backup>, target: Backup, own: Backup, n: nat, before: Order)
    requires Strict(before) && Apart(bs, before) && Holds(d, bs) && target in bs && Follows(bs, own, before)
    ensures target.id in PrunedBy(Written(d, own.id), n, before).dumps <==> Age(target, bs) < n - 1
  {
    var all := bs + {own};
    HoldsWritten(d, bs, own);
    PruneKeepsNewest(Written(d, own.id), all, n, before);
    IdsApart(all, Newest(all, n), before);
    AgesGrow(bs, own, target);
    assert target.id in d.dumps;
    if Age(target, all) < n { assert target in Newest(all, n); } else { assert target in all - Newest(all, n); }
  }

  lemma KeptBesideGenuine(d: Dir, bs: set<Backup>, target: Backup, own: Backup, n: nat, prefix: string,
      extension: string)
    requires AllGenuine(bs, prefix) && Timed(bs) && Holds(d, bs) && target in bs
    requires Genuine(own, prefix) && forall b <- bs :: b.at < own.at
    ensures target.id in PrunedBy(Written(d, own.id), n, ByName(extension)).dumps <==> Age(target, bs) < n - 1
  {
    GenuineApart(bs, prefix, extension);
    GenuineFollows(bs, own, prefix, extension);
    ByNameIsStrict(extension);
    KeptBesideOwn(d, bs, target, own, n, ByName(extension));
  }

  /** Whatever backups of one prefix a directory holds, one more run, such as a restore's own, leaves the dump of a
      backup in place exactly when fewer than retention - 1 backups are newer. */
  lemma RestoreFindsLocalIff(prefix: string, d: Dir, bs: set<Backup>, target: Backup, own: Backup, retention: int)
    requires AllGenuine(bs, prefix) && Timed(bs) && Holds(d, bs) && target in bs
    requires Genuine(own, prefix) && forall b <- bs :: b.at < own.at
    ensures target.id in RunTo(d, own.id, Done, retention).dumps <==> Age(target, bs) < Max1(retention) - 1
  {
    KeptBesideGenuine(d, bs, target, own, Max1(retention), prefix, MANIFEST);
  }
}
