/** The cached figures: the counts of the statistics page and the ten trending materials. */
module MaterialCache {
  import opened FiniteSets
  import opened MaterialReview

  datatype Stats = Stats(total: nat, approved: nat, pending: nat, downloads: int)

  function WithStatus(rows: seq<Material>, s: Status): set<nat> { set i: nat | i < |rows| && rows[i].status == s }

  function TotalDownloads(rows: seq<Material>): int {
    if rows == [] then 0 else rows[0].downloadCount + TotalDownloads(rows[1..])
  }

  /** The counts run over all materials, deleted ones included. */
  function StatsOf(rows: seq<Material>): Stats {
    Stats(|rows|, |WithStatus(rows, Approved)|, |WithStatus(rows, PendingReview)|, TotalDownloads(rows))
  }

  predicate Public(m: Material) { m.status == Approved && !m.deleted }

  /** The order of the trending list: the latest review first and unreviewed ones last, then the most downloads. */
  predicate Ahead(a: Material, b: Material) {
    if a.reviewedAt == b.reviewedAt then a.downloadCount > b.downloadCount
    else b.reviewedAt.None? || (a.reviewedAt.Some? && a.reviewedAt.value > b.reviewedAt.value)
  }

  function PublicOnes(rows: seq<Material>): set<nat> { set i: nat | i < |rows| && Public(rows[i]) }

  /** Ten public materials, or all if there are fewer, in order, and none left out is ahead of one listed. */
  predicate TopTen(rows: seq<Material>, ids: seq<nat>) {
    && |ids| == (if |PublicOnes(rows)| < 10 then |PublicOnes(rows)| else 10)
    && (forall i | 0 <= i < |ids| :: ids[i] in PublicOnes(rows))
    && (forall i, j | 0 <= i < j < |ids| :: ids[i] != ids[j] && !Ahead(rows[ids[j]], rows[ids[i]]))
    && (forall k, i | k in PublicOnes(rows) && k !in ids && 0 <= i < |ids| :: !Ahead(rows[k], rows[ids[i]]))
  }

  lemma OneMoreWith(rows: seq<Material>, m: Material, s: Status)
    ensures |WithStatus(rows + [m], s)| == |WithStatus(rows, s)| + if m.status == s then 1 else 0
  {
    assert WithStatus(rows + [m], s) == WithStatus(rows, s) + if m.status == s then {|rows|} else {};
  }

  lemma {:induction false} OneMoreDownloaded(rows: seq<Material>, m: Material)
    ensures TotalDownloads(rows + [m]) == TotalDownloads(rows) + m.downloadCount
  {
    if rows == [] {
      assert rows + [m] == [m];
      assert [m][1..] == [];
    } else {
      assert (rows + [m])[1..] == rows[1..] + [m];
      OneMoreDownloaded(rows[1..], m);
    }
  }

  /** The statistics count every material once: in all, as approved or pending, and with its downloads. */
  lemma StatsCount(rows: seq<Material>, m: Material)
    ensures StatsOf([]) == Stats(0, 0, 0, 0)
    ensures var s, s' := StatsOf(rows), StatsOf(rows + [m]);
      && s'.total == s.total + 1
      && s'.approved == s.approved + (if m.status == Approved then 1 else 0)
      && s'.pending == s.pending + (if m.status == PendingReview then 1 else 0)
      && s'.downloads == s.downloads + m.downloadCount
  {
    OneMoreWith(rows, m, Approved);
    OneMoreWith(rows, m, PendingReview);
    OneMoreDownloaded(rows, m);
    assert WithStatus([], Approved) == {} && WithStatus([], PendingReview) == {};
  }

  /** A list of the top ten has approved materials that are not deleted, each once: all of them, or ten. The latest
      reviewed come first, those never reviewed last, and of one time of review the most downloaded. */
  lemma TopTenMeans(rows: seq<Material>, ids: seq<nat>)
    requires TopTen(rows, ids)
    ensures |ids| <= 10 && forall i | 0 <= i < |ids| ::
        ids[i] < |rows| && rows[ids[i]].status == Approved && !rows[ids[i]].deleted
    ensures forall i, j | 0 <= i < j < |ids| :: ids[i] != ids[j] && InOrder(rows[ids[i]], rows[ids[j]])
    ensures forall k: nat | k < |rows| && rows[k].status == Approved && !rows[k].deleted && k !in ids ::
        |ids| == 10 && forall i | 0 <= i < |ids| :: InOrder(rows[ids[i]], rows[k])
  {
    forall i, j | 0 <= i < j < |ids| ensures ids[i] != ids[j] && InOrder(rows[ids[i]], rows[ids[j]]) {
      assert ids[i] in PublicOnes(rows) && ids[j] in PublicOnes(rows);
    }
    forall i | 0 <= i < |ids|
        ensures ids[i] < |rows| && rows[ids[i]].status == Approved && !rows[ids[i]].deleted {
      assert ids[i] in PublicOnes(rows);
    }
    forall k: nat | k < |rows| && rows[k].status == Approved && !rows[k].deleted && k !in ids
      ensures |ids| == 10 && forall i | 0 <= i < |ids| :: InOrder(rows[ids[i]], rows[k])
    {
      assert k in PublicOnes(rows);
      LeftOut(rows, ids, k);
    }
  }

  /** May stand before: reviewed no earlier, or only the other was not, and at the same time downloaded no less. */
  predicate InOrder(a: Material, b: Material) {
    match (a.reviewedAt, b.reviewedAt)
    case (None, None) => a.downloadCount >= b.downloadCount
    case (None, Some(_)) => false
    case (Some(_), None) => true
    case (Some(s), Some(t)) => s > t || (s == t && a.downloadCount >= b.downloadCount)
  }

  lemma LeftOut(rows: seq<Material>, ids: seq<nat>, k: nat)
    requires TopTen(rows, ids) && k in PublicOnes(rows) && k !in ids
    ensures |ids| == 10
  {
    ElementsSize(ids);
    forall i | i in Elements(ids) ensures i in PublicOnes(rows) {
      var n :| 0 <= n < |ids| && ids[n] == i;
    }
    SubsetSize(Elements(ids), PublicOnes(rows) - {k});
  }

  /** What the cached figures are computed from. */
  predicate SameFigures(a: Material, b: Material) {
    a.status == b.status && a.downloadCount == b.downloadCount && a.deleted == b.deleted && a.reviewedAt == b.reviewedAt
  }

  predicate SameTable(rows: seq<Material>, rows': seq<Material>) {
    |rows| == |rows'| && forall i | 0 <= i < |rows| :: SameFigures(rows[i], rows'[i])
  }

  lemma {:induction false} SameDownloads(rows: seq<Material>, rows': seq<Material>)
    requires SameTable(rows, rows')
    ensures TotalDownloads(rows) == TotalDownloads(rows')
  {
    if rows != [] {
      assert SameFigures(rows[0], rows'[0]);
      forall i | 0 <= i < |rows[1..]| ensures SameFigures(rows[1..][i], rows'[1..][i]) {
        assert SameFigures(rows[i + 1], rows'[i + 1]);
      }
      SameDownloads(rows[1..], rows'[1..]);
    }
  }

  /** Tables with the same figures have the same statistics and the same trending lists. */
  lemma SameAnswers(rows: seq<Material>, rows': seq<Material>, ids: seq<nat>)
    requires SameTable(rows, rows')
    ensures StatsOf(rows) == StatsOf(rows')
    ensures TopTen(rows, ids) <==> TopTen(rows', ids)
  {
    SameDownloads(rows, rows');
    assert WithStatus(rows, Approved) == WithStatus(rows', Approved);
    assert WithStatus(rows, PendingReview) == WithStatus(rows', PendingReview);
    assert PublicOnes(rows) == PublicOnes(rows');
    if TopTen(rows, ids) { TopTenCarries(rows, rows', ids); }
    if TopTen(rows', ids) { TopTenCarries(rows', rows, ids); }
  }

  lemma TopTenCarries(rows: seq<Material>, rows': seq<Material>, ids: seq<nat>)
    requires SameTable(rows, rows') && PublicOnes(rows) == PublicOnes(rows') && TopTen(rows, ids)
    ensures TopTen(rows', ids)
  {
    forall i, j | 0 <= i < j < |ids| ensures !Ahead(rows'[ids[j]], rows'[ids[i]]) {
      assert ids[i] in PublicOnes(rows) && ids[j] in PublicOnes(rows);
      assert SameFigures(rows[ids[i]], rows'[ids[i]]) && SameFigures(rows[ids[j]], rows'[ids[j]]);
    }
    forall k, i | k in PublicOnes(rows') && k !in ids && 0 <= i < |ids| ensures !Ahead(rows'[k], rows'[ids[i]]) {
      assert ids[i] in PublicOnes(rows);
      assert SameFigures(rows[ids[i]], rows'[ids[i]]) && SameFigures(rows[k], rows'[k]);
    }
  }
}
