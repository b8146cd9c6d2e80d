/** The Telegram event outbox: one row per event identity, bounded attempts, delivery as a possible failure. */
module TelegramOutbox {
  import opened Wrappers
  import opened Budget

  type Time = int

  datatype Key = Key(kind: string, entity: Option<string>, recipient: string, channel: string)
  datatype Status = Pending | Dispatched | Failed
  datatype Row = Row(key: Key, status: Status, attempts: nat, error: Option<string>, dispatchedAt: Option<Time>)
  {
    /** What the query for pending events accepts: a failed row is tried again while attempts are left. */
    predicate Due(max: int) { status != Dispatched && attempts < max }

    function Left(max: int): nat { if status != Dispatched && attempts < max then max - attempts else 0 }
  }

  /** The outcome of one delivery: a successful response, or an error text. */
  datatype Delivery = Ok(at: Time) | Error(text: string)

  function Delivered(r: Row, d: Delivery): Row {
    match d
    case Ok(at) => r.(status := Dispatched, attempts := r.attempts + 1, error := None, dispatchedAt := Some(at))
    case Error(text) => r.(status := Failed, attempts := r.attempts + 1, error := Some(text))
  }

  function Successes(ds: seq<Delivery>): (n: nat)
    ensures n <= |ds|
  {
    if ds == [] then 0 else Successes(ds[..|ds| - 1]) + if ds[|ds| - 1].Ok? then 1 else 0
  }

  predicate KeysDistinct(rows: seq<Row>) { forall i, j | 0 <= i < j < |rows| :: rows[i].key != rows[j].key }

  /** What every run keeps: identities are distinct and no row exceeds the maximum. */
  predicate Inv(rows: seq<Row>, max: int) {
    KeysDistinct(rows) && forall i | 0 <= i < |rows| :: rows[i].attempts <= (if max > 0 then max else 0)
  }

  /** The rows of a batch: distinct and due. */
  predicate Selects(rows: seq<Row>, max: int, limit: int, batch: seq<nat>) {
    && |batch| <= (if limit > 0 then limit else 0)
    && (forall i | 0 <= i < |batch| :: batch[i] < |rows| && rows[batch[i]].Due(max))
    && (forall i, j | 0 <= i < j < |batch| :: batch[i] != batch[j])
  }

  /** What a dispatched batch leaves: the rows of the batch delivered once each, the others untouched. */
  predicate Dispatches(rows: seq<Row>, rows': seq<Row>, batch: seq<nat>, deliveries: seq<Delivery>)
    requires |batch| == |deliveries| && forall i | 0 <= i < |batch| :: batch[i] < |rows|
  {
    && |rows'| == |rows|
    && (forall i | 0 <= i < |batch| :: rows'[batch[i]] == Delivered(rows[batch[i]], deliveries[i]))
    && (forall k | 0 <= k < |rows| && k !in batch :: rows'[k] == rows[k])
  }

  function Lefts(rows: seq<Row>, max: int): (r: seq<nat>)
    ensures |r| == |rows| && forall i | 0 <= i < |rows| :: r[i] == rows[i].Left(max)
  {
    seq(|rows|, i requires 0 <= i < |rows| => rows[i].Left(max))
  }

  /** A committed batch keeps the invariant, leaves dispatched rows alone, and spends one attempt per row at least. */
  lemma BatchFacts(rows: seq<Row>, rows': seq<Row>, max: int, limit: int, batch: seq<nat>, deliveries: seq<Delivery>)
    requires Inv(rows, max) && Selects(rows, max, limit, batch) && |batch| == |deliveries| &&
        Dispatches(rows, rows', batch, deliveries)
    ensures Inv(rows', max)
    ensures forall k | 0 <= k < |rows| && rows[k].status == Dispatched :: rows'[k] == rows[k]
    ensures Sum(Lefts(rows', max)) + |batch| <= Sum(Lefts(rows, max))
  {
    forall k | 0 <= k < |rows|
      ensures rows'[k].key == rows[k].key && rows'[k].attempts <= (if max > 0 then max else 0)
      ensures k in batch ==> rows[k].status != Dispatched && rows'[k].Left(max) + 1 <= rows[k].Left(max)
    {
      if k in batch {
        var i :| 0 <= i < |batch| && batch[i] == k;
      }
    }
    BatchLowers(Lefts(rows, max), Lefts(rows', max), batch);
  }

  /** After a batch a row of it is dispatched, and then never due, or it has failed, and then it is due exactly while
      attempts are left. */
  lemma DeliveryDecides(rows: seq<Row>, rows': seq<Row>, max: int, limit: int, batch: seq<nat>,
      deliveries: seq<Delivery>, i: nat)
    requires Selects(rows, max, limit, batch) && |batch| == |deliveries| && i < |batch|
    requires Dispatches(rows, rows', batch, deliveries)
    ensures var r, r' := rows[batch[i]], rows'[batch[i]];
      && r'.status == (if deliveries[i].Ok? then Dispatched else Failed) && r'.key == r.key
      && (r'.Due(max) <==> deliveries[i].Error? && r.attempts + 1 < max)
  {}

  // ---------- Runs ----------

  datatype Event = Create(key: Key) | Batch(limit: int, rows: seq<nat>, deliveries: seq<Delivery>)

  function AfterBatch(rows: seq<Row>, batch: seq<nat>, deliveries: seq<Delivery>): (r: seq<Row>)
    requires |batch| == |deliveries|
    ensures |r| == |rows|
  {
    seq(|rows|, k requires 0 <= k < |rows| => if k in batch then Delivered(rows[k], deliveries[IndexOf(batch, k)])
        else rows[k])
  }

  /** What a batch leaves is one definite table. */
  lemma DispatchesIsAfterBatch(rows: seq<Row>, rows': seq<Row>, max: int, limit: int, batch: seq<nat>,
      deliveries: seq<Delivery>)
    requires Selects(rows, max, limit, batch) && |batch| == |deliveries|
    ensures Dispatches(rows, rows', batch, deliveries) <==> rows' == AfterBatch(rows, batch, deliveries)
  {
    var r := AfterBatch(rows, batch, deliveries);
    forall i | 0 <= i < |batch| ensures r[batch[i]] == Delivered(rows[batch[i]], deliveries[i]) {}
    if Dispatches(rows, rows', batch, deliveries) {
      forall k | 0 <= k < |rows| ensures rows'[k] == r[k] {
        if k in batch { assert rows'[batch[IndexOf(batch, k)]] == Delivered(rows[k], deliveries[IndexOf(batch, k)]); }
      }
    }
  }

  predicate Known(rows: seq<Row>, key: Key) { exists i | 0 <= i < |rows| :: rows[i].key == key }

  function Next(rows: seq<Row>, e: Event): seq<Row>
    requires e.Batch? ==> |e.rows| == |e.deliveries|
  {
    match e
    case Create(key) => if Known(rows, key) then rows else rows + [Row(key, Pending, 0, None, None)]
    case Batch(_, batch, deliveries) => AfterBatch(rows, batch, deliveries)
  }

  predicate Possible(rows: seq<Row>, e: Event, max: int) {
    e.Batch? ==> |e.rows| == |e.deliveries| && Selects(rows, max, e.limit, e.rows)
  }

  predicate AllPossible(rows: seq<Row>, events: seq<Event>, max: int)
    decreases |events|
  {
    events == [] || (Possible(rows, events[0], max) && AllPossible(Next(rows, events[0]), events[1..], max))
  }

  function After(rows: seq<Row>, events: seq<Event>, max: int): seq<Row>
    requires AllPossible(rows, events, max)
    decreases |events|
  {
    if events == [] then rows else After(Next(rows, events[0]), events[1..], max)
  }

  function GrantOf(e: Event, max: int): nat { if e.Create? && max > 0 then max else 0 }

  function DeliveriesOf(e: Event): nat { if e.Batch? then |e.rows| else 0 }

  /** Attempts that the events of a run are created with, and deliveries that are made in it. */
  function Granted(events: seq<Event>, max: int): nat {
    if events == [] then 0 else GrantOf(events[0], max) + Granted(events[1..], max)
  }

  function Deliveries(events: seq<Event>): nat {
    if events == [] then 0 else DeliveriesOf(events[0]) + Deliveries(events[1..])
  }

  /** Rows stay, under their identities, and dispatched ones never change. */
  predicate Persists(rows: seq<Row>, rows': seq<Row>) {
    && |rows| <= |rows'|
    && forall k | 0 <= k < |rows| ::
        rows'[k].key == rows[k].key && (rows[k].status == Dispatched ==> rows'[k] == rows[k])
  }

  lemma CreateFacts(rows: seq<Row>, key: Key, max: int)
    requires Inv(rows, max) && !Known(rows, key)
    ensures var rows' := rows + [Row(key, Pending, 0, None, None)];
      && Inv(rows', max) && Persists(rows, rows') &&
          Sum(Lefts(rows', max)) == Sum(Lefts(rows, max)) + if max > 0 then max else 0
  {
    var row := Row(key, Pending, 0, None, None);
    SumAppend(Lefts(rows, max), row.Left(max));
    assert Lefts(rows + [row], max) == Lefts(rows, max) + [row.Left(max)];
  }

  lemma DeliveryFacts(rows: seq<Row>, max: int, limit: int, batch: seq<nat>, deliveries: seq<Delivery>)
    requires Inv(rows, max) && Selects(rows, max, limit, batch) && |batch| == |deliveries|
    ensures var rows' := AfterBatch(rows, batch, deliveries);
      && Inv(rows', max) && Persists(rows, rows') && Sum(Lefts(rows', max)) + |batch| <= Sum(Lefts(rows, max))
  {
    var rows' := AfterBatch(rows, batch, deliveries);
    DispatchesIsAfterBatch(rows, rows', max, limit, batch, deliveries);
    BatchFacts(rows, rows', max, limit, batch, deliveries);
  }

  lemma NextFacts(rows: seq<Row>, e: Event, max: int)
    requires Inv(rows, max) && Possible(rows, e, max)
    ensures Inv(Next(rows, e), max) && Persists(rows, Next(rows, e))
    ensures Sum(Lefts(Next(rows, e), max)) + DeliveriesOf(e) <= Sum(Lefts(rows, max)) + GrantOf(e, max)
  {
    match e
    case Create(key) => if !Known(rows, key) { CreateFacts(rows, key, max); }
    case Batch(limit, batch, deliveries) => DeliveryFacts(rows, max, limit, batch, deliveries);
  }

  /** In every run identities stay distinct, no row exceeds the maximum, dispatched rows never change, and the
      deliveries made and the attempts left never exceed the attempts granted. */
  lemma {:induction false} RunFacts(rows: seq<Row>, events: seq<Event>, max: int)
    requires Inv(rows, max) && AllPossible(rows, events, max)
    ensures Inv(After(rows, events, max), max) && Persists(rows, After(rows, events, max))
    ensures Deliveries(events) + Sum(Lefts(After(rows, events, max), max)) <= Granted(events, max)
        + Sum(Lefts(rows, max))
    decreases |events|
  {
    if events != [] {
      NextFacts(rows, events[0], max);
      RunFacts(Next(rows, events[0]), events[1..], max);
    }
  }

  // ---------- The deliveries of a row ----------

  /** The deliveries that a batch makes of row `k`, at most one. */
  function DeliveryOf(e: Event, k: nat): seq<Delivery> {
    if e.Batch? && |e.rows| == |e.deliveries| && k in e.rows then [e.deliveries[IndexOf(e.rows, k)]] else []
  }

  /** The deliveries of row `k` in a run, in order. */
  function DeliveriesTo(events: seq<Event>, k: nat): seq<Delivery> {
    if events == [] then [] else DeliveryOf(events[0], k) + DeliveriesTo(events[1..], k)
  }

  /** A row tells its deliveries: their number, and the outcome of the last one; all before that failed. */
  predicate Tells(r: Row, ds: seq<Delivery>) {
    && r.attempts == |ds| && (forall i | 0 <= i < |ds| - 1 :: ds[i].Error?)
    && if ds == [] then r.status == Pending && r.error == None && r.dispatchedAt == None
       else match ds[|ds| - 1]
         case Ok(at) => r.status == Dispatched && r.error == None && r.dispatchedAt == Some(at)
         case Error(text) => r.status == Failed && r.error == Some(text) && r.dispatchedAt == None
  }

  lemma DeliveryTells(r: Row, ds: seq<Delivery>, d: Delivery)
    requires Tells(r, ds) && r.status != Dispatched
    ensures Tells(Delivered(r, d), ds + [d])
  {
    forall i | 0 <= i < |ds| ensures (ds + [d])[i].Error? { if i == |ds| - 1 { assert ds[i].Error?; } }
  }

  lemma NextTells(rows: seq<Row>, e: Event, max: int, k: nat, ds: seq<Delivery>)
    requires Possible(rows, e, max) && k < |rows| && Tells(rows[k], ds)
    ensures k < |Next(rows, e)| && Tells(Next(rows, e)[k], ds + DeliveryOf(e, k))
  {
    if e.Batch? && k in e.rows {
      assert rows[e.rows[IndexOf(e.rows, k)]].Due(max);
      DeliveryTells(rows[k], ds, e.deliveries[IndexOf(e.rows, k)]);
    } else {
      assert ds + DeliveryOf(e, k) == ds;
    }
  }

  lemma DeliveriesOnward(ds: seq<Delivery>, events: seq<Event>, k: nat)
    ensures ds + DeliveriesTo(events, k) ==
      if events == [] then ds else ds + DeliveryOf(events[0], k) + DeliveriesTo(events[1..], k)
  {}

  /** In every run a row tells the deliveries made before and in the run. A dispatched row so has exactly one successful
      delivery, its last, and a row that is not has none. */
  lemma {:induction false} RowTellsDeliveries(rows: seq<Row>, events: seq<Event>, max: int, k: nat, ds: seq<Delivery>)
    requires AllPossible(rows, events, max) && k < |rows| && Tells(rows[k], ds)
    ensures k < |After(rows, events, max)| && Tells(After(rows, events, max)[k], ds + DeliveriesTo(events, k))
    decreases |events|
  {
    DeliveriesOnward(ds, events, k);
    if events != [] {
      NextTells(rows, events[0], max, k, ds);
      RowTellsDeliveries(Next(rows, events[0]), events[1..], max, k, ds + DeliveryOf(events[0], k));
    }
  }

  /** A new event has one row, which is due if attempts are granted at all, and tells no delivery; an identity that is
      known gets none. */
  lemma CreatedRow(rows: seq<Row>, key: Key, max: int)
    ensures var rows' := Next(rows, Create(key));
      && Known(rows', key) && (Known(rows, key) ==> rows' == rows)
      && (!Known(rows, key) ==>
            && |rows'| == |rows| + 1 && rows'[..|rows|] == rows && rows'[|rows|].key == key
            && Tells(rows'[|rows|], []) && (rows'[|rows|].Due(max) <==> max > 0))
  {
    var rows' := Next(rows, Create(key));
    if !Known(rows, key) { assert rows'[|rows|].key == key; }
  }

  class TelegramEventService {
    const enabled: bool
    const max: int
    var rows: seq<Row>

    constructor (enabled: bool, max: int)
      ensures rows == [] && this.enabled == enabled && this.max == max
    {
      this.enabled, this.max := enabled, max;
      rows := [];
    }

    /** The row of an identity: the one there already, or a new pending one. */
    method CreateEvent(key: Key) returns (k: nat)
      requires Inv(rows, max)
      modifies this
      ensures Inv(rows, max) && k < |rows| && rows[k].key == key
      ensures rows == Next(old(rows), Create(key))
    {
      for i := 0 to |rows|
        invariant forall j | 0 <= j < i :: rows[j].key != key
      {
        if rows[i].key == key { return i; }
      }
      rows := rows + [Row(key, Pending, 0, None, None)];
      return |rows| - 1;
    }

    method MarkDispatched(k: nat, at: Time)
      requires k < |rows|
      modifies this
      ensures rows == old(rows)[k := Delivered(old(rows)[k], Ok(at))]
    {
      rows := rows[k := rows[k].(status := Dispatched, attempts := rows[k].attempts + 1, error := None,
          dispatchedAt := Some(at))];
    }

    method MarkFailed(k: nat, text: string)
      requires k < |rows|
      modifies this
      ensures rows == old(rows)[k := Delivered(old(rows)[k], Error(text))]
    {
      rows := rows[k := rows[k].(status := Failed, attempts := rows[k].attempts + 1, error := Some(text))];
    }

    /** Delivers each event of the batch once and answers how many went through; nothing when pushing is disabled. */
    method DispatchEvents(limit: int, batch: seq<nat>, deliveries: seq<Delivery>) returns (dispatched: nat)
      requires Selects(rows, max, limit, batch) && |batch| == |deliveries|
      modifies this
      ensures !enabled ==> rows == old(rows) && dispatched == 0
      ensures enabled ==> Dispatches(old(rows), rows, batch, deliveries)
      ensures enabled ==> dispatched == Successes(deliveries)
    {
      dispatched := 0;
      if !enabled || batch == [] { return; }
      for n := 0 to |batch|
        invariant |rows| == |old(rows)| && dispatched == Successes(deliveries[..n])
        invariant forall i | 0 <= i < |batch| ::
            rows[batch[i]] == if i < n then Delivered(old(rows)[batch[i]], deliveries[i]) else old(rows)[batch[i]]
        invariant forall k | 0 <= k < |rows| && k !in batch :: rows[k] == old(rows)[k]
      {
        assert deliveries[..n + 1][..n] == deliveries[..n];
        assert forall i | 0 <= i < |batch| && i != n :: batch[i] != batch[n];
        match deliveries[n] {
          case Ok(at) =>
            MarkDispatched(batch[n], at);
            dispatched := dispatched + 1;
          case Error(text) => MarkFailed(batch[n], text);
        }
      }
      assert deliveries[..|batch|] == deliveries;
    }
  }
}
