/**
 The canonical ledger: a table that only grows, whose rows never change except for `processedAt`, and which is read
 by pages in order of publication.
 */
module Ledger {
  import opened Common
  import opened EventBus

  datatype Row = Row(id: Id, tenantId: string, eventType: string, aggregateType: string, aggregateId: string,
                     payload: string, metadata: string, version: nat, publishedAt: int, processedAt: Option<int>)

  datatype Error = TenantIdRequired

  datatype Query =
    | ByAggregate(tenantId: string, aggregateType: string, aggregateId: string)
    | ByTenant(tenantId: string, eventType: Option<string>, since: Option<int>)

  function NewRow(e: Envelope, id: Id, now: int): Row {
    Row(id, e.tenantId, e.eventType, e.aggregateType, e.aggregateId, e.payload,
        if e.metadata.Some? then e.metadata.value else "{}",
        if e.version.Some? then e.version.value else 1, now, None)
  }

  // ---- findMany: where, orderBy, skip and take ----

  /** The where clause of a query; an empty event type is no filter. */
  predicate Selects(q: Query, r: Row) {
    r.tenantId == q.tenantId
    && match q
       case ByAggregate(_, aggregateType, aggregateId) =>
         r.aggregateType == aggregateType && r.aggregateId == aggregateId
       case ByTenant(_, eventType, since) =>
         && (eventType.Some? && eventType.value != "" ==> r.eventType == eventType.value)
         && (since.Some? ==> r.publishedAt >= since.value)
  }

  function Where(table: seq<Row>, q: Query): seq<Row> {
    if table == [] then [] else (if Selects(q, table[0]) then [table[0]] else []) + Where(table[1..], q)
  }

  function Insert(r: Row, sorted: seq<Row>): seq<Row> {
    if sorted == [] || r.publishedAt <= sorted[0].publishedAt then [r] + sorted
    else [sorted[0]] + Insert(r, sorted[1..])
  }

  /** Ascending by time of publication, rows of the same instant in the order of the table. */
  function OrderByTime(rows: seq<Row>): seq<Row> {
    if rows == [] then [] else Insert(rows[0], OrderByTime(rows[1..]))
  }

  function Page(rows: seq<Row>, take: nat, skip: nat): seq<Row> {
    var start := if skip <= |rows| then skip else |rows|;
    var end := if start + take <= |rows| then start + take else |rows|;
    rows[start..end]
  }

  function Find(table: seq<Row>, q: Query, limit: Option<nat>, offset: Option<nat>): seq<Row> {
    Page(OrderByTime(Where(table, q)),
         if limit.Some? then limit.value else 100, if offset.Some? then offset.value else 0)
  }

  function Mark(table: seq<Row>, id: Id, tenantId: string, now: int): seq<Row> {
    if table == [] then []
    else
      [if table[0].id == id && table[0].tenantId == tenantId then table[0].(processedAt := Some(now)) else table[0]]
      + Mark(table[1..], id, tenantId, now)
  }

  // ---- What a page is ----

  /** In a chronological answer the row at index `i` comes before the one at `j`; ties are in order of insertion. */
  predicate Precedes(table: seq<Row>, i: nat, j: nat)
    requires i < |table| && j < |table|
  {
    table[i].publishedAt < table[j].publishedAt || (table[i].publishedAt == table[j].publishedAt && i < j)
  }

  /** The indices of exactly the selected rows, in the order in which they come. */
  ghost predicate Listing(table: seq<Row>, q: Query, order: seq<nat>) {
    && (forall k :: 0 <= k < |order| ==> order[k] < |table| && Selects(q, table[order[k]]))
    && (forall i: nat :: i < |table| && Selects(q, table[i]) ==> i in order)
    && (forall j, k :: 0 <= j < k < |order| ==> order[j] < |table| && order[k] < |table|
                                                && Precedes(table, order[j], order[k]))
  }

  function RowsAt(table: seq<Row>, order: seq<nat>): (rows: seq<Row>)
    requires forall k :: 0 <= k < |order| ==> order[k] < |table|
    ensures |rows| == |order|
  {
    seq(|order|, k requires 0 <= k < |order| => table[order[k]])
  }

  /** The rows of a listing from `skip` on, `take` of them at most. */
  ghost predicate SliceOf(table: seq<Row>, order: seq<nat>, take: nat, skip: nat, found: seq<Row>)
    requires forall k :: 0 <= k < |order| ==> order[k] < |table|
  {
    && |found| == (if skip + take <= |order| then take else if skip <= |order| then |order| - skip else 0)
    && forall k :: 0 <= k < |found| ==> found[k] == RowsAt(table, order)[skip + k]
  }

  /** The selected rows from `offset` on, `limit` of them at most. */
  ghost predicate IsPage(table: seq<Row>, q: Query, limit: Option<nat>, offset: Option<nat>, found: seq<Row>) {
    exists order :: Listing(table, q, order)
                    && SliceOf(table, order, if limit.Some? then limit.value else 100,
                               if offset.Some? then offset.value else 0, found)
  }

  lemma ListedInBoth(table: seq<Row>, q: Query, a: seq<nat>, b: seq<nat>, k: nat) returns (j: nat)
    requires Listing(table, q, a) && Listing(table, q, b) && k < |b|
    ensures j < |a| && a[j] == b[k]
  {
    assert b[k] in a;
    j :| 0 <= j < |a| && a[j] == b[k];
  }

  lemma ListingIndexes(table: seq<Row>, q: Query, order: seq<nat>)
    requires Listing(table, q, order)
    ensures forall k :: 0 <= k < |order| ==> order[k] < |table|
  {
  }

  lemma ListingPrecedes(table: seq<Row>, q: Query, order: seq<nat>, j: nat, k: nat)
    requires Listing(table, q, order) && j < k < |order|
    ensures order[j] < |table| && order[k] < |table| && Precedes(table, order[j], order[k])
  {
  }

  lemma NextIsNotLater(table: seq<Row>, q: Query, a: seq<nat>, b: seq<nat>, n: nat)
    requires Listing(table, q, a) && Listing(table, q, b) && n < |a| && n < |b|
    requires forall k :: 0 <= k < n ==> a[k] == b[k]
    ensures a[n] < |table| && b[n] < |table| && (b[n] == a[n] || Precedes(table, b[n], a[n]))
  {
    ListingIndexes(table, q, a);
    ListingIndexes(table, q, b);
    var i := ListedInBoth(table, q, b, a, n);
    if i < n {
      ListingPrecedes(table, q, a, i, n);
    } else if n < i {
      ListingPrecedes(table, q, b, n, i);
    }
  }

  /** There is one listing of a table, so a page is determined. */
  lemma {:induction false} ListingIsUnique(table: seq<Row>, q: Query, a: seq<nat>, b: seq<nat>, n: nat)
    requires Listing(table, q, a) && Listing(table, q, b) && n <= |a| && n <= |b|
    ensures a[..n] == b[..n]
    decreases n
  {
    if n == 0 {
    } else {
      ListingIsUnique(table, q, a, b, n - 1);
      forall k | 0 <= k < n - 1 ensures a[k] == b[k] { assert a[..n - 1][k] == b[..n - 1][k]; }
      var x, y := a[n - 1], b[n - 1];
      NextIsNotLater(table, q, a, b, n - 1);
      NextIsNotLater(table, q, b, a, n - 1);
      assert a[..n] == a[..n - 1] + [x] && b[..n] == b[..n - 1] + [y];
    }
  }

  lemma ListingsAreEqual(table: seq<Row>, q: Query, a: seq<nat>, b: seq<nat>)
    requires Listing(table, q, a) && Listing(table, q, b) && |a| <= |b|
    ensures a == b
  {
    ListingIsUnique(table, q, a, b, |a|);
    forall k | 0 <= k < |a| ensures a[k] == b[k] { assert a[..|a|][k] == b[..|a|][k]; }
    if |a| < |b| { var j := ListedInBoth(table, q, a, b, |a|); }
  }

  lemma PageIsDetermined(table: seq<Row>, q: Query, limit: Option<nat>, offset: Option<nat>,
                         found: seq<Row>, found': seq<Row>)
    requires IsPage(table, q, limit, offset, found) && IsPage(table, q, limit, offset, found')
    ensures found == found'
  {
    var take, skip := if limit.Some? then limit.value else 100, if offset.Some? then offset.value else 0;
    var a :| Listing(table, q, a) && SliceOf(table, a, take, skip, found);
    var b :| Listing(table, q, b) && SliceOf(table, b, take, skip, found');
    hide Listing;
    if |a| <= |b| { ListingsAreEqual(table, q, a, b); } else { ListingsAreEqual(table, q, b, a); }
  }

  lemma {:induction false} InsertAt(r: Row, sorted: seq<Row>) returns (p: nat)
    ensures p <= |sorted| && Insert(r, sorted) == sorted[..p] + [r] + sorted[p..]
    ensures forall k :: 0 <= k < p ==> sorted[k].publishedAt < r.publishedAt
    ensures p < |sorted| ==> r.publishedAt <= sorted[p].publishedAt
    decreases |sorted|
  {
    if sorted == [] || r.publishedAt <= sorted[0].publishedAt {
      p := 0;
    } else {
      p := InsertAt(r, sorted[1..]);
      p := p + 1;
      assert [sorted[0]] + (sorted[1..][..p - 1] + [r] + sorted[1..][p - 1..]) == sorted[..p] + [r] + sorted[p..];
    }
  }

  function Shifted(order: seq<nat>): (r: seq<nat>)
    ensures |r| == |order| && forall k :: 0 <= k < |r| ==> r[k] == order[k] + 1
  {
    seq(|order|, k requires 0 <= k < |order| => order[k] + 1)
  }

  lemma ShiftedHas(table: seq<Row>, q: Query, order: seq<nat>, i: nat)
    requires table != [] && Listing(table[1..], q, order) && 0 < i < |table| && Selects(q, table[i])
    ensures i in Shifted(order)
  {
    assert table[1..][i - 1] == table[i];
    var k :| 0 <= k < |order| && order[k] == i - 1;
    assert Shifted(order)[k] == i;
  }

  lemma ShiftedPrecedes(table: seq<Row>, q: Query, order: seq<nat>, j: nat, k: nat)
    requires table != [] && Listing(table[1..], q, order) && j < k < |order|
    ensures Shifted(order)[j] < |table| && Shifted(order)[k] < |table|
    ensures Precedes(table, Shifted(order)[j], Shifted(order)[k])
  {
    assert Precedes(table[1..], order[j], order[k]);
  }

  lemma ShiftedLists(table: seq<Row>, q: Query, order: seq<nat>)
    requires table != [] && Listing(table[1..], q, order) && !Selects(q, table[0])
    ensures Listing(table, q, Shifted(order))
    ensures RowsAt(table, Shifted(order)) == RowsAt(table[1..], order)
  {
    hide Selects, Precedes;
    var shifted := Shifted(order);
    forall i: nat | i < |table| && Selects(q, table[i]) ensures i in shifted { ShiftedHas(table, q, order, i); }
    forall j, k | 0 <= j < k < |shifted|
      ensures shifted[j] < |table| && shifted[k] < |table| && Precedes(table, shifted[j], shifted[k])
    {
      ShiftedPrecedes(table, q, order, j, k);
    }
  }

  /** The new first row, inserted into the shifted listing of the others. */
  function Inserted(order: seq<nat>, p: nat): (r: seq<nat>)
    requires p <= |order|
    ensures |r| == |order| + 1
  {
    seq(|order| + 1, k requires 0 <= k <= |order| =>
      if k < p then order[k] + 1 else if k == p then 0 else order[k - 1] + 1)
  }

  lemma InsertedHas(table: seq<Row>, q: Query, order: seq<nat>, p: nat, i: nat)
    requires table != [] && Listing(table[1..], q, order) && p <= |order| && i < |table| && Selects(q, table[i])
    ensures i in Inserted(order, p)
  {
    if i == 0 {
      assert Inserted(order, p)[p] == 0;
    } else {
      assert table[1..][i - 1] == table[i];
      var k :| 0 <= k < |order| && order[k] == i - 1;
      assert Inserted(order, p)[if k < p then k else k + 1] == i;
    }
  }

  /** `p` is where the first row belongs among the others. */
  ghost predicate Belongs(table: seq<Row>, order: seq<nat>, p: nat)
    requires table != [] && forall k :: 0 <= k < |order| ==> order[k] < |table[1..]|
  {
    && p <= |order|
    && (forall k :: 0 <= k < p ==> table[1..][order[k]].publishedAt < table[0].publishedAt)
    && (forall k :: p <= k < |order| ==> table[0].publishedAt <= table[1..][order[k]].publishedAt)
  }

  lemma InsertedPrecedes(table: seq<Row>, q: Query, order: seq<nat>, p: nat, j: nat, k: nat)
    requires table != [] && Listing(table[1..], q, order) && Belongs(table, order, p) && j < k <= |order|
    ensures Inserted(order, p)[j] < |table| && Inserted(order, p)[k] < |table|
    ensures Precedes(table, Inserted(order, p)[j], Inserted(order, p)[k])
  {
    var j', k' := if j < p then j else j - 1, if k < p then k else k - 1;
    if j != p && k != p {
      assert Precedes(table[1..], order[j'], order[k']);
    }
  }

  lemma InsertedLists(table: seq<Row>, q: Query, order: seq<nat>, p: nat)
    requires table != [] && Listing(table[1..], q, order) && Selects(q, table[0]) && Belongs(table, order, p)
    ensures Listing(table, q, Inserted(order, p))
  {
    var all := Inserted(order, p);
    hide Listing, Belongs, Selects, Precedes;
    ListingIndexes(table[1..], q, order);
    forall k | 0 <= k < |all|
      ensures all[k] < |table| && Selects(q, table[all[k]])
    {
      InsertedSelects(table, q, order, p, k);
    }
    forall i: nat | i < |table| && Selects(q, table[i]) ensures i in all { InsertedHas(table, q, order, p, i); }
    forall j, k | 0 <= j < k < |all|
      ensures all[j] < |table| && all[k] < |table| && Precedes(table, all[j], all[k])
    {
      InsertedPrecedes(table, q, order, p, j, k);
    }
    ListingFromParts(table, q, all);
  }

  lemma InsertedSelects(table: seq<Row>, q: Query, order: seq<nat>, p: nat, k: nat)
    requires table != [] && Listing(table[1..], q, order) && Selects(q, table[0]) && p <= |order| && k <= |order|
    ensures Inserted(order, p)[k] < |table| && Selects(q, table[Inserted(order, p)[k]])
  {
    hide Selects, Precedes;
    if k != p {
      var x := order[if k < p then k else k - 1];
      assert Selects(q, table[1..][x]) && table[1..][x] == table[x + 1];
    }
  }

  lemma ListingFromParts(table: seq<Row>, q: Query, order: seq<nat>)
    requires forall k :: 0 <= k < |order| ==> order[k] < |table| && Selects(q, table[order[k]])
    requires forall i: nat :: i < |table| && Selects(q, table[i]) ==> i in order
    requires forall j, k :: 0 <= j < k < |order| ==> Precedes(table, order[j], order[k])
    ensures Listing(table, q, order)
  {
    hide Selects, Precedes;
  }

  /** The place of the first row in the order of time is its place in the listing. */
  lemma InsertedRows(table: seq<Row>, order: seq<nat>, sorted: seq<Row>) returns (p: nat)
    requires table != [] && (forall k :: 0 <= k < |order| ==> order[k] < |table[1..]|)
    requires RowsAt(table[1..], order) == sorted && Chronological(sorted)
    ensures Belongs(table, order, p) && (forall k :: 0 <= k <= |order| ==> Inserted(order, p)[k] < |table|)
    ensures RowsAt(table, Inserted(order, p)) == Insert(table[0], sorted)
  {
    hide Insert, Chronological;
    p := InsertAt(table[0], sorted);
    forall k | 0 <= k < |order|
      ensures table[1..][order[k]] == sorted[k]
    {
      assert RowsAt(table[1..], order)[k] == sorted[k];
    }
    AfterIsLater(sorted, p);
    var all := RowsAt(table, Inserted(order, p));
    forall k | 0 <= k <= |order|
      ensures all[k] == if k < p then sorted[k] else if k == p then table[0] else sorted[k - 1]
    {
    }
    assert all == sorted[..p] + [table[0]] + sorted[p..];
  }

  lemma AfterIsLater(rows: seq<Row>, p: nat)
    requires Chronological(rows) && p <= |rows|
    ensures forall k :: p <= k < |rows| ==> rows[p].publishedAt <= rows[k].publishedAt
  {
  }

  /** The answer without its limits is the table in the order of a listing. */
  lemma {:induction false} OrderIsAListing(table: seq<Row>, q: Query) returns (order: seq<nat>)
    ensures Listing(table, q, order) && RowsAt(table, order) == OrderByTime(Where(table, q))
    decreases |table|
  {
    if table == [] {
      order := [];
    } else {
      hide Listing, Insert, Precedes, Chronological;
      var rest := OrderIsAListing(table[1..], q);
      var others := Where(table[1..], q);
      OrderIsChronological(others);
      ListingIndexes(table[1..], q, rest);
      if Selects(q, table[0]) {
        assert Where(table, q) == [table[0]] + others && Where(table, q)[1..] == others;
        var p := InsertedRows(table, rest, OrderByTime(others));
        InsertedLists(table, q, rest, p);
        order := Inserted(rest, p);
      } else {
        assert Where(table, q) == others;
        ShiftedLists(table, q, rest);
        order := Shifted(rest);
      }
    }
  }

  /** What findMany is taken to do is to return that page. */
  lemma FindIsThePage(table: seq<Row>, q: Query, limit: Option<nat>, offset: Option<nat>)
    ensures IsPage(table, q, limit, offset, Find(table, q, limit, offset))
  {
    var order := OrderIsAListing(table, q);
    ListingIndexes(table, q, order);
    hide Listing;
    var take, skip := if limit.Some? then limit.value else 100, if offset.Some? then offset.value else 0;
    PageIsSliceOf(table, order, take, skip);
  }

  lemma PageIsSliceOf(table: seq<Row>, order: seq<nat>, take: nat, skip: nat)
    requires forall k :: 0 <= k < |order| ==> order[k] < |table|
    ensures SliceOf(table, order, take, skip, Page(RowsAt(table, order), take, skip))
  {
  }

  // ---- The service ----

  class LedgerService {
    var table: seq<Row>

    constructor ()
      ensures table == []
    {
      table := [];
    }

    /** `id` and `now` are the database's defaults. */
    method Persist(e: Envelope, id: Id, now: int) returns (r: Result<(Id, int), Error>)
      modifies this
      ensures Blank(e.tenantId) ==> r == Err(TenantIdRequired) && table == old(table)
      ensures !Blank(e.tenantId) ==> r == Ok((id, now)) && table == old(table) + [NewRow(e, id, now)]
      ensures !Blank(e.tenantId) ==>
                var row := table[|table| - 1];
                && row.id == id && row.tenantId == e.tenantId && row.eventType == e.eventType
                && row.aggregateType == e.aggregateType && row.aggregateId == e.aggregateId
                && row.payload == e.payload && row.metadata == (if e.metadata == None then "{}" else e.metadata.value)
                && row.version == (if e.version == None then 1 else e.version.value)
                && row.publishedAt == now && row.processedAt == None
      ensures forall seen, q :: Do(Reading(old(table), seen), q, PersistOp(e, id, now)) == Reading(table, seen)
    {
      if Blank(e.tenantId) {
        return Err(TenantIdRequired);
      }
      table := table + [NewRow(e, id, now)];
      r := Ok((id, now));
    }

    method GetByAggregate(tenantId: string, aggregateType: string, aggregateId: string,
                          limit: Option<nat>, offset: Option<nat>)
      returns (r: Result<seq<Row>, Error>)
      ensures r.Err? <==> Blank(tenantId)
      ensures r.Ok? ==> IsPage(table, ByAggregate(tenantId, aggregateType, aggregateId), limit, offset, r.value)
      ensures r.Ok? ==>
                forall row :: row in r.value ==>
                  row in table && row.tenantId == tenantId && row.aggregateType == aggregateType
                  && row.aggregateId == aggregateId
      ensures r.Ok? && offset in {None, Some(0)} && limit.Some? && limit.value >= |table| ==>
                forall row :: (row in table && row.tenantId == tenantId && row.aggregateType == aggregateType
                               && row.aggregateId == aggregateId) ==> row in r.value
      ensures r.Ok? && offset.Some? ==>
                forall seen :: |seen| == offset.value ==>
                  Do(Reading(table, seen), ByAggregate(tenantId, aggregateType, aggregateId), ReadOp(limit))
                  == Reading(table, seen + r.value)
    {
      hide Listing, IsPage;
      if Blank(tenantId) {
        return Err(TenantIdRequired);
      }
      FindIsThePage(table, ByAggregate(tenantId, aggregateType, aggregateId), limit, offset);
      FindFinds(table, ByAggregate(tenantId, aggregateType, aggregateId), limit, offset);
      r := Ok(Find(table, ByAggregate(tenantId, aggregateType, aggregateId), limit, offset));
    }

    method GetByTenant(tenantId: string, eventType: Option<string>, since: Option<int>,
                       limit: Option<nat>, offset: Option<nat>)
      returns (r: Result<seq<Row>, Error>)
      ensures r.Err? <==> Blank(tenantId)
      ensures r.Ok? ==> IsPage(table, ByTenant(tenantId, eventType, since), limit, offset, r.value)
      ensures r.Ok? ==>
                forall row :: row in r.value ==>
                  && row in table && row.tenantId == tenantId
                  && (eventType == None || eventType == Some("") || eventType == Some(row.eventType))
                  && (since == None || since.value <= row.publishedAt)
      ensures r.Ok? && offset in {None, Some(0)} && limit.Some? && limit.value >= |table| ==>
                forall row :: (row in table && row.tenantId == tenantId
                               && (eventType == None || eventType == Some("") || eventType == Some(row.eventType))
                               && (since == None || since.value <= row.publishedAt)) ==> row in r.value
      ensures r.Ok? && offset.Some? ==>
                forall seen :: |seen| == offset.value ==>
                  Do(Reading(table, seen), ByTenant(tenantId, eventType, since), ReadOp(limit))
                  == Reading(table, seen + r.value)
    {
      hide Listing, IsPage;
      if Blank(tenantId) {
        return Err(TenantIdRequired);
      }
      FindIsThePage(table, ByTenant(tenantId, eventType, since), limit, offset);
      FindFinds(table, ByTenant(tenantId, eventType, since), limit, offset);
      r := Ok(Find(table, ByTenant(tenantId, eventType, since), limit, offset));
    }

    /** The only mutation. */
    method MarkProcessed(id: Id, tenantId: string, now: int) returns (r: Result<(), Error>)
      modifies this
      ensures Blank(tenantId) ==> r == Err(TenantIdRequired) && table == old(table)
      ensures !Blank(tenantId) ==> r == Ok(()) && table == Mark(old(table), id, tenantId, now)
      ensures !Blank(tenantId) ==>
                && |table| == |old(table)|
                && forall k :: 0 <= k < |table| ==>
                     table[k] == if old(table)[k].id == id && old(table)[k].tenantId == tenantId
                                 then old(table)[k].(processedAt := Some(now)) else old(table)[k]
      ensures forall seen, q :: Do(Reading(old(table), seen), q, MarkOp(id, tenantId, now)) == Reading(table, seen)
    {
      MarkSetsOne(table, id, tenantId, now);
      if Blank(tenantId) {
        return Err(TenantIdRequired);
      }
      table := Mark(table, id, tenantId, now);
      r := Ok(());
    }
  }

  // ---- Order ----

  predicate Chronological(rows: seq<Row>) {
    forall i, j :: 0 <= i < j < |rows| ==> rows[i].publishedAt <= rows[j].publishedAt
  }

  lemma {:induction false} InsertKeepsRows(r: Row, sorted: seq<Row>)
    ensures multiset(Insert(r, sorted)) == multiset{r} + multiset(sorted)
    decreases |sorted|
  {
    if sorted != [] && r.publishedAt > sorted[0].publishedAt {
      InsertKeepsRows(r, sorted[1..]);
      assert sorted == [sorted[0]] + sorted[1..];
    }
  }

  lemma {:induction false} InsertIsChronological(r: Row, sorted: seq<Row>, least: int)
    requires Chronological(sorted) && least <= r.publishedAt && forall x :: x in sorted ==> least <= x.publishedAt
    ensures Chronological(Insert(r, sorted)) && forall x :: x in Insert(r, sorted) ==> least <= x.publishedAt
    decreases |sorted|
  {
    if sorted != [] && r.publishedAt > sorted[0].publishedAt {
      InsertIsChronological(r, sorted[1..], sorted[0].publishedAt);
      var rest := Insert(r, sorted[1..]);
      assert forall i :: 0 <= i < |rest| ==> rest[i] in rest;
    }
  }

  lemma SameMembers(a: seq<Row>, b: seq<Row>)
    requires multiset(a) == multiset(b)
    ensures forall r :: r in a <==> r in b
  {
    assert forall r :: r in a <==> r in multiset(a);
    assert forall r :: r in b <==> r in multiset(b);
  }

  /** The page order is chronological and loses no row, whatever the order of the table. */
  lemma {:induction false} OrderIsChronological(rows: seq<Row>)
    ensures Chronological(OrderByTime(rows)) && multiset(OrderByTime(rows)) == multiset(rows)
    decreases |rows|
  {
    if rows == [] {
    } else {
      OrderIsChronological(rows[1..]);
      var sorted := OrderByTime(rows[1..]);
      InsertKeepsRows(rows[0], sorted);
      var least := if sorted == [] || rows[0].publishedAt <= sorted[0].publishedAt
                   then rows[0].publishedAt else sorted[0].publishedAt;
      SameMembers(sorted, rows[1..]);
      InsertIsChronological(rows[0], sorted, least);
      assert rows == [rows[0]] + rows[1..];
    }
  }

  lemma {:induction false} OrderOfChronological(rows: seq<Row>)
    requires Chronological(rows)
    ensures OrderByTime(rows) == rows
    decreases |rows|
  {
    if rows == [] {
    } else {
      OrderOfChronological(rows[1..]);
    }
  }

  lemma {:induction false} WhereSelects(table: seq<Row>, q: Query)
    ensures forall r :: r in Where(table, q) <==> r in table && Selects(q, r)
    decreases |table|
  {
    if table == [] {
    } else {
      WhereSelects(table[1..], q);
      assert forall r :: r in table <==> r == table[0] || r in table[1..];
    }
  }

  lemma {:induction false} WhereKeepsOrder(table: seq<Row>, q: Query)
    requires Chronological(table)
    ensures Chronological(Where(table, q))
    decreases |table|
  {
    if table == [] {
    } else {
      var rest, all := Where(table[1..], q), Where(table, q);
      WhereKeepsOrder(table[1..], q);
      WhereSelects(table[1..], q);
      if Selects(q, table[0]) {
        forall i, j | 0 <= i < j < |all|
          ensures all[i].publishedAt <= all[j].publishedAt
        {
          assert all[j] == rest[j - 1] && rest[j - 1] in table[1..];
        }
      }
    }
  }

  lemma PageIsASlice(rows: seq<Row>, take: nat, skip: nat)
    requires Chronological(rows)
    ensures var page := Page(rows, take, skip);
            && |page| <= take && Chronological(page) && (forall r :: r in page ==> r in rows)
            && (skip == 0 && take >= |rows| ==> page == rows)
  {
  }

  /**
   Whatever the order of the table, a query returns only rows of its tenant that it selects, oldest first, at most
   `limit` of them; and one that asks for enough rows from the start returns all of them.
   */
  lemma FindSelects(table: seq<Row>, q: Query, limit: Option<nat>, offset: Option<nat>)
    ensures var found := Find(table, q, limit, offset);
            && Chronological(found)
            && |found| <= (if limit.Some? then limit.value else 100)
            && (forall r :: r in found ==> r in table && Selects(q, r))
            && (offset == None && limit.Some? && limit.value >= |Where(table, q)|
                ==> multiset(found) == multiset(Where(table, q)))
  {
    var rows := OrderByTime(Where(table, q));
    OrderIsChronological(Where(table, q));
    SameMembers(rows, Where(table, q));
    WhereSelects(table, q);
    assert |rows| == |multiset(rows)| == |Where(table, q)|;
    PageIsASlice(rows, if limit.Some? then limit.value else 100, if offset.Some? then offset.value else 0);
  }

  lemma {:induction false} WhereIsNotLonger(table: seq<Row>, q: Query)
    ensures |Where(table, q)| <= |table|
    decreases |table|
  {
    if table != [] { WhereIsNotLonger(table[1..], q); }
  }

  /** The rows of a page are selected, and all selected ones are on it if it is long enough. */
  lemma FindFinds(table: seq<Row>, q: Query, limit: Option<nat>, offset: Option<nat>)
    ensures var found := Find(table, q, limit, offset);
            && (forall r :: r in found ==> r in table && Selects(q, r))
            && (offset in {None, Some(0)} && limit.Some? && limit.value >= |table| ==>
                  forall r :: r in table && Selects(q, r) ==> r in found)
  {
    hide Selects, OrderByTime, Where;
    FindSelects(table, q, limit, offset);
    if offset in {None, Some(0)} && limit.Some? && limit.value >= |table| {
      FindSelects(table, q, limit, None);
      WhereIsNotLonger(table, q);
      WhereSelects(table, q);
      SameMembers(Find(table, q, limit, None), Where(table, q));
    }
  }

  /** An event that is persisted is found by its own tenant and aggregate, with what it says. */
  lemma PersistedIsFound(table: seq<Row>, e: Envelope, id: Id, now: int, limit: nat)
    ensures limit > |table| ==>
              exists row :: row in Find(table + [NewRow(e, id, now)],
                                        ByAggregate(e.tenantId, e.aggregateType, e.aggregateId), Some(limit), None)
                            && row.id == id && row.eventType == e.eventType && row.payload == e.payload
  {
    var row := NewRow(e, id, now);
    assert row in table + [row];
    FindFinds(table + [row], ByAggregate(e.tenantId, e.aggregateType, e.aggregateId), Some(limit), None);
  }

  lemma {:induction false} MarkSetsOne(table: seq<Row>, id: Id, tenantId: string, now: int)
    ensures var marked := Mark(table, id, tenantId, now);
            && |marked| == |table|
            && forall k :: 0 <= k < |table| ==>
                 marked[k] == if table[k].id == id && table[k].tenantId == tenantId
                              then table[k].(processedAt := Some(now)) else table[k]
    decreases |table|
  {
    if table == [] {
    } else {
      MarkSetsOne(table[1..], id, tenantId, now);
    }
  }

  // ---- Paging while the ledger is written ----

  /** What identifies an event: everything but `processedAt`. */
  function Identity(rows: seq<Row>): (r: seq<Row>)
    ensures |r| == |rows|
  {
    if rows == [] then [] else [rows[0].(processedAt := None)] + Identity(rows[1..])
  }

  datatype Op =
    | PersistOp(envelope: Envelope, id: Id, now: int)
    | MarkOp(id: Id, tenantId: string, now: int)
    | ReadOp(limit: Option<nat>)

  /** The ledger, and a reader that has received `seen` and asks for the rows after them. */
  datatype Reading = Reading(table: seq<Row>, seen: seq<Row>)

  function Do(s: Reading, q: Query, op: Op): Reading {
    match op
    case PersistOp(e, id, now) => if Blank(e.tenantId) then s else s.(table := s.table + [NewRow(e, id, now)])
    case MarkOp(id, tenantId, now) => if Blank(tenantId) then s else s.(table := Mark(s.table, id, tenantId, now))
    case ReadOp(limit) => s.(seen := s.seen + Find(s.table, q, limit, Some(|s.seen|)))
  }

  function DoAll(s: Reading, q: Query, ops: seq<Op>): Reading
    decreases |ops|
  {
    if ops == [] then s else DoAll(Do(s, q, ops[0]), q, ops[1..])
  }

  /** The clock of the database does not run backwards from one persist to the next. */
  predicate ClockRuns(last: int, ops: seq<Op>)
    decreases |ops|
  {
    ops == [] ||
    if ops[0].PersistOp? then last <= ops[0].now && ClockRuns(ops[0].now, ops[1..]) else ClockRuns(last, ops[1..])
  }

  /** The reader has a prefix of the query's history, which is chronological. */
  ghost predicate Sound(s: Reading, q: Query) {
    Chronological(Where(s.table, q)) && Identity(s.seen) <= Identity(Where(s.table, q))
  }

  lemma {:induction false} IdentityAt(rows: seq<Row>, k: nat)
    requires k < |rows|
    ensures Identity(rows)[k] == rows[k].(processedAt := None)
    decreases |rows|
  {
    if k == 0 {
    } else {
      IdentityAt(rows[1..], k - 1);
    }
  }

  lemma {:induction false} IdentityConcat(a: seq<Row>, b: seq<Row>)
    ensures Identity(a + b) == Identity(a) + Identity(b)
    decreases |a|
  {
    if a == [] {
      assert a + b == b;
    } else {
      assert (a + b)[1..] == a[1..] + b;
      IdentityConcat(a[1..], b);
    }
  }

  lemma {:induction false} WhereConcat(a: seq<Row>, b: seq<Row>, q: Query)
    ensures Where(a + b, q) == Where(a, q) + Where(b, q)
    decreases |a|
  {
    if a == [] {
      assert a + b == b;
    } else {
      var head := if Selects(q, a[0]) then [a[0]] else [];
      assert (a + b)[1..] == a[1..] + b;
      WhereConcat(a[1..], b, q);
      assert head + (Where(a[1..], q) + Where(b, q)) == head + Where(a[1..], q) + Where(b, q);
    }
  }

  lemma {:induction false} MarkKeepsIdentity(table: seq<Row>, id: Id, tenantId: string, now: int, q: Query)
    ensures Identity(Mark(table, id, tenantId, now)) == Identity(table)
    ensures Identity(Where(Mark(table, id, tenantId, now), q)) == Identity(Where(table, q))
    decreases |table|
  {
    if table == [] {
    } else {
      var marked := Mark(table, id, tenantId, now);
      MarkKeepsIdentity(table[1..], id, tenantId, now, q);
      assert marked[1..] == Mark(table[1..], id, tenantId, now);
      if Selects(q, table[0]) {
        assert Where(table, q)[1..] == Where(table[1..], q);
        assert Where(marked, q)[1..] == Where(marked[1..], q);
      } else {
        assert Where(table, q) == Where(table[1..], q);
        assert Where(marked, q) == Where(marked[1..], q);
      }
    }
  }

  /** Two tables with the same identities are published at the same times. */
  lemma TimesOfIdentity(a: seq<Row>, b: seq<Row>, last: int)
    requires Identity(a) == Identity(b) && Chronological(a) && forall r :: r in a ==> r.publishedAt <= last
    ensures Chronological(b) && forall r :: r in b ==> r.publishedAt <= last
  {
    assert |a| == |Identity(a)| == |b|;
    forall i | 0 <= i < |b|
      ensures b[i].publishedAt == a[i].publishedAt && a[i] in a
    {
      IdentityAt(a, i);
      IdentityAt(b, i);
    }
  }

  lemma PrefixGrows(seen: seq<Row>, h: seq<Row>, page: seq<Row>)
    requires Identity(seen) <= Identity(h) && page <= h[|seen|..]
    ensures Identity(seen + page) <= Identity(h)
  {
    var rest := h[|seen|..];
    assert h == h[..|seen|] + rest && rest == page + rest[|page|..];
    IdentityConcat(h[..|seen|], rest);
    IdentityConcat(page, rest[|page|..]);
    IdentityConcat(seen, page);
    assert Identity(seen) == Identity(h[..|seen|]);
  }

  lemma ReadExtendsPrefix(s: Reading, q: Query, limit: Option<nat>)
    requires Sound(s, q)
    ensures Sound(Do(s, q, ReadOp(limit)), q)
  {
    OrderOfChronological(Where(s.table, q));
    PrefixGrows(s.seen, Where(s.table, q), Find(s.table, q, limit, Some(|s.seen|)));
  }

  /** What an operation does to the history of a query: a new row at the end, at most. */
  lemma HistoryGrows(s: Reading, q: Query, op: Op) returns (more: seq<Row>)
    ensures Identity(Where(Do(s, q, op).table, q)) == Identity(Where(s.table, q) + more)
    ensures more == if op.PersistOp? && !Blank(op.envelope.tenantId) && Selects(q, NewRow(op.envelope, op.id, op.now))
                    then [NewRow(op.envelope, op.id, op.now)] else []
  {
    var h := Where(s.table, q);
    more := [];
    assert h + [] == h;
    match op
    case PersistOp(e, id, now) =>
      if !Blank(e.tenantId) {
        var row := NewRow(e, id, now);
        WhereConcat(s.table, [row], q);
        assert [row][1..] == [];
        more := Where([row], q);
      }
    case MarkOp(id, tenantId, now) =>
      MarkKeepsIdentity(s.table, id, tenantId, now, q);
    case ReadOp(_) =>
  }

  lemma {:induction false} HistoryOnlyGrows(s: Reading, q: Query, ops: seq<Op>)
    ensures Identity(Where(s.table, q)) <= Identity(Where(DoAll(s, q, ops).table, q))
    decreases |ops|
  {
    if ops == [] {
    } else {
      var more := HistoryGrows(s, q, ops[0]);
      IdentityConcat(Where(s.table, q), more);
      HistoryOnlyGrows(Do(s, q, ops[0]), q, ops[1..]);
    }
  }

  lemma ChronologicalPrefix(a: seq<Row>, b: seq<Row>)
    requires Identity(a) <= Identity(b) && Chronological(b)
    ensures Chronological(a)
  {
    forall i | 0 <= i < |a|
      ensures a[i].publishedAt == b[i].publishedAt
    {
      IdentityAt(a, i);
      IdentityAt(b, i);
    }
  }

  lemma DoKeepsSound(s: Reading, q: Query, op: Op)
    requires Sound(s, q) && Chronological(Where(Do(s, q, op).table, q))
    ensures Sound(Do(s, q, op), q)
  {
    if op.ReadOp? {
      ReadExtendsPrefix(s, q, op.limit);
    } else {
      var more := HistoryGrows(s, q, op);
      IdentityConcat(Where(s.table, q), more);
    }
  }

  lemma {:induction false} DoAllKeepsSound(s: Reading, q: Query, ops: seq<Op>)
    requires Sound(s, q) && Chronological(Where(DoAll(s, q, ops).table, q))
    ensures Sound(DoAll(s, q, ops), q)
    decreases |ops|
  {
    if ops == [] {
    } else {
      var next := Do(s, q, ops[0]);
      HistoryOnlyGrows(next, q, ops[1..]);
      ChronologicalPrefix(Where(next.table, q), Where(DoAll(s, q, ops).table, q));
      DoKeepsSound(s, q, ops[0]);
      DoAllKeepsSound(next, q, ops[1..]);
    }
  }

  lemma {:induction false} ClockKeepsOrder(s: Reading, q: Query, ops: seq<Op>, last: int)
    requires Chronological(s.table) && (forall r :: r in s.table ==> r.publishedAt <= last) && ClockRuns(last, ops)
    ensures Chronological(DoAll(s, q, ops).table)
    decreases |ops|
  {
    if ops == [] {
    } else {
      var next := Do(s, q, ops[0]);
      match ops[0] {
        case PersistOp(_, _, now) =>
          ClockKeepsOrder(next, q, ops[1..], now);
        case MarkOp(id, tenantId, now) =>
          MarkKeepsIdentity(s.table, id, tenantId, now, q);
          TimesOfIdentity(s.table, next.table, last);
          ClockKeepsOrder(next, q, ops[1..], last);
        case ReadOp(_) =>
          ClockKeepsOrder(next, q, ops[1..], last);
      }
    }
  }

  /** No operation removes, reorders or changes a row, except for its `processedAt`. */
  lemma {:induction false} LedgerIsAppendOnly(s: Reading, q: Query, ops: seq<Op>)
    ensures Identity(s.table) <= Identity(DoAll(s, q, ops).table)
    decreases |ops|
  {
    if ops == [] {
    } else {
      match ops[0] {
        case PersistOp(e, id, now) => IdentityConcat(s.table, [NewRow(e, id, now)]);
        case MarkOp(id, tenantId, now) => MarkKeepsIdentity(s.table, id, tenantId, now, q);
        case ReadOp(_) =>
      }
      LedgerIsAppendOnly(Do(s, q, ops[0]), q, ops[1..]);
    }
  }

  /**
   Consecutive pages of one aggregate, read while others write and mark, join into a prefix of the aggregate's
   final history: nothing twice, nothing left out, nothing of another tenant.
   */
  lemma PagesJoinIntoAPrefix(q: Query, ops: seq<Op>, start: int)
    requires ClockRuns(start, ops)
    ensures var end := DoAll(Reading([], []), q, ops);
            && Identity(end.seen) <= Identity(Where(end.table, q))
            && forall r :: r in end.seen ==>
                 && r.tenantId == q.tenantId
                 && (q.ByAggregate? ==> r.aggregateType == q.aggregateType && r.aggregateId == q.aggregateId)
                 && (q.ByTenant? ==>
                       && (q.eventType == None || q.eventType == Some("") || q.eventType == Some(r.eventType))
                       && (q.since == None || q.since.value <= r.publishedAt))
  {
    var end := DoAll(Reading([], []), q, ops);
    ClockKeepsOrder(Reading([], []), q, ops, start);
    WhereKeepsOrder(end.table, q);
    assert Sound(Reading([], []), q);
    DoAllKeepsSound(Reading([], []), q, ops);
    var h := Where(end.table, q);
    WhereSelects(end.table, q);
    forall k | 0 <= k < |end.seen|
      ensures Selects(q, end.seen[k])
    {
      IdentityAt(end.seen, k);
      IdentityAt(h, k);
      assert h[k] in h;
    }
  }

  // ---- Exactly when pages join ----

  function WritesOf(ops: seq<Op>): seq<Op>
    decreases |ops|
  {
    if ops == [] then [] else (if ops[0].ReadOp? then [] else [ops[0]]) + WritesOf(ops[1..])
  }

  /** The pages read in the course of the operations join into a prefix of what the query answers in the end. */
  predicate Join(q: Query, ops: seq<Op>) {
    var end := DoAll(Reading([], []), q, ops);
    Identity(end.seen) <= Identity(OrderByTime(Where(end.table, q)))
  }

  lemma {:induction false} ReadsChangeNothing(s: Reading, s': Reading, q: Query, ops: seq<Op>)
    requires s.table == s'.table
    ensures DoAll(s, q, ops).table == DoAll(s', q, WritesOf(ops)).table
    decreases |ops|
  {
    if ops == [] {
    } else {
      var next := Do(s, q, ops[0]);
      if ops[0].ReadOp? {
        assert WritesOf(ops) == WritesOf(ops[1..]);
        ReadsChangeNothing(next, s', q, ops[1..]);
      } else {
        assert WritesOf(ops)[1..] == WritesOf(ops[1..]);
        ReadsChangeNothing(next, Do(s', q, ops[0]), q, ops[1..]);
      }
    }
  }

  lemma {:induction false} WritesSeeNothing(s: Reading, q: Query, ops: seq<Op>)
    requires WritesOf(ops) == ops
    ensures DoAll(s, q, ops).seen == s.seen
    decreases |ops|
  {
    if ops == [] {
    } else {
      WritesAreShorter(ops[1..]);
      assert !ops[0].ReadOp? && WritesOf(ops)[1..] == ops[1..];
      WritesSeeNothing(Do(s, q, ops[0]), q, ops[1..]);
    }
  }

  lemma {:induction false} WritesAreShorter(ops: seq<Op>)
    ensures |WritesOf(ops)| <= |ops|
    decreases |ops|
  {
    if ops == [] {
    } else {
      WritesAreShorter(ops[1..]);
    }
  }

  lemma {:induction false} WritesConcat(a: seq<Op>, b: seq<Op>)
    ensures WritesOf(a + b) == WritesOf(a) + WritesOf(b)
    decreases |a|
  {
    if a == [] {
      assert a + b == b;
    } else {
      assert (a + b)[1..] == a[1..] + b;
      WritesConcat(a[1..], b);
    }
  }

  lemma {:induction false} DoAllConcat(s: Reading, q: Query, a: seq<Op>, b: seq<Op>)
    ensures DoAll(s, q, a + b) == DoAll(DoAll(s, q, a), q, b)
    decreases |a|
  {
    if a == [] {
      assert a + b == b;
    } else {
      assert (a + b)[1..] == a[1..] + b;
      DoAllConcat(Do(s, q, a[0]), q, a[1..], b);
    }
  }

  /** How many rows were published before an instant. */
  function Earlier(rows: seq<Row>, t: int): nat {
    if rows == [] then 0 else (if rows[0].publishedAt < t then 1 else 0) + Earlier(rows[1..], t)
  }

  lemma {:induction false} EarlierConcat(a: seq<Row>, b: seq<Row>, t: int)
    ensures Earlier(a + b, t) == Earlier(a, t) + Earlier(b, t)
    decreases |a|
  {
    if a == [] {
      assert a + b == b;
    } else {
      assert (a + b)[1..] == a[1..] + b;
      EarlierConcat(a[1..], b, t);
    }
  }

  lemma {:induction false} EarlierInserted(r: Row, sorted: seq<Row>, t: int)
    ensures Earlier(Insert(r, sorted), t) == (if r.publishedAt < t then 1 else 0) + Earlier(sorted, t)
    decreases |sorted|
  {
    if sorted == [] || r.publishedAt <= sorted[0].publishedAt {
      assert ([r] + sorted)[1..] == sorted;
    } else {
      EarlierInserted(r, sorted[1..], t);
      assert Insert(r, sorted)[1..] == Insert(r, sorted[1..]);
    }
  }

  lemma {:induction false} EarlierOrdered(rows: seq<Row>, t: int)
    ensures Earlier(OrderByTime(rows), t) == Earlier(rows, t)
    decreases |rows|
  {
    if rows == [] {
    } else {
      EarlierOrdered(rows[1..], t);
      EarlierInserted(rows[0], OrderByTime(rows[1..]), t);
    }
  }

  lemma {:induction false} EarlierOfIdentity(a: seq<Row>, b: seq<Row>, t: int)
    requires Identity(a) == Identity(b)
    ensures Earlier(a, t) == Earlier(b, t)
    decreases |a|
  {
    assert |a| == |Identity(a)| == |b|;
    if a == [] {
    } else {
      assert Identity(a)[0] == Identity(b)[0] && Identity(a)[1..] == Identity(b)[1..];
      EarlierOfIdentity(a[1..], b[1..], t);
    }
  }

  lemma {:induction false} NoneEarlier(rows: seq<Row>, t: int)
    requires forall i :: 0 <= i < |rows| ==> t <= rows[i].publishedAt
    ensures Earlier(rows, t) == 0
    decreases |rows|
  {
    if rows == [] {
    } else {
      NoneEarlier(rows[1..], t);
    }
  }

  /** Rows that a later row should have preceded are no prefix of a chronological answer that has it. */
  lemma LateRowSpoilsPrefix(rows: seq<Row>, late: Row, final: seq<Row>)
    requires rows != [] && late.publishedAt < rows[|rows| - 1].publishedAt
    requires Identity(rows + [late]) <= Identity(final)
    ensures !(Identity(rows) <= Identity(OrderByTime(final)))
  {
    hide Identity, OrderByTime, Earlier;
    var t := rows[|rows| - 1].publishedAt;
    OrderIsChronological(final);
    EarlierOrdered(final, t);
    EarlierPrefix(rows + [late], final, t);
    EarlierConcat(rows, [late], t);
    EarlierOne(late, t);
    if Identity(rows) <= Identity(OrderByTime(final)) {
      AllEarlierInPrefix(rows, OrderByTime(final), t);
    }
  }

  lemma EarlierOne(r: Row, t: int)
    ensures Earlier([r], t) == if r.publishedAt < t then 1 else 0
  {
    assert [r][1..] == [];
  }

  lemma {:induction false} EarlierInFront(rows: seq<Row>, n: nat, t: int)
    requires n <= |rows|
    ensures Earlier(rows[..n], t) <= Earlier(rows, t)
    ensures (forall i :: n <= i < |rows| ==> t <= rows[i].publishedAt) ==> Earlier(rows[..n], t) == Earlier(rows, t)
    decreases n
  {
    if n == 0 {
      if forall i :: 0 <= i < |rows| ==> t <= rows[i].publishedAt { NoneEarlier(rows, t); }
    } else {
      EarlierInFront(rows[1..], n - 1, t);
      assert rows[..n][1..] == rows[1..][..n - 1];
      assert forall i :: n - 1 <= i < |rows[1..]| ==> rows[1..][i] == rows[i + 1];
    }
  }

  lemma EarlierPrefix(a: seq<Row>, b: seq<Row>, t: int)
    requires Identity(a) <= Identity(b)
    ensures Earlier(a, t) <= Earlier(b, t)
  {
    hide Earlier;
    assert |Identity(a)| == |a| <= |b|;
    IdentityOfPrefix(b, |a|);
    EarlierOfIdentity(a, b[..|a|], t);
    EarlierInFront(b, |a|, t);
  }

  /** In chronological rows, those before the instant of the last one of a prefix are all in the prefix. */
  lemma AllEarlierInPrefix(a: seq<Row>, b: seq<Row>, t: int)
    requires Identity(a) <= Identity(b) && Chronological(b) && a != [] && a[|a| - 1].publishedAt == t
    ensures Earlier(a, t) == Earlier(b, t)
  {
    hide Earlier;
    assert |Identity(a)| == |a| <= |b|;
    IdentityOfPrefix(b, |a|);
    IdentityAt(a, |a| - 1);
    IdentityAt(b, |a| - 1);
    assert Identity(a)[|a| - 1] == Identity(b)[|a| - 1];
    EarlierOfIdentity(a, b[..|a|], t);
    EarlierInFront(b, |a|, t);
  }

  lemma {:induction false} IdentityOfPrefix(rows: seq<Row>, n: nat)
    requires n <= |rows|
    ensures Identity(rows[..n]) == Identity(rows)[..n]
    decreases n
  {
    if n == 0 {
    } else {
      IdentityOfPrefix(rows[1..], n - 1);
      assert rows[..n][1..] == rows[1..][..n - 1];
      assert Identity(rows)[1..] == Identity(rows[1..]);
    }
  }

  /** The first write after which the history is out of order. */
  lemma {:induction false} FirstDescent(q: Query, writes: seq<Op>) returns (k: nat)
    requires !Chronological(Where(DoAll(Reading([], []), q, writes).table, q))
    ensures k < |writes| && Chronological(Where(DoAll(Reading([], []), q, writes[..k]).table, q))
    ensures !Chronological(Where(DoAll(Reading([], []), q, writes[..k + 1]).table, q))
    decreases |writes|
  {
    assert writes != [];
    var n := |writes| - 1;
    if Chronological(Where(DoAll(Reading([], []), q, writes[..n]).table, q)) {
      k := n;
      assert writes[..n + 1] == writes;
    } else {
      k := FirstDescent(q, writes[..n]);
      assert writes[..n][..k] == writes[..k] && writes[..n][..k + 1] == writes[..k + 1];
    }
  }

  lemma DescentIsALateRow(s: Reading, q: Query, op: Op)
    requires Chronological(Where(s.table, q)) && !Chronological(Where(Do(s, q, op).table, q))
    ensures op.PersistOp?
    ensures var rows, late := Where(s.table, q), NewRow(op.envelope, op.id, op.now);
            && rows != [] && late.publishedAt < rows[|rows| - 1].publishedAt
            && Identity(Where(Do(s, q, op).table, q)) == Identity(rows + [late])
  {
    var rows := Where(s.table, q);
    var more := HistoryGrows(s, q, op);
    if more == [] {
      assert rows + [] == rows;
      ChronologicalPrefix(Where(Do(s, q, op).table, q), rows);
    } else if rows == [] || rows[|rows| - 1].publishedAt <= more[0].publishedAt {
      assert Chronological(rows + more);
      ChronologicalPrefix(Where(Do(s, q, op).table, q), rows + more);
    }
  }

  /** Reading everything just before the first late row is an interleaving that does not join. */
  lemma DescentSpoilsPaging(q: Query, writes: seq<Op>) returns (ops: seq<Op>)
    requires WritesOf(writes) == writes && !Chronological(Where(DoAll(Reading([], []), q, writes).table, q))
    ensures WritesOf(ops) == writes && !Join(q, ops)
  {
    hide DoAll, Where, WritesOf, Identity, OrderByTime, Chronological, NewRow, Selects;
    var k := FirstDescent(q, writes);
    var start, a, b := Reading([], []), writes[..k], writes[k..];
    var before := DoAll(start, q, a);
    var rows := Where(before.table, q);
    assert writes == a + b;
    ReadInBetween(q, a, b);
    ops := a + ([ReadOp(Some(|rows|))] + b);
    var op := writes[k];
    assert writes[..k + 1] == a + [op] && b == [op] + b[1..];
    DoAllConcat(start, q, a, [op]);
    OneOp(before, q, op, []);
    assert [op] + [] == [op];
    DescentIsALateRow(before, q, op);
    var mid := Reading(before.table, rows);
    assert Do(before, q, op).table == Do(mid, q, op).table;
    hide Do;
    OneOp(mid, q, op, b[1..]);
    HistoryOnlyGrows(Do(mid, q, op), q, b[1..]);
    LateRowSpoilsPrefix(rows, NewRow(op.envelope, op.id, op.now), Where(DoAll(Reading([], []), q, ops).table, q));
  }

  lemma OneOp(s: Reading, q: Query, op: Op, rest: seq<Op>)
    ensures DoAll(s, q, [op] + rest) == DoAll(Do(s, q, op), q, rest)
    ensures rest == [] ==> DoAll(s, q, [op] + rest) == Do(s, q, op)
  {
    assert ([op] + rest)[1..] == rest;
  }

  lemma SameSplit(x: seq<Op>, y: seq<Op>, a: seq<Op>, b: seq<Op>)
    requires x + y == a + b && |x| <= |a| && |y| <= |b|
    ensures x == a && y == b
  {
    assert |x + y| == |a + b|;
    assert x == (x + y)[..|x|] && a == (a + b)[..|a|] && y == (x + y)[|x|..] && b == (a + b)[|a|..];
  }

  /** Writes with one read of everything among them. */
  lemma ReadInBetween(q: Query, a: seq<Op>, b: seq<Op>)
    requires WritesOf(a + b) == a + b && Chronological(Where(DoAll(Reading([], []), q, a).table, q))
    ensures var before := DoAll(Reading([], []), q, a);
            var rows := Where(before.table, q);
            var ops := a + ([ReadOp(Some(|rows|))] + b);
            var end := DoAll(Reading(before.table, rows), q, b);
            WritesOf(ops) == a + b && DoAll(Reading([], []), q, ops) == end && end.seen == rows
  {
    var start := Reading([], []);
    var before := DoAll(start, q, a);
    var rows := Where(before.table, q);
    var read := ReadOp(Some(|rows|));
    assert WritesOf([read] + b) == WritesOf(b) by { assert ([read] + b)[1..] == b; }
    hide *;
    WritesConcat(a, b);
    WritesAreShorter(a);
    WritesAreShorter(b);
    SameSplit(WritesOf(a), WritesOf(b), a, b);
    WritesConcat(a, [read] + b);
    WritesSeeNothing(start, q, a);
    ReadAll(before, q);
    DoAllConcat(start, q, a, [read] + b);
    OneOp(before, q, read, b);
    WritesSeeNothing(Reading(before.table, rows), q, b);
  }

  lemma ReadAll(s: Reading, q: Query)
    requires s.seen == [] && Chronological(Where(s.table, q))
    ensures Do(s, q, ReadOp(Some(|Where(s.table, q)|))) == Reading(s.table, Where(s.table, q))
  {
    OrderOfChronological(Where(s.table, q));
  }

  /**
   For given writes, the pages of every reader, wherever its reads fall among them, join into a prefix of the final
   answer: exactly if the rows the query selects were written in chronological order.
   */
  lemma PagesJoinExactlyInOrder(q: Query, writes: seq<Op>)
    requires WritesOf(writes) == writes
    ensures (forall ops :: WritesOf(ops) == writes ==> Join(q, ops))
       <==> Chronological(Where(DoAll(Reading([], []), q, writes).table, q))
  {
    var start := Reading([], []);
    if Chronological(Where(DoAll(start, q, writes).table, q)) {
      forall ops | WritesOf(ops) == writes
        ensures Join(q, ops)
      {
        ReadsChangeNothing(start, start, q, ops);
        assert Sound(start, q);
        DoAllKeepsSound(start, q, ops);
        OrderOfChronological(Where(DoAll(start, q, ops).table, q));
      }
    } else {
      var ops := DescentSpoilsPaging(q, writes);
    }
  }

  /** The smallest case: a row published before one already read makes the next page repeat. */
  lemma BackwardClockSpoilsPaging(q: Query, early: Row, late: Row)
    requires Selects(q, early) && Selects(q, late) && early.publishedAt < late.publishedAt
    ensures Find([late], q, Some(1), Some(0)) == [late] && Find([late, early], q, Some(1), Some(1)) == [late]
  {
    assert [late, early][1..] == [early] && [late][1..] == [] && [early][1..] == [];
    assert Where([early], q) == [early] && Where([late], q) == [late] && Where([late, early], q) == [late, early];
    assert OrderByTime([early]) == [early] && OrderByTime([late]) == [late];
    assert OrderByTime([late, early]) == [early, late];
    assert [late][0..1] == [late] && [early, late][1..2] == [late];
  }
}
