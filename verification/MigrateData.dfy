/**
 Moving a tenant: the checks an export has to pass, and its import under fresh ids.  One renaming serves all tables; it
 hands out an id from the supply of random UUIDs where an old id is met for the first time.
 */
module MigrateData {
  import opened Common

  type Id = string

  datatype Table = Users | Businesses | BusinessOwners | CreditProfiles | FundingRounds | CardApplications
                 | ConsentRecords | ComplianceChecks | Documents | SuitabilityChecks | AchAuthorizations
                 | CostCalculations | StatementRecords | Complaints | Partners | LedgerEvents

  const ARRAYS: seq<Table> := [
    Users, Businesses, BusinessOwners, CreditProfiles, FundingRounds, CardApplications, ConsentRecords,
    ComplianceChecks, Documents, SuitabilityChecks, AchAuthorizations, CostCalculations, StatementRecords, Complaints,
    Partners, LedgerEvents]

  /** An exported record, by its ids. */
  datatype Row = Row(id: Id, businessId: Option<Id>, advisorId: Option<Id>)

  /** What was read from the file.  A table is in `arrays` if the file has an array for it; "" and 0 are missing. */
  datatype Export = Export(schemaVersion: nat, sourceTenantId: Id, hasTenant: bool, arrays: map<Table, seq<Row>>)

  function RowsOf(data: Export, t: Table): seq<Row> {
    if t in data.arrays then data.arrays[t] else []
  }

  function IdsOf(rows: seq<Row>): set<Id> {
    set r | r in rows :: r.id
  }

  // ---- Validation ----

  datatype Error = MissingSchemaVersion | MissingSourceTenantId | MissingTenant | NotAnArray(table: Table)
                 | Orphaned(table: Table, count: nat)

  /** `empty` holds the tables the warnings are about. */
  datatype Validation = Validation(valid: bool, errors: seq<Error>, empty: seq<Table>, stats: map<Table, nat>)

  predicate Placed(row: Row, businesses: set<Id>) {
    row.businessId.Some? && row.businessId.value in businesses
  }

  predicate Settled(rows: seq<Row>, businesses: set<Id>) {
    forall i :: 0 <= i < |rows| ==> Placed(rows[i], businesses)
  }

  function Orphans(rows: seq<Row>, businesses: set<Id>): (r: seq<Row>)
    ensures r == [] <==> Settled(rows, businesses)
  {
    if rows == [] then [] else (if Placed(rows[0], businesses) then [] else [rows[0]]) + Orphans(rows[1..], businesses)
  }

  ghost predicate AllPlaced(data: Export, t: Table) {
    Settled(RowsOf(data, t), IdsOf(RowsOf(data, Businesses)))
  }

  ghost predicate Sound(data: Export) {
    && data.schemaVersion != 0 && data.sourceTenantId != "" && data.hasTenant
    && (forall t: Table :: t in data.arrays)
    && AllPlaced(data, BusinessOwners) && AllPlaced(data, CreditProfiles)
  }

  ghost predicate Faulty(data: Export, e: Error) {
    match e
    case MissingSchemaVersion => data.schemaVersion == 0
    case MissingSourceTenantId => data.sourceTenantId == ""
    case MissingTenant => !data.hasTenant
    case NotAnArray(t) => t !in data.arrays
    case Orphaned(t, n) =>
      && (t == BusinessOwners || t == CreditProfiles) && !AllPlaced(data, t)
      && n == |Orphans(RowsOf(data, t), IdsOf(RowsOf(data, Businesses)))|
  }

  lemma ArraysIsComplete(t: Table)
    ensures t in ARRAYS
  {
    assert ARRAYS[0] == Users && ARRAYS[1] == Businesses && ARRAYS[2] == BusinessOwners && ARRAYS[3] == CreditProfiles
           && ARRAYS[4] == FundingRounds && ARRAYS[5] == CardApplications && ARRAYS[6] == ConsentRecords
           && ARRAYS[7] == ComplianceChecks && ARRAYS[8] == Documents && ARRAYS[9] == SuitabilityChecks
           && ARRAYS[10] == AchAuthorizations && ARRAYS[11] == CostCalculations && ARRAYS[12] == StatementRecords
           && ARRAYS[13] == Complaints && ARRAYS[14] == Partners && ARRAYS[15] == LedgerEvents;
  }

  /** The errors are exactly the faults of the data, so it is valid exactly if it has none. */
  method ValidateExport(data: Export) returns (r: Validation)
    ensures r.valid <==> Sound(data)
    ensures r.valid <==>
              && data.schemaVersion != 0 && data.sourceTenantId != "" && data.hasTenant
              && (forall t: Table :: t in data.arrays)
              && Housed(RowsOf(data, BusinessOwners), RowsOf(data, Businesses))
              && Housed(RowsOf(data, CreditProfiles), RowsOf(data, Businesses))
    ensures forall e :: e in r.errors <==> Faulty(data, e)
    ensures forall t :: t in r.empty <==> t in {Users, Businesses, ConsentRecords} && RowsOf(data, t) == []
    ensures forall t: Table :: t in r.stats && r.stats[t] == |RowsOf(data, t)|
  {
    hide ARRAYS, Sound, Faulty, Housed;
    var missingFields := MissingFields(data);
    var missingArrays := MissingArrays(data);
    var orphaned := OrphanErrors(data);
    var errors := missingFields + missingArrays + orphaned;
    ErrorsDecide(data, errors);
    var empty: seq<Table> := [];
    if RowsOf(data, Users) == [] { empty := empty + [Users]; }
    if RowsOf(data, Businesses) == [] { empty := empty + [Businesses]; }
    if RowsOf(data, ConsentRecords) == [] { empty := empty + [ConsentRecords]; }
    var stats := Stats(data);
    r := Validation(errors == [], errors, empty, stats);
    SoundSpelledOut(data);
  }

  /** The reference of every row is the id of a business. */
  ghost predicate Housed(rows: seq<Row>, businesses: seq<Row>) {
    forall row :: row in rows ==> exists b :: b in businesses && row.businessId == Some(b.id)
  }

  lemma SettledSpelledOut(rows: seq<Row>, businesses: seq<Row>)
    ensures Settled(rows, IdsOf(businesses)) <==> Housed(rows, businesses)
  {
    if Settled(rows, IdsOf(businesses)) {
      forall row | row in rows
        ensures exists b :: b in businesses && row.businessId == Some(b.id)
      {
        var i :| 0 <= i < |rows| && rows[i] == row;
        assert Placed(rows[i], IdsOf(businesses));
      }
    }
    if Housed(rows, businesses) {
      forall i | 0 <= i < |rows| ensures Placed(rows[i], IdsOf(businesses)) { assert rows[i] in rows; }
    }
  }

  lemma SoundSpelledOut(data: Export)
    ensures Sound(data)
       <==> (&& data.schemaVersion != 0 && data.sourceTenantId != "" && data.hasTenant
             && (forall t: Table :: t in data.arrays)
             && Housed(RowsOf(data, BusinessOwners), RowsOf(data, Businesses))
             && Housed(RowsOf(data, CreditProfiles), RowsOf(data, Businesses)))
  {
    SettledSpelledOut(RowsOf(data, BusinessOwners), RowsOf(data, Businesses));
    SettledSpelledOut(RowsOf(data, CreditProfiles), RowsOf(data, Businesses));
    hide Settled, Housed;
  }

  lemma OrphansTell(data: Export, t: Table)
    ensures AllPlaced(data, t) <==> Orphans(RowsOf(data, t), IdsOf(RowsOf(data, Businesses))) == []
  {
  }

  lemma ErrorsDecide(data: Export, errors: seq<Error>)
    requires forall e :: e in errors <==> Faulty(data, e)
    ensures errors == [] <==> Sound(data)
  {
    hide Faulty, Sound;
    NoFaultsIsSound(data);
    assert errors != [] ==> errors[0] in errors;
  }

  lemma NoFaultsIsSound(data: Export)
    ensures Sound(data) <==> forall e :: !Faulty(data, e)
  {
    if !Sound(data) {
      hide Orphans, AllPlaced;
      var n := |Orphans(RowsOf(data, BusinessOwners), IdsOf(RowsOf(data, Businesses)))|;
      var m := |Orphans(RowsOf(data, CreditProfiles), IdsOf(RowsOf(data, Businesses)))|;
      if t: Table :| t !in data.arrays {
        assert Faulty(data, NotAnArray(t));
      } else {
        assert Faulty(data, MissingSchemaVersion) || Faulty(data, MissingSourceTenantId) || Faulty(data, MissingTenant)
               || Faulty(data, Orphaned(BusinessOwners, n)) || Faulty(data, Orphaned(CreditProfiles, m));
      }
    }
  }

  method MissingFields(data: Export) returns (errors: seq<Error>)
    ensures forall e :: e in errors <==>
              Faulty(data, e) && (e == MissingSchemaVersion || e == MissingSourceTenantId || e == MissingTenant)
  {
    errors := [];
    if data.schemaVersion == 0 { errors := errors + [MissingSchemaVersion]; }
    if data.sourceTenantId == "" { errors := errors + [MissingSourceTenantId]; }
    if !data.hasTenant { errors := errors + [MissingTenant]; }
  }

  method OrphanErrors(data: Export) returns (errors: seq<Error>)
    ensures forall e :: e in errors <==> Faulty(data, e) && e.Orphaned?
  {
    hide AllPlaced, Orphans;
    errors := [];
    var bizIds := IdsOf(RowsOf(data, Businesses));
    var owners := Orphans(RowsOf(data, BusinessOwners), bizIds);
    var profiles := Orphans(RowsOf(data, CreditProfiles), bizIds);
    OrphansTell(data, BusinessOwners);
    OrphansTell(data, CreditProfiles);
    if |owners| > 0 { errors := errors + [Orphaned(BusinessOwners, |owners|)]; }
    if |profiles| > 0 { errors := errors + [Orphaned(CreditProfiles, |profiles|)]; }
  }

  method MissingArrays(data: Export) returns (errors: seq<Error>)
    ensures forall e :: e in errors <==> Faulty(data, e) && e.NotAnArray?
  {
    errors := [];
    for k := 0 to |ARRAYS|
      invariant forall e :: e in errors <==> e.NotAnArray? && e.table !in data.arrays && e.table in ARRAYS[..k]
    {
      assert ARRAYS[..k + 1] == ARRAYS[..k] + [ARRAYS[k]];
      if ARRAYS[k] !in data.arrays { errors := errors + [NotAnArray(ARRAYS[k])]; }
    }
    assert ARRAYS[..|ARRAYS|] == ARRAYS;
    forall t: Table ensures t in ARRAYS { ArraysIsComplete(t); }
  }

  method Stats(data: Export) returns (stats: map<Table, nat>)
    ensures forall t: Table :: t in stats && stats[t] == |RowsOf(data, t)|
  {
    stats := map[];
    for k := 0 to |ARRAYS|
      invariant forall t :: t in ARRAYS[..k] ==> t in stats && stats[t] == |RowsOf(data, t)|
    {
      assert ARRAYS[..k + 1] == ARRAYS[..k] + [ARRAYS[k]];
      stats := stats[ARRAYS[k] := |RowsOf(data, ARRAYS[k])|];
    }
    assert ARRAYS[..|ARRAYS|] == ARRAYS;
    forall t: Table ensures t in ARRAYS { ArraysIsComplete(t); }
  }

  // ---- Import ----

  datatype NewRow = NewRow(id: Id, tenantId: Option<Id>, businessId: Option<Id>, advisorId: Option<Id>)

  /** The rows the import transaction writes. */
  datatype Import = Import(tenantId: Id, users: seq<NewRow>, businesses: seq<NewRow>, owners: seq<NewRow>,
                           consents: seq<NewRow>, checks: seq<NewRow>)

  type Renaming = map<Id, Id>

  predicate Grows(m: Renaming, m': Renaming) {
    forall id :: id in m ==> id in m' && m'[id] == m[id]
  }

  ghost predicate Injective(m: Renaming) {
    forall a, b :: a in m && b in m && m[a] == m[b] ==> a == b
  }

  /** Random UUIDs: never the same twice. */
  ghost predicate Supply(uuids: nat -> Id) {
    forall i, j :: i != j ==> uuids(i) != uuids(j)
  }

  function Get(m: Renaming, id: Id): Id {
    if id in m then m[id] else ""
  }

  /** An optional reference: kept if it is there and its id is among those known by then. */
  function Reference(m: Renaming, known: set<Id>, id: Option<Id>): Option<Id> {
    if id.Some? && id.value != "" && id.value in known then Some(Get(m, id.value)) else None
  }

  /** The owners that are not skipped: their business is known when their turn comes. */
  function Kept(known: set<Id>, owners: seq<Row>): seq<Row> {
    if owners == [] then []
    else
      var kept, last := Kept(known, owners[..|owners| - 1]), owners[|owners| - 1];
      if Placed(last, known + IdsOf(kept)) then kept + [last] else kept
  }

  function UserRows(m: Renaming, tenantId: Id, rows: seq<Row>): (copies: seq<NewRow>)
    ensures |copies| == |rows|
  {
    seq(|rows|, i requires 0 <= i < |rows| => NewRow(Get(m, rows[i].id), Some(tenantId), None, None))
  }

  function BusinessRows(m: Renaming, tenantId: Id, known: set<Id>, rows: seq<Row>): (copies: seq<NewRow>)
    ensures |copies| == |rows|
  {
    seq(|rows|, i requires 0 <= i < |rows| =>
      NewRow(Get(m, rows[i].id), Some(tenantId), None, Reference(m, known, rows[i].advisorId)))
  }

  function OwnerRows(m: Renaming, rows: seq<Row>): (copies: seq<NewRow>)
    ensures |copies| == |rows|
  {
    seq(|rows|, i requires 0 <= i < |rows| =>
      NewRow(Get(m, rows[i].id), None, Some(if rows[i].businessId.Some? then Get(m, rows[i].businessId.value) else ""),
             None))
  }

  /** A consent record or compliance check: it is known itself when its reference is looked up. */
  function RecordRow(m: Renaming, tenantId: Id, known: set<Id>, rows: seq<Row>, i: nat): NewRow
    requires i < |rows|
  {
    NewRow(Get(m, rows[i].id), Some(tenantId), Reference(m, known + IdsOf(rows[..i + 1]), rows[i].businessId), None)
  }

  function RecordRows(m: Renaming, tenantId: Id, known: set<Id>, rows: seq<Row>): (copies: seq<NewRow>)
    ensures |copies| == |rows|
  {
    seq(|rows|, i requires 0 <= i < |rows| => RecordRow(m, tenantId, known, rows, i))
  }

  /** The ids mapped before the transaction. */
  function Premapped(data: Export): set<Id> {
    {data.sourceTenantId} + IdsOf(RowsOf(data, Businesses)) + IdsOf(RowsOf(data, Users))
  }

  function OwnersKept(data: Export): seq<Row> {
    Kept(Premapped(data), RowsOf(data, BusinessOwners))
  }

  function AfterOwners(data: Export): set<Id> {
    Premapped(data) + IdsOf(OwnersKept(data))
  }

  function AfterConsents(data: Export): set<Id> {
    AfterOwners(data) + IdsOf(RowsOf(data, ConsentRecords))
  }

  /** All ids the import meets. */
  function Met(data: Export): set<Id> {
    AfterConsents(data) + IdsOf(RowsOf(data, ComplianceChecks))
  }

  /** The import of an export under a renaming of the ids it meets. */
  function Renamed(data: Export, m: Renaming): Import {
    var tenantId := Get(m, data.sourceTenantId);
    Import(tenantId,
           UserRows(m, tenantId, RowsOf(data, Users)),
           BusinessRows(m, tenantId, Premapped(data), RowsOf(data, Businesses)),
           OwnerRows(m, OwnersKept(data)),
           RecordRows(m, tenantId, AfterOwners(data), RowsOf(data, ConsentRecords)),
           RecordRows(m, tenantId, AfterConsents(data), RowsOf(data, ComplianceChecks)))
  }

  lemma IdsOfAppend(rows: seq<Row>, row: Row)
    ensures IdsOf(rows + [row]) == IdsOf(rows) + {row.id}
  {
  }

  lemma NoIds()
    ensures IdsOf([]) == {}
  {
  }

  class Importer {
    const uuids: nat -> Id
    var drawn: nat
    var idMap: Renaming

    /** The renaming is injective and names only ids of the supply. */
    ghost predicate Valid()
      reads this
    {
      Supply(uuids) && Injective(idMap)
      && forall id :: id in idMap ==> exists i: nat :: i < drawn && idMap[id] == uuids(i)
    }

    constructor (uuids: nat -> Id)
      requires Supply(uuids)
      ensures Valid() && this.uuids == uuids && idMap == map[]
    {
      this.uuids, drawn, idMap := uuids, 0, map[];
    }

    method Bind(oldId: Id)
      requires Valid() && oldId !in idMap
      modifies this
      ensures Valid() && Grows(old(idMap), idMap) && idMap.Keys == old(idMap).Keys + {oldId}
    {
      ghost var before := idMap;
      idMap := idMap[oldId := uuids(drawn)];
      drawn := drawn + 1;
      forall id | id in idMap
        ensures exists i: nat :: i < drawn && idMap[id] == uuids(i)
      {
        if id == oldId {
          assert idMap[id] == uuids(drawn - 1);
        } else {
          assert idMap[id] == before[id];
        }
      }
    }

    /** Stable: an id already mapped keeps its name. */
    method Remap(oldId: Id) returns (newId: Id)
      requires Valid()
      modifies this
      ensures Valid() && Grows(old(idMap), idMap) && idMap.Keys == old(idMap).Keys + {oldId}
      ensures newId == Get(idMap, oldId)
    {
      if oldId !in idMap { Bind(oldId); }
      newId := idMap[oldId];
    }

    method Premap(rows: seq<Row>)
      requires Valid()
      modifies this
      ensures Valid() && Grows(old(idMap), idMap) && idMap.Keys == old(idMap).Keys + IdsOf(rows)
    {
      hide Valid, IdsOf;
      NoIds();
      assert rows[..0] == [];
      for k := 0 to |rows|
        invariant Valid() && Grows(old(idMap), idMap) && idMap.Keys == old(idMap).Keys + IdsOf(rows[..k])
      {
        IdsOfAppend(rows[..k], rows[k]);
        assert rows[..k + 1] == rows[..k] + [rows[k]];
        var _ := Remap(rows[k].id);
      }
      assert rows[..|rows|] == rows;
    }

    method ImportUsers(tenantId: Id, rows: seq<Row>) returns (copies: seq<NewRow>)
      requires Valid() && IdsOf(rows) <= idMap.Keys
      modifies this
      ensures Valid() && idMap == old(idMap) && copies == UserRows(idMap, tenantId, rows)
    {
      hide Valid;
      copies := [];
      for k := 0 to |rows|
        invariant Valid() && idMap == old(idMap) && |copies| == k
        invariant forall i :: 0 <= i < k ==> copies[i] == NewRow(Get(idMap, rows[i].id), Some(tenantId), None, None)
      {
        assert rows[k].id in IdsOf(rows);
        var id := Remap(rows[k].id);
        assert idMap == old(idMap);
        copies := copies + [NewRow(id, Some(tenantId), None, None)];
      }
    }

    method ImportBusinesses(tenantId: Id, rows: seq<Row>) returns (copies: seq<NewRow>)
      requires Valid() && IdsOf(rows) <= idMap.Keys
      modifies this
      ensures Valid() && idMap == old(idMap) && copies == BusinessRows(idMap, tenantId, idMap.Keys, rows)
    {
      hide Valid;
      copies := [];
      for k := 0 to |rows|
        invariant Valid() && idMap == old(idMap) && |copies| == k
        invariant forall i :: 0 <= i < k ==>
                    copies[i] == NewRow(Get(idMap, rows[i].id), Some(tenantId), None,
                                        Reference(idMap, idMap.Keys, rows[i].advisorId))
      {
        assert rows[k].id in IdsOf(rows);
        var id := Remap(rows[k].id);
        assert idMap == old(idMap);
        var advisorId := Lookup(rows[k].advisorId);
        copies := copies + [NewRow(id, Some(tenantId), None, advisorId)];
      }
    }

    /** `reference ? idMap.get(reference) : undefined` */
    function Lookup(reference: Option<Id>): (r: Option<Id>)
      reads this
      ensures r == Reference(idMap, idMap.Keys, reference)
    {
      if reference.None? || reference.value == "" then None
      else if reference.value in idMap then Some(idMap[reference.value]) else None
    }

    method ImportOwners(rows: seq<Row>) returns (copies: seq<NewRow>)
      requires Valid()
      modifies this
      ensures Valid() && Grows(old(idMap), idMap)
      ensures idMap.Keys == old(idMap).Keys + IdsOf(Kept(old(idMap).Keys, rows))
      ensures copies == OwnerRows(idMap, Kept(old(idMap).Keys, rows))
    {
      hide Valid, Kept, OwnerRows, IdsOf;
      copies := [];
      ghost var known := idMap.Keys;
      ghost var kept: seq<Row> := [];
      NoRows(idMap, "", known);
      assert rows[..0] == [];
      for k := 0 to |rows|
        invariant Valid() && Grows(old(idMap), idMap) && kept == Kept(known, rows[..k])
        invariant idMap.Keys == known + IdsOf(kept) && copies == OwnerRows(idMap, kept)
      {
        var owner := rows[k];
        assert rows[..k + 1] == rows[..k] + [owner];
        KeptOne(known, rows[..k], owner);
        if owner.businessId.None? || owner.businessId.value !in idMap { continue; }
        ghost var before := idMap;
        var newBizId := idMap[owner.businessId.value];
        var id := Remap(owner.id);
        KeptArePlaced(known, rows[..k]);
        assert Placed(owner, before.Keys);
        OneOwner(before, idMap, kept, owner);
        kept := kept + [owner];
        copies := copies + [NewRow(id, None, Some(newBizId), None)];
      }
      assert rows[..|rows|] == rows;
    }

    method ImportRecords(tenantId: Id, rows: seq<Row>) returns (copies: seq<NewRow>)
      requires Valid()
      modifies this
      ensures Valid() && Grows(old(idMap), idMap) && idMap.Keys == old(idMap).Keys + IdsOf(rows)
      ensures copies == RecordRows(idMap, tenantId, old(idMap).Keys, rows)
    {
      hide Valid, IdsOf, Lookup, RecordRows, Kept, OwnerRows;
      copies := [];
      ghost var known := idMap.Keys;
      NoRows(idMap, tenantId, known);
      assert rows[..0] == [];
      for k := 0 to |rows|
        invariant Valid() && Grows(old(idMap), idMap) && idMap.Keys == known + IdsOf(rows[..k])
        invariant copies == RecordRows(idMap, tenantId, known, rows[..k])
      {
        ghost var before := idMap;
        var id := Remap(rows[k].id);
        var businessId := Lookup(rows[k].businessId);
        OneRecord(before, idMap, tenantId, known, rows[..k], rows[k]);
        assert rows[..k + 1] == rows[..k] + [rows[k]];
        copies := copies + [NewRow(id, Some(tenantId), businessId, None)];
      }
      assert rows[..|rows|] == rows;
    }

    /** Refuses exactly the unsound exports, and writes nothing then. */
    method ImportTenant(data: Export) returns (r: Option<Import>)
      requires Valid() && idMap == map[]
      modifies this
      ensures Valid() && (r.Some? <==> Sound(data))
      ensures r.None? ==> idMap == map[]
      ensures r.Some? ==> r.value == Renamed(data, idMap) && idMap.Keys == Met(data)
    {
      hide Kept, UserRows, BusinessRows, OwnerRows, RecordRows, Sound, Faulty, IdsOf, Valid, Grows;
      var validation := ValidateExport(data);
      if !validation.valid { return None; }
      assert data.sourceTenantId !in idMap;
      Bind(data.sourceTenantId);
      ghost var m0 := idMap;
      var tenantId := idMap[data.sourceTenantId];
      Premap(RowsOf(data, Businesses));
      ghost var m0' := idMap;
      Premap(RowsOf(data, Users));
      assert idMap.Keys == Premapped(data);
      var users := ImportUsers(tenantId, RowsOf(data, Users));
      var businesses := ImportBusinesses(tenantId, RowsOf(data, Businesses));
      ghost var m1 := idMap;
      var owners := ImportOwners(RowsOf(data, BusinessOwners));
      ghost var m2 := idMap;
      var consents := ImportRecords(tenantId, RowsOf(data, ConsentRecords));
      ghost var m3 := idMap;
      var checks := ImportRecords(tenantId, RowsOf(data, ComplianceChecks));
      GrowsOn(m1, m2, m3, idMap, data.sourceTenantId);
      GrowsOn(m0, m0', m1, idMap, data.sourceTenantId);
      UsersStay(m1, idMap, tenantId, RowsOf(data, Users));
      BusinessesStay(m1, idMap, tenantId, Premapped(data), RowsOf(data, Businesses));
      KeptArePlaced(Premapped(data), RowsOf(data, BusinessOwners));
      SettledMore(OwnersKept(data), AfterOwners(data), m2.Keys);
      OwnersStay(m2, idMap, OwnersKept(data));
      RecordsStay(m3, idMap, tenantId, m2.Keys, RowsOf(data, ConsentRecords));
      r := Some(Import(tenantId, users, businesses, owners, consents, checks));
    }
  }

  // ---- A growing renaming keeps what was written ----

  lemma GrowsOn(m: Renaming, m1: Renaming, m2: Renaming, m3: Renaming, id: Id)
    requires Grows(m, m1) && Grows(m1, m2) && Grows(m2, m3)
    ensures Grows(m, m3) && Grows(m1, m3) && (id in m ==> Get(m3, id) == m[id])
  {
  }

  lemma UsersStay(m: Renaming, m': Renaming, tenantId: Id, rows: seq<Row>)
    requires IdsOf(rows) <= m.Keys && Grows(m, m')
    ensures UserRows(m', tenantId, rows) == UserRows(m, tenantId, rows)
  {
    forall i | 0 <= i < |rows| ensures rows[i].id in IdsOf(rows) { }
  }

  lemma BusinessesStay(m: Renaming, m': Renaming, tenantId: Id, known: set<Id>, rows: seq<Row>)
    requires IdsOf(rows) <= m.Keys && known <= m.Keys && Grows(m, m')
    ensures BusinessRows(m', tenantId, known, rows) == BusinessRows(m, tenantId, known, rows)
  {
    forall i | 0 <= i < |rows| ensures rows[i].id in IdsOf(rows) { }
  }

  lemma OwnersStay(m: Renaming, m': Renaming, rows: seq<Row>)
    requires IdsOf(rows) <= m.Keys && Grows(m, m') && Settled(rows, m.Keys)
    ensures OwnerRows(m', rows) == OwnerRows(m, rows)
  {
    forall i | 0 <= i < |rows|
      ensures rows[i].id in IdsOf(rows) && rows[i].businessId.value in m
    {
      assert Placed(rows[i], m.Keys);
    }
  }

  lemma RecordsStay(m: Renaming, m': Renaming, tenantId: Id, known: set<Id>, rows: seq<Row>)
    requires IdsOf(rows) <= m.Keys && known <= m.Keys && Grows(m, m')
    ensures RecordRows(m', tenantId, known, rows) == RecordRows(m, tenantId, known, rows)
  {
    hide RecordRow, IdsOf;
    forall i | 0 <= i < |rows|
      ensures RecordRow(m', tenantId, known, rows, i) == RecordRow(m, tenantId, known, rows, i)
    {
      Maps(m, rows, i);
      RecordStays(m, m', tenantId, known, rows, i);
    }
  }

  lemma RecordStays(m: Renaming, m': Renaming, tenantId: Id, known: set<Id>, rows: seq<Row>, i: nat)
    requires i < |rows| && rows[i].id in m && known <= m.Keys && IdsOf(rows[..i + 1]) <= m.Keys && Grows(m, m')
    ensures RecordRow(m', tenantId, known, rows, i) == RecordRow(m, tenantId, known, rows, i)
  {
    hide IdsOf;
  }

  lemma NoRows(m: Renaming, tenantId: Id, known: set<Id>)
    ensures Kept(known, []) == [] && IdsOf([]) == {}
    ensures OwnerRows(m, []) == [] && RecordRows(m, tenantId, known, []) == []
  {
  }

  lemma KeptOne(known: set<Id>, rows: seq<Row>, owner: Row)
    ensures var kept := Kept(known, rows);
            && Kept(known, rows + [owner]) == (if Placed(owner, known + IdsOf(kept)) then kept + [owner] else kept)
            && IdsOf(kept + [owner]) == IdsOf(kept) + {owner.id}
  {
    assert (rows + [owner])[..|rows|] == rows;
  }

  lemma SettledMore(rows: seq<Row>, known: set<Id>, more: set<Id>)
    requires Settled(rows, known) && known <= more
    ensures Settled(rows, more)
  {
    forall i | 0 <= i < |rows| ensures Placed(rows[i], more) { assert Placed(rows[i], known); }
  }

  /** An owner is imported only if its business is known. */
  lemma {:induction false} KeptArePlaced(known: set<Id>, rows: seq<Row>)
    ensures Settled(Kept(known, rows), known + IdsOf(Kept(known, rows)))
    decreases |rows|
  {
    if rows == [] {
    } else {
      var init, last := rows[..|rows| - 1], rows[|rows| - 1];
      var before := Kept(known, init);
      KeptArePlaced(known, init);
      IdsOfAppend(before, last);
      SettledMore(before, known + IdsOf(before), known + IdsOf(before + [last]));
    }
  }

  lemma OneOwner(m: Renaming, m': Renaming, rows: seq<Row>, owner: Row)
    requires IdsOf(rows) <= m.Keys && Settled(rows, m.Keys)
    requires Grows(m, m') && m'.Keys == m.Keys + {owner.id} && Placed(owner, m.Keys)
    ensures OwnerRows(m', rows + [owner])
            == OwnerRows(m, rows) + [NewRow(Get(m', owner.id), None, Some(Get(m, owner.businessId.value)), None)]
  {
    OwnersStay(m, m', rows);
  }

  lemma OneRecord(m: Renaming, m': Renaming, tenantId: Id, known: set<Id>, rows: seq<Row>, row: Row)
    requires m.Keys == known + IdsOf(rows) && Grows(m, m') && m'.Keys == m.Keys + {row.id}
    ensures IdsOf(rows + [row]) == IdsOf(rows) + {row.id}
    ensures RecordRows(m', tenantId, known, rows + [row])
            == RecordRows(m, tenantId, known, rows)
               + [NewRow(Get(m', row.id), Some(tenantId), Reference(m', m'.Keys, row.businessId), None)]
  {
    hide IdsOf;
    RecordsStay(m, m', tenantId, known, rows);
    IdsOfAppend(rows, row);
    var all := rows + [row];
    forall i | 0 <= i < |rows|
      ensures RecordRow(m', tenantId, known, all, i) == RecordRow(m', tenantId, known, rows, i)
    {
      assert all[..i + 1] == rows[..i + 1];
    }
    assert all[..|rows| + 1] == all && known + IdsOf(all) == m'.Keys;
  }

  // ---- What a renaming preserves ----

  /** In an export that passes validation the skip branch is dead: every owner is imported. */
  lemma {:induction false} NoOwnerIsSkipped(known: set<Id>, owners: seq<Row>)
    requires Settled(owners, known)
    ensures Kept(known, owners) == owners
    decreases |owners|
  {
    if owners == [] {
    } else {
      NoOwnerIsSkipped(known, owners[..|owners| - 1]);
      assert owners == owners[..|owners| - 1] + [owners[|owners| - 1]];
    }
  }

  /** Every owner arrives, at the imported copy of its own business, under the new tenant. */
  lemma OwnersFollowTheirBusiness(data: Export, m: Renaming, i: nat) returns (j: nat)
    requires Sound(data) && i < |RowsOf(data, BusinessOwners)|
    ensures var r := Renamed(data, m);
            && |r.owners| == |RowsOf(data, BusinessOwners)|
            && j < |RowsOf(data, Businesses)| == |r.businesses|
            && RowsOf(data, BusinessOwners)[i].businessId == Some(RowsOf(data, Businesses)[j].id)
            && r.owners[i].businessId == Some(r.businesses[j].id)
            && r.businesses[j].tenantId == Some(r.tenantId)
  {
    var owners, businesses := RowsOf(data, BusinessOwners), RowsOf(data, Businesses);
    NoOwnerIsSkipped(Premapped(data), owners);
    assert OwnersKept(data) == owners;
    assert Placed(owners[i], IdsOf(businesses));
    j :| 0 <= j < |businesses| && businesses[j].id == owners[i].businessId.value;
  }

  /** The import maps equal ids to equal ids and different ids to different ids, in every table. */
  lemma IdsStayDistinct(data: Export, m: Renaming, i: nat, j: nat)
    requires Injective(m) && m.Keys == Met(data)
    ensures var r := Renamed(data, m);
            && Apart(RowsOf(data, Users), r.users, i, j)
            && Apart(RowsOf(data, Businesses), r.businesses, i, j)
            && Apart(OwnersKept(data), r.owners, i, j)
            && Apart(RowsOf(data, ConsentRecords), r.consents, i, j)
            && Apart(RowsOf(data, ComplianceChecks), r.checks, i, j)
  {
    hide Kept, Apart, IdsOf;
    RenamedApart(m, RowsOf(data, Users), Renamed(data, m).users, i, j);
    RenamedApart(m, RowsOf(data, Businesses), Renamed(data, m).businesses, i, j);
    RenamedApart(m, OwnersKept(data), Renamed(data, m).owners, i, j);
    RenamedApart(m, RowsOf(data, ConsentRecords), Renamed(data, m).consents, i, j);
    RenamedApart(m, RowsOf(data, ComplianceChecks), Renamed(data, m).checks, i, j);
  }

  /** Two copies have the same id exactly if the rows had. */
  predicate Apart(rows: seq<Row>, copies: seq<NewRow>, i: nat, j: nat) {
    |copies| == |rows|
    && (i < |rows| && j < |rows| ==> (copies[i].id == copies[j].id <==> rows[i].id == rows[j].id))
  }

  lemma RenamedApart(m: Renaming, rows: seq<Row>, copies: seq<NewRow>, i: nat, j: nat)
    requires Injective(m) && IdsOf(rows) <= m.Keys && |copies| == |rows|
    requires forall k :: 0 <= k < |rows| ==> copies[k].id == Get(m, rows[k].id)
    ensures Apart(rows, copies, i, j)
  {
    if i < |rows| && j < |rows| {
      assert rows[i].id in IdsOf(rows) && rows[j].id in IdsOf(rows);
    }
  }

  /** Every row of the four tables with a tenant arrives, in its place, with its new id and the new tenant. */
  lemma EverythingArrives(data: Export, m: Renaming, i: nat)
    requires m.Keys == Met(data)
    ensures var r, tenant := Renamed(data, m), m[data.sourceTenantId];
            && r.tenantId == tenant
            && |r.users| == |RowsOf(data, Users)| && |r.businesses| == |RowsOf(data, Businesses)|
            && |r.consents| == |RowsOf(data, ConsentRecords)| && |r.checks| == |RowsOf(data, ComplianceChecks)|
            && (i < |r.users| ==> Arrives(RowsOf(data, Users)[i], r.users[i], m, tenant))
            && (i < |r.businesses| ==> Arrives(RowsOf(data, Businesses)[i], r.businesses[i], m, tenant))
            && (i < |r.consents| ==> Arrives(RowsOf(data, ConsentRecords)[i], r.consents[i], m, tenant))
            && (i < |r.checks| ==> Arrives(RowsOf(data, ComplianceChecks)[i], r.checks[i], m, tenant))
  {
    hide Kept, IdsOf;
    if i < |RowsOf(data, Users)| { Maps(m, RowsOf(data, Users), i); }
    if i < |RowsOf(data, Businesses)| { Maps(m, RowsOf(data, Businesses), i); }
    if i < |RowsOf(data, ConsentRecords)| { Maps(m, RowsOf(data, ConsentRecords), i); }
    if i < |RowsOf(data, ComplianceChecks)| { Maps(m, RowsOf(data, ComplianceChecks), i); }
  }

  predicate Arrives(row: Row, copy: NewRow, m: Renaming, tenant: Id) {
    row.id in m && copy.id == m[row.id] && copy.tenantId == Some(tenant)
  }

  /** A record's reference leads to the copy of the same business; it is lost exactly if its id is unknown by then. */
  ghost predicate Follows(record: Row, copy: NewRow, known: set<Id>, business: Id, renamed: Id) {
    && (record.businessId == Some(business) <==> copy.businessId == Some(renamed))
    && (copy.businessId == None
        <==> record.businessId == None || record.businessId == Some("") || record.businessId.value !in known)
  }

  /** The optional business references of consent records and compliance checks. */
  lemma RecordsKeepTheirBusiness(data: Export, m: Renaming, i: nat, j: nat)
    requires Injective(m) && m.Keys == Met(data)
    requires j < |RowsOf(data, Businesses)| && RowsOf(data, Businesses)[j].id != ""
    ensures var r, business := Renamed(data, m), RowsOf(data, Businesses)[j];
            var consents, checks := RowsOf(data, ConsentRecords), RowsOf(data, ComplianceChecks);
            && (i < |consents| ==>
                  Follows(consents[i], r.consents[i], AfterOwners(data) + IdsOf(consents[..i + 1]),
                          business.id, r.businesses[j].id))
            && (i < |checks| ==>
                  Follows(checks[i], r.checks[i], AfterConsents(data) + IdsOf(checks[..i + 1]),
                          business.id, r.businesses[j].id))
  {
    var tenantId, businesses := Get(m, data.sourceTenantId), RowsOf(data, Businesses);
    assert businesses[j].id in IdsOf(businesses);
    hide Kept, IdsOf, Follows, RecordRow;
    var consents, checks := RowsOf(data, ConsentRecords), RowsOf(data, ComplianceChecks);
    if i < |consents| { RecordFollows(m, tenantId, AfterOwners(data), consents, i, businesses[j].id); }
    if i < |checks| { RecordFollows(m, tenantId, AfterConsents(data), checks, i, businesses[j].id); }
  }

  lemma RecordFollows(m: Renaming, tenantId: Id, known: set<Id>, rows: seq<Row>, i: nat, business: Id)
    requires Injective(m) && known <= m.Keys && IdsOf(rows) <= m.Keys && i < |rows|
    requires business in known && business != ""
    ensures Follows(rows[i], RecordRow(m, tenantId, known, rows, i), known + IdsOf(rows[..i + 1]),
                    business, Get(m, business))
  {
    hide IdsOf;
    Maps(m, rows, i);
  }

  /** An advisor who is a user of the export is still the business's advisor. */
  lemma AdvisorsAreKept(data: Export, m: Renaming, i: nat, j: nat)
    requires Injective(m) && m.Keys == Met(data)
    requires i < |RowsOf(data, Businesses)| && j < |RowsOf(data, Users)| && RowsOf(data, Users)[j].id != ""
    ensures RowsOf(data, Businesses)[i].advisorId == Some(RowsOf(data, Users)[j].id)
       <==> Renamed(data, m).businesses[i].advisorId == Some(Renamed(data, m).users[j].id)
  {
    var users := RowsOf(data, Users);
    assert users[j].id in IdsOf(users) && users[j].id in m;
  }

  /** Every id in a row, its references included. */
  function Names(row: NewRow): set<Id> {
    {row.id} + (if row.tenantId.Some? then {row.tenantId.value} else {})
    + (if row.businessId.Some? then {row.businessId.value} else {})
    + if row.advisorId.Some? then {row.advisorId.value} else {}
  }

  predicate Holds(r: Import, row: NewRow) {
    row in r.users || row in r.businesses || row in r.owners || row in r.consents || row in r.checks
  }

  /** Nothing in the import carries anything but a name given out by the renaming. */
  lemma OnlyNewNames(data: Export, m: Renaming, row: NewRow)
    requires m.Keys == Met(data) && Holds(Renamed(data, m), row)
    ensures Names(row) <= m.Values && Renamed(data, m).tenantId in m.Values
  {
    hide Kept, Names, UserRows, BusinessRows, OwnerRows, RecordRows, IdsOf;
    var r := Renamed(data, m);
    assert data.sourceTenantId in m && m[data.sourceTenantId] in m.Values;
    if row in r.users {
      var i :| 0 <= i < |r.users| && r.users[i] == row;
      UserNames(m, r.tenantId, RowsOf(data, Users), i);
    } else if row in r.businesses {
      var i :| 0 <= i < |r.businesses| && r.businesses[i] == row;
      BusinessNames(m, r.tenantId, Premapped(data), RowsOf(data, Businesses), i);
    } else if row in r.owners {
      var i :| 0 <= i < |r.owners| && r.owners[i] == row;
      KeptArePlaced(Premapped(data), RowsOf(data, BusinessOwners));
      SettledMore(OwnersKept(data), AfterOwners(data), m.Keys);
      OwnerNames(m, OwnersKept(data), i);
    } else if row in r.consents {
      var i :| 0 <= i < |r.consents| && r.consents[i] == row;
      RecordNames(m, r.tenantId, AfterOwners(data), RowsOf(data, ConsentRecords), i);
    } else {
      var i :| 0 <= i < |r.checks| && r.checks[i] == row;
      RecordNames(m, r.tenantId, AfterConsents(data), RowsOf(data, ComplianceChecks), i);
    }
  }

  lemma UserNames(m: Renaming, tenantId: Id, rows: seq<Row>, i: nat)
    requires IdsOf(rows) <= m.Keys && tenantId in m.Values && i < |rows|
    ensures Names(UserRows(m, tenantId, rows)[i]) <= m.Values
  {
    Maps(m, rows, i);
  }

  lemma BusinessNames(m: Renaming, tenantId: Id, known: set<Id>, rows: seq<Row>, i: nat)
    requires IdsOf(rows) <= m.Keys && known <= m.Keys && tenantId in m.Values && i < |rows|
    ensures Names(BusinessRows(m, tenantId, known, rows)[i]) <= m.Values
  {
    Maps(m, rows, i);
  }

  lemma OwnerNames(m: Renaming, rows: seq<Row>, i: nat)
    requires IdsOf(rows) <= m.Keys && i < |rows| && Settled(rows, m.Keys)
    ensures Names(OwnerRows(m, rows)[i]) <= m.Values
  {
    assert Placed(rows[i], m.Keys);
    Maps(m, rows, i);
  }

  lemma RecordNames(m: Renaming, tenantId: Id, known: set<Id>, rows: seq<Row>, i: nat)
    requires IdsOf(rows) <= m.Keys && known <= m.Keys && tenantId in m.Values && i < |rows|
    ensures Names(RecordRows(m, tenantId, known, rows)[i]) <= m.Values
  {
    hide IdsOf;
    Maps(m, rows, i);
  }

  /** Every id in the file. */
  function OldIds(data: Export): set<Id> {
    {data.sourceTenantId}
    + (set t, row | t in data.arrays && row in data.arrays[t] :: row.id)
    + (set t, row | t in data.arrays && row in data.arrays[t] && row.businessId.Some? :: row.businessId.value)
    + (set t, row | t in data.arrays && row in data.arrays[t] && row.advisorId.Some? :: row.advisorId.value)
  }

  /** If no UUID drawn is an id of the file, no id of the file survives the import. */
  lemma NoOldIdSurvives(data: Export, m: Renaming, row: NewRow, uuids: nat -> Id)
    requires m.Keys == Met(data) && Holds(Renamed(data, m), row)
    requires forall id :: id in m ==> exists i: nat :: m[id] == uuids(i)
    requires forall i: nat :: uuids(i) !in OldIds(data)
    ensures Names(row) !! OldIds(data) && Renamed(data, m).tenantId !in OldIds(data)
  {
    hide Renamed, Names, OldIds, Met, Holds;
    OnlyNewNames(data, m, row);
    forall name | name in m.Values
      ensures name !in OldIds(data)
    {
      var id :| id in m && m[id] == name;
      var i: nat :| m[id] == uuids(i);
    }
  }

  lemma Maps(m: Renaming, rows: seq<Row>, i: nat)
    requires i < |rows| && IdsOf(rows) <= m.Keys
    ensures rows[i].id in m && Get(m, rows[i].id) in m.Values && IdsOf(rows[..i + 1]) <= m.Keys
  {
    assert rows[i].id in IdsOf(rows);
    assert IdsOf(rows[..i + 1]) <= IdsOf(rows);
  }
}
