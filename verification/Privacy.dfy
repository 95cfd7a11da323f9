/** Customer redaction and export (src/server/privacy.js) over the row store (src/storage/store.js). */
module Privacy {
  import opened Wrappers
  import opened KeyOrder
  import opened Whitespace

  // ---------------------------------------------------------------- rows

  datatype Value = Null | Str(text: string) | Num(n: int) | Flag(on: bool) | EmptyList

  /** The fields that the code names, and every other one. */
  datatype Field =
    | StoreId | Identity | Email | CustomerEmail | CustomerId | CustomerIdCamel
    | Phone | CustomerPhone | PhoneNumber | CustomerName | CustomerEmailName | Name
    | ViewedProducts | ChannelsResponded | GdprDeleted | UpdatedAt | OtherField(title: string)

  datatype Row = Row(id: string, fields: map<Field, Value>)

  datatype Collection =
    | Customers | Leads
    | Users | Connectors | SecretLedger | TwoFactorSecrets | AuditLog | EmailSuppressions
    | ChannelSuppressions | MonitoringEvents | PasswordResets
    | OtherCollection(title: string)

  type Tables = map<Collection, seq<Row>>

  type Patch = map<Field, Value>

  predicate PlatformGlobal(c: Collection) {
    c in {Users, Connectors, SecretLedger, TwoFactorSecrets, AuditLog, EmailSuppressions,
          ChannelSuppressions, MonitoringEvents, PasswordResets}
  }

  function Redactable(collections: seq<Collection>): (names: seq<Collection>)
    ensures forall c :: c in names <==> c in collections && !PlatformGlobal(c)
  {
    if collections == [] then []
    else (if PlatformGlobal(collections[0]) then [] else [collections[0]]) + Redactable(collections[1..])
  }

  /** A missing field reads like a null one. */
  function Get(row: Row, f: Field): Value {
    if f in row.fields then row.fields[f] else Null
  }

  predicate Truthy(v: Value) {
    match v
    case Null => false
    case Str(s) => s != ""
    case Num(n) => n != 0
    case Flag(on) => on
    case EmptyList => true
  }

  const ID_FIELDS: set<Field> := {CustomerId, CustomerIdCamel}

  const EMAIL_FIELDS: set<Field> := {Email, CustomerEmail}

  const PHONE_FIELDS: set<Field> := {Phone, CustomerPhone, PhoneNumber}

  const NAME_FIELDS: set<Field> := {CustomerName, CustomerEmailName}

  function Clearable(c: Collection): set<Field> {
    EMAIL_FIELDS + PHONE_FIELDS + NAME_FIELDS + if c == Leads then {Name} else {}
  }

  /** `rowMatchesCustomer`. */
  predicate RowMatches(row: Row, ids: set<Value>) {
    exists f :: f in ID_FIELDS + EMAIL_FIELDS + PHONE_FIELDS && Get(row, f) != Null && Get(row, f) in ids
  }

  /** Whether a redaction touches the row. */
  predicate Hit(c: Collection, row: Row, ids: set<Value>) {
    if c == Customers
    then Get(row, Identity) in ids || Get(row, Email) in ids || (Get(row, Phone) != Null && Get(row, Phone) in ids)
    else RowMatches(row, ids)
  }

  /** Whether an export includes the row. */
  predicate Exported(c: Collection, row: Row, ids: set<Value>) {
    if c == Customers then Get(row, Identity) in ids || Get(row, Email) in ids else RowMatches(row, ids)
  }

  function ScrubPatch(c: Collection, row: Row): Patch {
    map f | f in ID_FIELDS + Clearable(c) && Get(row, f) != Null :: if f in ID_FIELDS then Str("anon") else Null
  }

  function AnonIdentity(id: string): Value {
    Str("anon:" + id)
  }

  function ProfilePatch(row: Row): Patch {
    map[Identity := AnonIdentity(row.id), Email := Null, Phone := Null,
        ViewedProducts := EmptyList, ChannelsResponded := EmptyList, GdprDeleted := Flag(true)]
  }

  function PatchFor(c: Collection, row: Row): Patch {
    if c == Customers then ProfilePatch(row) else ScrubPatch(c, row)
  }

  function Patched(row: Row, patch: Patch, now: int): Row {
    Row(row.id, (row.fields + patch)[UpdatedAt := Num(now)])
  }

  predicate OfStore(row: Row, store: string) {
    Get(row, StoreId) == Str(store)
  }

  /** `find({ store_id })`. */
  function ForStore(rows: seq<Row>, store: string): seq<Row> {
    if rows == [] then []
    else (if OfStore(rows[0], store) then [rows[0]] else []) + ForStore(rows[1..], store)
  }

  /** `findOne({ store_id, identity })`. */
  function FindProfile(rows: seq<Row>, store: string, customer: string): (found: Option<Row>)
    ensures found.Some? ==>
      found.value in rows && OfStore(found.value, store) && Get(found.value, Identity) == Str(customer)
    ensures found == None <==> forall row :: row in rows && OfStore(row, store) ==> Get(row, Identity) != Str(customer)
  {
    if rows == [] then None
    else if OfStore(rows[0], store) && Get(rows[0], Identity) == Str(customer) then Some(rows[0])
    else FindProfile(rows[1..], store, customer)
  }

  function Rows(t: Tables, c: Collection): seq<Row> {
    if c in t then t[c] else []
  }

  /** The identifiers that a profile adds: its email and its phone, where it has them. */
  function ProfileIdentifiers(profile: Row): set<Value> {
    (if Truthy(Get(profile, Email)) then {Get(profile, Email)} else {})
    + (if Truthy(Get(profile, Phone)) then {Get(profile, Phone)} else {})
  }

  function Identifiers(t: Tables, store: string, customer: string): (ids: set<Value>)
    ensures Str(customer) in ids && Null !in ids
  {
    match FindProfile(Rows(t, Customers), store, customer)
    case Some(profile) => {Str(customer)} + ProfileIdentifiers(profile)
    case None => {Str(customer)}
  }

  /** `update(id, patch)`. */
  function UpdateRows(rows: seq<Row>, id: string, patch: Patch, now: int): (rows': seq<Row>)
    ensures |rows'| == |rows|
    ensures forall i :: 0 <= i < |rows| ==> rows'[i] == if rows[i].id == id then Patched(rows[i], patch, now) else rows[i]
  {
    seq(|rows|, i requires 0 <= i < |rows| => if rows[i].id == id then Patched(rows[i], patch, now) else rows[i])
  }

  function Update(t: Tables, c: Collection, id: string, patch: Patch, now: int): Tables {
    t[c := UpdateRows(Rows(t, c), id, patch, now)]
  }

  // ---------------------------------------------------------------- redaction on values

  /** The tables, and what has been counted so far. */
  datatype Progress = Progress(tables: Tables, perCollection: map<Collection, nat>, total: nat)

  function Counted(per: map<Collection, nat>, c: Collection): nat {
    if c in per then per[c] else 0
  }

  function ScrubRow(p: Progress, c: Collection, row: Row, ids: set<Value>, now: int): Progress {
    if !Hit(c, row, ids) || PatchFor(c, row) == map[] then p
    else Progress(Update(p.tables, c, row.id, PatchFor(c, row), now),
                  p.perCollection[c := Counted(p.perCollection, c) + 1], p.total + 1)
  }

  function ScrubRows(p: Progress, c: Collection, rows: seq<Row>, ids: set<Value>, now: int): Progress {
    if rows == [] then p
    else ScrubRow(ScrubRows(p, c, rows[..|rows| - 1], ids, now), c, rows[|rows| - 1], ids, now)
  }

  lemma ScrubRowsNext(p: Progress, c: Collection, rows: seq<Row>, j: nat, ids: set<Value>, now: int)
    requires j < |rows|
    ensures ScrubRows(p, c, rows[..j + 1], ids, now) == ScrubRow(ScrubRows(p, c, rows[..j], ids, now), c, rows[j], ids, now)
  {
    assert rows[..j + 1][..j] == rows[..j];
  }

  function ScrubCollection(p: Progress, c: Collection, store: string, ids: set<Value>, now: int): Progress {
    if c !in p.tables then p else ScrubRows(p, c, ForStore(p.tables[c], store), ids, now)
  }

  function ScrubCollections(p: Progress, names: seq<Collection>, store: string, ids: set<Value>, now: int): Progress {
    if names == [] then p
    else ScrubCollection(ScrubCollections(p, names[..|names| - 1], store, ids, now), names[|names| - 1], store, ids, now)
  }

  lemma ScrubCollectionsNext(p: Progress, names: seq<Collection>, i: nat, store: string, ids: set<Value>, now: int)
    requires i < |names|
    ensures ScrubCollections(p, names[..i + 1], store, ids, now)
         == ScrubCollection(ScrubCollections(p, names[..i], store, ids, now), names[i], store, ids, now)
  {
    assert names[..i + 1][..i] == names[..i];
  }

  function Redact(t: Tables, collections: seq<Collection>, store: string, customer: string, now: int): Progress {
    ScrubCollections(Progress(t, map[], 0), Redactable(collections), store, Identifiers(t, store, customer), now)
  }

  datatype Outcome = Refused | Redacted(perCollection: map<Collection, nat>, total: nat)

  datatype Export = NoExport | Export(perCollection: map<Collection, seq<Row>>, total: nat)

  function Matching(c: Collection, rows: seq<Row>, ids: set<Value>): seq<Row> {
    if rows == [] then []
    else (if Exported(c, rows[0], ids) then [rows[0]] else []) + Matching(c, rows[1..], ids)
  }

  function CollectStep(so: Export, t: Tables, c: Collection, store: string, ids: set<Value>): Export {
    var found := Matching(c, ForStore(Rows(t, c), store), ids);
    if c !in t || found == [] || so.NoExport? then so
    else Export(so.perCollection[c := found], so.total + |found|)
  }

  function CollectFrom(t: Tables, names: seq<Collection>, store: string, ids: set<Value>): Export {
    if names == [] then Export(map[], 0)
    else CollectStep(CollectFrom(t, names[..|names| - 1], store, ids), t, names[|names| - 1], store, ids)
  }

  function Collect(t: Tables, collections: seq<Collection>, store: string, customer: string): Export {
    CollectFrom(t, Redactable(collections), store, Identifiers(t, store, customer))
  }

  // ---------------------------------------------------------------- the operations on the store

  class PlatformStore {
    const collections: seq<Collection>
    var tables: Tables

    constructor (collections: seq<Collection>, tables: Tables)
      ensures this.collections == collections && this.tables == tables
    {
      this.collections := collections;
      this.tables := tables;
    }

    method Find(c: Collection, store: string) returns (found: seq<Row>)
      ensures found == ForStore(Rows(tables, c), store)
    {
      found := ForStore(Rows(tables, c), store);
    }

    method ResolveIdentifiers(store: string, customer: string) returns (ids: set<Value>)
      ensures ids == Identifiers(tables, store, customer)
    {
      ids := {Str(customer)};
      var profile := FindProfile(Rows(tables, Customers), store, customer);
      if profile.Some? {
        if Truthy(Get(profile.value, Email)) { ids := ids + {Get(profile.value, Email)}; }
        if Truthy(Get(profile.value, Phone)) { ids := ids + {Get(profile.value, Phone)}; }
      }
    }

    /** Patch one row if it matches, adding to the counts. */
    method ScrubOne(c: Collection, row: Row, ids: set<Value>, now: int,
                    perCollection: map<Collection, nat>, total: nat)
      returns (perCollection': map<Collection, nat>, total': nat)
      modifies this
      ensures Progress(tables, perCollection', total')
           == ScrubRow(Progress(old(tables), perCollection, total), c, row, ids, now)
    {
      perCollection', total' := perCollection, total;
      if Hit(c, row, ids) {
        var patch := PatchFor(c, row);
        if patch != map[] {
          tables := Update(tables, c, row.id, patch, now);
          perCollection' := perCollection[c := Counted(perCollection, c) + 1];
          total' := total + 1;
        }
      }
    }

    /** Scrub the rows of this store in one collection, adding to the counts. */
    method ScrubTable(c: Collection, store: string, ids: set<Value>, now: int,
                      perCollection: map<Collection, nat>, total: nat)
      returns (perCollection': map<Collection, nat>, total': nat)
      requires c in tables
      modifies this
      ensures Progress(tables, perCollection', total')
           == ScrubRows(Progress(old(tables), perCollection, total), c, ForStore(old(tables[c]), store), ids, now)
    {
      perCollection', total' := perCollection, total;
      ghost var p := Progress(tables, perCollection, total);
      var rows := Find(c, store);
      for j := 0 to |rows|
        invariant Progress(tables, perCollection', total') == ScrubRows(p, c, rows[..j], ids, now)
      {
        ScrubRowsNext(p, c, rows, j, ids, now);
        perCollection', total' := ScrubOne(c, rows[j], ids, now, perCollection', total');
      }
      assert rows[..|rows|] == rows;
    }

    /** Scrub the customer's identifiers out of every store-scoped collection. */
    method RedactCustomerData(store: string, customer: string, now: int) returns (outcome: Outcome)
      modifies this
      ensures !HasText(store) || customer == "" ==> outcome == Refused && tables == old(tables)
      ensures HasText(store) && customer != "" ==>
        var p := Redact(old(tables), collections, store, customer, now);
        tables == p.tables && outcome == Redacted(p.perCollection, p.total)
    {
      if !HasText(store) || customer == "" { return Refused; }
      var ids := ResolveIdentifiers(store, customer);
      var names := Redactable(collections);
      var perCollection: map<Collection, nat> := map[];
      var total: nat := 0;
      ghost var p := Progress(tables, map[], 0);
      for i := 0 to |names|
        invariant Progress(tables, perCollection, total) == ScrubCollections(p, names[..i], store, ids, now)
      {
        ScrubCollectionsNext(p, names, i, store, ids, now);
        if names[i] in tables {
          perCollection, total := ScrubTable(names[i], store, ids, now, perCollection, total);
        }
      }
      assert names[..|names|] == names;
      outcome := Redacted(perCollection, total);
    }

    /** Add one collection's matching rows to the export. */
    method CollectOne(c: Collection, store: string, ids: set<Value>, perCollection: map<Collection, seq<Row>>, total: nat)
      returns (perCollection': map<Collection, seq<Row>>, total': nat)
      ensures Export(perCollection', total') == CollectStep(Export(perCollection, total), tables, c, store, ids)
    {
      perCollection', total' := perCollection, total;
      if c in tables {
        var rows := Find(c, store);
        var matches := Matching(c, rows, ids);
        if |matches| > 0 {
          perCollection' := perCollection[c := matches];
          total' := total + |matches|;
        }
      }
    }

    /** Collect every record held about the customer. */
    method CollectCustomerData(store: string, customer: string) returns (answer: Export)
      ensures answer == if !HasText(store) then NoExport else Collect(tables, collections, store, customer)
    {
      if !HasText(store) { return NoExport; }
      var ids := ResolveIdentifiers(store, customer);
      var names := Redactable(collections);
      var perCollection: map<Collection, seq<Row>> := map[];
      var total: nat := 0;
      for i := 0 to |names|
        invariant Export(perCollection, total) == CollectFrom(tables, names[..i], store, ids)
      {
        assert names[..i + 1][..i] == names[..i];
        perCollection, total := CollectOne(names[i], store, ids, perCollection, total);
      }
      assert names[..|names|] == names;
      answer := Export(perCollection, total);
    }
  }

  // ---------------------------------------------------------------- one row

  /** What remains of an identifier after the scrub: the placeholder is itself an identifier. */
  predicate Residual(c: Collection, row: Row, ids: set<Value>) {
    if c == Customers then AnonIdentity(row.id) in ids
    else Str("anon") in ids && exists f :: f in ID_FIELDS && Get(row, f) != Null
  }

  /** A row that matches has something to scrub. */
  lemma HitHasPatch(c: Collection, row: Row, ids: set<Value>)
    requires Hit(c, row, ids)
    ensures PatchFor(c, row) != map[]
  {
    if c == Customers {
      assert Identity in ProfilePatch(row);
    } else {
      var f :| f in ID_FIELDS + EMAIL_FIELDS + PHONE_FIELDS && Get(row, f) != Null && Get(row, f) in ids;
      assert f in ScrubPatch(c, row);
    }
  }

  lemma ScrubbedField(c: Collection, row: Row, now: int, f: Field)
    requires c != Customers && f in ID_FIELDS + EMAIL_FIELDS + PHONE_FIELDS
    ensures Get(Patched(row, ScrubPatch(c, row), now), f)
         == if Get(row, f) != Null && f in ID_FIELDS then Str("anon") else Null
  {
  }

  /** A scrubbed row still matches exactly when a placeholder is one of the identifiers. */
  lemma ScrubbedHitIff(c: Collection, row: Row, ids: set<Value>, now: int)
    requires Null !in ids
    ensures Hit(c, Patched(row, PatchFor(c, row), now), ids) <==> Residual(c, row, ids)
  {
    var row' := Patched(row, PatchFor(c, row), now);
    if c == Customers {
    } else {
      forall f | f in ID_FIELDS + EMAIL_FIELDS + PHONE_FIELDS
        ensures Get(row', f) == if Get(row, f) != Null && f in ID_FIELDS then Str("anon") else Null
      {
        ScrubbedField(c, row, now, f);
      }
      if Residual(c, row, ids) {
        var f :| f in ID_FIELDS && Get(row, f) != Null;
        assert f in ID_FIELDS + EMAIL_FIELDS + PHONE_FIELDS && Get(row', f) == Str("anon");
      }
    }
  }

  /** The row that a redaction leaves in place of `row`. */
  function RedactedRow(c: Collection, row: Row, store: string, ids: set<Value>, now: int): Row {
    if OfStore(row, store) && Hit(c, row, ids) then Patched(row, PatchFor(c, row), now) else row
  }

  // ---------------------------------------------------------------- whole tables

  ghost predicate UniqueIds(rows: seq<Row>) {
    forall i, j :: 0 <= i < j < |rows| ==> rows[i].id != rows[j].id
  }

  ghost predicate Valid(t: Tables) {
    forall c :: c in t ==> UniqueIds(t[c])
  }

  lemma {:induction false} ForStoreHas(rows: seq<Row>, store: string, row: Row)
    ensures row in ForStore(rows, store) <==> row in rows && OfStore(row, store)
  {
    if rows != [] {
      ForStoreHas(rows[1..], store, row);
      assert row in rows <==> row == rows[0] || row in rows[1..];
    }
  }

  lemma {:induction false} MatchingHas(c: Collection, rows: seq<Row>, ids: set<Value>, row: Row)
    ensures row in Matching(c, rows, ids) <==> row in rows && Exported(c, row, ids)
  {
    if rows != [] {
      MatchingHas(c, rows[1..], ids, row);
      assert row in rows <==> row == rows[0] || row in rows[1..];
    }
  }

  lemma {:induction false} ForStoreKeepsUnique(rows: seq<Row>, store: string)
    requires UniqueIds(rows)
    ensures UniqueIds(ForStore(rows, store))
  {
    if rows != [] {
      ForStoreKeepsUnique(rows[1..], store);
      var rest := ForStore(rows[1..], store);
      forall j | 0 <= j < |rest|
        ensures rest[j].id != rows[0].id
      {
        ForStoreHas(rows[1..], store, rest[j]);
        assert rest[j] in rows[1..];
      }
    }
  }

  lemma LastOfRows(table: seq<Row>, rows: seq<Row>, row: Row)
    requires UniqueIds(table) && UniqueIds(rows) && rows != [] && row in table && rows[|rows| - 1] in table
    ensures var front, last := rows[..|rows| - 1], rows[|rows| - 1];
      && (row in rows <==> row in front || row == last)
      && (row.id == last.id <==> row == last) && (row == last ==> row !in front)
  {
    var front, last := rows[..|rows| - 1], rows[|rows| - 1];
    assert rows == front + [last];
  }

  /** Scrubbing `rows`, all of them rows of the collection, changes just the matching ones. */
  lemma {:induction false} ScrubRowsAt(p: Progress, c: Collection, rows: seq<Row>, ids: set<Value>, now: int, i: nat)
    requires c in p.tables && UniqueIds(p.tables[c]) && UniqueIds(rows) && i < |p.tables[c]|
    requires forall k :: 0 <= k < |rows| ==> rows[k] in p.tables[c]
    ensures var p' := ScrubRows(p, c, rows, ids, now);
      && c in p'.tables && |p'.tables[c]| == |p.tables[c]|
      && p'.tables[c][i] == if p.tables[c][i] in rows && Hit(c, p.tables[c][i], ids)
                            then Patched(p.tables[c][i], PatchFor(c, p.tables[c][i]), now)
                            else p.tables[c][i]
    decreases |rows|
  {
    if rows != [] {
      var front, last := rows[..|rows| - 1], rows[|rows| - 1];
      assert forall k :: 0 <= k < |front| ==> front[k] == rows[k];
      ScrubRowsAt(p, c, front, ids, now, i);
      LastOfRows(p.tables[c], rows, p.tables[c][i]);
      ScrubRowTables(ScrubRows(p, c, front, ids, now), c, last, ids, now);
    }
  }

  /** One step of the scrub leaves the tables alone or updates one row. */
  lemma ScrubRowTables(p: Progress, c: Collection, row: Row, ids: set<Value>, now: int)
    ensures ScrubRow(p, c, row, ids, now).tables
         == if Hit(c, row, ids) then Update(p.tables, c, row.id, PatchFor(c, row), now) else p.tables
  {
    if Hit(c, row, ids) { HitHasPatch(c, row, ids); }
  }

  lemma {:induction false} ScrubRowsElsewhere(p: Progress, c: Collection, rows: seq<Row>, ids: set<Value>, now: int,
                                              d: Collection)
    requires d != c
    ensures Rows(ScrubRows(p, c, rows, ids, now).tables, d) == Rows(p.tables, d)
    ensures d in ScrubRows(p, c, rows, ids, now).tables <==> d in p.tables
    decreases |rows|
  {
    if rows != [] {
      var front, last := rows[..|rows| - 1], rows[|rows| - 1];
      ScrubRowsElsewhere(p, c, front, ids, now, d);
      ScrubRowTables(ScrubRows(p, c, front, ids, now), c, last, ids, now);
    }
  }

  function HitCount(c: Collection, rows: seq<Row>, ids: set<Value>): nat {
    if rows == [] then 0
    else HitCount(c, rows[..|rows| - 1], ids) + if Hit(c, rows[|rows| - 1], ids) then 1 else 0
  }

  /** The counts with `n` more rows for the collection. */
  function Tally(per: map<Collection, nat>, c: Collection, n: nat): map<Collection, nat> {
    if n == 0 then per else per[c := Counted(per, c) + n]
  }

  lemma TallyTwice(per: map<Collection, nat>, c: Collection, m: nat, n: nat)
    ensures Tally(Tally(per, c, m), c, n) == Tally(per, c, m + n)
  {
  }

  lemma ScrubRowCount(p: Progress, c: Collection, row: Row, ids: set<Value>, now: int)
    ensures var p', n := ScrubRow(p, c, row, ids, now), if Hit(c, row, ids) then 1 else 0;
      p'.total == p.total + n && p'.perCollection == Tally(p.perCollection, c, n)
  {
    if Hit(c, row, ids) { HitHasPatch(c, row, ids); }
  }

  lemma ScrubRowAddsOne(p: Progress, p1: Progress, c: Collection, m: nat, row: Row, ids: set<Value>, now: int)
    requires p1.total == p.total + m && p1.perCollection == Tally(p.perCollection, c, m)
    ensures var p', n := ScrubRow(p1, c, row, ids, now), m + if Hit(c, row, ids) then 1 else 0;
      p'.total == p.total + n && p'.perCollection == Tally(p.perCollection, c, n)
  {
    ScrubRowCount(p1, c, row, ids, now);
    TallyTwice(p.perCollection, c, m, if Hit(c, row, ids) then 1 else 0);
  }

  /** `p'` is `p` with the matching rows among `rows` counted. */
  predicate CountsHits(p: Progress, p': Progress, c: Collection, rows: seq<Row>, ids: set<Value>) {
    && p'.total == p.total + HitCount(c, rows, ids)
    && p'.perCollection == Tally(p.perCollection, c, HitCount(c, rows, ids))
  }

  lemma ScrubLastCounts(p: Progress, p1: Progress, c: Collection, rows: seq<Row>, ids: set<Value>, now: int)
    requires rows != [] && CountsHits(p, p1, c, rows[..|rows| - 1], ids)
    ensures CountsHits(p, ScrubRow(p1, c, rows[|rows| - 1], ids, now), c, rows, ids)
  {
    ScrubRowAddsOne(p, p1, c, HitCount(c, rows[..|rows| - 1], ids), rows[|rows| - 1], ids, now);
  }

  lemma {:induction false} ScrubRowsCount(p: Progress, c: Collection, rows: seq<Row>, ids: set<Value>, now: int)
    ensures CountsHits(p, ScrubRows(p, c, rows, ids, now), c, rows, ids)
    decreases |rows|
  {
    if rows != [] {
      ScrubRowsCount(p, c, rows[..|rows| - 1], ids, now);
      ScrubLastCounts(p, ScrubRows(p, c, rows[..|rows| - 1], ids, now), c, rows, ids, now);
    }
  }

  /** The collection after its rows of this store have been inspected. */
  ghost predicate RedactedRows(c: Collection, before: seq<Row>, after: seq<Row>, store: string, ids: set<Value>, now: int) {
    && |after| == |before|
    && forall i :: 0 <= i < |before| ==> after[i] == RedactedRow(c, before[i], store, ids, now)
  }

  lemma ScrubCollectionAt(p: Progress, c: Collection, store: string, ids: set<Value>, now: int)
    requires c in p.tables ==> UniqueIds(p.tables[c])
    ensures var t := ScrubCollection(p, c, store, ids, now).tables;
      && (c in t <==> c in p.tables)
      && RedactedRows(c, Rows(p.tables, c), Rows(t, c), store, ids, now)
      && forall d :: d != c ==> Rows(t, d) == Rows(p.tables, d) && (d in t <==> d in p.tables)
  {
    if c in p.tables {
      var rows := ForStore(p.tables[c], store);
      ForStoreKeepsUnique(p.tables[c], store);
      forall k | 0 <= k < |rows|
        ensures rows[k] in p.tables[c]
      {
        ForStoreHas(p.tables[c], store, rows[k]);
      }
      forall d | d != c
        ensures Rows(ScrubRows(p, c, rows, ids, now).tables, d) == Rows(p.tables, d)
        ensures d in ScrubRows(p, c, rows, ids, now).tables <==> d in p.tables
      {
        ScrubRowsElsewhere(p, c, rows, ids, now, d);
      }
      if |p.tables[c]| == 0 { assert rows == []; }
      forall i: nat | i < |p.tables[c]|
        ensures var t := ScrubRows(p, c, rows, ids, now).tables;
          c in t && |t[c]| == |p.tables[c]| && t[c][i] == RedactedRow(c, p.tables[c][i], store, ids, now)
      {
        ScrubRowsAt(p, c, rows, ids, now, i);
        ForStoreHas(p.tables[c], store, p.tables[c][i]);
      }
    }
  }

  /** What a redaction does to every table: the store's matching rows of the inspected
      collections are patched, and nothing else changes. */
  lemma {:induction false} ScrubCollectionsAt(p: Progress, names: seq<Collection>, store: string, ids: set<Value>,
                                              now: int, c: Collection)
    requires Valid(p.tables) && Distinct(names)
    ensures var t := ScrubCollections(p, names, store, ids, now).tables;
      && (c in t <==> c in p.tables)
      && if c in names then RedactedRows(c, Rows(p.tables, c), Rows(t, c), store, ids, now)
         else Rows(t, c) == Rows(p.tables, c)
    decreases |names|
  {
    if names != [] {
      var front, last := names[..|names| - 1], names[|names| - 1];
      assert last !in front && forall x :: x in names <==> x in front || x == last;
      ScrubCollectionsAt(p, front, store, ids, now, c);
      ScrubCollectionsAt(p, front, store, ids, now, last);
      ScrubCollectionAt(ScrubCollections(p, front, store, ids, now), last, store, ids, now);
    }
  }

  lemma {:induction false} RedactableDistinct(collections: seq<Collection>)
    requires Distinct(collections)
    ensures Distinct(Redactable(collections))
  {
    if collections != [] {
      RedactableDistinct(collections[1..]);
      var rest := Redactable(collections[1..]);
      assert forall j :: 0 <= j < |rest| ==> rest[j] in collections[1..];
    }
  }

  /** The redacted tables, collection by collection. */
  lemma RedactAt(t: Tables, collections: seq<Collection>, store: string, customer: string, now: int, c: Collection)
    requires Valid(t) && Distinct(collections)
    ensures var t' := Redact(t, collections, store, customer, now).tables;
      && (c in t' <==> c in t)
      && if c in collections && !PlatformGlobal(c)
         then RedactedRows(c, Rows(t, c), Rows(t', c), store, Identifiers(t, store, customer), now)
         else Rows(t', c) == Rows(t, c)
  {
    RedactableDistinct(collections);
    ScrubCollectionsAt(Progress(t, map[], 0), Redactable(collections), store, Identifiers(t, store, customer), now, c);
  }

  // ---------------------------------------------------------------- completeness

  /** Some row of this store in an inspected collection matches. */
  ghost predicate SomeHit(t: Tables, collections: seq<Collection>, store: string, ids: set<Value>) {
    exists c, i :: c in collections && !PlatformGlobal(c) && 0 <= i < |Rows(t, c)|
      && OfStore(Rows(t, c)[i], store) && Hit(c, Rows(t, c)[i], ids)
  }

  /** Some matching row carries a placeholder that is itself one of the identifiers. */
  ghost predicate SomeResidue(t: Tables, collections: seq<Collection>, store: string, ids: set<Value>) {
    exists c, i :: c in collections && !PlatformGlobal(c) && 0 <= i < |Rows(t, c)|
      && OfStore(Rows(t, c)[i], store) && Hit(c, Rows(t, c)[i], ids) && Residual(c, Rows(t, c)[i], ids)
  }

  lemma RedactedRowHits(c: Collection, row: Row, store: string, ids: set<Value>, now: int)
    requires Null !in ids
    ensures var row' := RedactedRow(c, row, store, ids, now);
      OfStore(row', store) && Hit(c, row', ids)
      <==> OfStore(row, store) && Hit(c, row, ids) && Residual(c, row, ids)
  {
    if OfStore(row, store) && Hit(c, row, ids) {
      ScrubbedHitIff(c, row, ids, now);
      PatchKeepsStore(c, row, now);
    }
  }

  lemma PatchKeepsStore(c: Collection, row: Row, now: int)
    ensures Get(Patched(row, PatchFor(c, row), now), StoreId) == Get(row, StoreId)
  {
    assert StoreId !in PatchFor(c, row);
  }

  /** After a redaction some row still matches exactly when a placeholder collides with an
      identifier: "anon" for a row with a customer id, "anon:<row id>" for a profile. */
  lemma RedactionCompleteIff(t: Tables, collections: seq<Collection>, store: string, customer: string, now: int)
    requires Valid(t) && Distinct(collections)
    ensures var ids := Identifiers(t, store, customer);
      SomeHit(Redact(t, collections, store, customer, now).tables, collections, store, ids)
      <==> SomeResidue(t, collections, store, ids)
  {
    var ids := Identifiers(t, store, customer);
    var t' := Redact(t, collections, store, customer, now).tables;
    forall c, i | c in collections && !PlatformGlobal(c) && 0 <= i < |Rows(t, c)|
      ensures |Rows(t', c)| == |Rows(t, c)|
      ensures OfStore(Rows(t', c)[i], store) && Hit(c, Rows(t', c)[i], ids)
         <==> OfStore(Rows(t, c)[i], store) && Hit(c, Rows(t, c)[i], ids) && Residual(c, Rows(t, c)[i], ids)
    {
      RedactAt(t, collections, store, customer, now, c);
      RedactedRowHits(c, Rows(t, c)[i], store, ids, now);
    }
    if SomeHit(t', collections, store, ids) {
      var c, i :| c in collections && !PlatformGlobal(c) && 0 <= i < |Rows(t', c)|
        && OfStore(Rows(t', c)[i], store) && Hit(c, Rows(t', c)[i], ids);
      RedactAt(t, collections, store, customer, now, c);
      assert OfStore(Rows(t, c)[i], store) && Hit(c, Rows(t, c)[i], ids) && Residual(c, Rows(t, c)[i], ids);
    }
    if SomeResidue(t, collections, store, ids) {
      var c, i :| c in collections && !PlatformGlobal(c) && 0 <= i < |Rows(t, c)|
        && OfStore(Rows(t, c)[i], store) && Hit(c, Rows(t, c)[i], ids) && Residual(c, Rows(t, c)[i], ids);
      assert OfStore(Rows(t', c)[i], store) && Hit(c, Rows(t', c)[i], ids);
    }
  }

  /** The failing case: a customer whose own id is the placeholder is found again after redaction. */
  lemma PlaceholderCustomerSurvives(store: string, id: string, now: int)
    ensures var c := OtherCollection("orders");
      var t := map[Customers := [], c := [Row(id, map[StoreId := Str(store), CustomerId := Str("anon")])]];
      SomeHit(Redact(t, [Customers, c], store, "anon", now).tables, [Customers, c], store,
              Identifiers(t, store, "anon"))
  {
    var c := OtherCollection("orders");
    var row := Row(id, map[StoreId := Str(store), CustomerId := Str("anon")]);
    var t := map[Customers := [], c := [row]];
    var ids := Identifiers(t, store, "anon");
    assert Get(row, CustomerId) == Str("anon") && CustomerId in ID_FIELDS;
    assert RowMatches(row, ids) by { assert CustomerId in ID_FIELDS + EMAIL_FIELDS + PHONE_FIELDS; }
    assert Residual(c, row, ids);
    assert Rows(t, c)[0] == row && OfStore(row, store);
    RedactionCompleteIff(t, [Customers, c], store, "anon", now);
  }

  /** No identifier is a placeholder. */
  predicate NoPlaceholder(ids: set<Value>) {
    Str("anon") !in ids && forall v :: v in ids && v.Str? ==> !("anon:" <= v.text)
  }

  lemma NoPlaceholderNoResidue(t: Tables, collections: seq<Collection>, store: string, ids: set<Value>)
    requires NoPlaceholder(ids)
    ensures !SomeResidue(t, collections, store, ids)
  {
    forall row: Row
      ensures AnonIdentity(row.id) !in ids
    {
      assert "anon:" <= AnonIdentity(row.id).text;
    }
  }

  lemma {:induction false} ScrubNothing(p: Progress, names: seq<Collection>, store: string, ids: set<Value>, now: int)
    requires forall c, i :: c in names && 0 <= i < |Rows(p.tables, c)| ==>
      !(OfStore(Rows(p.tables, c)[i], store) && Hit(c, Rows(p.tables, c)[i], ids))
    ensures ScrubCollections(p, names, store, ids, now) == p
    decreases |names|
  {
    if names != [] {
      var c := names[|names| - 1];
      ScrubNothing(p, names[..|names| - 1], store, ids, now);
      if c in p.tables {
        var rows := ForStore(p.tables[c], store);
        forall k | 0 <= k < |rows|
          ensures !Hit(c, rows[k], ids)
        {
          ForStoreHas(p.tables[c], store, rows[k]);
          assert Rows(p.tables, c) == p.tables[c];
        }
        ScrubNoRows(p, c, rows, ids, now);
      }
    }
  }

  lemma {:induction false} ScrubNoRows(p: Progress, c: Collection, rows: seq<Row>, ids: set<Value>, now: int)
    requires forall k :: 0 <= k < |rows| ==> !Hit(c, rows[k], ids)
    ensures ScrubRows(p, c, rows, ids, now) == p
    decreases |rows|
  {
    if rows != [] { ScrubNoRows(p, c, rows[..|rows| - 1], ids, now); }
  }

  lemma {:induction false} CollectNothing(t: Tables, names: seq<Collection>, store: string, ids: set<Value>)
    requires forall c, i :: c in names && 0 <= i < |Rows(t, c)| ==>
      !(OfStore(Rows(t, c)[i], store) && Hit(c, Rows(t, c)[i], ids))
    ensures CollectFrom(t, names, store, ids) == Export(map[], 0)
    decreases |names|
  {
    if names != [] {
      var c := names[|names| - 1];
      CollectNothing(t, names[..|names| - 1], store, ids);
      var found := Matching(c, ForStore(Rows(t, c), store), ids);
      if found != [] {
        MatchingHas(c, ForStore(Rows(t, c), store), ids, found[0]);
        ForStoreHas(Rows(t, c), store, found[0]);
        ExportedIffHit(c, found[0], ids);
      }
    }
  }

  lemma HitGrows(c: Collection, row: Row, few: set<Value>, many: set<Value>)
    requires few <= many && Hit(c, row, few)
    ensures Hit(c, row, many)
  {
    if c != Customers {
      var f :| f in ID_FIELDS + EMAIL_FIELDS + PHONE_FIELDS && Get(row, f) != Null && Get(row, f) in few;
      assert Get(row, f) in many;
    }
  }

  /** After a redaction whose identifiers are no placeholders: no row of the store in an inspected
      collection carries any of them, an export finds nothing, and a second redaction changes
      nothing and counts nothing. */
  lemma RedactionIsComplete(t: Tables, collections: seq<Collection>, store: string, customer: string, now: int, later: int)
    requires Valid(t) && Distinct(collections) && Customers in collections
    requires NoPlaceholder(Identifiers(t, store, customer))
    ensures var t' := Redact(t, collections, store, customer, now).tables;
      && !SomeHit(t', collections, store, Identifiers(t, store, customer))
      && Collect(t', collections, store, customer) == Export(map[], 0)
      && Redact(t', collections, store, customer, later) == Progress(t', map[], 0)
  {
    var ids := Identifiers(t, store, customer);
    var t' := Redact(t, collections, store, customer, now).tables;
    NoPlaceholderNoResidue(t, collections, store, ids);
    RedactionCompleteIff(t, collections, store, customer, now);
    var ids' := Identifiers(t', store, customer);
    ProfileIsGone(t', collections, store, customer, ids);
    forall c, i | c in Redactable(collections) && 0 <= i < |Rows(t', c)|
      ensures !(OfStore(Rows(t', c)[i], store) && Hit(c, Rows(t', c)[i], ids'))
    {
      if Hit(c, Rows(t', c)[i], ids') { HitGrows(c, Rows(t', c)[i], ids', ids); }
    }
    CollectNothing(t', Redactable(collections), store, ids');
    ScrubNothing(Progress(t', map[], 0), Redactable(collections), store, ids', later);
  }

  lemma ProfileIsHit(t: Tables, collections: seq<Collection>, store: string, customer: string, ids: set<Value>)
    requires Customers in collections && Str(customer) in ids
    requires FindProfile(Rows(t, Customers), store, customer).Some?
    ensures SomeHit(t, collections, store, ids)
  {
    var profile := FindProfile(Rows(t, Customers), store, customer).value;
    var i :| 0 <= i < |Rows(t, Customers)| && Rows(t, Customers)[i] == profile;
    assert Hit(Customers, Rows(t, Customers)[i], ids);
  }

  lemma ProfileIsGone(t: Tables, collections: seq<Collection>, store: string, customer: string, ids: set<Value>)
    requires Customers in collections && Str(customer) in ids && !SomeHit(t, collections, store, ids)
    ensures Identifiers(t, store, customer) == {Str(customer)}
  {
    if FindProfile(Rows(t, Customers), store, customer).Some? {
      ProfileIsHit(t, collections, store, customer, ids);
    }
  }

  /** The fields that name or reach a person. */
  predicate Personal(c: Collection, f: Field) {
    match f
    case Email | CustomerEmail | Phone | CustomerPhone | PhoneNumber | CustomerName | CustomerEmailName => true
    case Name => c == Leads
    case _ => false
  }

  /** What a redaction leaves in a matching row that is no profile: placeholders for ids and nothing
      in the email, phone and name fields, a lead's own name included. */
  lemma RedactionErasesFields(t: Tables, collections: seq<Collection>, store: string, customer: string, now: int,
                              c: Collection, i: nat, f: Field)
    requires Valid(t) && Distinct(collections) && c in collections && !PlatformGlobal(c) && i < |Rows(t, c)|
    requires c != Customers && OfStore(Rows(t, c)[i], store) && Hit(c, Rows(t, c)[i], Identifiers(t, store, customer))
    ensures var rows' := Rows(Redact(t, collections, store, customer, now).tables, c);
      && i < |rows'|
      && (f.CustomerId? || f.CustomerIdCamel? ==>
            Get(rows'[i], f) == if Get(Rows(t, c)[i], f) == Null then Null else Str("anon"))
      && (Personal(c, f) ==> Get(rows'[i], f) == Null)
  {
    RedactAt(t, collections, store, customer, now, c);
    ErasedRow(c, Rows(t, c)[i], now, f);
  }

  /** And what it leaves of a profile: renamed, emptied and marked. */
  lemma RedactionErasesProfile(t: Tables, collections: seq<Collection>, store: string, customer: string, now: int, i: nat)
    requires Valid(t) && Distinct(collections) && Customers in collections && i < |Rows(t, Customers)|
    requires OfStore(Rows(t, Customers)[i], store)
    requires Hit(Customers, Rows(t, Customers)[i], Identifiers(t, store, customer))
    ensures var rows' := Rows(Redact(t, collections, store, customer, now).tables, Customers);
      && i < |rows'| && Get(rows'[i], Identity) == Str("anon:" + Rows(t, Customers)[i].id)
      && Get(rows'[i], Email) == Null && Get(rows'[i], Phone) == Null
      && Get(rows'[i], ViewedProducts) == EmptyList && Get(rows'[i], ChannelsResponded) == EmptyList
      && Get(rows'[i], GdprDeleted) == Flag(true)
  {
    RedactAt(t, collections, store, customer, now, Customers);
    ErasedProfile(Rows(t, Customers)[i], now);
  }

  lemma ErasedRow(c: Collection, row: Row, now: int, f: Field)
    requires c != Customers
    ensures var row' := Patched(row, PatchFor(c, row), now);
      && (f.CustomerId? || f.CustomerIdCamel? ==> Get(row', f) == if Get(row, f) == Null then Null else Str("anon"))
      && (Personal(c, f) ==> Get(row', f) == Null)
  {
  }

  lemma ErasedProfile(row: Row, now: int)
    ensures var row' := Patched(row, ProfilePatch(row), now);
      && Get(row', Identity) == AnonIdentity(row.id) && Get(row', Email) == Null && Get(row', Phone) == Null
      && Get(row', ViewedProducts) == EmptyList && Get(row', ChannelsResponded) == EmptyList
      && Get(row', GdprDeleted) == Flag(true)
  {
  }

  // ---------------------------------------------------------------- whom a redaction reaches

  /** The fields by which a row of the collection is a customer's. */
  predicate Identifies(c: Collection, f: Field) {
    match f
    case Identity => c == Customers
    case Email | Phone => true
    case CustomerId | CustomerIdCamel | CustomerEmail | CustomerPhone | PhoneNumber => c != Customers
    case _ => false
  }

  /** Row `i` is the store's first profile of the customer. */
  predicate ProfileAt(t: Tables, store: string, customer: string, i: nat) {
    && i < |Rows(t, Customers)| && IsProfile(Rows(t, Customers)[i], store, customer)
    && forall j :: 0 <= j < i ==> !IsProfile(Rows(t, Customers)[j], store, customer)
  }

  predicate IsProfile(row: Row, store: string, customer: string) {
    Get(row, StoreId) == Str(store) && Get(row, Identity) == Str(customer)
  }

  /** What the customer is known by: the id, and the email and phone of the profile. */
  ghost predicate KnownBy(t: Tables, store: string, customer: string, v: Value) {
    v == Str(customer)
    || exists i: nat :: ProfileAt(t, store, customer, i) && Truthy(v)
         && (v == Get(Rows(t, Customers)[i], Email) || v == Get(Rows(t, Customers)[i], Phone))
  }

  lemma {:induction false} ProfileIsFirst(rows: seq<Row>, store: string, customer: string) returns (i: nat)
    ensures match FindProfile(rows, store, customer)
      case Some(profile) =>
        && i < |rows| && rows[i] == profile && IsProfile(rows[i], store, customer)
        && forall j :: 0 <= j < i ==> !IsProfile(rows[j], store, customer)
      case None => forall j :: 0 <= j < |rows| ==> !IsProfile(rows[j], store, customer)
  {
    i := 0;
    if rows != [] && !IsProfile(rows[0], store, customer) {
      var k := ProfileIsFirst(rows[1..], store, customer);
      i := k + 1;
    }
  }

  lemma IdentifiersAre(t: Tables, store: string, customer: string, v: Value)
    ensures v in Identifiers(t, store, customer) <==> KnownBy(t, store, customer, v)
  {
    var i := ProfileIsFirst(Rows(t, Customers), store, customer);
    forall k: nat | ProfileAt(t, store, customer, k)
      ensures FindProfile(Rows(t, Customers), store, customer).Some? && k == i
    {
    }
  }

  /** The row carries something the customer is known by, in a field that identifies. */
  ghost predicate Carries(t: Tables, store: string, customer: string, c: Collection, row: Row) {
    exists f :: Identifies(c, f) && KnownBy(t, store, customer, Get(row, f))
  }

  function FieldsOf(c: Collection): set<Field> {
    if c == Customers then {Identity, Email, Phone} else ID_FIELDS + EMAIL_FIELDS + PHONE_FIELDS
  }

  lemma IdentifiesAsCode(c: Collection, f: Field)
    ensures Identifies(c, f) <==> f in FieldsOf(c)
  {
  }

  lemma HitIffCarries(t: Tables, store: string, customer: string, c: Collection, row: Row)
    ensures Hit(c, row, Identifiers(t, store, customer)) <==> Carries(t, store, customer, c, row)
  {
    var ids := Identifiers(t, store, customer);
    forall f
      ensures f in FieldsOf(c) && Get(row, f) in ids <==> Identifies(c, f) && KnownBy(t, store, customer, Get(row, f))
    {
      IdentifiesAsCode(c, f);
      IdentifiersAre(t, store, customer, Get(row, f));
    }
    if Hit(c, row, ids) {
      var f :| f in FieldsOf(c) && Get(row, f) in ids;
      assert Identifies(c, f) && KnownBy(t, store, customer, Get(row, f));
    }
  }

  /** The collections a redaction inspects: all but the platform's own. */
  predicate TenantData(c: Collection) {
    c.Customers? || c.Leads? || c.OtherCollection?
  }

  lemma ErasedWhereIdentified(c: Collection, row: Row, now: int, f: Field)
    requires Identifies(c, f)
    ensures Get(Patched(row, PatchFor(c, row), now), f) in {Null, Str("anon"), Str("anon:" + row.id)}
  {
    if c != Customers {
      IdentifiesAsCode(c, f);
      ScrubbedField(c, row, now, f);
    }
  }

  /** Whom a redaction reaches: exactly the rows of this store, outside the platform's own
      collections, that carry the customer's id, or the email or phone of the customer's profile, in a
      field that identifies. Those lose every such field to a placeholder or to nothing; every other
      row stays as it is. */
  lemma RedactionReaches(t: Tables, collections: seq<Collection>, store: string, customer: string, now: int,
                         c: Collection, i: nat, f: Field)
    requires Valid(t) && Distinct(collections) && i < |Rows(t, c)|
    ensures var row, rows' := Rows(t, c)[i], Rows(Redact(t, collections, store, customer, now).tables, c);
      && |rows'| == |Rows(t, c)|
      && if c in collections && TenantData(c) && Get(row, StoreId) == Str(store) && Carries(t, store, customer, c, row)
         then && Get(rows'[i], UpdatedAt) == Num(now)
              && (Identifies(c, f) ==> Get(rows'[i], f) in {Null, Str("anon"), Str("anon:" + row.id)})
         else rows'[i] == row
  {
    RedactAt(t, collections, store, customer, now, c);
    HitIffCarries(t, store, customer, c, Rows(t, c)[i]);
    if Identifies(c, f) { ErasedWhereIdentified(c, Rows(t, c)[i], now, f); }
  }

  /** And an export holds exactly those rows of this store, but for the profiles that carry only the
      phone. */
  lemma ExportReaches(t: Tables, collections: seq<Collection>, store: string, customer: string, c: Collection, row: Row)
    requires Valid(t) && Distinct(collections)
    ensures var so := Collect(t, collections, store, customer);
      so.Export? && (c in so.perCollection && row in so.perCollection[c]
        <==> && c in collections && TenantData(c) && row in Rows(t, c) && Get(row, StoreId) == Str(store)
             && exists f :: Identifies(c, f) && !(c == Customers && f == Phone) && KnownBy(t, store, customer, Get(row, f)))
  {
    ExportHolds(t, collections, store, customer, c, row);
    var ids := Identifiers(t, store, customer);
    forall f
      ensures f in FieldsOf(c) && Get(row, f) in ids <==> Identifies(c, f) && KnownBy(t, store, customer, Get(row, f))
    {
      IdentifiesAsCode(c, f);
      IdentifiersAre(t, store, customer, Get(row, f));
    }
    if Exported(c, row, ids) {
      var f :| f in FieldsOf(c) && !(c == Customers && f == Phone) && Get(row, f) in ids;
      assert Identifies(c, f) && KnownBy(t, store, customer, Get(row, f));
    }
  }

  // ---------------------------------------------------------------- frame

  /** The fields a redaction may change in a row of the collection. */
  function TouchedFields(c: Collection): set<Field> {
    {UpdatedAt} +
    if c == Customers then {Identity, Email, Phone, ViewedProducts, ChannelsResponded, GdprDeleted}
    else
      {CustomerId, CustomerIdCamel, Email, CustomerEmail, Phone, CustomerPhone, PhoneNumber, CustomerName, CustomerEmailName}
      + if c == Leads then {Name} else {}
  }

  lemma PatchTouches(c: Collection, row: Row, f: Field)
    ensures f in PatchFor(c, row) ==> f in TouchedFields(c)
  {
  }

  lemma PatchedFrame(row: Row, patch: Patch, now: int, f: Field)
    requires f !in patch && f != UpdatedAt
    ensures f in Patched(row, patch, now).fields <==> f in row.fields
    ensures Get(Patched(row, patch, now), f) == Get(row, f)
  {
  }

  lemma RedactedRowFrame(c: Collection, row: Row, store: string, ids: set<Value>, now: int, f: Field)
    ensures var row' := RedactedRow(c, row, store, ids, now);
      && row'.id == row.id
      && (!OfStore(row, store) || !Hit(c, row, ids) ==> row' == row)
      && (f !in TouchedFields(c) ==> (f in row'.fields <==> f in row.fields) && Get(row', f) == Get(row, f))
  {
    PatchTouches(c, row, f);
    if f !in TouchedFields(c) { PatchedFrame(row, PatchFor(c, row), now, f); }
  }

  /** What a redaction leaves alone: no row appears, goes or moves; the platform-global and
      unlisted collections, other stores' rows and rows that do not match are untouched; and in a
      matching row only the identifier fields (or the profile's own) and `updatedAt` change. */
  lemma RedactionFrame(t: Tables, collections: seq<Collection>, store: string, customer: string, now: int,
                       c: Collection, i: nat, f: Field)
    requires Valid(t) && Distinct(collections) && i < |Rows(t, c)|
    ensures var ids, t' := Identifiers(t, store, customer), Redact(t, collections, store, customer, now).tables;
      && |Rows(t', c)| == |Rows(t, c)|
      && Rows(t', c)[i].id == Rows(t, c)[i].id
      && (PlatformGlobal(c) || c !in collections ==> Rows(t', c) == Rows(t, c))
      && (!OfStore(Rows(t, c)[i], store) || !Hit(c, Rows(t, c)[i], ids) ==> Rows(t', c)[i] == Rows(t, c)[i])
      && (f !in TouchedFields(c) ==> Get(Rows(t', c)[i], f) == Get(Rows(t, c)[i], f))
  {
    RedactAt(t, collections, store, customer, now, c);
    RedactedRowFrame(c, Rows(t, c)[i], store, Identifiers(t, store, customer), now, f);
  }

  // ---------------------------------------------------------------- counts

  function TotalHits(t: Tables, names: seq<Collection>, store: string, ids: set<Value>): nat {
    if names == [] then 0
    else
      var c := names[|names| - 1];
      TotalHits(t, names[..|names| - 1], store, ids) + HitCount(c, ForStore(Rows(t, c), store), ids)
  }

  lemma {:induction false} ScrubCollectionsCount(p: Progress, names: seq<Collection>, store: string, ids: set<Value>,
                                                 now: int, c: Collection)
    requires Valid(p.tables) && Distinct(names) && p.perCollection == map[]
    ensures var p' := ScrubCollections(p, names, store, ids, now);
      && p'.total == p.total + TotalHits(p.tables, names, store, ids)
      && Counted(p'.perCollection, c)
         == if c in names then HitCount(c, ForStore(Rows(p.tables, c), store), ids) else 0
    decreases |names|
  {
    if names != [] {
      var front, last := names[..|names| - 1], names[|names| - 1];
      assert last !in front && forall x :: x in names <==> x in front || x == last;
      ScrubCollectionsCount(p, front, store, ids, now, c);
      ScrubCollectionsCount(p, front, store, ids, now, last);
      ScrubCollectionsAt(p, front, store, ids, now, last);
      var p1 := ScrubCollections(p, front, store, ids, now);
      if last in p1.tables {
        ScrubRowsCount(p1, last, ForStore(p1.tables[last], store), ids, now);
      }
    }
  }

  /** The report counts exactly the rows that matched before. */
  lemma ReportCountsMatches(t: Tables, collections: seq<Collection>, store: string, customer: string, now: int, c: Collection)
    requires Valid(t) && Distinct(collections)
    ensures var ids, p := Identifiers(t, store, customer), Redact(t, collections, store, customer, now);
      && p.total == TotalHits(t, Redactable(collections), store, ids)
      && Counted(p.perCollection, c)
         == if c in collections && !PlatformGlobal(c) then HitCount(c, ForStore(Rows(t, c), store), ids) else 0
  {
    RedactableDistinct(collections);
    ScrubCollectionsCount(Progress(t, map[], 0), Redactable(collections), store, Identifiers(t, store, customer), now, c);
  }

  // ---------------------------------------------------------------- what an export holds

  function ExportedIn(t: Tables, c: Collection, store: string, ids: set<Value>): seq<Row> {
    Matching(c, ForStore(Rows(t, c), store), ids)
  }

  function TotalExported(t: Tables, names: seq<Collection>, store: string, ids: set<Value>): nat {
    if names == [] then 0
    else TotalExported(t, names[..|names| - 1], store, ids) + |ExportedIn(t, names[|names| - 1], store, ids)|
  }

  lemma {:induction false} CollectFromAt(t: Tables, names: seq<Collection>, store: string, ids: set<Value>, c: Collection)
    requires Distinct(names)
    ensures var so := CollectFrom(t, names, store, ids);
      && so.Export? && so.total == TotalExported(t, names, store, ids)
      && (c in so.perCollection <==> c in names && ExportedIn(t, c, store, ids) != [])
      && (c in so.perCollection ==> so.perCollection[c] == ExportedIn(t, c, store, ids))
    decreases |names|
  {
    if names != [] {
      var front, last := names[..|names| - 1], names[|names| - 1];
      assert last !in front && forall x :: x in names <==> x in front || x == last;
      CollectFromAt(t, front, store, ids, c);
    }
  }

  lemma {:induction false} MatchingKeepsUnique(c: Collection, rows: seq<Row>, ids: set<Value>)
    requires UniqueIds(rows)
    ensures UniqueIds(Matching(c, rows, ids))
  {
    if rows != [] {
      MatchingKeepsUnique(c, rows[1..], ids);
      var rest := Matching(c, rows[1..], ids);
      forall j | 0 <= j < |rest|
        ensures rest[j].id != rows[0].id
      {
        MatchingHas(c, rows[1..], ids, rest[j]);
        assert rest[j] in rows[1..];
      }
    }
  }

  /** What an export holds: of every inspected collection exactly the store's rows that carry one of
      the identifiers, each once and as they stand; nothing of any other; and as many in all as its
      total says. */
  lemma ExportHolds(t: Tables, collections: seq<Collection>, store: string, customer: string, c: Collection, row: Row)
    requires Valid(t) && Distinct(collections)
    ensures var so, ids := Collect(t, collections, store, customer), Identifiers(t, store, customer);
      && so.Export? && so.total == TotalExported(t, Redactable(collections), store, ids)
      && (c in so.perCollection && row in so.perCollection[c]
          <==> c in collections && !PlatformGlobal(c) && row in Rows(t, c) && OfStore(row, store) && Exported(c, row, ids))
      && (c in so.perCollection ==> so.perCollection[c] != [] && UniqueIds(so.perCollection[c]))
      && (c in so.perCollection ==> |so.perCollection[c]| == |ExportedIn(t, c, store, ids)|)
  {
    var ids := Identifiers(t, store, customer);
    RedactableDistinct(collections);
    CollectFromAt(t, Redactable(collections), store, ids, c);
    MatchingHas(c, ForStore(Rows(t, c), store), ids, row);
    ForStoreHas(Rows(t, c), store, row);
    assert UniqueIds(Rows(t, c));
    ForStoreKeepsUnique(Rows(t, c), store);
    MatchingKeepsUnique(c, ForStore(Rows(t, c), store), ids);
  }

  // ---------------------------------------------------------------- export against redaction

  /** A profile that matches by its phone number and by nothing else. */
  predicate PhoneOnly(row: Row, ids: set<Value>) {
    Get(row, Phone) != Null && Get(row, Phone) in ids && Get(row, Identity) !in ids && Get(row, Email) !in ids
  }

  lemma ExportedIffHit(c: Collection, row: Row, ids: set<Value>)
    ensures Exported(c, row, ids) <==> Hit(c, row, ids) && !(c == Customers && PhoneOnly(row, ids))
  {
  }

  function PhoneOnlyCount(c: Collection, rows: seq<Row>, ids: set<Value>): nat {
    if rows == [] then 0
    else (if c == Customers && PhoneOnly(rows[0], ids) then 1 else 0) + PhoneOnlyCount(c, rows[1..], ids)
  }

  lemma {:induction false} HitCountFirst(c: Collection, rows: seq<Row>, ids: set<Value>)
    requires rows != []
    ensures HitCount(c, rows, ids) == (if Hit(c, rows[0], ids) then 1 else 0) + HitCount(c, rows[1..], ids)
    decreases |rows|
  {
    if |rows| > 1 {
      var front := rows[..|rows| - 1];
      HitCountFirst(c, front, ids);
      assert rows[1..][..|rows[1..]| - 1] == front[1..];
    }
  }

  /** Redaction scrubs what the export includes, and the phone-only profiles. */
  lemma {:induction false} HitsSplit(c: Collection, rows: seq<Row>, ids: set<Value>)
    ensures HitCount(c, rows, ids) == |Matching(c, rows, ids)| + PhoneOnlyCount(c, rows, ids)
  {
    if rows != [] {
      HitCountFirst(c, rows, ids);
      HitsSplit(c, rows[1..], ids);
      ExportedIffHit(c, rows[0], ids);
    }
  }

  lemma {:induction false} NoPhoneOnly(c: Collection, rows: seq<Row>, ids: set<Value>)
    ensures PhoneOnlyCount(c, rows, ids) == 0 <==> c != Customers || forall row :: row in rows ==> !PhoneOnly(row, ids)
  {
    if rows != [] {
      NoPhoneOnly(c, rows[1..], ids);
      assert forall row :: row in rows <==> row == rows[0] || row in rows[1..];
    }
  }

  lemma {:induction false} TotalsSplit(t: Tables, names: seq<Collection>, store: string, ids: set<Value>)
    requires Distinct(names)
    ensures TotalHits(t, names, store, ids)
         == TotalExported(t, names, store, ids)
            + if Customers in names then PhoneOnlyCount(Customers, ForStore(Rows(t, Customers), store), ids) else 0
    decreases |names|
  {
    if names != [] {
      var front, last := names[..|names| - 1], names[|names| - 1];
      assert last !in front && forall x :: x in names <==> x in front || x == last;
      TotalsSplit(t, front, store, ids);
      HitsSplit(last, ForStore(Rows(t, last), store), ids);
      if last != Customers { NoPhoneOnly(last, ForStore(Rows(t, last), store), ids); }
    }
  }

  /** The export's total never exceeds the redaction's, and the two agree exactly when no profile of
      the store is found by its phone number only. */
  lemma ExportMirrorsRedactionIff(t: Tables, collections: seq<Collection>, store: string, customer: string, now: int)
    requires Valid(t) && Distinct(collections) && Customers in collections
    ensures var ids, so := Identifiers(t, store, customer), Collect(t, collections, store, customer);
      && so.Export? && so.total <= Redact(t, collections, store, customer, now).total
      && (so.total == Redact(t, collections, store, customer, now).total
          <==> forall row :: row in Rows(t, Customers) && OfStore(row, store) ==> !PhoneOnly(row, ids))
  {
    var ids, names, rows := Identifiers(t, store, customer), Redactable(collections), ForStore(Rows(t, Customers), store);
    RedactableDistinct(collections);
    CollectFromAt(t, names, store, ids, Customers);
    ReportCountsMatches(t, collections, store, customer, now, Customers);
    TotalsSplit(t, names, store, ids);
    NoPhoneOnly(Customers, rows, ids);
    forall row
      ensures row in rows <==> row in Rows(t, Customers) && OfStore(row, store)
    {
      ForStoreHas(Rows(t, Customers), store, row);
    }
  }

  /** A profile of the store with an identity and a phone number. */
  function Profile(id: string, store: string, identity: string, phone: string): Row {
    Row(id, map[StoreId := Str(store), Identity := Str(identity), Phone := Str(phone)])
  }

  lemma TwoOfStore(p: Row, q: Row, store: string)
    requires OfStore(p, store) && OfStore(q, store)
    ensures ForStore([p, q], store) == [p, q]
  {
    assert [p, q][1..] == [q] && [q][1..] == [];
    assert ForStore([q], store) == [q];
  }

  lemma TwoHits(p: Row, q: Row, ids: set<Value>)
    requires Hit(Customers, p, ids) && Hit(Customers, q, ids) && PhoneOnly(q, ids) && !PhoneOnly(p, ids)
    ensures HitCount(Customers, [p, q], ids) == 2 && PhoneOnlyCount(Customers, [p, q], ids) == 1
  {
    assert [p, q][..1] == [p] && [p][..0] == [];
    assert HitCount(Customers, [p], ids) == 1;
    assert [p, q][1..] == [q] && [q][1..] == [];
    assert PhoneOnlyCount(Customers, [q], ids) == 1;
  }

  lemma FirstOfTwo(p: Row, q: Row, store: string, customer: string)
    requires OfStore(p, store) && Get(p, Identity) == Str(customer)
    ensures FindProfile([p, q], store, customer) == Some(p)
  {
  }

  lemma OnlyCustomers(t: Tables, store: string, ids: set<Value>)
    ensures Redactable([Customers]) == [Customers]
    ensures TotalHits(t, [Customers], store, ids) == HitCount(Customers, ForStore(Rows(t, Customers), store), ids)
  {
    assert [Customers][1..] == [] && [Customers][..0] == [];
    assert Redactable([]) == [];
  }

  /** The failing case: of two profiles that share a phone number, a redaction of the first scrubs
      both, and an export for it holds one. */
  lemma SharedPhoneIsNotExported(store: string, a: string, b: string, phone: string, now: int)
    requires a != b && phone != "" && b != phone
    ensures var t := map[Customers := [Profile("1", store, a, phone), Profile("2", store, b, phone)]];
      && Redact(t, [Customers], store, a, now).total == 2
      && Collect(t, [Customers], store, a).Export? && Collect(t, [Customers], store, a).total == 1
  {
    var p, q := Profile("1", store, a, phone), Profile("2", store, b, phone);
    var t := map[Customers := [p, q]];
    var ids := Identifiers(t, store, a);
    FirstOfTwo(p, q, store, a);
    assert ids == {Str(a), Str(phone)};
    assert UniqueIds([p, q]) by { assert "1" != "2"; }
    TwoOfStore(p, q, store);
    TwoHits(p, q, ids);
    OnlyCustomers(t, store, ids);
    ReportCountsMatches(t, [Customers], store, a, now, Customers);
    CollectFromAt(t, [Customers], store, ids, Customers);
    TotalsSplit(t, [Customers], store, ids);
  }
}
