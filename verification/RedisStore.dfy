/** A Redis collection (src/storage/redisStore.js): one hash per row beside a set of row ids, both
    in one key space; compared with a plain map from id to row. */
module RedisStore {
  import opened Wrappers
  import opened KeyOrder

  type Id = string

  datatype Json = Undefined | Null | Text(text: string) | Number(n: int) | Flag(on: bool)

  datatype Field = IdField | UpdatedAt | Named(name: string)

  type Record = map<Field, Json>

  type Filter = map<Field, Json>

  /** What a Redis key holds. */
  datatype Stored = Hash(data: Record) | IdSet(ids: set<Id>)

  /** The keys of one collection, without the prefix they share. */
  type Db = map<string, Stored>

  /** The index lives beside the rows: a row of this id would share its key. */
  const INDEX: string := "_index"

  // ---------------------------------------------------------------- commands

  /** A command on a key of the other type is an error without effect. */
  function HSet(db: Db, key: string, data: Record): Db {
    if key in db && db[key].IdSet? then db else db[key := Hash(data)]
  }

  function HGet(db: Db, key: string): Option<Record> {
    if key in db && db[key].Hash? then Some(db[key].data) else None
  }

  function SAdd(db: Db, key: string, id: Id): Db {
    if key !in db then db[key := IdSet({id})]
    else if db[key].IdSet? then db[key := IdSet(db[key].ids + {id})]
    else db
  }

  /** Removing the last member removes the set. */
  function SRem(db: Db, key: string, id: Id): Db {
    if key in db && db[key].IdSet?
    then if db[key].ids - {id} == {} then db - {key} else db[key := IdSet(db[key].ids - {id})]
    else db
  }

  function Del(db: Db, key: string): Db {
    db - {key}
  }

  function SMembers(db: Db, key: string): set<Id> {
    if key in db && db[key].IdSet? then db[key].ids else {}
  }

  // ---------------------------------------------------------------- operations on values

  function Get(rec: Record, f: Field): Json {
    if f in rec then rec[f] else Undefined
  }

  function IdOf(rec: Record): Id {
    match Get(rec, IdField)
    case Text(s) => s
    case _ => ""
  }

  predicate Matches(rec: Record, filter: Filter) {
    forall f :: f in filter ==> Get(rec, f) == filter[f]
  }

  function Merge(rec: Record, patch: Record, now: int): Record {
    (rec + patch)[UpdatedAt := Number(now)]
  }

  /** The rows found when SMEMBERS lists the index in this order. */
  function Found(db: Db, order: seq<Id>, filter: Filter): (docs: seq<Record>)
    ensures |docs| <= |order|
  {
    if order == [] then []
    else
      var docs := Found(db, order[..|order| - 1], filter);
      match HGet(db, order[|order| - 1])
      case Some(rec) => if Matches(rec, filter) then docs + [rec] else docs
      case None => docs
  }

  function Insert(db: Db, id: Id, rec: Record): Db {
    SAdd(HSet(db, id, rec), INDEX, id)
  }

  function Update(db: Db, id: Id, patch: Record, now: int): Db {
    match HGet(db, id)
    case Some(rec) => HSet(db, id, Merge(rec, patch, now))
    case None => db
  }

  function UpdateDocs(db: Db, docs: seq<Record>, patch: Record, now: int): Db {
    if docs == [] then db
    else
      var last := docs[|docs| - 1];
      HSet(UpdateDocs(db, docs[..|docs| - 1], patch, now), IdOf(last), Merge(last, patch, now))
  }

  function Delete(db: Db, id: Id): Db {
    SRem(Del(db, id), INDEX, id)
  }

  function DeleteDocs(db: Db, docs: seq<Record>): Db {
    if docs == [] then db else Delete(DeleteDocs(db, docs[..|docs| - 1]), IdOf(docs[|docs| - 1]))
  }

  function DelAll(db: Db, ids: seq<Id>): Db {
    if ids == [] then db else Del(DelAll(db, ids[..|ids| - 1]), ids[|ids| - 1])
  }

  function Clear(db: Db, order: seq<Id>): Db {
    if order == [] then db else Del(DelAll(db, order), INDEX)
  }

  function Merged(docs: seq<Record>, patch: Record, now: int): seq<Record> {
    if docs == [] then []
    else Merged(docs[..|docs| - 1], patch, now) + [Merge(docs[|docs| - 1], patch, now)]
  }

  function Counted(db: Db, order: seq<Id>, filter: Filter): nat {
    if filter == map[] then |SMembers(db, INDEX)| else |Found(db, order, filter)|
  }

  function First(docs: seq<Record>): Option<Record> {
    if docs == [] then None else Some(docs[0])
  }

  // ---------------------------------------------------------------- the collection object

  /** `order` is SMEMBERS's answer: the index, in an order of Redis's choosing. */
  ghost predicate Enumerates(order: seq<Id>, db: Db) {
    Distinct(order) && forall id :: id in order <==> id in SMembers(db, INDEX)
  }

  class RedisCollection {
    var db: Db

    constructor ()
      ensures db == map[]
    {
      db := map[];
    }

    method InsertRow(id: Id, rec: Record)
      modifies this
      ensures db == Insert(old(db), id, rec)
    {
      db := HSet(db, id, rec);
      db := SAdd(db, INDEX, id);
    }

    method FindById(id: Id) returns (rec: Option<Record>)
      ensures rec == HGet(db, id)
    {
      rec := HGet(db, id);
    }

    method Find(filter: Filter, order: seq<Id>) returns (docs: seq<Record>)
      requires Enumerates(order, db)
      ensures docs == Found(db, order, filter)
    {
      docs := [];
      for i := 0 to |order|
        invariant docs == Found(db, order[..i], filter)
      {
        assert order[..i + 1][..i] == order[..i];
        var data := HGet(db, order[i]);
        if data.Some? && Matches(data.value, filter) { docs := docs + [data.value]; }
      }
      assert order[..|order|] == order;
    }

    method FindOne(filter: Filter, order: seq<Id>) returns (rec: Option<Record>)
      requires Enumerates(order, db)
      ensures rec == First(Found(db, order, filter))
    {
      var docs := Find(filter, order);
      rec := if |docs| > 0 then Some(docs[0]) else None;
    }

    method UpdateRow(id: Id, patch: Record, now: int) returns (updated: Option<Record>)
      modifies this
      ensures db == Update(old(db), id, patch, now)
      ensures updated == match HGet(old(db), id) case Some(rec) => Some(Merge(rec, patch, now)) case None => None
      ensures updated == HGet(db, id)
    {
      var existing := FindById(id);
      if existing == None { return None; }
      updated := Some(Merge(existing.value, patch, now));
      db := HSet(db, id, updated.value);
    }

    method UpdateMany(filter: Filter, patch: Record, now: int, order: seq<Id>) returns (updated: seq<Record>)
      requires Enumerates(order, db)
      modifies this
      ensures db == UpdateDocs(old(db), Found(old(db), order, filter), patch, now)
      ensures updated == Merged(Found(old(db), order, filter), patch, now)
    {
      var docs := Find(filter, order);
      updated := [];
      for i := 0 to |docs|
        invariant db == UpdateDocs(old(db), docs[..i], patch, now)
        invariant updated == Merged(docs[..i], patch, now)
      {
        assert docs[..i + 1][..i] == docs[..i];
        var merged := Merge(docs[i], patch, now);
        db := HSet(db, IdOf(docs[i]), merged);
        updated := updated + [merged];
      }
      assert docs[..|docs|] == docs;
    }

    method DeleteRow(id: Id) returns (done: bool)
      modifies this
      ensures db == Delete(old(db), id) && done
    {
      db := Del(db, id);
      db := SRem(db, INDEX, id);
      done := true;
    }

    method DeleteMany(filter: Filter, order: seq<Id>) returns (deleted: nat)
      requires Enumerates(order, db)
      modifies this
      ensures db == DeleteDocs(old(db), Found(old(db), order, filter))
      ensures deleted == |Found(old(db), order, filter)|
    {
      var docs := Find(filter, order);
      for i := 0 to |docs|
        invariant db == DeleteDocs(old(db), docs[..i])
      {
        assert docs[..i + 1][..i] == docs[..i];
        db := Del(db, IdOf(docs[i]));
        db := SRem(db, INDEX, IdOf(docs[i]));
      }
      assert docs[..|docs|] == docs;
      deleted := |docs|;
    }

    /** Without a filter the index is counted, not the rows. */
    method Count(filter: Filter, order: seq<Id>) returns (n: nat)
      requires Enumerates(order, db)
      ensures n == Counted(db, order, filter)
    {
      if filter == map[] { return |SMembers(db, INDEX)|; }
      var docs := Find(filter, order);
      n := |docs|;
    }

    method ClearAll(order: seq<Id>)
      requires Enumerates(order, db)
      modifies this
      ensures db == Clear(old(db), order)
    {
      if |order| == 0 { return; }
      for i := 0 to |order|
        invariant db == DelAll(old(db), order[..i])
      {
        assert order[..i + 1][..i] == order[..i];
        db := Del(db, order[i]);
      }
      assert order[..|order|] == order;
      db := Del(db, INDEX);
    }
  }

  // ---------------------------------------------------------------- the plain map

  type Plain = map<Id, Record>

  /** The rows of a key space, as a plain map. */
  function Abs(db: Db): Plain {
    map k | k in db && k != INDEX && db[k].Hash? :: db[k].data
  }

  datatype Event =
    | InsertEv(id: Id, rec: Record)
    | UpdateEv(id: Id, patch: Record, now: int)
    | UpdateManyEv(filter: Filter, patch: Record, now: int, order: seq<Id>)
    | DeleteEv(id: Id)
    | DeleteManyEv(filter: Filter, order: seq<Id>)
    | ClearEv(order: seq<Id>)
    | ExpireEv(id: Id)

  function Step(db: Db, e: Event): Db {
    match e
    case InsertEv(id, rec) => Insert(db, id, rec)
    case UpdateEv(id, patch, now) => Update(db, id, patch, now)
    case UpdateManyEv(filter, patch, now, order) => UpdateDocs(db, Found(db, order, filter), patch, now)
    case DeleteEv(id) => Delete(db, id)
    case DeleteManyEv(filter, order) => DeleteDocs(db, Found(db, order, filter))
    case ClearEv(order) => Clear(db, order)
    case ExpireEv(id) => Del(db, id)
  }

  function PlainStep(rows: Plain, e: Event): Plain {
    match e
    case InsertEv(id, rec) => rows[id := rec]
    case UpdateEv(id, patch, now) => if id in rows then rows[id := Merge(rows[id], patch, now)] else rows
    case UpdateManyEv(filter, patch, now, _) =>
      map k | k in rows :: if Matches(rows[k], filter) then Merge(rows[k], patch, now) else rows[k]
    case DeleteEv(id) => rows - {id}
    case DeleteManyEv(filter, _) => map k | k in rows && !Matches(rows[k], filter) :: rows[k]
    case ClearEv(_) => map[]
    case ExpireEv(id) => rows - {id}
  }

  /** The record carries the id it is stored under; no patch sets an id; no row is called like
      the index. */
  predicate Ordinary(e: Event) {
    match e
    case InsertEv(id, rec) => id != INDEX && Get(rec, IdField) == Text(id)
    case UpdateEv(_, patch, _) => IdField !in patch
    case UpdateManyEv(_, patch, _, _) => IdField !in patch
    case DeleteEv(id) => id != INDEX
    case ExpireEv(id) => id != INDEX
    case _ => true
  }

  ghost predicate Answered(db: Db, e: Event) {
    e.UpdateManyEv? || e.DeleteManyEv? || e.ClearEv? ==> Enumerates(e.order, db)
  }

  /** The index key holds a set; every other key holds a row, under its own id, and is indexed. */
  ghost predicate Inv(db: Db) {
    && (INDEX in db ==> db[INDEX].IdSet?) && INDEX !in SMembers(db, INDEX)
    && forall k :: k in db && k != INDEX ==>
         db[k].Hash? && k in SMembers(db, INDEX) && Get(db[k].data, IdField) == Text(k)
  }

  // ---- what find returns

  ghost predicate DocsOf(db: Db, docs: seq<Record>) {
    forall i :: 0 <= i < |docs| ==>
      IdOf(docs[i]) != INDEX && HGet(db, IdOf(docs[i])) == Some(docs[i])
  }

  ghost predicate HasId(docs: seq<Record>, k: Id) {
    exists i :: 0 <= i < |docs| && IdOf(docs[i]) == k
  }

  lemma {:induction false} FoundIs(db: Db, order: seq<Id>, filter: Filter, k: Id)
    requires Inv(db) && forall id :: id in order ==> id != INDEX
    ensures DocsOf(db, Found(db, order, filter))
    ensures HasId(Found(db, order, filter), k)
       <==> k in order && HGet(db, k).Some? && Matches(HGet(db, k).value, filter)
    decreases |order|
  {
    if order != [] {
      var front, last := order[..|order| - 1], order[|order| - 1];
      assert forall id :: id in order <==> id in front || id == last;
      FoundIs(db, front, filter, k);
      HasIdLast(Found(db, front, filter), HGet(db, last), k);
      assert HGet(db, last).Some? ==> IdOf(HGet(db, last).value) == last;
    }
  }

  lemma HasIdLast(docs: seq<Record>, rec: Option<Record>, k: Id)
    ensures rec.Some? ==> (HasId(docs + [rec.value], k) <==> HasId(docs, k) || IdOf(rec.value) == k)
  {
    if rec.Some? {
      var more := docs + [rec.value];
      assert more[|docs|] == rec.value;
      assert forall i :: 0 <= i < |docs| ==> more[i] == docs[i];
    }
  }

  ghost predicate IdsApart(docs: seq<Record>) {
    forall i, j :: 0 <= i < j < |docs| ==> IdOf(docs[i]) != IdOf(docs[j])
  }

  lemma {:induction false} FoundDistinct(db: Db, order: seq<Id>, filter: Filter)
    requires Inv(db) && Distinct(order) && forall id :: id in order ==> id != INDEX
    ensures IdsApart(Found(db, order, filter))
    decreases |order|
  {
    if order != [] {
      var front, last := order[..|order| - 1], order[|order| - 1];
      assert forall id :: id in order <==> id in front || id == last;
      FoundDistinct(db, front, filter);
      FoundIs(db, front, filter, last);
      var docs := Found(db, front, filter);
      assert !HasId(docs, last);
      assert forall i :: 0 <= i < |docs| ==> IdOf(docs[i]) != last;
      assert HGet(db, last).Some? ==> IdOf(HGet(db, last).value) == last;
    }
  }

  // ---- the folds

  lemma {:induction false} UpdateDocsAt(db: Db, docs: seq<Record>, patch: Record, now: int, k: string)
    requires Inv(db) && DocsOf(db, docs)
    ensures var db' := UpdateDocs(db, docs, patch, now);
      if HasId(docs, k) then k in db && db[k].Hash? && k in db' && db'[k] == Hash(Merge(db[k].data, patch, now))
      else (k in db' <==> k in db) && (k in db ==> db'[k] == db[k])
    decreases |docs|
  {
    if docs != [] {
      var front, last := docs[..|docs| - 1], docs[|docs| - 1];
      assert docs == front + [last];
      assert DocsOf(db, front) by {
        assert forall i :: 0 <= i < |front| ==> front[i] == docs[i];
      }
      UpdateDocsAt(db, front, patch, now, k);
      UpdateDocsAt(db, front, patch, now, IdOf(last));
      HasIdLast(front, Some(last), k);
      assert HGet(db, IdOf(docs[|docs| - 1])) == Some(docs[|docs| - 1]);
    }
  }

  lemma DeleteAt(db: Db, id: Id, k: string)
    requires id != INDEX
    ensures SMembers(Delete(db, id), INDEX) == SMembers(db, INDEX) - {id}
    ensures k != INDEX ==>
      (k in Delete(db, id) <==> k in db && k != id) && (k in Delete(db, id) ==> Delete(db, id)[k] == db[k])
    ensures (INDEX in db ==> db[INDEX].IdSet?) ==> (INDEX in Delete(db, id) ==> Delete(db, id)[INDEX].IdSet?)
  {
  }

  lemma {:induction false} DeleteDocsAt(db: Db, docs: seq<Record>, k: string)
    requires forall i :: 0 <= i < |docs| ==> IdOf(docs[i]) != INDEX
    ensures var db' := DeleteDocs(db, docs);
      && (k in SMembers(db', INDEX) <==> k in SMembers(db, INDEX) && !HasId(docs, k))
      && (k != INDEX ==> (k in db' <==> k in db && !HasId(docs, k)) && (k in db' ==> db'[k] == db[k]))
      && ((INDEX in db ==> db[INDEX].IdSet?) ==> (INDEX in db' ==> db'[INDEX].IdSet?))
    decreases |docs|
  {
    if docs != [] {
      var front, last := docs[..|docs| - 1], docs[|docs| - 1];
      assert docs == front + [last];
      assert forall i :: 0 <= i < |front| ==> front[i] == docs[i];
      DeleteDocsAt(db, front, k);
      DeleteAt(DeleteDocs(db, front), IdOf(last), k);
      HasIdLast(front, Some(last), k);
    }
  }

  lemma {:induction false} DelAllAt(db: Db, ids: seq<Id>, k: string)
    ensures k in DelAll(db, ids) <==> k in db && k !in ids
    ensures k in DelAll(db, ids) ==> DelAll(db, ids)[k] == db[k]
    decreases |ids|
  {
    if ids != [] {
      DelAllAt(db, ids[..|ids| - 1], k);
      assert k in ids <==> k in ids[..|ids| - 1] || k == ids[|ids| - 1];
    }
  }

  // ---- one step

  /** One row put under its id, which is listed. */
  ghost predicate RowAdded(db: Db, db': Db, id: Id, rec: Record) {
    && (forall k :: k != INDEX ==> (k in db' <==> k in db || k == id))
    && (forall k :: k != INDEX && k in db' ==> db'[k] == if k == id then Hash(rec) else db[k])
    && INDEX in db' && db'[INDEX] == IdSet(SMembers(db, INDEX) + {id})
  }

  lemma InsertAddsRow(db: Db, id: Id, rec: Record)
    requires Inv(db) && id != INDEX
    ensures RowAdded(db, Insert(db, id, rec), id, rec)
  {
  }

  lemma RowAddedKeepsInv(db: Db, db': Db, id: Id, rec: Record)
    requires Inv(db) && RowAdded(db, db', id, rec) && id != INDEX && Get(rec, IdField) == Text(id)
    ensures Inv(db') && Abs(db') == Abs(db)[id := rec] && SMembers(db', INDEX) == SMembers(db, INDEX) + {id}
  {
  }

  lemma InsertRefines(db: Db, id: Id, rec: Record)
    requires Inv(db) && id != INDEX && Get(rec, IdField) == Text(id)
    ensures Inv(Insert(db, id, rec)) && Abs(Insert(db, id, rec)) == Abs(db)[id := rec]
    ensures SMembers(Insert(db, id, rec), INDEX) == SMembers(db, INDEX) + {id}
  {
    InsertAddsRow(db, id, rec);
    RowAddedKeepsInv(db, Insert(db, id, rec), id, rec);
  }

  lemma RowReplacedKeepsInv(db: Db, id: Id, rec: Record)
    requires Inv(db) && HGet(db, id).Some? && Get(rec, IdField) == Text(id)
    ensures Inv(db[id := Hash(rec)]) && SMembers(db[id := Hash(rec)], INDEX) == SMembers(db, INDEX)
    ensures Abs(db[id := Hash(rec)]) == Abs(db)[id := rec]
  {
  }

  lemma UpdateRefines(db: Db, id: Id, patch: Record, now: int)
    requires Inv(db) && IdField !in patch
    ensures Inv(Update(db, id, patch, now))
    ensures Abs(Update(db, id, patch, now))
         == if id in Abs(db) then Abs(db)[id := Merge(Abs(db)[id], patch, now)] else Abs(db)
    ensures SMembers(Update(db, id, patch, now), INDEX) == SMembers(db, INDEX)
  {
    match HGet(db, id) {
      case Some(rec) => RowReplacedKeepsInv(db, id, Merge(rec, patch, now));
      case None =>
    }
  }

  /** Every matching row merged with the patch, the index as it was. */
  ghost predicate MergedRows(db: Db, db': Db, filter: Filter, patch: Record, now: int) {
    && (forall k :: k in db' <==> k in db)
    && (forall k :: k in db && k != INDEX && db[k].Hash? ==>
          db'[k] == if Matches(db[k].data, filter) then Hash(Merge(db[k].data, patch, now)) else db[k])
    && (INDEX in db ==> db'[INDEX] == db[INDEX])
  }

  lemma MergedRowsKeepInv(db: Db, db': Db, filter: Filter, patch: Record, now: int)
    requires Inv(db) && MergedRows(db, db', filter, patch, now) && IdField !in patch
    ensures Inv(db') && SMembers(db', INDEX) == SMembers(db, INDEX)
  {
    forall k | k in db' && k != INDEX
      ensures db'[k].Hash? && k in SMembers(db', INDEX) && Get(db'[k].data, IdField) == Text(k)
    {
    }
  }

  lemma UpdateManyMerges(db: Db, filter: Filter, patch: Record, now: int, order: seq<Id>)
    requires Inv(db) && Enumerates(order, db)
    ensures MergedRows(db, UpdateDocs(db, Found(db, order, filter), patch, now), filter, patch, now)
  {
    var docs := Found(db, order, filter);
    var db' := UpdateDocs(db, docs, patch, now);
    forall k: string
      ensures k in db' <==> k in db
      ensures k in db && k != INDEX ==>
        db'[k] == if Matches(db[k].data, filter) then Hash(Merge(db[k].data, patch, now)) else db[k]
      ensures k in db && k == INDEX ==> db'[k] == db[k]
    {
      FoundIs(db, order, filter, k);
      UpdateDocsAt(db, docs, patch, now, k);
    }
  }

  lemma UpdateManyRefines(db: Db, filter: Filter, patch: Record, now: int, order: seq<Id>)
    requires Inv(db) && Enumerates(order, db) && IdField !in patch
    ensures var db' := UpdateDocs(db, Found(db, order, filter), patch, now);
      && Inv(db') && SMembers(db', INDEX) == SMembers(db, INDEX)
      && Abs(db') == PlainStep(Abs(db), UpdateManyEv(filter, patch, now, order))
  {
    UpdateManyMerges(db, filter, patch, now, order);
    MergedRowsKeepInv(db, UpdateDocs(db, Found(db, order, filter), patch, now), filter, patch, now);
  }

  lemma DeleteRefines(db: Db, id: Id)
    requires Inv(db) && id != INDEX
    ensures Inv(Delete(db, id)) && Abs(Delete(db, id)) == Abs(db) - {id}
    ensures SMembers(Delete(db, id), INDEX) == SMembers(db, INDEX) - {id}
  {
    forall k: string
      ensures k != INDEX ==>
        (k in Delete(db, id) <==> k in db && k != id) && (k in Delete(db, id) ==> Delete(db, id)[k] == db[k])
    {
      DeleteAt(db, id, k);
    }
    DeleteAt(db, id, id);
  }

  /** Every matching row gone, from the index too. */
  ghost predicate DroppedRows(db: Db, db': Db, filter: Filter) {
    && (INDEX in db' ==> db'[INDEX].IdSet?)
    && (forall k :: k in db' && k != INDEX <==> k in db && k != INDEX && db[k].Hash? && !Matches(db[k].data, filter))
    && (forall k :: k in db' && k != INDEX ==> db'[k] == db[k])
    && SMembers(db', INDEX) == SMembers(db, INDEX) - MatchingIds(Abs(db), filter)
  }

  lemma DroppedRowsKeepInv(db: Db, db': Db, filter: Filter)
    requires Inv(db) && DroppedRows(db, db', filter)
    ensures Inv(db')
  {
    forall k | k in db' && k != INDEX
      ensures db'[k].Hash? && k in SMembers(db', INDEX) && Get(db'[k].data, IdField) == Text(k)
    {
      assert db'[k] == db[k];
    }
  }

  lemma DroppedRowsAbs(db: Db, db': Db, filter: Filter)
    requires DroppedRows(db, db', filter)
    requires forall k :: k in db && k != INDEX ==> db[k].Hash?
    ensures Abs(db') == map k | k in Abs(db) && !Matches(Abs(db)[k], filter) :: Abs(db)[k]
  {
  }

  lemma DeleteManyDrops(db: Db, filter: Filter, order: seq<Id>)
    requires Inv(db) && Enumerates(order, db)
    ensures DroppedRows(db, DeleteDocs(db, Found(db, order, filter)), filter)
  {
    var docs := Found(db, order, filter);
    var db' := DeleteDocs(db, docs);
    forall k: string
      ensures k != INDEX ==>
        (k in db' <==> k in db && !Matches(db[k].data, filter)) && (k in db' ==> db'[k] == db[k])
      ensures k in SMembers(db', INDEX) <==> k in SMembers(db, INDEX) && k !in MatchingIds(Abs(db), filter)
      ensures INDEX in db' ==> db'[INDEX].IdSet?
    {
      FoundIs(db, order, filter, k);
      DeleteDocsAt(db, docs, k);
    }
  }

  lemma DeleteManyRefines(db: Db, filter: Filter, order: seq<Id>)
    requires Inv(db) && Enumerates(order, db)
    ensures var db' := DeleteDocs(db, Found(db, order, filter));
      && Inv(db') && Abs(db') == PlainStep(Abs(db), DeleteManyEv(filter, order))
      && SMembers(db', INDEX) == SMembers(db, INDEX) - MatchingIds(Abs(db), filter)
  {
    DeleteManyDrops(db, filter, order);
    DroppedRowsKeepInv(db, DeleteDocs(db, Found(db, order, filter)), filter);
    DroppedRowsAbs(db, DeleteDocs(db, Found(db, order, filter)), filter);
  }

  /** The ids of the matching rows of a plain map. */
  function MatchingIds(rows: Plain, filter: Filter): set<Id> {
    set k | k in rows && Matches(rows[k], filter)
  }

  lemma ClearRefines(db: Db, order: seq<Id>)
    requires Inv(db) && Enumerates(order, db)
    ensures Inv(Clear(db, order)) && Abs(Clear(db, order)) == map[] && SMembers(Clear(db, order), INDEX) == {}
  {
    forall k: string
      ensures k in DelAll(db, order) && k != INDEX ==> false
    {
      DelAllAt(db, order, k);
    }
    if order == [] {
      assert SMembers(db, INDEX) == {} by {
        assert forall id :: id in SMembers(db, INDEX) ==> id in order;
      }
      assert DelAll(db, order) == db;
    }
  }

  // ---------------------------------------------------------------- runs

  /** The ids the index still lists though their rows expired. */
  function StaleStep(rows: Plain, stale: set<Id>, e: Event): set<Id> {
    match e
    case InsertEv(id, _) => stale - {id}
    case DeleteEv(id) => stale - {id}
    case ClearEv(_) => {}
    case ExpireEv(id) => if id in rows then stale + {id} else stale
    case _ => stale
  }

  /** The key space is the plain map, with an index of its ids and the stale ones. */
  ghost predicate Refines(db: Db, rows: Plain, stale: set<Id>) {
    && Inv(db) && Abs(db) == rows
    && rows.Keys !! stale && SMembers(db, INDEX) == rows.Keys + stale
  }

  lemma StepKeeps(db: Db, e: Event)
    requires Inv(db) && Ordinary(e) && Answered(db, e)
    ensures Inv(Step(db, e)) && Abs(Step(db, e)) == PlainStep(Abs(db), e)
    ensures SMembers(Step(db, e), INDEX) == IndexStep(Abs(db), SMembers(db, INDEX), e)
  {
    match e {
      case InsertEv(id, rec) => InsertRefines(db, id, rec);
      case UpdateEv(id, patch, now) => UpdateRefines(db, id, patch, now);
      case UpdateManyEv(filter, patch, now, order) => UpdateManyRefines(db, filter, patch, now, order);
      case DeleteEv(id) => DeleteRefines(db, id);
      case DeleteManyEv(filter, order) => DeleteManyRefines(db, filter, order);
      case ClearEv(order) => ClearRefines(db, order);
      case ExpireEv(id) =>
    }
  }

  /** What a step does to the set of indexed ids. */
  function IndexStep(rows: Plain, ids: set<Id>, e: Event): set<Id> {
    match e
    case InsertEv(id, _) => ids + {id}
    case DeleteEv(id) => ids - {id}
    case DeleteManyEv(filter, _) => ids - MatchingIds(rows, filter)
    case ClearEv(_) => {}
    case _ => ids
  }

  lemma StepRefines(db: Db, rows: Plain, stale: set<Id>, e: Event)
    requires Refines(db, rows, stale) && Ordinary(e) && Answered(db, e)
    ensures Refines(Step(db, e), PlainStep(rows, e), StaleStep(rows, stale, e))
  {
    StepKeeps(db, e);
  }

  function After(db: Db, evs: seq<Event>): Db
    decreases |evs|
  {
    if evs == [] then db else After(Step(db, evs[0]), evs[1..])
  }

  function PlainAfter(rows: Plain, evs: seq<Event>): Plain
    decreases |evs|
  {
    if evs == [] then rows else PlainAfter(PlainStep(rows, evs[0]), evs[1..])
  }

  function StaleAfter(rows: Plain, stale: set<Id>, evs: seq<Event>): set<Id>
    decreases |evs|
  {
    if evs == [] then stale
    else StaleAfter(PlainStep(rows, evs[0]), StaleStep(rows, stale, evs[0]), evs[1..])
  }

  ghost predicate Allowed(db: Db, evs: seq<Event>)
    decreases |evs|
  {
    evs == [] || (Ordinary(evs[0]) && Answered(db, evs[0]) && Allowed(Step(db, evs[0]), evs[1..]))
  }

  lemma {:induction false} RunRefines(db: Db, rows: Plain, stale: set<Id>, evs: seq<Event>)
    requires Refines(db, rows, stale) && Allowed(db, evs)
    ensures Refines(After(db, evs), PlainAfter(rows, evs), StaleAfter(rows, stale, evs))
    decreases |evs|
  {
    if evs != [] {
      StepRefines(db, rows, stale, evs[0]);
      RunRefines(Step(db, evs[0]), PlainStep(rows, evs[0]), StaleStep(rows, stale, evs[0]), evs[1..]);
    }
  }

  lemma {:induction false} SeqSize(order: seq<Id>, ids: set<Id>)
    requires Distinct(order) && forall id :: id in ids <==> id in order
    ensures |order| == |ids|
    decreases |order|
  {
    if order == [] {
      assert ids == {};
    } else {
      var front, last := order[..|order| - 1], order[|order| - 1];
      assert forall id :: id in order <==> id in front || id == last;
      assert last in ids && last !in front;
      SeqSize(front, ids - {last});
    }
  }

  function IdsOf(docs: seq<Record>): (ids: seq<Id>)
    ensures |ids| == |docs| && forall i :: 0 <= i < |docs| ==> ids[i] == IdOf(docs[i])
  {
    seq(|docs|, i requires 0 <= i < |docs| => IdOf(docs[i]))
  }

  lemma FoundIds(db: Db, rows: Plain, stale: set<Id>, order: seq<Id>, filter: Filter)
    requires Refines(db, rows, stale) && Enumerates(order, db)
    ensures DocsOf(db, Found(db, order, filter))
    ensures forall k :: HasId(Found(db, order, filter), k) <==> k in MatchingIds(rows, filter)
  {
    FoundIs(db, order, filter, INDEX);
    forall k: string
      ensures HasId(Found(db, order, filter), k) <==> k in MatchingIds(rows, filter)
    {
      FoundIs(db, order, filter, k);
    }
  }

  /** What the reads answer, seen from the plain map: `find` lists each matching row once and
      nothing else, in some order. */
  lemma FindAnswers(db: Db, rows: Plain, stale: set<Id>, order: seq<Id>, filter: Filter)
    requires Refines(db, rows, stale) && Enumerates(order, db)
    ensures var docs := Found(db, order, filter);
      && |docs| == |MatchingIds(rows, filter)|
      && (forall i :: 0 <= i < |docs| ==> IdOf(docs[i]) in MatchingIds(rows, filter) && docs[i] == rows[IdOf(docs[i])])
      && (forall k :: k in MatchingIds(rows, filter) ==> HasId(docs, k))
  {
    var docs := Found(db, order, filter);
    FoundIds(db, rows, stale, order, filter);
    forall i | 0 <= i < |docs|
      ensures IdOf(docs[i]) in MatchingIds(rows, filter) && docs[i] == rows[IdOf(docs[i])]
    {
      assert HasId(docs, IdOf(docs[i]));
    }
    FoundDistinct(db, order, filter);
    FoundSize(docs, MatchingIds(rows, filter));
  }

  lemma FoundSize(docs: seq<Record>, ids: set<Id>)
    requires IdsApart(docs)
    requires forall k :: HasId(docs, k) <==> k in ids
    ensures |docs| == |ids|
  {
    forall k
      ensures k in ids <==> k in IdsOf(docs)
    {
      if HasId(docs, k) {
        var i :| 0 <= i < |docs| && IdOf(docs[i]) == k;
        assert IdsOf(docs)[i] == k;
      }
    }
    SeqSize(IdsOf(docs), ids);
  }

  lemma StartRefines()
    ensures Refines(map[], map[], {})
  {
    assert Abs(map[]) == map[];
  }

  /** Every run of operations leaves the key space and the plain map in step: looking up answers
      alike; finding, and so counting, by a filter lists each matching row once and nothing else;
      and an unfiltered count is the number of rows plus that of expired rows still indexed. */
  lemma CollectionRefinesPlainMap(evs: seq<Event>, id: Id, filter: Filter, order: seq<Id>)
    requires Allowed(map[], evs) && Enumerates(order, After(map[], evs))
    ensures var db, rows, stale := After(map[], evs), PlainAfter(map[], evs), StaleAfter(map[], {}, evs);
      var docs := Found(db, order, filter);
      && HGet(db, id) == (if id in rows then Some(rows[id]) else None)
      && |docs| == |MatchingIds(rows, filter)|
      && (forall i :: 0 <= i < |docs| ==> IdOf(docs[i]) in MatchingIds(rows, filter) && docs[i] == rows[IdOf(docs[i])])
      && (forall k :: k in MatchingIds(rows, filter) ==> HasId(docs, k))
      && |SMembers(db, INDEX)| == |rows| + |stale|
  {
    StartRefines();
    RunRefines(map[], map[], {}, evs);
    var db, rows, stale := After(map[], evs), PlainAfter(map[], evs), StaleAfter(map[], {}, evs);
    FindAnswers(db, rows, stale, order, filter);
    LookupAnswers(db, rows, stale, id);
  }

  lemma LookupAnswers(db: Db, rows: Plain, stale: set<Id>, id: Id)
    requires Refines(db, rows, stale)
    ensures HGet(db, id) == (if id in rows then Some(rows[id]) else None)
    ensures |SMembers(db, INDEX)| == |rows| + |stale|
  {
    assert |rows.Keys + stale| == |rows.Keys| + |stale|;
  }

  // ---- reading what was written

  /** A merged record reads the patch where there is one and the old record elsewhere; the time of the
      update comes last. */
  lemma MergeReads(rec: Record, patch: Record, now: int, f: Field)
    ensures Get(Merge(rec, patch, now), f)
         == if f == UpdatedAt then Number(now) else if f in patch then patch[f] else Get(rec, f)
  {
  }

  lemma {:induction false} MergedAt(docs: seq<Record>, patch: Record, now: int, i: nat)
    requires i < |docs|
    ensures |Merged(docs, patch, now)| == |docs| && Merged(docs, patch, now)[i] == Merge(docs[i], patch, now)
    decreases |docs|
  {
    if i < |docs| - 1 {
      MergedAt(docs[..|docs| - 1], patch, now, i);
    } else if |docs| > 1 {
      MergedAt(docs[..|docs| - 1], patch, now, 0);
    }
  }

  /** Every record that `updateMany` returns reads the patch, field by field. */
  lemma MergedReads(docs: seq<Record>, patch: Record, now: int, i: nat, f: Field)
    requires i < |docs|
    ensures |Merged(docs, patch, now)| == |docs|
    ensures Get(Merged(docs, patch, now)[i], f)
         == if f == UpdatedAt then Number(now) else if f in patch then patch[f] else Get(docs[i], f)
  {
    MergedAt(docs, patch, now, i);
  }

  /** `row'` is the row `row` with the patch written into it at `now`. */
  predicate Wrote(row: Option<Record>, row': Option<Record>, patch: Record, now: int, f: Field) {
    row.Some? && row'.Some?
    && Get(row'.value, f) == if f == UpdatedAt then Number(now) else if f in patch then patch[f] else Get(row.value, f)
  }

  /** Every field that the filter names reads the filter's value. */
  ghost predicate Selected(row: Option<Record>, filter: Filter) {
    row.Some? && forall f :: f in filter ==> (if f in row.value then row.value[f] else Undefined) == filter[f]
  }

  /** Read your own write: after any run, an update by id is read back by a lookup of that id, field
      by field, and by no other. */
  lemma UpdateIsRead(evs: seq<Event>, id: Id, patch: Record, now: int, x: Id, f: Field)
    requires Allowed(map[], evs) && IdField !in patch
    ensures var db := After(map[], evs);
      var row, row' := HGet(db, x), HGet(Step(db, UpdateEv(id, patch, now)), x);
      if x == id && row.Some? then Wrote(row, row', patch, now, f) else row' == row
  {
    var db := After(map[], evs);
    StartRefines();
    RunRefines(map[], map[], {}, evs);
    if HGet(db, id).Some? { MergeReads(HGet(db, id).value, patch, now, f); }
  }

  /** And an update by filter by a lookup of any row that the filter selects, and of no other. */
  lemma UpdateManyIsRead(evs: seq<Event>, filter: Filter, patch: Record, now: int, order: seq<Id>, x: Id, f: Field)
    requires Allowed(map[], evs) && IdField !in patch && Enumerates(order, After(map[], evs))
    ensures var db := After(map[], evs);
      var row, row' := HGet(db, x), HGet(Step(db, UpdateManyEv(filter, patch, now, order)), x);
      if Selected(row, filter) then Wrote(row, row', patch, now, f) else row' == row
  {
    var db := After(map[], evs);
    StartRefines();
    RunRefines(map[], map[], {}, evs);
    UpdateManyMerges(db, filter, patch, now, order);
    if HGet(db, x).Some? {
      MergeReads(HGet(db, x).value, patch, now, f);
      assert Selected(HGet(db, x), filter) <==> Matches(HGet(db, x).value, filter);
    }
  }

  /** After any run a find by a filter lists exactly the rows it selects, field by field; and a delete
      by it leaves exactly the others. */
  lemma FilterSelects(evs: seq<Event>, filter: Filter, order: seq<Id>, x: Id)
    requires Allowed(map[], evs) && Enumerates(order, After(map[], evs))
    ensures var db := After(map[], evs);
      && (HasId(Found(db, order, filter), x) <==> Selected(HGet(db, x), filter))
      && HGet(Step(db, DeleteManyEv(filter, order)), x) == if Selected(HGet(db, x), filter) then None else HGet(db, x)
  {
    var db := After(map[], evs);
    StartRefines();
    RunRefines(map[], map[], {}, evs);
    assert x in order <==> x in SMembers(db, INDEX);
    FoundIs(db, order, filter, x);
    DeleteManyDrops(db, filter, order);
    if HGet(db, x).Some? { assert Selected(HGet(db, x), filter) <==> Matches(HGet(db, x).value, filter); }
  }

  /** What is counted and what is found first, after any run: a filtered count is the number of rows
      that the filter selects, an unfiltered one adds the expired rows still indexed; and a row that
      the filter selects is found exactly when there is one. */
  lemma CountAnswers(evs: seq<Event>, filter: Filter, order: seq<Id>)
    requires Allowed(map[], evs) && Enumerates(order, After(map[], evs))
    ensures var db, rows := After(map[], evs), PlainAfter(map[], evs);
      && Counted(db, order, filter)
         == (if filter == map[] then |rows| + |StaleAfter(map[], {}, evs)|
             else |set k | k in rows && Selected(Some(rows[k]), filter)|)
      && (match First(Found(db, order, filter))
          case Some(rec) => IdOf(rec) in rows && rec == rows[IdOf(rec)] && Selected(Some(rec), filter)
          case None => forall k :: k in rows ==> !Selected(Some(rows[k]), filter))
  {
    var db, rows := After(map[], evs), PlainAfter(map[], evs);
    CollectionRefinesPlainMap(evs, INDEX, filter, order);
    SelectedIds(rows, filter);
    var docs := Found(db, order, filter);
    forall k | k in rows
      ensures Selected(Some(rows[k]), filter) ==> HasId(docs, k)
    {
      assert k in MatchingIds(rows, filter) <==> Matches(rows[k], filter);
      assert Selected(Some(rows[k]), filter) <==> Matches(rows[k], filter);
    }
  }

  lemma SelectedIds(rows: Plain, filter: Filter)
    ensures MatchingIds(rows, filter) == set k | k in rows && Selected(Some(rows[k]), filter)
  {
    assert forall k :: k in rows ==> (Matches(rows[k], filter) <==> Selected(Some(rows[k]), filter));
  }

  predicate NothingExpires(evs: seq<Event>) {
    evs == [] || (!evs[0].ExpireEv? && NothingExpires(evs[1..]))
  }

  lemma {:induction false} NothingStale(rows: Plain, evs: seq<Event>)
    requires NothingExpires(evs)
    ensures StaleAfter(rows, {}, evs) == {}
    decreases |evs|
  {
    if evs != [] {
      assert StaleStep(rows, {}, evs[0]) == {};
      NothingStale(PlainStep(rows, evs[0]), evs[1..]);
    }
  }

  /** Unless rows expire, an unfiltered count is exact. */
  lemma CountIsExact(evs: seq<Event>)
    requires Allowed(map[], evs) && NothingExpires(evs)
    ensures |SMembers(After(map[], evs), INDEX)| == |PlainAfter(map[], evs)|
  {
    StartRefines();
    RunRefines(map[], map[], {}, evs);
    NothingStale(map[], evs);
  }

  // ---------------------------------------------------------------- the id that is the index

  /** Deleting by id keeps the index whole, while there are rows to index, exactly when the id is
      not the index's own name: deleting that id drops the whole index. */
  lemma DeleteKeepsIndexIff(db: Db, id: Id)
    requires Inv(db) && Abs(db) != map[]
    ensures Inv(Delete(db, id)) <==> id != INDEX
  {
    if id != INDEX {
      DeleteRefines(db, id);
    } else {
      assert exists k :: k in Abs(db);
      var k :| k in Abs(db);
      assert k in Delete(db, INDEX) && SMembers(Delete(db, INDEX), INDEX) == {};
    }
  }

  // ---- a row called like the index

  /** An insert keeps the collection whole exactly when the row is not called like the index. */
  lemma InsertKeepsInvIff(db: Db, id: Id, rec: Record)
    requires Inv(db) && Get(rec, IdField) == Text(id)
    ensures Inv(Insert(db, id, rec)) <==> id != INDEX
  {
    if id != INDEX { InsertRefines(db, id, rec); }
  }

  /** An insert can be looked up afterwards exactly when the row is not called like the index, or
      the collection has no index yet: then the row takes the index's place. */
  lemma InsertStoresIff(db: Db, id: Id, rec: Record)
    requires Inv(db)
    ensures HGet(Insert(db, id, rec), id) == Some(rec) <==> id != INDEX || INDEX !in db
    ensures id == INDEX && INDEX !in db ==> Headless(Insert(db, id, rec))
  {
    assert id != INDEX ==> id !in db || db[id].Hash?;
  }

  /** Every key holds a row, the index's key included. */
  ghost predicate Headless(db: Db) {
    INDEX in db && forall k :: k in db ==> db[k].Hash?
  }

  /** Neither a delete nor an expiry frees the index's key. */
  predicate KeepsIndexKey(e: Event) {
    !(e.DeleteEv? && e.id == INDEX) && !(e.ExpireEv? && e.id == INDEX)
  }

  lemma {:induction false} HeadlessUpdates(db: Db, docs: seq<Record>, patch: Record, now: int)
    requires Headless(db)
    ensures Headless(UpdateDocs(db, docs, patch, now))
    decreases |docs|
  {
    if docs != [] { HeadlessUpdates(db, docs[..|docs| - 1], patch, now); }
  }

  lemma FirstIsMember(order: seq<Id>)
    ensures order != [] ==> order[0] in order
  {
  }

  lemma NothingListed(db: Db, order: seq<Id>)
    requires Headless(db) && Enumerates(order, db)
    ensures order == []
  {
    FirstIsMember(order);
  }

  lemma HeadlessStep(db: Db, e: Event)
    requires Headless(db) && KeepsIndexKey(e) && Answered(db, e)
    ensures Headless(Step(db, e))
  {
    match e {
      case UpdateManyEv(filter, patch, now, order) => HeadlessUpdates(db, Found(db, order, filter), patch, now);
      case DeleteManyEv(_, order) => NothingListed(db, order);
      case ClearEv(order) => NothingListed(db, order);
      case _ =>
    }
  }

  ghost predicate HeadlessRun(db: Db, evs: seq<Event>)
    decreases |evs|
  {
    evs == [] || (KeepsIndexKey(evs[0]) && Answered(db, evs[0]) && HeadlessRun(Step(db, evs[0]), evs[1..]))
  }

  lemma {:induction false} HeadlessStays(db: Db, evs: seq<Event>)
    requires Headless(db) && HeadlessRun(db, evs)
    ensures Headless(After(db, evs))
    decreases |evs|
  {
    if evs != [] {
      HeadlessStep(db, evs[0]);
      HeadlessStays(Step(db, evs[0]), evs[1..]);
    }
  }

  /** Once a row called like the index has been inserted into an empty collection, and until its
      key is deleted or expires, no run of operations gets any row indexed: finds return nothing,
      the unfiltered count is 0, and a further insert is stored where only a lookup by id finds it. */
  lemma IndexRowHidesEverything(rec: Record, evs: seq<Event>, order: seq<Id>, filter: Filter, id: Id, row: Record)
    requires HeadlessRun(Insert(map[], INDEX, rec), evs) && id != INDEX
    ensures var db := After(Insert(map[], INDEX, rec), evs);
      && SMembers(db, INDEX) == {}
      && (Enumerates(order, db) ==> Found(db, order, filter) == [])
      && SMembers(Insert(db, id, row), INDEX) == {}
      && HGet(Insert(db, id, row), id) == Some(row)
      && SMembers(Delete(db, INDEX), INDEX) == {}
  {
    HeadlessStays(Insert(map[], INDEX, rec), evs);
    var db := After(Insert(map[], INDEX, rec), evs);
    if Enumerates(order, db) { NothingListed(db, order); }
  }
}
