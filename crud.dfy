/**
 * The generic CRUD operations every resource reuses (app/crud/base.py).
 *
 * A `Session` is the SQLAlchemy session of one request: it owns the store
 * and changes it only through a commit. Each state-changing method is tied
 * to a function of the old store that says what the commit leaves behind;
 * the properties of the operations are stated and proved about those
 * functions. A failed commit (NOT NULL or UNIQUE refused) raises
 * IntegrityError, which no handler of the application expects, so the
 * request ends in a 500 and the store is left as it was.
 */
module Crud {
  import opened Wrappers
  import opened Models
  import opened Errors
  import opened Tables
  import opened Stores
  import opened Cascade

  class Session {
    var store: Store
    /** How deleting a suite treats the runs linked to it. */
    const policy: RunLinkPolicy

    predicate Valid()
      reads this
    {
      ValidStore(store)
    }

    /** A database whose tables `Base.metadata.create_all` has just created on a fresh file: all empty. */
    constructor (policy: RunLinkPolicy)
      ensures store == Empty && this.policy == policy
      ensures Valid()
    {
      store := Empty;
      this.policy := policy;
    }
  }

  /** A store after an operation, with what the operation returned or raised. */
  datatype Outcome<T> = Outcome(store: Store, result: Result<T, ApiError>)

  // ---------------------------------------------------------------------
  // Reads
  // ---------------------------------------------------------------------

  /** `get(db, id)`: the row with that key, or None. */
  function Get(s: Store, m: Model, id: int): (r: Option<Row>)
    ensures r.Some? ==> r.value in s.Tab(m) && r.value.id == id
    ensures r.None? <==> id !in Ids(s.Tab(m))
  {
    Find(s.Tab(m), id)
  }

  /** `get_multi(db, skip, limit)`: one page of the table, in table order. */
  function GetMulti(s: Store, m: Model, skip: int, limit: int): (r: seq<Row>)
    ensures IsPageOf(r, s.Tab(m), skip, limit)
    ensures limit >= 0 ==> |r| <= limit
    ensures forall row :: row in r ==> row in s.Tab(m)
    ensures skip <= 0 && limit < 0 ==> r == s.Tab(m)
  {
    var r := Page(s.Tab(m), skip, limit);
    assert forall row :: row in r ==> row in s.Tab(m) by {
      forall row | row in r ensures row in s.Tab(m) {
        PageWithin(s.Tab(m), skip, limit, row);
      }
    }
    if skip <= 0 && limit < 0 then PageAll(s.Tab(m), skip, limit); r else r
  }

  /**
   * A filtered listing: the rows with `col == v`, `skip` of them dropped,
   * at most `limit` kept. Nothing outside the filter is ever returned, and
   * without paging nothing inside it is left out.
   */
  function ListWhere(s: Store, m: Model, col: Column, v: Value, skip: int, limit: int): (r: seq<Row>)
    ensures IsPageOf(r, WhereEq(s.Tab(m), col, v), skip, limit)
    ensures limit >= 0 ==> |r| <= limit
    ensures forall row :: row in r ==> row in s.Tab(m) && Matches(row, col, v)
    ensures skip <= 0 && limit < 0 ==> forall row :: row in s.Tab(m) && Matches(row, col, v) ==> row in r
  {
    var hits := WhereEq(s.Tab(m), col, v);
    var r := Page(hits, skip, limit);
    assert forall row :: row in r ==> row in hits by {
      forall row | row in r ensures row in hits {
        PageWithin(hits, skip, limit, row);
      }
    }
    if skip <= 0 && limit < 0 then PageAll(hits, skip, limit); r else r
  }

  // ---------------------------------------------------------------------
  // create
  // ---------------------------------------------------------------------

  /**
   * `create(db, obj_in, **extra)` as a function of the store: the dumped
   * fields with the injected ones laid over them, the model's defaults for
   * the rest, under a fresh key.
   */
  function CreateOutcome(s: Store, m: Model, dump: Record, extra: Record, now: int): (o: Outcome<Row>)
    ensures o.result.Err? ==> o.store == s && o.result.error.Unhandled?
    ensures o.result.Err? ==> o.result.error.cause == (if dump.Keys + extra.Keys <= Def(m).columns then IntegrityError else TypeError)
    ensures o.result.Ok? ==>
      var row := o.result.value;
      && row.id == NewId(s.Tab(m))
      && Construct(Def(m), dump + extra, now).Ok? && row.rec == Construct(Def(m), dump + extra, now).value
      && o.store.Tab(m) == s.Tab(m) + [row]
      && (forall other :: other != m ==> o.store.Tab(other) == s.Tab(other))
      && WellFormed(m, row.rec)
      && (forall c :: c in extra && extra[c] != Null ==> c in row.rec && row.rec[c] == extra[c])
      && (forall c :: c in dump && c !in extra && dump[c] != Null ==> c in row.rec && row.rec[c] == dump[c])
    ensures o.result.Ok? <==>
              dump.Keys + extra.Keys <= Def(m).columns
              && Admissible(m, s.Tab(m), NewId(s.Tab(m)), Construct(Def(m), dump + extra, now).value)
  {
    match Construct(Def(m), dump + extra, now)
    case Err(cause) => Outcome(s, Err(Unhandled(cause)))
    case Ok(rec) =>
      var id := NewId(s.Tab(m));
      if !Admissible(m, s.Tab(m), id, rec) then Outcome(s, Err(Unhandled(IntegrityError)))
      else Outcome(s.With(m, s.Tab(m) + [Row(id, rec)]), Ok(Row(id, rec)))
  }

  /** A create whose record the commit admits succeeds, appending exactly the constructed record under the new key. */
  lemma CreateSucceeds(s: Store, m: Model, dump: Record, extra: Record, now: int, rec: Record)
    requires Construct(Def(m), dump + extra, now) == Ok(rec)
    requires Admissible(m, s.Tab(m), NewId(s.Tab(m)), rec)
    ensures var o := CreateOutcome(s, m, dump, extra, now);
      && o.result == Ok(Row(NewId(s.Tab(m)), rec))
      && o.store == s.With(m, s.Tab(m) + [o.result.value])
  {
  }

  /** `CreateSucceeds` for a create that injects no fields. */
  lemma CreateDumpSucceeds(s: Store, m: Model, dump: Record, now: int)
    requires Construct(Def(m), dump, now).Ok?
    requires Admissible(m, s.Tab(m), NewId(s.Tab(m)), Construct(Def(m), dump, now).value)
    ensures var o := CreateOutcome(s, m, dump, map[], now);
      && o.result == Ok(Row(NewId(s.Tab(m)), Construct(Def(m), dump, now).value))
      && o.store == s.With(m, s.Tab(m) + [o.result.value])
  {
    MergeNothing(dump);
    CreateSucceeds(s, m, dump, map[], now, Construct(Def(m), dump, now).value);
  }

  /** Replacing one table by a valid one keeps the store valid. */
  lemma WithKeepsValid(s: Store, m: Model, rows: seq<Row>)
    requires ValidStore(s)
    requires ValidTable(m, rows)
    ensures ValidStore(s.With(m, rows))
  {
    forall k ensures ValidTable(k, s.With(m, rows).Tab(k)) {
      if k != m { assert ValidTable(k, s.Tab(k)); }
    }
  }

  lemma ClashSymmetric(d: ModelDef, a: Record, b: Record)
    ensures Clash(d, a, b) <==> Clash(d, b, a)
  {
  }

  /** Appending an admissible, well-formed record under the new key keeps a table valid. */
  lemma AppendKeepsValidTable(m: Model, rows: seq<Row>, rec: Record)
    requires ValidTable(m, rows)
    requires WellFormed(m, rec)
    requires Admissible(m, rows, NewId(rows), rec)
    ensures ValidTable(m, rows + [Row(NewId(rows), rec)])
  {
    var row := Row(NewId(rows), rec);
    AppendValid(rows, rec);
    var r := rows + [row];
    forall a, b | a in r && b in r && a.id != b.id
      ensures !Clash(Def(m), a.rec, b.rec)
    {
      if a == row {
        ClashSymmetric(Def(m), a.rec, b.rec);
      } else if b != row {
        assert a in rows && b in rows;
      }
    }
  }

  /** A successful create keeps the store valid, and the new row is found under its fresh key. */
  lemma CreateKeepsValid(s: Store, m: Model, dump: Record, extra: Record, now: int)
    requires ValidStore(s)
    ensures var o := CreateOutcome(s, m, dump, extra, now);
      && ValidStore(o.store)
      && (o.result.Ok? ==> o.result.value.id !in Ids(s.Tab(m))
                           && Get(o.store, m, o.result.value.id) == Some(o.result.value))
  {
    var o := CreateOutcome(s, m, dump, extra, now);
    if o.result.Ok? {
      var rows := s.Tab(m);
      assert ValidTable(m, rows);
      AppendKeepsValidTable(m, rows, o.result.value.rec);
      WithKeepsValid(s, m, rows + [o.result.value]);
      assert o.store == s.With(m, rows + [o.result.value]);
      FindUnique(rows + [o.result.value], o.result.value);
    }
  }

  /** `db.add(self.model(**data)); db.commit(); db.refresh(...)`. */
  method Create(db: Session, m: Model, dump: Record, extra: Record, now: int) returns (r: Result<Row, ApiError>)
    requires db.Valid()
    modifies db
    ensures db.Valid()
    ensures Outcome(db.store, r) == CreateOutcome(old(db.store), m, dump, extra, now)
  {
    CreateKeepsValid(db.store, m, dump, extra, now);
    var data := dump + extra;
    var built := Construct(Def(m), data, now);
    if built.Err? {
      return Err(Unhandled(built.error));
    }
    var rows := db.store.Tab(m);
    var id := NewId(rows);
    if !Admissible(m, rows, id, built.value) {
      return Err(Unhandled(IntegrityError));
    }
    db.store := db.store.With(m, rows + [Row(id, built.value)]);
    r := Ok(Row(id, built.value));
  }

  // ---------------------------------------------------------------------
  // update
  // ---------------------------------------------------------------------

  /** Some change differs from what the record holds. */
  predicate ChangesSomething(rec: Record, changes: Record)
  {
    exists c :: c in changes && (c !in rec || rec[c] != changes[c])
  }

  /**
   * The attributes of an object after `setattr` of every change and the
   * flush: each changed field holds its new value, and if the row really
   * changed, every `onupdate=now` column the changes do not set explicitly
   * takes the flush instant. Everything else is as it was.
   */
  function UpdatedRecord(d: ModelDef, rec: Record, changes: Record, now: int): (r: Record)
    ensures r.Keys == rec.Keys + changes.Keys
                      + (if ChangesSomething(rec, changes) then d.refreshedOnUpdate - changes.Keys else {})
    ensures forall c :: c in changes ==> r[c] == changes[c]
    ensures forall c :: c in rec && c !in changes && c !in d.refreshedOnUpdate ==> r[c] == rec[c]
    ensures ChangesSomething(rec, changes) ==>
              forall c :: c in d.refreshedOnUpdate && c !in changes ==> r[c] == Instant(now)
    ensures !ChangesSomething(rec, changes) ==> r == rec
  {
    OverlayChanges(rec, changes);
    var written := rec + changes;
    if written != rec then written + map c | c in d.refreshedOnUpdate && c !in changes :: Instant(now)
    else written
  }

  /** An update of a full record by some of its columns leaves it a full record. */
  lemma UpdatedRecordKeys(d: ModelDef, rec: Record, changes: Record, now: int)
    requires rec.Keys == d.columns && changes.Keys <= d.columns && d.refreshedOnUpdate <= d.columns
    ensures UpdatedRecord(d, rec, changes, now).Keys == d.columns
  {
  }

  /** Writing the changes alters the record exactly when some change differs from it. */
  lemma OverlayChanges(rec: Record, changes: Record)
    ensures rec + changes != rec <==> ChangesSomething(rec, changes)
  {
    if ChangesSomething(rec, changes) {
      var c :| c in changes && (c !in rec || rec[c] != changes[c]);
      assert c !in rec || (rec + changes)[c] != rec[c];
    }
  }

  /**
   * `update(db, db_obj, obj_in)` as a function of the store: `changes` is
   * `obj_in.model_dump(exclude_unset=True)`. The commit fails, changing
   * nothing, when a NOT NULL column would become NULL.
   */
  function UpdateOutcome(s: Store, m: Model, dbObj: Row, changes: Record, now: int): (o: Outcome<Row>)
    requires dbObj in s.Tab(m)
    requires changes.Keys <= Def(m).columns
    ensures o.result.Err? ==> o.store == s && o.result.error == Unhandled(IntegrityError)
    ensures o.result.Ok? ==>
      && o.result.value == Row(dbObj.id, UpdatedRecord(Def(m), dbObj.rec, changes, now))
      && NotNullHolds(Def(m), o.result.value.rec)
      && o.store.Tab(m) == Replace(s.Tab(m), dbObj.id, o.result.value.rec)
      && (forall other :: other != m ==> o.store.Tab(other) == s.Tab(other))
    ensures (exists c :: c in changes && c in Def(m).notNull && changes[c] == Null) ==> o.result.Err?
    ensures o.result.Ok? <==> Admissible(m, s.Tab(m), dbObj.id, UpdatedRecord(Def(m), dbObj.rec, changes, now))
  {
    var rec := UpdatedRecord(Def(m), dbObj.rec, changes, now);
    if !Admissible(m, s.Tab(m), dbObj.id, rec) then Outcome(s, Err(Unhandled(IntegrityError)))
    else Outcome(s.With(m, Replace(s.Tab(m), dbObj.id, rec)), Ok(Row(dbObj.id, rec)))
  }

  /** Replacing a row's record by an admissible, well-formed one keeps a table valid. */
  lemma ReplaceKeepsValidTable(m: Model, rows: seq<Row>, id: int, rec: Record)
    requires ValidTable(m, rows)
    requires WellFormed(m, rec)
    requires Admissible(m, rows, id, rec)
    ensures ValidTable(m, Replace(rows, id, rec))
  {
    var r := Replace(rows, id, rec);
    forall row | row in r
      ensures WellFormed(m, row.rec)
    {
      var i :| 0 <= i < |r| && r[i] == row;
      assert rows[i] in rows;
    }
    ReplaceKeepsNoClash(m, rows, id, rec);
  }

  /** Replacing a row's record by one that clashes with no other row keeps the unique columns unique. */
  lemma ReplaceKeepsNoClash(m: Model, rows: seq<Row>, id: int, rec: Record)
    requires ValidTable(m, rows)
    requires Admissible(m, rows, id, rec)
    ensures forall a, b :: a in Replace(rows, id, rec) && b in Replace(rows, id, rec) && a.id != b.id ==>
              !Clash(Def(m), a.rec, b.rec)
  {
    var r := Replace(rows, id, rec);
    forall a, b | a in r && b in r && a.id != b.id
      ensures !Clash(Def(m), a.rec, b.rec)
    {
      var i :| 0 <= i < |r| && r[i] == a;
      var j :| 0 <= j < |r| && r[j] == b;
      assert rows[i] in rows && rows[j] in rows;
      if a.id == id {
        ClashSymmetric(Def(m), a.rec, b.rec);
      }
    }
  }

  /** A successful update keeps the store valid; the key now finds the new record and every other row is kept. */
  lemma UpdateKeepsValid(s: Store, m: Model, dbObj: Row, changes: Record, now: int)
    requires ValidStore(s)
    requires dbObj in s.Tab(m)
    requires changes.Keys <= Def(m).columns
    ensures var o := UpdateOutcome(s, m, dbObj, changes, now);
      && ValidStore(o.store)
      && (o.result.Ok? ==> Get(o.store, m, dbObj.id) == Some(o.result.value)
                           && forall row :: row in s.Tab(m) && row.id != dbObj.id ==> row in o.store.Tab(m))
  {
    var o := UpdateOutcome(s, m, dbObj, changes, now);
    if o.result.Ok? {
      var rows := s.Tab(m);
      var rec := o.result.value.rec;
      assert ValidTable(m, rows);
      assert WellFormed(m, dbObj.rec);
      RefreshedAreColumns(m);
      UpdatedRecordKeys(Def(m), dbObj.rec, changes, now);
      ReplaceKeepsValidTable(m, rows, dbObj.id, rec);
      WithKeepsValid(s, m, Replace(rows, dbObj.id, rec));
      assert o.store == s.With(m, Replace(rows, dbObj.id, rec));
      assert dbObj.id in Ids(rows);
      ReplaceFind(rows, dbObj.id, rec);
    }
  }

  /** The changes write no NULL into a NOT NULL column. */
  predicate NoNullIntoNotNull(d: ModelDef, changes: Record)
  {
    forall c :: c in changes && c in d.notNull ==> changes[c] != Null
  }

  /**
   * In a valid table without unique columns, an update commits exactly when
   * it writes no NULL into a NOT NULL column.
   */
  lemma UpdateSucceedsIff(s: Store, m: Model, dbObj: Row, changes: Record, now: int)
    requires ValidTable(m, s.Tab(m))
    requires Def(m).unique == {}
    requires dbObj in s.Tab(m)
    requires changes.Keys <= Def(m).columns
    ensures UpdateOutcome(s, m, dbObj, changes, now).result.Ok? <==> NoNullIntoNotNull(Def(m), changes)
  {
    var d := Def(m);
    var rec := UpdatedRecord(d, dbObj.rec, changes, now);
    assert WellFormed(m, dbObj.rec);
    if NoNullIntoNotNull(d, changes) {
      forall c | c in d.notNull
        ensures c in rec && rec[c] != Null
      {
        assert c in dbObj.rec;
      }
      assert Admissible(m, s.Tab(m), dbObj.id, rec);
    }
  }

  /** A column the changes leave alone and the flush does not refresh keeps its value. */
  lemma UpdateKeepsColumn(s: Store, m: Model, dbObj: Row, changes: Record, now: int, c: Column)
    requires dbObj in s.Tab(m)
    requires changes.Keys <= Def(m).columns
    requires UpdateOutcome(s, m, dbObj, changes, now).result.Ok?
    requires c in dbObj.rec && c !in changes && c !in Def(m).refreshedOnUpdate
    ensures var after := UpdateOutcome(s, m, dbObj, changes, now).result.value;
      c in after.rec && after.rec[c] == dbObj.rec[c]
  {
  }

  /** An update with no fields set changes nothing and returns the row as it was. */
  lemma EmptyUpdateChangesNothing(s: Store, m: Model, dbObj: Row, now: int)
    requires ValidStore(s)
    requires dbObj in s.Tab(m)
    ensures UpdateOutcome(s, m, dbObj, map[], now) == Outcome(s, Ok(dbObj))
  {
    var rows := s.Tab(m);
    assert ValidTable(m, rows);
    assert dbObj.rec + map[] == dbObj.rec;
    forall row | row in rows && row.id != dbObj.id
      ensures !Clash(Def(m), row.rec, dbObj.rec)
    {
    }
    var r := Replace(rows, dbObj.id, dbObj.rec);
    forall i | 0 <= i < |rows| ensures r[i] == rows[i] {
      if rows[i].id == dbObj.id {
        SameKeySameRow(rows, rows[i], dbObj);
      }
    }
    assert r == rows;
    assert s.With(m, rows) == s;
  }

  /**
   * `for field, value in changes.items(): setattr(db_obj, field, value)`:
   * afterwards every changed field holds its new value and every other
   * attribute is as it was.
   */
  method SetAttrs(rec: Record, changes: Record) returns (r: Record)
    ensures r.Keys == rec.Keys + changes.Keys
    ensures forall c :: c in changes ==> r[c] == changes[c]
    ensures forall c :: c in rec && c !in changes ==> r[c] == rec[c]
  {
    r := rec;
    var pending := changes.Keys;
    while pending != {}
      invariant pending <= changes.Keys
      invariant r.Keys == rec.Keys + (changes.Keys - pending)
      invariant forall c :: c in changes && c !in pending ==> r[c] == changes[c]
      invariant forall c :: c in rec && c !in changes.Keys - pending ==> r[c] == rec[c]
      decreases pending
    {
      var field :| field in pending;
      r := r[field := changes[field]];
      pending := pending - {field};
    }
  }

  /** `update(db, db_obj=..., obj_in=...)`: set the attributes, then commit (the flush fires `onupdate`). */
  method Update(db: Session, m: Model, dbObj: Row, changes: Record, now: int) returns (r: Result<Row, ApiError>)
    requires db.Valid()
    requires dbObj in db.store.Tab(m)
    requires changes.Keys <= Def(m).columns
    modifies db
    ensures db.Valid()
    ensures Outcome(db.store, r) == UpdateOutcome(old(db.store), m, dbObj, changes, now)
  {
    UpdateKeepsValid(db.store, m, dbObj, changes, now);
    var rec := FlushedAttrs(Def(m), dbObj.rec, changes, now);
    var rows := db.store.Tab(m);
    if !Admissible(m, rows, dbObj.id, rec) {
      return Err(Unhandled(IntegrityError));
    }
    db.store := db.store.With(m, Replace(rows, dbObj.id, rec));
    r := Ok(Row(dbObj.id, rec));
  }

  /** The object's attributes after the `setattr` loop and the flush that fires `onupdate`. */
  method FlushedAttrs(d: ModelDef, attrs: Record, changes: Record, now: int) returns (rec: Record)
    ensures rec == UpdatedRecord(d, attrs, changes, now)
  {
    rec := SetAttrs(attrs, changes);
    assert rec == attrs + changes;
    OverlayChanges(attrs, changes);
    if rec != attrs {
      // the flush emits an UPDATE statement, which fires `onupdate`
      rec := rec + map c | c in d.refreshedOnUpdate && c !in changes :: Instant(now);
    }
  }

  // ---------------------------------------------------------------------
  // delete
  // ---------------------------------------------------------------------

  /** `delete(db, id)`: returns the row it found (None if absent) and deletes it with its cascades. */
  method Delete(db: Session, m: Model, id: int) returns (r: Option<Row>)
    requires db.Valid()
    modifies db
    ensures db.Valid()
    ensures r == Get(old(db.store), m, id)
    ensures db.store == Deleted(old(db.store), m, id, db.policy)
  {
    DeletedValid(db.store, m, id, db.policy);
    r := Get(db.store, m, id);
    if r.Some? {
      db.store := Deleted(db.store, m, id, db.policy);
    }
  }

  /** Deleting a key twice: the second call returns None and changes nothing. */
  lemma SecondDeleteFindsNothing(s: Store, m: Model, id: int, policy: RunLinkPolicy)
    ensures Get(Deleted(s, m, id, policy), m, id).None?
    ensures Deleted(Deleted(s, m, id, policy), m, id, policy) == Deleted(s, m, id, policy)
  {
  }
}
