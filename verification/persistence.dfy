/** The shard-aware overrides of the record write path: reload, touch,
    update_columns, the delete relation and the row update. */
module Persistence {
  import opened Outcomes
  import opened ShardScope
  import opened RowTable

  /** The timestamp part of a touch: every listed column set to `now`. */
  function Stamps(columns: seq<string>, now: Value): (s: Attributes)
    ensures s.Keys == set c | c in columns
    ensures forall c :: c in s ==> s[c] == now
  {
    map c | c in columns :: now
  }

  /** The change set a touch writes, given the attributes before it: `now` in
      every listed column, then, under optimistic locking, the lock column set
      to one more than its value after the timestamps were written. */
  function TouchChanges(m: ModelClass, columns: seq<string>, now: Value, attrs: Attributes): (c: Attributes)
    ensures m.lockingColumn.None? ==> c.Keys == set col | col in columns
    ensures m.lockingColumn.Some? ==> c.Keys == (set col | col in columns) + {m.lockingColumn.value}
    ensures forall col :: col in columns && m.lockingColumn != Some(col) ==> c[col] == now
    ensures m.lockingColumn.Some? ==>
      c[m.lockingColumn.value] == Int(ToInt(Read(attrs + Stamps(columns, now), m.lockingColumn.value)) + 1)
  {
    var stamps := Stamps(columns, now);
    match m.lockingColumn
    case None => stamps
    case Some(lock) => stamps[lock := Int(ToInt(Read(attrs + stamps, lock)) + 1)]
  }

  /** A Ruby hash given as its key/value pairs in order, as a map: a later
      pair for the same key wins. */
  function AsMap(pairs: seq<(string, Value)>): Attributes
  {
    if |pairs| == 0 then map[]
    else
      var last := pairs[|pairs| - 1];
      AsMap(pairs[..|pairs| - 1])[last.0 := last.1]
  }

  /** The hash has exactly the keys of its pairs. */
  lemma {:induction false} AsMapKeys(pairs: seq<(string, Value)>)
    ensures AsMap(pairs).Keys == set p | p in pairs :: p.0
  {
    if |pairs| > 0 {
      var init := pairs[..|pairs| - 1];
      AsMapKeys(init);
      assert pairs == init + [pairs[|pairs| - 1]];
      assert (set p | p in pairs :: p.0) == (set p | p in init :: p.0) + {pairs[|pairs| - 1].0};
    }
  }

  /** Each key of the hash holds the value of its last pair. */
  lemma {:induction false} AsMapLastWins(pairs: seq<(string, Value)>, i: nat)
    requires i < |pairs|
    requires forall j :: i < j < |pairs| ==> pairs[j].0 != pairs[i].0
    ensures pairs[i].0 in AsMap(pairs) && AsMap(pairs)[pairs[i].0] == pairs[i].1
  {
    var init := pairs[..|pairs| - 1];
    if i < |pairs| - 1 {
      assert init[i] == pairs[i];
      AsMapLastWins(init, i);
    }
  }

  /** The column/value pairs a row update writes: the requested names that are
      not read-only, with their current values. */
  function AttributesForUpdate(m: ModelClass, attrs: Attributes, names: seq<string>): (v: Attributes)
    ensures v.Keys == (set n | n in names) - m.readonlyAttributes
    ensures forall n :: n in v ==> v[n] == Read(attrs, n)
  {
    map n | n in names && n !in m.readonlyAttributes :: Read(attrs, n)
  }

  /** Two maps that agree outside `keys` agree outside any larger key set. */
  lemma AgreeOutsideWider(a: map<string, Value>, b: map<string, Value>, keys: set<string>, wider: set<string>)
    requires a - keys == b - keys && keys <= wider
    ensures a - wider == b - wider
  {
    forall k | k !in wider ensures (k in a <==> k in b) && (k in a ==> a[k] == b[k]) {
      assert k in a - keys <==> k in a;
      assert k in b - keys <==> k in b;
    }
  }

  /** Overwriting a key inside `keys` changes nothing outside `keys`. */
  lemma AgreeOutsideWrite(a: map<string, Value>, k: string, v: Value, keys: set<string>)
    requires k in keys
    ensures a[k := v] - keys == a - keys
  {
  }

  lemma StampsAppend(columns: seq<string>, column: string, now: Value)
    ensures Stamps(columns + [column], now) == Stamps(columns, now)[column := now]
  {
    assert (set c | c in columns + [column]) == (set c | c in columns) + {column};
  }

  /** A row satisfies the finder filter exactly when it carries the primary
      key and, on a sharded class, the record's current shard-key value. */
  lemma FinderMatches(m: ModelClass, attrs: Attributes, id: Value, row: Row)
    ensures Matches(row, Finder(m, attrs, id)) <==>
      Read(row, m.primaryKey) == id && (Sharded(m) ==> Read(row, m.shardKey) == Read(attrs, m.shardKey))
  {
    var f := Finder(m, attrs, id);
    assert Bind(m.primaryKey, id) in f;
    if Sharded(m) {
      assert Bind(m.shardKey, Read(attrs, m.shardKey)) in f;
    }
  }

  /** On a table whose primary key is unique, a scoped write affects at most one
      row, and exactly one iff a row with that key lies in the shard named by
      the record's current shard-key value. A record whose shard-key attribute
      no longer matches its stored row therefore writes nothing. */
  lemma {:induction false} ScopedWriteCount(rows: seq<Row>, m: ModelClass, attrs: Attributes, id: Value)
    requires UniqueKey(rows, m.primaryKey)
    ensures CountMatching(rows, Finder(m, attrs, id)) <= 1
    ensures CountMatching(rows, Finder(m, attrs, id)) == 1 <==>
      exists k :: 0 <= k < |rows| && Read(rows[k], m.primaryKey) == id &&
        (Sharded(m) ==> Read(rows[k], m.shardKey) == Read(attrs, m.shardKey))
  {
    var f := Finder(m, attrs, id);
    assert Bind(m.primaryKey, id) in f;
    CountAtMostOneOnUniqueKey(rows, f, m.primaryKey, id);
    forall k | 0 <= k < |rows| {
      FinderMatches(m, attrs, id, rows[k]);
    }
    if k :| 0 <= k < |rows| && Matches(rows[k], f) {
      forall j | 0 <= j < |rows| && j != k ensures !Matches(rows[j], f) {
        if j < k {
          assert Read(rows[j], m.primaryKey) != Read(rows[k], m.primaryKey);
        } else {
          assert Read(rows[k], m.primaryKey) != Read(rows[j], m.primaryKey);
        }
      }
      CountSingleMatch(rows, f, k);
    }
  }

  /** With non-nil key values the delete relation addresses the same rows as
      the finder filter of the other operations; a nil id or (when sharded)
      a nil shard-key value makes it match no row at all. */
  lemma DestroyRelationMatchesFinder(m: ModelClass, attrs: Attributes, row: Row)
    ensures BoundMatches(row, RelationForDestroy(m, attrs).bindValues) <==>
      && Read(attrs, m.primaryKey) != Nil
      && (Sharded(m) ==> Read(attrs, m.shardKey) != Nil)
      && Matches(row, Finder(m, attrs, Read(attrs, m.primaryKey)))
  {
    var c := RelationForDestroy(m, attrs).bindValues;
    FinderMatches(m, attrs, Read(attrs, m.primaryKey), row);
    assert Bind(m.primaryKey, Read(attrs, m.primaryKey)) in c;
    if Sharded(m) {
      assert Bind(m.shardKey, Read(attrs, m.shardKey)) in c;
    }
  }

  /** A delete through the destroy relation removes at most one row of a
      table whose primary key is unique. */
  lemma DestroyAffectsAtMostOneRow(rows: seq<Row>, m: ModelClass, attrs: Attributes)
    requires UniqueKey(rows, m.primaryKey)
    ensures forall i, j ::
              0 <= i < j < |rows| && BoundMatches(rows[i], RelationForDestroy(m, attrs).bindValues) ==>
              !BoundMatches(rows[j], RelationForDestroy(m, attrs).bindValues)
  {
    var c := RelationForDestroy(m, attrs).bindValues;
    assert Bind(m.primaryKey, Read(attrs, m.primaryKey)) in c;
  }

  /** The shard filter is taken from the record's in-memory shard key: on a
      sharded class, once that attribute differs from the stored row's, a
      write addressed to the row's primary key reaches no row at all. */
  lemma StaleShardKeyWritesNothing(rows: seq<Row>, m: ModelClass, attrs: Attributes, k: nat)
    requires Sharded(m) && UniqueKey(rows, m.primaryKey)
    requires k < |rows| && Read(rows[k], m.shardKey) != Read(attrs, m.shardKey)
    ensures CountMatching(rows, Finder(m, attrs, Read(rows[k], m.primaryKey))) == 0
  {
    var id := Read(rows[k], m.primaryKey);
    forall j | 0 <= j < |rows| ensures !Matches(rows[j], Finder(m, attrs, id)) {
      FinderMatches(m, attrs, id, rows[j]);
      if j != k {
        assert Read(rows[j], m.primaryKey) != id by {
          if j < k {} else {}
        }
      }
    }
  }

  /** A record instance: its attributes, the original values of its pending
      changes, and its lifecycle flags. */
  class Record {
    const model: ModelClass
    var attributes: Attributes
    var changedAttributes: map<string, Value>   // column -> value before the pending change
    var newRecord: bool
    var destroyed: bool

    constructor (model: ModelClass, attributes: Attributes, newRecord: bool)
      ensures this.model == model && this.attributes == attributes
      ensures this.newRecord == newRecord && !destroyed && changedAttributes == map[]
    {
      this.model := model;
      this.attributes := attributes;
      this.newRecord := newRecord;
      destroyed := false;
      changedAttributes := map[];
    }

    predicate Persisted()
      reads this
    {
      !(newRecord || destroyed)
    }

    function Id(): Value
      reads this
    {
      Read(attributes, model.primaryKey)
    }

    /** The primary key before any pending change to it. */
    function IdWas(): Value
      reads this
    {
      if model.primaryKey in changedAttributes then changedAttributes[model.primaryKey] else Id()
    }

    /** Assign through change tracking: the column takes the value and, unless
        it already has a pending change, remembers its previous value. */
    method WriteAttribute(column: string, value: Value)
      modifies this`attributes, this`changedAttributes
      ensures attributes == old(attributes)[column := value]
      ensures changedAttributes ==
        if column in old(changedAttributes) then old(changedAttributes)
        else old(changedAttributes)[column := Read(old(attributes), column)]
    {
      if column !in changedAttributes {
        changedAttributes := changedAttributes[column := Read(attributes, column)];
      }
      attributes := attributes[column := value];
    }

    /** Re-read the record's row under the shard scope, optionally as a locking
        read, and take over its attributes. */
    method Reload(table: Table, lock: bool) returns (r: Result<Record>)
      modifies this`attributes, this`newRecord, table`log
      ensures table.rows == old(table.rows)
      ensures old(Id()) == Nil ==>
        r == Err(RecordNotFound) && table.log == old(table.log) &&
        attributes == old(attributes) && newRecord == old(newRecord)
      ensures old(Id()) != Nil ==>
        var filter := Finder(model, old(attributes), old(Id()));
        table.log == old(table.log) + [Select(filter, lock)] &&
        if FirstMatch(table.rows, filter).None? then
          r == Err(RecordNotFound) && attributes == old(attributes) && newRecord == old(newRecord)
        else
          r == Ok(this) && attributes == table.rows[FirstMatch(table.rows, filter).value] && !newRecord
    {
      if Id() == Nil {
        return Err(RecordNotFound);
      }
      var finderScope := Finder(model, attributes, Id());
      var freshObject := table.Find(finderScope, lock);
      if freshObject.None? {
        return Err(RecordNotFound);
      }
      attributes := freshObject.value;
      newRecord := false;
      r := Ok(this);
    }

    /** Write `now` into each column through change tracking, collecting the
        change set; pending changes of other columns are left as they were. */
    method WriteTimestamps(columns: seq<string>, now: Value) returns (changes: Attributes)
      modifies this`attributes, this`changedAttributes
      ensures changes == Stamps(columns, now)
      ensures attributes == old(attributes) + changes
      ensures changedAttributes - changes.Keys == old(changedAttributes) - changes.Keys
    {
      changes := map[];
      var i := 0;
      while i < |columns|
        invariant 0 <= i <= |columns|
        invariant changes == Stamps(columns[..i], now)
        invariant attributes == old(attributes) + changes
        invariant changedAttributes - changes.Keys == old(changedAttributes) - changes.Keys
      {
        ghost var pending := changedAttributes;
        var column := columns[i];
        label Step:
        WriteAttribute(column, now);
        assert attributes == (old(attributes) + changes)[column := now] == old(attributes) + changes[column := now];
        AgreeOutsideWider(pending, old(changedAttributes), changes.Keys, changes.Keys + {column});
        if column !in pending {
          AgreeOutsideWrite(pending, column, Read(old@Step(attributes), column), changes.Keys + {column});
        }
        assert changedAttributes - (changes.Keys + {column}) == old(changedAttributes) - (changes.Keys + {column});
        assert changes[column := now].Keys == changes.Keys + {column};
        assert columns[..i + 1] == columns[..i] + [column];
        StampsAppend(columns[..i], column, now);
        changes := changes[column := now];
        i := i + 1;
      }
      assert columns[..i] == columns;
    }

    /** The in-memory half of a touch: stamp the columns, bump the lock column
        under optimistic locking, and drop the pending changes of exactly the
        columns written. */
    method ApplyTouchChanges(columns: seq<string>, now: Value) returns (changes: Attributes)
      requires columns != []
      modifies this`attributes, this`changedAttributes
      ensures changes == TouchChanges(model, columns, now, old(attributes))
      ensures changes != map[]
      ensures attributes == old(attributes) + changes
      ensures changedAttributes == old(changedAttributes) - changes.Keys
    {
      changes := WriteTimestamps(columns, now);
      assert columns[0] in changes;
      if model.lockingColumn.Some? {
        var lock := model.lockingColumn.value;
        var next := Int(ToInt(Read(attributes, lock)) + 1);
        ghost var pending := changedAttributes;
        WriteAttribute(lock, next);
        assert attributes == (old(attributes) + changes)[lock := next] == old(attributes) + changes[lock := next];
        assert changedAttributes - (changes.Keys + {lock}) == pending - (changes.Keys + {lock});
        AgreeOutsideWider(pending, old(changedAttributes), changes.Keys, changes.Keys + {lock});
        changes := changes[lock := next];
      }
      assert changes == TouchChanges(model, columns, now, old(attributes));
      changedAttributes := changedAttributes - changes.Keys;
    }

    /** Set the update timestamps (the configured ones followed by `names`) to
        `now`, bump the lock column under optimistic locking, drop those
        columns' pending changes, and write the same change set to the
        record's row under the shard scope. */
    method Touch(table: Table, names: seq<string>, now: Value) returns (r: Result<bool>)
      modifies this`attributes, this`changedAttributes, table
      ensures !old(Persisted()) ==>
        r == Err(RecordError("cannot touch on a new record object")) &&
        attributes == old(attributes) && changedAttributes == old(changedAttributes) &&
        table.rows == old(table.rows) && table.log == old(table.log)
      ensures old(Persisted()) && model.timestampAttributesForUpdate + names == [] ==>
        r == Ok(true) &&
        attributes == old(attributes) && changedAttributes == old(changedAttributes) &&
        table.rows == old(table.rows) && table.log == old(table.log)
      ensures old(Persisted()) && model.timestampAttributesForUpdate + names != [] ==>
        var changes := TouchChanges(model, model.timestampAttributesForUpdate + names, now, old(attributes));
        var filter := Finder(model, attributes, Id());
        && attributes == old(attributes) + changes
        && changedAttributes == old(changedAttributes) - changes.Keys
        && table.rows == UpdatedRows(old(table.rows), filter, changes)
        && table.log == old(table.log) + [Statement.UpdateAll(filter, changes)]
        && r == Ok(CountMatching(old(table.rows), filter) == 1)
    {
      if !Persisted() {
        return Err(RecordError("cannot touch on a new record object"));
      }
      var columns := model.timestampAttributesForUpdate + names;
      if columns == [] {
        return Ok(true);
      }
      var changes := ApplyTouchChanges(columns, now);
      var finderScope := Finder(model, attributes, Id());
      var updated := table.UpdateAll(finderScope, changes);
      r := Ok(updated.Ok? && updated.value == 1);
    }

    /** The first key of `pairs` that is declared read-only, in hash order. */
    method FirstReadonlyKey(pairs: seq<(string, Value)>) returns (r: Option<string>)
      ensures r.None? <==> forall i :: 0 <= i < |pairs| ==> pairs[i].0 !in model.readonlyAttributes
      ensures r.Some? ==> r.value in model.readonlyAttributes
      ensures r.Some? ==> exists i :: (0 <= i < |pairs| && pairs[i].0 == r.value &&
        forall j :: 0 <= j < i ==> pairs[j].0 !in model.readonlyAttributes)
    {
      var i := 0;
      while i < |pairs|
        invariant 0 <= i <= |pairs|
        invariant forall j :: 0 <= j < i ==> pairs[j].0 !in model.readonlyAttributes
      {
        if pairs[i].0 in model.readonlyAttributes {
          return Some(pairs[i].0);
        }
        i := i + 1;
      }
      r := None;
    }

    /** Store each pair in the in-memory attributes in order, bypassing
        change tracking. */
    method RawWriteAttributes(pairs: seq<(string, Value)>)
      modifies this`attributes
      ensures attributes == old(attributes) + AsMap(pairs)
    {
      var i := 0;
      assert AsMap(pairs[..0]) == map[];
      while i < |pairs|
        invariant 0 <= i <= |pairs|
        invariant attributes == old(attributes) + AsMap(pairs[..i])
      {
        ghost var written := AsMap(pairs[..i]);
        assert pairs[..i + 1][..i] == pairs[..i];
        assert AsMap(pairs[..i + 1]) == written[pairs[i].0 := pairs[i].1];
        assert (old(attributes) + written)[pairs[i].0 := pairs[i].1] == old(attributes) + written[pairs[i].0 := pairs[i].1];
        attributes := attributes[pairs[i].0 := pairs[i].1];
        i := i + 1;
      }
      assert pairs[..i] == pairs;
    }

    /** Write `pairs` straight to the record's row under the shard scope and
        into the in-memory attributes, bypassing change tracking. */
    method UpdateColumns(table: Table, pairs: seq<(string, Value)>) returns (r: Result<bool>)
      modifies this`attributes, table
      ensures old(newRecord) ==>
        r == Err(RecordError("cannot update a new record")) &&
        attributes == old(attributes) && table.rows == old(table.rows) && table.log == old(table.log)
      ensures !old(newRecord) && old(destroyed) ==>
        r == Err(RecordError("cannot update a destroyed record")) &&
        attributes == old(attributes) && table.rows == old(table.rows) && table.log == old(table.log)
      ensures old(Persisted()) && (exists i :: 0 <= i < |pairs| && pairs[i].0 in model.readonlyAttributes) ==>
        r.Err? && r.error.ReadonlyAttribute? && r.error.name in model.readonlyAttributes &&
        (exists i :: 0 <= i < |pairs| && pairs[i].0 == r.error.name &&
           forall j :: 0 <= j < i ==> pairs[j].0 !in model.readonlyAttributes) &&
        attributes == old(attributes) && table.rows == old(table.rows) && table.log == old(table.log)
      ensures old(Persisted()) && (forall i :: 0 <= i < |pairs| ==> pairs[i].0 !in model.readonlyAttributes) && pairs == [] ==>
        r == Err(EmptyUpdateList) &&
        attributes == old(attributes) && table.rows == old(table.rows) && table.log == old(table.log)
      ensures old(Persisted()) && (forall i :: 0 <= i < |pairs| ==> pairs[i].0 !in model.readonlyAttributes) && pairs != [] ==>
        var filter := Finder(model, old(attributes), old(Id()));
        && table.rows == UpdatedRows(old(table.rows), filter, AsMap(pairs))
        && table.log == old(table.log) + [Statement.UpdateAll(filter, AsMap(pairs))]
        && attributes == old(attributes) + AsMap(pairs)
        && r == Ok(CountMatching(old(table.rows), filter) == 1)
    {
      if newRecord {
        return Err(RecordError("cannot update a new record"));
      }
      if destroyed {
        return Err(RecordError("cannot update a destroyed record"));
      }
      var readonly := FirstReadonlyKey(pairs);
      if readonly.Some? {
        return Err(ReadonlyAttribute(readonly.value));
      }
      var updateScope := Finder(model, attributes, Id());
      assert pairs != [] ==> pairs[|pairs| - 1].0 in AsMap(pairs);
      var updated := table.UpdateAll(updateScope, AsMap(pairs));
      if updated.Err? {
        return Err(updated.error);
      }
      RawWriteAttributes(pairs);
      r := Ok(updated.value == 1);
    }

    /** Write the named attributes' current values to the row the record was
        loaded from (primary key `id_was || id`) under the shard scope; with
        nothing to write, issue no statement and report 0 rows. */
    method UpdateRecord(table: Table, attributeNames: seq<string>) returns (count: nat)
      modifies table
      ensures AttributesForUpdate(model, attributes, attributeNames) == map[] ==>
        count == 0 && table.rows == old(table.rows) && table.log == old(table.log)
      ensures AttributesForUpdate(model, attributes, attributeNames) != map[] ==>
        var values := AttributesForUpdate(model, attributes, attributeNames);
        var filter := Finder(model, attributes, OrElse(IdWas(), Id()));
        && count == CountMatching(old(table.rows), filter)
        && table.rows == UpdatedRows(old(table.rows), filter, values)
        && table.log == old(table.log) + [Statement.UpdateAll(filter, values)]
    {
      var values := AttributesForUpdate(model, attributes, attributeNames);
      if values == map[] {
        return 0;
      }
      var scope := Finder(model, attributes, OrElse(IdWas(), Id()));
      var updated := table.UpdateAll(scope, values);
      if updated.Ok? {
        count := updated.value;
      }
    }
  }
}
