# Shard-aware record persistence (activerecord-turntable)

This project models `lib/active_record/turntable/active_record_ext/persistence.rb`,
the part of activerecord-turntable that overrides five ActiveRecord write-path
operations so that each query carries a shard-key filter. The override covers
`reload`, `touch`, `update_columns`, `relation_for_destroy` and `_update_record`.

The shard-scope decision appears eight times in the source. Six of them are in
the variants modelled here. The other two are in the pre-4.2 `touch` (:92) and
the pre-4.2 `relation_for_destroy` (:161). It is modelled once,
as `ShardScope.ShardScopeOf`. A record's class is *sharded* when turntable is
enabled and the primary-key name differs from the shard-key name. A sharded
class gets the filter `shard_key = <the record's current shard-key attribute>`.
An unsharded class gets no filter. `reload`, `touch` and `update_columns` then
add `primary_key = <id>` (`ShardScope.Finder`). `_update_record` uses the same
filter but addresses `id_was`, falling back to `id` when `id_was` is nil. The
delete relation is built separately, from bound predicates
(`ShardScope.RelationForDestroy`).

The ORM and the database are replaced by an abstract row store, `RowTable.Table`.
It is a sequence of rows (column maps) plus a log of the statements issued
against it:

- `find` becomes "the first row the filter matches" (`FirstMatch`).
- `update_all` becomes "set the columns on every matching row and return how
  many matched" (`UpdatedRows`, `CountMatching`).

The log makes statements like "no statement is issued" expressible.

A record is the class `Persistence.Record`. It holds:

- its class metadata (`ModelClass`);
- an attribute map;
- the pending changes, as a map from column to the value before the change;
- the `new_record` and `destroyed` flags.

The Rails-version branches are collapsed into one behaviour:

- `touch` takes a list of extra names (the Rails 4.2 variant);
- `relation_for_destroy` binds both predicates (the Rails 4.2 variant);
- the two `class_eval` bodies of `_update_record` become one method, `UpdateRecord`.

Files:

- `outcomes.dfy`: `Option`, `Result` and the errors raised.
- `shard_scope.dfy`: values, class metadata, the scope decision, the finder filter and the delete relation.
- `row_table.dfy`: the row store and the counting lemmas.
- `persistence.dfy`: the record and its operations, and the lemmas that tie them together.

## Model

| member | source | states |
|---|---|---|
| `ShardScope.ShardScopeOf` | lib/active_record/turntable/active_record_ext/persistence.rb:12-16 | a filter is added exactly when turntable is enabled and the primary key differs from the shard key; its column is the shard key and its value is the record's current shard-key attribute |
| `ShardScope.Finder` | lib/active_record/turntable/active_record_ext/persistence.rb:60-66 | the row-addressing filter ends with `primary_key = id`; when sharded, it also starts with the shard predicate, so it has two predicates, otherwise one |
| `Persistence.FinderMatches` | lib/active_record/turntable/active_record_ext/persistence.rb:60-66 | a row satisfies the finder iff it has the primary key and, when sharded, the record's current shard-key value |
| `Persistence.ScopedWriteCount` | lib/active_record/turntable/active_record_ext/persistence.rb:58-66 | on a table with a unique primary key, a scoped write affects at most one row; it affects exactly one iff a row with that key lies in the shard named by the record's current shard-key value (so `== 1` is that test) |
| `Persistence.StaleShardKeyWritesNothing` | lib/active_record/turntable/active_record_ext/persistence.rb:60-61 | when sharded, if the in-memory shard key differs from the stored row's, a write to that row's primary key affects no row |
| `RowTable.FirstMatch` | lib/active_record/turntable/active_record_ext/persistence.rb:18-23 | `find` yields the first row matching the filter; it yields nothing iff no row matches |
| `RowTable.CountMatching` | lib/active_record/turntable/active_record_ext/persistence.rb:66 | the affected count is at most the number of rows, and it is zero iff no row matches |
| `RowTable.UpdatedRows` | lib/active_record/turntable/active_record_ext/persistence.rb:66 | `update_all` gives matching rows the new column values and leaves every other row unchanged; the row count is kept |
| `RowTable.CountSingleMatch` | lib/active_record/turntable/active_record_ext/persistence.rb:66 | exactly one matching row gives an affected count of 1 |
| `RowTable.CountAtMostOneOnUniqueKey` | lib/active_record/turntable/active_record_ext/persistence.rb:120 | a filter that pins a unique key affects at most one row |
| `RowTable.Table.Find` | lib/active_record/turntable/active_record_ext/persistence.rb:19-23 | a fetch logs one select carrying its lock flag, changes no row, and returns the first matching row or nothing |
| `RowTable.Table.UpdateAll` | lib/active_record/turntable/active_record_ext/persistence.rb:120 | an empty change set is refused before any statement; otherwise the matching rows are updated, one statement is logged and the matching count is returned |
| `Persistence.Record.Reload` | lib/active_record/turntable/active_record_ext/persistence.rb:8-36 | fetches by primary key under the shard scope, with the lock flag as given. On a match, the attributes become the fetched row's, `new_record` is cleared and the record itself is returned. With no match, or a nil id, the result is `RecordNotFound` and the record is unchanged. No row is changed |
| `Persistence.Record.WriteAttribute` | lib/active_record/turntable/active_record_ext/persistence.rb:52 | an assignment stores the value; unless the column already has a pending change, the old value is remembered as its original (recorded even when the value is unchanged; see Left out) |
| `Persistence.Stamps` | lib/active_record/turntable/active_record_ext/persistence.rb:50-53 | the timestamp change set has exactly the listed columns as keys, each holding the single value `now` |
| `Persistence.TouchChanges` | lib/active_record/turntable/active_record_ext/persistence.rb:47-55 | the touch change set is the listed columns plus, under optimistic locking, the lock column; every non-lock column holds `now`; the lock column holds one more than its value after stamping |
| `Persistence.Record.WriteTimestamps` | lib/active_record/turntable/active_record_ext/persistence.rb:50-53 | the loop writes `now` into every listed column and collects the same map; pending changes outside those columns are unchanged |
| `Persistence.Record.ApplyTouchChanges` | lib/active_record/turntable/active_record_ext/persistence.rb:47-57 | the attributes gain exactly the touch change set; the pending changes lose exactly its keys and keep all others |
| `Persistence.Record.Touch` | lib/active_record/turntable/active_record_ext/persistence.rb:40-70 | on a non-persisted record, raises before any write. If there are no columns to touch, returns true and changes nothing. Otherwise it writes one change set in memory and sends the same change set to the rows matched by primary key plus current shard key; it returns whether exactly one row matched |
| `Persistence.Record.FirstReadonlyKey` | lib/active_record/turntable/active_record_ext/persistence.rb:110-112 | finds the first key, in hash order, that is declared read-only; none exists iff every key is writable |
| `Persistence.AsMapKeys` | lib/active_record/turntable/active_record_ext/persistence.rb:120-124 | the hash written has exactly the keys of its pairs |
| `Persistence.AsMapLastWins` | lib/active_record/turntable/active_record_ext/persistence.rb:120-124 | each key holds the value of its last pair |
| `Persistence.Record.RawWriteAttributes` | lib/active_record/turntable/active_record_ext/persistence.rb:122-124 | the in-memory attributes become the old ones overwritten by the given hash |
| `Persistence.Record.UpdateColumns` | lib/active_record/turntable/active_record_ext/persistence.rb:106-127 | checks, in order: new record, destroyed record, read-only key (reporting the first one in hash order). Each failure leaves memory and the store untouched. Otherwise the scoped `update_all` runs with the pk and shard key read before the writes, then every pair is written raw into memory. It returns whether exactly one row matched |
| `ShardScope.RelationForDestroy` | lib/active_record/turntable/active_record_ext/persistence.rb:133-151 | the delete relation always binds `primary_key = id` first; it binds a second `shard_key = current value` only when sharded, so it has 1 or 2 bind values, each paired with its predicate |
| `Persistence.DestroyRelationMatchesFinder` | lib/active_record/turntable/active_record_ext/persistence.rb:139-148 | the delete relation's bound predicates match exactly the rows the finder filter of the other operations matches, provided the id (and, when sharded, the shard-key value) is not nil; otherwise they match no row |
| `Persistence.DestroyAffectsAtMostOneRow` | lib/active_record/turntable/active_record_ext/persistence.rb:133-150 | on a table with a unique primary key, no two rows both match the delete relation's bound predicates |
| `Persistence.AttributesForUpdate` | lib/active_record/turntable/active_record_ext/persistence.rb:204 | the values a row update writes are the requested, non-read-only columns, each with its current value |
| `Persistence.Record.UpdateRecord` | lib/active_record/turntable/active_record_ext/persistence.rb:202-213 | with nothing to write, returns 0 and issues no statement. Otherwise it updates the rows with primary key id_was, or id when id_was is nil, plus the current shard key when sharded, and returns the affected count unmodified |

## Left out

- The clearing of the aggregation and association caches (`reload`) is left out: that state belongs to the ORM.
- The pessimistic row lock is left out beyond the lock flag recorded on the select.
- `current_time_from_proper_timezone` is the parameter `now`; time zones are not modelled.
- Type casting in `write_attribute` and `raw_write_attribute` is not modelled; attributes are a plain map.
- Arel and SQL construction, `substitute_at`, `columns_hash` and the connection are not modelled. A query is a list of column-equals-value predicates, and a missing column reads as nil. The hash conditions of the finder and the update filters match nil against nil, as a hash `where` does with `IS NULL`. The bound `column = ?` predicates of the delete relation never match with a nil value (`BoundMatches`), as `= NULL` does.
- `Persistence.Record.Reload`: the record's pending changes are not cleared here. In ActiveRecord the dirty-tracking wrapper around `reload` clears them, and that wrapper is not part of this model.
- `Persistence.Record.WriteAttribute` does not drop a pending change when a column is set back to its original value (ActiveRecord's dirty tracking does), nor does it skip recording a pending change when the value written equals the current one (ActiveRecord records one only when the value changes). In `touch`, every such column is cleared afterwards, so the result is the same.
- The optimistic lock column's `to_i` is modelled only for integers; any other value counts as 0.
- `find(id)` rejects a nil id without a query; the model does the same. A row chosen among several matches is the first in table order.
- `update_all` rejecting an empty change set (`update_columns({})`) is ActiveRecord's own behaviour; it is modelled as `EmptyUpdateList`.
- The Rails-version dispatch is not modelled. Neither is the pre-4.2 `touch(name = nil)`, which appends at most one name, nor the pre-4.2 `relation_for_destroy`, whose shard predicate is inlined rather than bound. Only the 4.2 behaviour is modelled.
- `Persistence.Record.UpdateRecord`: which names are dirty is decided by the caller (ActiveRecord's partial writes pass the changed attributes). The delegated relation `_update_record` is modelled as an `update_all` under the same filter.
- The delete itself is not modelled, and neither is the `destroyed` flag being set after it; the executor outside this file owns both.
