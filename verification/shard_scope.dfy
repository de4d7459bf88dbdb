/** Class-level sharding metadata and the shard-scope decision that every
    write-path override in active_record_ext/persistence.rb repeats. */
module ShardScope {
  import opened Outcomes

  /** A column value as a record or a stored row holds it; `Nil` is Ruby's nil. */
  datatype Value = Nil | Int(i: int) | Str(s: string)

  /** `to_i` as optimistic locking applies it to the lock column: integers as
      they are, nil and anything else 0. */
  function ToInt(v: Value): int {
    if v.Int? then v.i else 0
  }

  /** Ruby's `a || b` on attribute values: nil is the only false value here. */
  function OrElse(a: Value, b: Value): Value {
    if a.Nil? then b else a
  }

  /** Column name to value; a column that is absent reads as nil. */
  type Attributes = map<string, Value>

  function Read(attrs: Attributes, column: string): Value {
    if column in attrs then attrs[column] else Nil
  }

  /** What a record's class knows about itself, fixed once the class is defined. */
  datatype ModelClass = ModelClass(
    turntableEnabled: bool,
    primaryKey: string,
    shardKey: string,
    lockingColumn: Option<string>,          // Some(column) exactly when optimistic locking is enabled
    readonlyAttributes: set<string>,
    timestampAttributesForUpdate: seq<string>)

  /** The condition under which every override adds a shard-key filter. */
  predicate Sharded(m: ModelClass) {
    m.turntableEnabled && m.primaryKey != m.shardKey
  }

  /** The scope a query starts from: the class's unscoped relation, optionally
      narrowed to one shard-key value. */
  datatype Scope = Unscoped | Filtered(column: string, value: Value)

  /** One equality predicate `column = value` of a query. */
  datatype Bind = Bind(column: string, value: Value)

  /** The shard-scope decision, computed from the record's attributes as they
      are at the moment of the call. */
  function ShardScopeOf(m: ModelClass, attrs: Attributes): (s: Scope)
    ensures s.Filtered? <==> m.turntableEnabled && m.primaryKey != m.shardKey
    ensures s.Filtered? ==> s.column == m.shardKey && s.value == Read(attrs, m.shardKey)
  {
    if Sharded(m) then Filtered(m.shardKey, Read(attrs, m.shardKey)) else Unscoped
  }

  function ScopeFilter(s: Scope): seq<Bind> {
    match s
    case Unscoped => []
    case Filtered(column, value) => [Bind(column, value)]
  }

  /** The filter reload, touch, update_columns and the row update address a row
      with: the shard scope followed by `primary_key = id`. */
  function Finder(m: ModelClass, attrs: Attributes, id: Value): (f: seq<Bind>)
    ensures |f| == if Sharded(m) then 2 else 1
    ensures f[|f| - 1] == Bind(m.primaryKey, id)
    ensures Sharded(m) ==> f[0] == Bind(m.shardKey, Read(attrs, m.shardKey))
  {
    ScopeFilter(ShardScopeOf(m, attrs)) + [Bind(m.primaryKey, id)]
  }

  /** A relation built from bound predicates: `wheres[i]` compares its column
      with the i-th bind parameter, whose value is `bindValues[i]`; once the
      binds are substituted, a well-bound relation stands for the condition
      `bindValues`. */
  datatype Relation = Relation(wheres: seq<string>, bindValues: seq<Bind>)

  predicate WellBound(r: Relation) {
    |r.wheres| == |r.bindValues| &&
    forall i :: 0 <= i < |r.wheres| ==> r.wheres[i] == r.bindValues[i].column
  }

  /** The delete relation: a bound `primary_key = id` predicate, and a second
      bound `shard_key = <current shard-key value>` predicate only when sharded. */
  function RelationForDestroy(m: ModelClass, attrs: Attributes): (r: Relation)
    ensures WellBound(r)
    ensures |r.bindValues| == if Sharded(m) then 2 else 1
    ensures r.bindValues[0] == Bind(m.primaryKey, Read(attrs, m.primaryKey))
    ensures Sharded(m) ==> r.bindValues[1] == Bind(m.shardKey, Read(attrs, m.shardKey))
  {
    var relation := Relation([m.primaryKey], [Bind(m.primaryKey, Read(attrs, m.primaryKey))]);
    if Sharded(m) then
      Relation(relation.wheres + [m.shardKey],
               relation.bindValues + [Bind(m.shardKey, Read(attrs, m.shardKey))])
    else
      relation
  }
}
