/**
 * The read-only queries of `Database`, as functions over the ordered list of tables. Lookups
 * return the first match in insertion order; the dictionary aggregations assign one entry per
 * table in order, so for a repeated table name the last table's entry is the one that stays.
 */
module Queries {
  import opened Wrappers
  import opened Tables

  predicate HasColumn(columns: seq<Column>, name: string)
  {
    exists k :: 0 <= k < |columns| && columns[k].name == name
  }

  /** Index of the first table called `name`, searching from `from`. */
  function FirstTableIndex(ts: seq<TableValue>, name: string, from: nat := 0): (r: Option<nat>)
    requires from <= |ts|
    ensures r.Some? ==> from <= r.value < |ts| && ts[r.value].name == name
    ensures r.Some? ==> forall j :: from <= j < r.value ==> ts[j].name != name
    ensures r.None? ==> forall j :: from <= j < |ts| ==> ts[j].name != name
    decreases |ts| - from
  {
    if from == |ts| then None
    else if ts[from].name == name then Some(from)
    else FirstTableIndex(ts, name, from + 1)
  }

  /** `get_table_by_name(name)`. */
  function TableByName(ts: seq<TableValue>, name: string): (r: Option<TableValue>)
    ensures r.None? <==> forall j :: 0 <= j < |ts| ==> ts[j].name != name
    ensures r.Some? ==> r.value.name == name
    ensures r.Some? ==> exists k :: (0 <= k < |ts| && ts[k] == r.value &&
      forall j :: 0 <= j < k ==> ts[j].name != name)
  {
    match FirstTableIndex(ts, name)
    case None => None
    case Some(k) => Some(ts[k])
  }

  /** `get_primary_keys_of_table(name)`: the keys of the first table called `name`. */
  function PrimaryKeysOf(ts: seq<TableValue>, name: string): (r: Option<seq<string>>)
    ensures r.None? <==> TableByName(ts, name).None?
    ensures r.Some? ==> r.value == TableByName(ts, name).value.primaryKeys
  {
    match TableByName(ts, name)
    case None => None
    case Some(t) => Some(t.primaryKeys)
  }

  /** `get_foreign_keys_of_table(name)`: the foreign keys of the first table called `name`. */
  function ForeignKeysOf(ts: seq<TableValue>, name: string): (r: Option<seq<ForeignKey>>)
    ensures r.None? <==> TableByName(ts, name).None?
    ensures r.Some? ==> r.value == TableByName(ts, name).value.foreignKeys
  {
    match TableByName(ts, name)
    case None => None
    case Some(t) => Some(t.foreignKeys)
  }

  /** Index of the first column called `name`. */
  function FirstColumnIndex(columns: seq<Column>, name: string, from: nat := 0): (r: Option<nat>)
    requires from <= |columns|
    ensures r.Some? ==> from <= r.value < |columns| && columns[r.value].name == name
    ensures r.Some? ==> forall j :: from <= j < r.value ==> columns[j].name != name
    ensures r.None? ==> forall j :: from <= j < |columns| ==> columns[j].name != name
    decreases |columns| - from
  {
    if from == |columns| then None
    else if columns[from].name == name then Some(from)
    else FirstColumnIndex(columns, name, from + 1)
  }

  /** Where the first column called `name` is: the first table that has one, then the first such
      column in that table. */
  datatype Position = Position(table: nat, column: nat)

  function ColumnPosition(ts: seq<TableValue>, name: string, from: nat := 0): (r: Option<Position>)
    requires from <= |ts|
    ensures r.Some? ==> from <= r.value.table < |ts| && r.value.column < |ts[r.value.table].columns|
    ensures r.Some? ==> ts[r.value.table].columns[r.value.column].name == name
    ensures r.Some? ==> forall i :: from <= i < r.value.table ==> !HasColumn(ts[i].columns, name)
    ensures r.Some? ==> forall j :: 0 <= j < r.value.column ==> ts[r.value.table].columns[j].name != name
    ensures r.None? ==> forall i :: from <= i < |ts| ==> !HasColumn(ts[i].columns, name)
    decreases |ts| - from
  {
    if from == |ts| then None
    else match FirstColumnIndex(ts[from].columns, name)
      case Some(j) => Some(Position(from, j))
      case None => ColumnPosition(ts, name, from + 1)
  }

  /** `get_column_with_this_name(name)`. */
  function ColumnWithName(ts: seq<TableValue>, name: string): (r: Option<Column>)
    ensures r.None? <==> forall i :: 0 <= i < |ts| ==> !HasColumn(ts[i].columns, name)
    ensures r.Some? ==> r.value.name == name
  {
    match ColumnPosition(ts, name)
    case None => None
    case Some(p) => Some(ts[p.table].columns[p.column])
  }

  function ColumnNames(columns: seq<Column>): (r: seq<string>)
    ensures |r| == |columns| && forall k :: 0 <= k < |r| ==> r[k] == columns[k].name
  {
    if columns == [] then [] else [columns[0].name] + ColumnNames(columns[1..])
  }

  /** A dictionary filled table by table, `data[table.name] = value(table)`. */
  function IndexByName<V>(ts: seq<TableValue>, value: TableValue -> V): map<string, V>
    decreases |ts|
  {
    if ts == [] then map[]
    else IndexByName(ts[..|ts| - 1], value)[ts[|ts| - 1].name := value(ts[|ts| - 1])]
  }

  /** Every table name is a key and every key is a table name. */
  lemma {:induction false} IndexByNameKeys<V>(ts: seq<TableValue>, value: TableValue -> V)
    ensures forall k :: 0 <= k < |ts| ==> ts[k].name in IndexByName(ts, value)
    ensures forall n :: n in IndexByName(ts, value) ==> exists k :: 0 <= k < |ts| && ts[k].name == n
    decreases |ts|
  {
    if ts != [] {
      var prefix := ts[..|ts| - 1];
      IndexByNameKeys(prefix, value);
      assert forall k :: 0 <= k < |prefix| ==> prefix[k] == ts[k];
    }
  }

  /** A name's entry comes from the last table with that name: a later table of the same name
      overwrites an earlier one. */
  lemma {:induction false} IndexByNameLastWins<V>(ts: seq<TableValue>, value: TableValue -> V, k: nat)
    requires k < |ts|
    requires forall j :: k < j < |ts| ==> ts[j].name != ts[k].name
    ensures ts[k].name in IndexByName(ts, value) && IndexByName(ts, value)[ts[k].name] == value(ts[k])
    decreases |ts|
  {
    var prefix := ts[..|ts| - 1];
    if k < |ts| - 1 {
      assert prefix[k] == ts[k];
      assert forall j :: k < j < |prefix| ==> prefix[j] == ts[j];
      IndexByNameLastWins(prefix, value, k);
    }
  }

  /** Filling one more table into the dictionary overwrites that table name's entry. */
  lemma IndexByNameStep<V>(ts: seq<TableValue>, i: nat, value: TableValue -> V)
    requires i < |ts|
    ensures IndexByName(ts[..i + 1], value) == IndexByName(ts[..i], value)[ts[i].name := value(ts[i])]
  {
    assert ts[..i + 1][..i] == ts[..i];
  }

  lemma ColumnNamesStep(columns: seq<Column>, j: nat)
    requires j < |columns|
    ensures ColumnNames(columns[..j + 1]) == ColumnNames(columns[..j]) + [columns[j].name]
  {
  }

  /** The column names of a table, in order. */
  function ColumnNamesOf(t: TableValue): seq<string>
  {
    ColumnNames(t.columns)
  }

  function PrimaryKeyList(t: TableValue): seq<string>
  {
    t.primaryKeys
  }

  function ForeignKeyList(t: TableValue): seq<ForeignKey>
  {
    t.foreignKeys
  }

  /** `get_tables_into_dictionary()`: table name to its column names. */
  function TablesIntoDictionary(ts: seq<TableValue>): map<string, seq<string>>
  {
    IndexByName(ts, ColumnNamesOf)
  }

  /** `get_primary_keys_by_table()`. */
  function PrimaryKeysByTable(ts: seq<TableValue>): map<string, seq<string>>
  {
    IndexByName(ts, PrimaryKeyList)
  }

  /** `get_foreign_keys_by_table()`. */
  function ForeignKeysByTable(ts: seq<TableValue>): map<string, seq<ForeignKey>>
  {
    IndexByName(ts, ForeignKeyList)
  }
}
