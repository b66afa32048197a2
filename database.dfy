/**
 * The `Database` object of database.py: an ordered list of `Table` objects and an optional
 * thesaurus, filled in place by `load`, `create_table`, `alter_table` and `add_table`, and read
 * by the lookups and aggregations. Every method is proved against the functions of `Ddl` and
 * `Queries` applied to the values the tables hold.
 */
module Database {
  import opened Wrappers
  import opened Text
  import opened Tables
  import opened Queries
  import opened Ddl

  /** The values held by a list of table objects, in order. */
  function Values(ts: seq<Table>): (vs: seq<TableValue>)
    reads ts
    ensures |vs| == |ts| && forall k :: 0 <= k < |ts| ==> vs[k] == ts[k].Value()
  {
    if ts == [] then [] else Values(ts[..|ts| - 1]) + [ts[|ts| - 1].Value()]
  }

  class Database {
    var tables: seq<Table>
    var thesaurus: Option<Thesaurus>

    /** No table object is listed twice, so appending keys to one entry changes no other. */
    ghost predicate Valid()
      reads this
    {
      forall i, j :: 0 <= i < j < |tables| ==> tables[i] != tables[j]
    }

    /** The tables as values, in insertion order. */
    function View(): seq<TableValue>
      reads this, tables
    {
      Values(tables)
    }

    /** `Database()`: no tables and no thesaurus. */
    constructor ()
      ensures Valid() && View() == [] && thesaurus == None
    {
      tables := [];
      thesaurus := None;
    }

    /** `set_thesaurus(thesaurus)`. */
    method SetThesaurus(th: Option<Thesaurus>)
      modifies this
      ensures thesaurus == th && tables == old(tables)
    {
      thesaurus := th;
    }

    /** `get_number_of_tables()`. */
    method NumberOfTables() returns (n: nat)
      ensures n == |View()|
    {
      n := |tables|;
    }

    /** `get_tables()`: the registry's own list of table objects, not a copy. */
    method GetTables() returns (r: seq<Table>)
      ensures r == tables && Values(r) == View()
    {
      r := tables;
    }

    /** `add_table(table)`: appends the object itself. */
    method AddTable(t: Table)
      requires Valid() && t !in tables
      modifies this
      ensures Valid() && tables == old(tables) + [t] && thesaurus == old(thesaurus)
      ensures View() == old(View()) + [t.Value()]
    {
      tables := tables + [t];
    }

    /** `get_table_by_name(name)`: the first table object of that name, or none. */
    method GetTableByName(name: string) returns (r: Option<Table>)
      ensures r.None? <==> FirstTableIndex(View(), name).None?
      ensures r.Some? ==> r.value == tables[FirstTableIndex(View(), name).value]
    {
      var i := 0;
      while i < |tables|
        invariant 0 <= i <= |tables|
        invariant forall j :: 0 <= j < i ==> View()[j].name != name
      {
        if tables[i].name == name {
          return Some(tables[i]);
        }
        i := i + 1;
      }
      return None;
    }

    /** `get_column_with_this_name(name)`: tables in order, then columns in order. */
    method GetColumnWithThisName(name: string) returns (r: Option<Column>)
      ensures r == ColumnWithName(View(), name)
    {
      var i := 0;
      while i < |tables|
        invariant 0 <= i <= |tables|
        invariant forall k :: 0 <= k < i ==> !HasColumn(View()[k].columns, name)
      {
        var columns := tables[i].columns;
        var j := 0;
        while j < |columns|
          invariant 0 <= j <= |columns|
          invariant forall c :: 0 <= c < j ==> columns[c].name != name
        {
          if columns[j].name == name {
            return Some(columns[j]);
          }
          j := j + 1;
        }
        i := i + 1;
      }
      return None;
    }

    /** `get_primary_keys_of_table(name)`. */
    method GetPrimaryKeysOfTable(name: string) returns (r: Option<seq<string>>)
      ensures r == PrimaryKeysOf(View(), name)
    {
      var i := 0;
      while i < |tables|
        invariant 0 <= i <= |tables|
        invariant forall j :: 0 <= j < i ==> View()[j].name != name
      {
        if tables[i].name == name {
          return Some(tables[i].primaryKeys);
        }
        i := i + 1;
      }
      return None;
    }

    /** `get_foreign_keys_of_table(name)`. */
    method GetForeignKeysOfTable(name: string) returns (r: Option<seq<ForeignKey>>)
      ensures r == ForeignKeysOf(View(), name)
    {
      var i := 0;
      while i < |tables|
        invariant 0 <= i <= |tables|
        invariant forall j :: 0 <= j < i ==> View()[j].name != name
      {
        if tables[i].name == name {
          return Some(tables[i].foreignKeys);
        }
        i := i + 1;
      }
      return None;
    }

    /** One table's turn in `get_tables_into_dictionary()`: the entry for `name` is reset to the
        empty list, then each column name is appended to it in order. */
    static method FillColumnNames(data: map<string, seq<string>>, name: string, columns: seq<Column>)
      returns (r: map<string, seq<string>>)
      ensures r == data[name := ColumnNames(columns)]
    {
      r := data[name := []];
      var j := 0;
      while j < |columns|
        invariant 0 <= j <= |columns|
        invariant r == data[name := ColumnNames(columns[..j])]
      {
        ColumnNamesStep(columns, j);
        r := r[name := r[name] + [columns[j].name]];
        j := j + 1;
      }
      assert columns[..j] == columns;
    }

    /** `get_tables_into_dictionary()`. */
    method GetTablesIntoDictionary() returns (data: map<string, seq<string>>)
      ensures data == TablesIntoDictionary(View())
    {
      ghost var vs := View();
      data := map[];
      var i := 0;
      while i < |tables|
        invariant 0 <= i <= |tables|
        invariant data == IndexByName(vs[..i], ColumnNamesOf)
      {
        var name, columns := tables[i].name, tables[i].columns;
        assert name == vs[i].name && columns == vs[i].columns;
        data := FillColumnNames(data, name, columns);
        IndexByNameStep(vs, i, ColumnNamesOf);
        i := i + 1;
      }
      assert vs[..i] == vs;
    }

    /** `get_primary_keys_by_table()`. */
    method GetPrimaryKeysByTable() returns (data: map<string, seq<string>>)
      ensures data == PrimaryKeysByTable(View())
    {
      ghost var vs := View();
      data := map[];
      var i := 0;
      while i < |tables|
        invariant 0 <= i <= |tables|
        invariant data == IndexByName(vs[..i], PrimaryKeyList)
      {
        data := data[tables[i].name := tables[i].primaryKeys];
        IndexByNameStep(vs, i, PrimaryKeyList);
        i := i + 1;
      }
      assert vs[..i] == vs;
    }

    /** `get_foreign_keys_by_table()`. */
    method GetForeignKeysByTable() returns (data: map<string, seq<ForeignKey>>)
      ensures data == ForeignKeysByTable(View())
    {
      ghost var vs := View();
      data := map[];
      var i := 0;
      while i < |tables|
        invariant 0 <= i <= |tables|
        invariant data == IndexByName(vs[..i], ForeignKeyList)
      {
        data := data[tables[i].name := tables[i].foreignKeys];
        IndexByNameStep(vs, i, ForeignKeyList);
        i := i + 1;
      }
      assert vs[..i] == vs;
    }

    /** `get_column(match, line)`: the captured name, the type inferred from the line, and the
        equivalence list. */
    method GetColumn(columnName: string, line: string) returns (name: string, columnType: ColumnType, equivalences: seq<Equivalent>)
      ensures Column(name, columnType, equivalences) == MakeColumn(columnName, line, thesaurus)
    {
      columnType := PredictType(line);
      equivalences := [Name(ToLower(columnName))];
      if thesaurus.Some? {
        equivalences := equivalences + [Synonyms(thesaurus.value(columnName))];
      }
      name := columnName;
    }

    /** `create_table(block)`: a fresh table filled line by line, or the error a malformed
        `TABLE` line raises (the half-built table is then dropped). */
    method CreateTable(block: string) returns (r: Result<Table, DdlError>)
      ensures ParseTable(block, thesaurus).Failure? ==> r == Failure(ParseTable(block, thesaurus).error)
      ensures ParseTable(block, thesaurus).Success? ==>
        r.Success? && fresh(r.value) && r.value.Value() == ParseTable(block, thesaurus).value
    {
      var lines := SplitOn(block, "\n");
      var table := new Table();
      var i := 0;
      while i < |lines|
        invariant 0 <= i <= |lines|
        invariant fresh(table)
        invariant ParseTable(block, thesaurus) == CreateLines(table.Value(), lines[i..], thesaurus)
      {
        assert lines[i..][0] == lines[i] && lines[i..][1..] == lines[i + 1..];
        var e := CreateLineInPlace(table, lines[i]);
        if e.Some? {
          return Failure(e.value);
        }
        i := i + 1;
      }
      return Success(table);
    }

    /** One line of `create_table`, applied to `table`. */
    method CreateLineInPlace(table: Table, line: string) returns (err: Option<DdlError>)
      modifies table
      ensures CreateLine(old(table.Value()), line, thesaurus).Failure? ==>
        err == Some(CreateLine(old(table.Value()), line, thesaurus).error)
      ensures CreateLine(old(table.Value()), line, thesaurus).Success? ==>
        err.None? && table.Value() == CreateLine(old(table.Value()), line, thesaurus).value
    {
      if Contains(line, "TABLE") {
        var tableName := FirstQuotedWord(line);
        if tableName.None? {
          return Some(MalformedTableHeader(line));
        }
        table.name := tableName.value;
        table.equivalences := [Name(ToLower(table.name))];
        if thesaurus.Some? {
          table.equivalences := table.equivalences + [Synonyms(thesaurus.value(table.name))];
        }
      } else if Contains(line, "PRIMARY KEY") {
        PrimaryKeyLineInPlace(table, QuotedWords(line), line);
      } else if Contains(line, "FOREIGN KEY") {
        AppendForeignKeys(table, ForeignKeysIn(line));
      } else {
        var columnName := FirstQuotedWord(line);
        if columnName.Some? {
          var x, y, z := GetColumn(columnName.value, line);
          table.AddColumn(x, y, z);
        }
      }
      return None;
    }

    /** The identifiers of a `PRIMARY KEY` line of `create_table`, applied to `table`: a column
        is added for an identifier only when no column has its name, then the key is added. */
    method PrimaryKeyLineInPlace(table: Table, ids: seq<string>, line: string)
      modifies table
      ensures table.Value() == PrimaryKeyLine(old(table.Value()), ids, line, thesaurus)
    {
      var k := 0;
      while k < |ids|
        invariant 0 <= k <= |ids|
        invariant PrimaryKeyLine(old(table.Value()), ids, line, thesaurus) ==
          PrimaryKeyLine(table.Value(), ids[k..], line, thesaurus)
      {
        assert ids[k..][0] == ids[k] && ids[k..][1..] == ids[k + 1..];
        PrimaryKeyStepInPlace(table, ids[k], line);
        k := k + 1;
      }
    }

    /** One identifier of a `PRIMARY KEY` line: a column is added for it unless one of that name
        exists, then it is appended to the primary keys. */
    method PrimaryKeyStepInPlace(table: Table, id: string, line: string)
      modifies table
      ensures table.Value() == PrimaryKeyStep(old(table.Value()), id, line, thesaurus)
    {
      var present := false;
      var c := 0;
      while c < |table.columns|
        invariant 0 <= c <= |table.columns|
        invariant present <==> HasColumn(table.columns[..c], id)
      {
        if table.columns[c].name == id {
          present := true;
        }
        assert table.columns[..c + 1] == table.columns[..c] + [table.columns[c]];
        c := c + 1;
      }
      assert table.columns[..c] == table.columns;
      if !present {
        var x, y, z := GetColumn(id, line);
        table.AddColumn(x, y, z);
      }
      table.AddPrimaryKey(id);
    }

    /** `for key in keys: table.add_primary_key(key)`. */
    method AppendPrimaryKeys(table: Table, keys: seq<string>)
      modifies table
      ensures table.Value() == old(table.Value()).(primaryKeys := old(table.primaryKeys) + keys)
    {
      var k := 0;
      while k < |keys|
        invariant 0 <= k <= |keys|
        invariant table.Value() == old(table.Value()).(primaryKeys := old(table.primaryKeys) + keys[..k])
      {
        table.AddPrimaryKey(keys[k]);
        assert keys[..k + 1] == keys[..k] + [keys[k]];
        k := k + 1;
      }
      assert keys[..k] == keys;
    }

    /** `for column, table, column in triples: table.add_foreign_key(...)`. */
    method AppendForeignKeys(table: Table, foreignKeys: seq<ForeignKey>)
      modifies table
      ensures table.Value() == old(table.Value()).(foreignKeys := old(table.foreignKeys) + foreignKeys)
    {
      var k := 0;
      while k < |foreignKeys|
        invariant 0 <= k <= |foreignKeys|
        invariant table.Value() == old(table.Value()).(foreignKeys := old(table.foreignKeys) + foreignKeys[..k])
      {
        table.AddForeignKey(foreignKeys[k].column, foreignKeys[k].refTable, foreignKeys[k].refColumn);
        assert foreignKeys[..k + 1] == foreignKeys[..k] + [foreignKeys[k]];
        k := k + 1;
      }
      assert foreignKeys[..k] == foreignKeys;
    }

    /** `alter_table(statement)`: each clause in order; a raise stops it and leaves the earlier
        clauses applied. */
    method AlterTable(statement: string) returns (err: Option<DdlError>)
      requires Valid()
      modifies tables
      ensures err == AlterStatement(old(View()), statement).failure
      ensures View() == AlterStatement(old(View()), statement).tables
    {
      var clauses := SplitOn(ReplaceChar(statement, '\n', ' '), ";");
      var i := 0;
      while i < |clauses|
        invariant 0 <= i <= |clauses|
        invariant AlterStatement(old(View()), statement) == AlterClauses(View(), clauses[i..])
      {
        assert clauses[i..][0] == clauses[i] && clauses[i..][1..] == clauses[i + 1..];
        var e := AlterClauseInPlace(clauses[i]);
        if e.Some? {
          return e;
        }
        i := i + 1;
      }
      return None;
    }

    /** One clause of `alter_table`: its keys go to the first table of the target name. A clause
        without ``TABLE `name` `` raises, and so does a clause with keys for a name no table
        has, when the first key is added to the missing table. */
    method AlterClauseInPlace(clause: string) returns (err: Option<DdlError>)
      requires Valid()
      modifies tables
      ensures AlterClause(old(View()), clause).Failure? ==>
        err == Some(AlterClause(old(View()), clause).error) && View() == old(View())
      ensures AlterClause(old(View()), clause).Success? ==>
        err.None? && View() == AlterClause(old(View()), clause).value
    {
      if Contains(clause, "PRIMARY KEY") {
        err := AlterPrimaryKeyClause(clause);
      } else if Contains(clause, "FOREIGN KEY") {
        err := AlterForeignKeyClause(clause);
      } else {
        err := None;
      }
    }

    /** A `PRIMARY KEY` clause of `alter_table`. */
    method AlterPrimaryKeyClause(clause: string) returns (err: Option<DdlError>)
      requires Valid() && Contains(clause, "PRIMARY KEY")
      modifies tables
      ensures AlterClause(old(View()), clause).Failure? ==>
        err == Some(AlterClause(old(View()), clause).error) && View() == old(View())
      ensures AlterClause(old(View()), clause).Success? ==>
        err.None? && View() == AlterClause(old(View()), clause).value
    {
      ghost var before := View();
      var tableName := AlterTarget(clause);
      if tableName.None? {
        return Some(MissingAlterTarget(clause));
      }
      var table := GetTableByName(tableName.value);
      var keys := PrimaryKeysIn(clause);
      if table.None? {
        if keys != [] {
          return Some(UnknownTable(tableName.value));
        }
      } else {
        ghost var k := FirstTableIndex(before, tableName.value).value;
        AlterPrimaryKeyFound(before, clause, tableName.value, k);
        AppendPrimaryKeysAt(k, table.value, keys);
      }
      return None;
    }

    /** A `FOREIGN KEY` clause of `alter_table`. */
    method AlterForeignKeyClause(clause: string) returns (err: Option<DdlError>)
      requires Valid() && !Contains(clause, "PRIMARY KEY") && Contains(clause, "FOREIGN KEY")
      modifies tables
      ensures AlterClause(old(View()), clause).Failure? ==>
        err == Some(AlterClause(old(View()), clause).error) && View() == old(View())
      ensures AlterClause(old(View()), clause).Success? ==>
        err.None? && View() == AlterClause(old(View()), clause).value
    {
      ghost var before := View();
      var tableName := AlterTarget(clause);
      if tableName.None? {
        return Some(MissingAlterTarget(clause));
      }
      var table := GetTableByName(tableName.value);
      var foreignKeys := ForeignKeysIn(clause);
      if table.None? {
        if foreignKeys != [] {
          return Some(UnknownTable(tableName.value));
        }
      } else {
        ghost var k := FirstTableIndex(before, tableName.value).value;
        AlterForeignKeyFound(before, clause, tableName.value, k);
        AppendForeignKeysAt(k, table.value, foreignKeys);
      }
      return None;
    }

    /** Appending keys to the `k`-th table object changes the `k`-th value and no other. */
    method AppendPrimaryKeysAt(ghost k: nat, table: Table, keys: seq<string>)
      requires Valid() && k < |tables| && tables[k] == table
      modifies table
      ensures View() == old(View())[k := old(View())[k].(primaryKeys := old(View())[k].primaryKeys + keys)]
    {
      AppendPrimaryKeys(table, keys);
      forall j | 0 <= j < |tables| && j != k ensures View()[j] == old(View())[j] {
        assert tables[j] != table;
      }
    }

    method AppendForeignKeysAt(ghost k: nat, table: Table, foreignKeys: seq<ForeignKey>)
      requires Valid() && k < |tables| && tables[k] == table
      modifies table
      ensures View() == old(View())[k := old(View())[k].(foreignKeys := old(View())[k].foreignKeys + foreignKeys)]
    {
      AppendForeignKeys(table, foreignKeys);
      forall j | 0 <= j < |tables| && j != k ensures View()[j] == old(View())[j] {
        assert tables[j] != table;
      }
    }

    /** The `CREATE` half of `load`: each block that mentions `TABLE` becomes a table appended
        in order; a raise stops it. */
    method CreateTables(blocks: seq<string>) returns (err: Option<DdlError>)
      requires Valid()
      modifies this
      ensures Valid() && thesaurus == old(thesaurus)
      ensures forall k :: 0 <= k < |tables| ==> tables[k] in old(tables) || fresh(tables[k])
      ensures err == CreatePhase(old(View()), blocks, TableParser(thesaurus)).failure
      ensures View() == CreatePhase(old(View()), blocks, TableParser(thesaurus)).tables
    {
      ghost var parse := TableParser(thesaurus);
      ghost var result := CreatePhase(View(), blocks, parse);
      var i := 0;
      while i < |blocks|
        invariant 0 <= i <= |blocks|
        invariant Valid() && thesaurus == old(thesaurus)
        invariant forall k :: 0 <= k < |tables| ==> tables[k] in old(tables) || fresh(tables[k])
        invariant result == CreatePhase(View(), blocks[i..], parse)
      {
        assert blocks[i..][0] == blocks[i] && blocks[i..][1..] == blocks[i + 1..];
        if Contains(blocks[i], "TABLE") {
          assert parse(blocks[i]) == ParseTable(blocks[i], thesaurus);
          var e := CreateAndAddTable(blocks[i]);
          if e.Some? {
            return e;
          }
        }
        i := i + 1;
      }
      return None;
    }

    /** `table = self.create_table(block)` then `self.add_table(table)`. */
    method CreateAndAddTable(block: string) returns (err: Option<DdlError>)
      requires Valid()
      modifies this
      ensures Valid() && thesaurus == old(thesaurus)
      ensures forall k :: 0 <= k < |tables| ==> tables[k] in old(tables) || fresh(tables[k])
      ensures ParseTable(block, thesaurus).Failure? ==>
        err == Some(ParseTable(block, thesaurus).error) && View() == old(View())
      ensures ParseTable(block, thesaurus).Success? ==>
        err.None? && View() == old(View()) + [ParseTable(block, thesaurus).value]
    {
      var table := CreateTable(block);
      if table.Failure? {
        return Some(table.error);
      }
      AddTable(table.value);
      return None;
    }

    /** The `ALTER` half of `load`: each block that mentions `TABLE` is applied in order; a
        raise stops it. */
    method AlterTables(blocks: seq<string>) returns (err: Option<DdlError>)
      requires Valid()
      modifies tables
      ensures err == AlterPhase(old(View()), blocks).failure
      ensures View() == AlterPhase(old(View()), blocks).tables
    {
      var i := 0;
      while i < |blocks|
        invariant 0 <= i <= |blocks|
        invariant AlterPhase(old(View()), blocks) == AlterPhase(View(), blocks[i..])
      {
        assert blocks[i..][0] == blocks[i] && blocks[i..][1..] == blocks[i + 1..];
        if Contains(blocks[i], "TABLE") {
          var e := AlterTable(blocks[i]);
          if e.Some? {
            return e;
          }
        }
        i := i + 1;
      }
      return None;
    }

    /** `load` over already-read text: every `CREATE` block first, then every `ALTER` block. A
        raise stops the run and keeps what was done before it. */
    method Load(content: string) returns (err: Option<DdlError>)
      requires Valid()
      modifies this, tables
      ensures Valid() && thesaurus == old(thesaurus)
      ensures err == LoadContent(old(View()), content, thesaurus).failure
      ensures View() == LoadContent(old(View()), content, thesaurus).tables
    {
      err := CreateTables(Blocks(content, "CREATE"));
      if err.None? {
        err := AlterTables(Blocks(content, "ALTER"));
      }
    }
  }
}
