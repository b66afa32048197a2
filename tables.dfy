/**
 * The entities the extractor builds. `Table` and `Column` come from table.py, which is not part
 * of this model: a column is a value, and a table is an object with append-only operations.
 */
module Tables {

  /** The coarse type tags `predict_type` returns. */
  datatype ColumnType = Int | String | Date | Double | Unknown
  {
    /** The tag as the Python code spells it. */
    function Tag(): string
    {
      match this
      case Int => "int"
      case String => "string"
      case Date => "date"
      case Double => "double"
      case Unknown => "unknown"
    }
  }

  /** One entry of an equivalence list: the lowercase name itself, or whatever the thesaurus
      returned for the name, stored as a single entry. */
  datatype Equivalent = Name(word: string) | Synonyms(words: seq<string>)

  /** The synonym provider, an external collaborator seen only through this function. */
  type Thesaurus = string -> seq<string>

  datatype Column = Column(name: string, columnType: ColumnType, equivalences: seq<Equivalent>)

  datatype ForeignKey = ForeignKey(column: string, refTable: string, refColumn: string)

  /** The state of a `Table` object, as a value. */
  datatype TableValue = TableValue(
    name: string,
    equivalences: seq<Equivalent>,
    columns: seq<Column>,
    primaryKeys: seq<string>,
    foreignKeys: seq<ForeignKey>)

  /** A freshly constructed `Table()`. */
  const EmptyTable := TableValue("", [], [], [], [])

  class Table {
    var name: string
    var equivalences: seq<Equivalent>
    var columns: seq<Column>
    var primaryKeys: seq<string>
    var foreignKeys: seq<ForeignKey>

    function Value(): TableValue
      reads this
    {
      TableValue(name, equivalences, columns, primaryKeys, foreignKeys)
    }

    constructor ()
      ensures Value() == EmptyTable
    {
      name, equivalences, columns, primaryKeys, foreignKeys := "", [], [], [], [];
    }

    /** `add_column(name, type, equivalences)`: appends, with no duplicate check. */
    method AddColumn(columnName: string, columnType: ColumnType, eqs: seq<Equivalent>)
      modifies this
      ensures Value() == old(Value()).(columns := old(columns) + [Column(columnName, columnType, eqs)])
    {
      columns := columns + [Column(columnName, columnType, eqs)];
    }

    /** `add_primary_key(key)`: appends, with no duplicate check. */
    method AddPrimaryKey(key: string)
      modifies this
      ensures Value() == old(Value()).(primaryKeys := old(primaryKeys) + [key])
    {
      primaryKeys := primaryKeys + [key];
    }

    /** `add_foreign_key(column, table, column)`: appends, with no duplicate check. */
    method AddForeignKey(column: string, refTable: string, refColumn: string)
      modifies this
      ensures Value() == old(Value()).(foreignKeys := old(foreignKeys) + [ForeignKey(column, refTable, refColumn)])
    {
      foreignKeys := foreignKeys + [ForeignKey(column, refTable, refColumn)];
    }
  }
}
