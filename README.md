# A verified model of the nl2sql DDL-to-schema extractor

This project models the `Database` class of database.py. The class reads MySQL-style DDL text
and builds an ordered list of tables. Each table carries its columns, primary keys and foreign
keys. Read-only queries then serve lookups and dictionaries from that list.

The model is split into modules that follow the program's structure:

- `Text`: the Python string operations the class uses. These are `x in s`, `s.split(sep)`,
  `s.lower()` and `s.replace(a, b)`.
- `Patterns`: the four fixed regular expressions, written as scanners. They are
  `` `(\w+)` ``, ``TABLE `(\w+)` ``, ``PRIMARY KEY \(`(\w+)`\)`` and the foreign-key pattern.
  - Each pattern is a list of literals and capture groups.
  - Every group is followed by a literal that starts with a non-word character. So the longest
    run of word characters is the only way a group can match, and a scanner without
    backtracking finds what `re.search`, `re.finditer` and `re.findall` find.
  - The scanner is proved sound and complete against `Render`, the text a pattern stands for
    once its groups are filled in.
- `Tables`: the column and foreign-key values, and the `Table` object with its three
  append-only operations. `TableValue` is the state of a `Table` as a value.
- `Queries`: the lookups and the dictionary aggregations, as functions over the ordered list of
  table values.
- `Ddl`: what the class computes, as functions on values. It covers:
  - `predict_type` and `get_column`;
  - the line-by-line meaning of a `CREATE TABLE` block;
  - the meaning of an `ALTER TABLE` statement;
  - the splitting of the text into statements;
  - `load` as a whole.

  The lemmas about these functions carry the properties of the extractor.
- `Database`: the class itself. It holds a `seq` of `Table` objects that its methods append to
  and mutate in place.
  - Every method is proved to leave the values of its tables equal to what the `Ddl` or
    `Queries` function computes from the values before the call.
  - So every property proved about those functions holds of the objects.

The Python code raises in three places on malformed input. The model returns each as a
`DdlError` value, and each keeps every change made before the raise, as the exception does:

- `MalformedTableHeader`: a `TABLE` line with no quoted name (`.group(1)` on `None`, line 123).
- `MissingAlterTarget`: an `ALTER` clause with `PRIMARY KEY` or `FOREIGN KEY` text but without
  ``TABLE `name` `` (lines 155 and 162). The leading fragment on the `ALTER` side can be a
  `CREATE TABLE` block (see below). When that block's header is not ``TABLE `name` ``, as in
  ``CREATE TABLE IF NOT EXISTS `a` (``, and the block holds key text, `load` raises this error.
  It does so after every table was created.
- `UnknownTable`: an `ALTER` clause whose keys go to a table that is not loaded. The method call
  on `None` happens at the first key (lines 159 and 166).

Behaviour of the code that the model keeps as written:

- Table names are not unique. Lookups return the first table of a name. The three dictionaries
  assign one entry per table in order, so for a repeated name the last table's entry stays
  (`Queries.IndexByNameLastWins`).
- Column names are not unique. A `PRIMARY KEY` line never adds a second column of a name.
  A plain column line appends its column unconditionally, even if one of that name exists.
- An `ALTER` clause that names an unknown table is a no-op only when the clause has no key to
  add. With at least one key it raises.
- `load` cuts each `ALTER` fragment at its first `;` before `alter_table` splits it on `;`. So
  each statement reaches `alter_table` as a single clause (`Ddl.SingleClause`).
- The text before the first `CREATE` is a fragment like any other. If it holds a `;` and the
  text before that `;` mentions `TABLE`, it is parsed as a table. One example is a leading
  ``DROP TABLE IF EXISTS `x`;``.
- The same holds on the `ALTER` side. When the text before the first `ALTER` holds a `;`, it is
  cut at its first `;`. When the result mentions `TABLE`, it is applied as an `ALTER` statement.
  This also happens when the text has no `ALTER` at all, since the whole text is then the
  leading fragment.
  - When that leading text is a `CREATE TABLE` block, its flattened lines form one clause.
  - When the block's header reads ``TABLE `name` ``, its single-column primary keys are appended
    to the table a second time. Its foreign keys are appended again only when the block holds
    no `PRIMARY KEY` text.
  - With any other header, such as `CREATE TABLE IF NOT EXISTS`, a block that holds
    `PRIMARY KEY` or `FOREIGN KEY` text has no target. `load` then raises `MissingAlterTarget`
    after all tables were created.
- An `ALTER` statement that holds both `PRIMARY KEY` and `FOREIGN KEY` applies only its primary
  keys: the clause is dispatched on `PRIMARY KEY` first (lines 154 and 160).

## Model

| member | source | states |
|---|---|---|
| Text.IndexOf | database.py:88 | the leftmost occurrence of a text, with none before it; none when it occurs nowhere |
| Text.Contains | database.py:88 | Python's `t in s`: `IndexOf` finds an occurrence |
| Text.SplitOn | database.py:86 | `split` yields at least one piece and no piece contains the separator |
| Text.JoinSplit | database.py:86 | joining the pieces of a split with the separator gives back the text: nothing is lost |
| Text.ToLower | database.py:97 | `lower()` keeps the length and lowercases each character |
| Text.ReplaceChar | database.py:152 | `replace('\n', ' ')` keeps the length and replaces exactly the newlines |
| Patterns.WordRun | database.py:122 | the run of `\w` characters at a position: all word characters, and the next one is not |
| Patterns.MatchAt | database.py:122 | an anchored match ends inside the text and captures one word per group of the pattern |
| Patterns.MatchAtSound | database.py:122 | the matched text is the pattern with the captured words filled in |
| Patterns.MatchAtComplete | database.py:122 | wherever a pattern filled in with words occurs, the scanner matches there, capturing exactly those words and ending after them |
| Patterns.Search | database.py:122 | `re.search`: a match at the first position where one exists, none before it; none at all exactly when no position matches |
| Patterns.FindAll | database.py:128 | `re.finditer`: every element is a match, and matches are left to right and do not overlap |
| Patterns.FindAllComplete | database.py:128 | no match is skipped: every matching position starts or lies inside a reported match |
| Patterns.Captures | database.py:141 | `re.findall`: one group list per match, each as long as the pattern's group count and made of words |
| Patterns.ForeignKeyShape | database.py:141 | the foreign-key pattern has three groups and stands for ``FOREIGN KEY (`a`) REFERENCES `b` (`c`)`` |
| Patterns.ForeignKeyWellFormed | database.py:141 | each group of the foreign-key pattern is followed by a literal that cannot extend it |
| Patterns.SimplePatternsShape | database.py:155-157 | the three one-group patterns are well formed and stand for their backtick-quoted text |
| Ddl.PredictType | database.py:96-106 | the tag is `int` iff the line mentions "int" ignoring case; `string` iff not that and it mentions "char" or "text"; `date` and `double` likewise in order; `unknown` otherwise |
| Ddl.PredictTypeIgnoresCase | database.py:96-106 | lines equal up to case get the same tag |
| Ddl.LowerThenContains | database.py:97 | `w in s.lower()` holds exactly when some slice of `s` lowercases to `w` |
| Ddl.MakeColumn | database.py:108-114 | the column `get_column` builds: the name, `PredictType` of the line and `Equivalences` of the name |
| Ddl.Equivalences | database.py:110-112 | the list starts with the lowercase name; the thesaurus result is one more entry exactly when a thesaurus is set |
| Database.Database.GetColumn | database.py:108-114 | the name, the type predicted from the line and the equivalence list of that name |
| Ddl.FirstQuotedWord | database.py:122 | the captured word is the leftmost backtick-quoted word on the line; none means no quoted word occurs anywhere |
| Ddl.QuotedWords | database.py:128 | each identifier `finditer` yields on a `PRIMARY KEY` line is a word |
| Ddl.FirstGroups | database.py:128-132 | the first group of every match, in match order |
| Ddl.ForeignKeysIn | database.py:141 | one triple per match, in left-to-right order; each field is a word and the triple's clause text occurs at its match's start, so the fields are that match's captures |
| Ddl.ForeignKeyMatchText | database.py:141 | a foreign-key match spells out ``FOREIGN KEY (`a`) REFERENCES `b` (`c`)`` for its three groups |
| Ddl.PrimaryKeysIn | database.py:157 | one key per match of ``PRIMARY KEY (`x`)``, so only single-column keys, each a word found at its match |
| Ddl.AlterTarget | database.py:155 | the target is the word of the leftmost ``TABLE `name` `` in the clause; none means no such text occurs |
| Ddl.PrimaryKeyStep | database.py:130-138 | one identifier of a `PRIMARY KEY` line: a column for it only when no column has its name, then the key appended |
| Ddl.PrimaryKeyLine | database.py:128-138 | the identifiers of a `PRIMARY KEY` line applied left to right; its properties are `PrimaryKeyLineKeeps`, `PrimaryKeyLineCovers` and `PrimaryKeyLineAdds` |
| Ddl.CreateLine | database.py:121-148 | one line of a `CREATE` block, dispatched on `TABLE`, then `PRIMARY KEY`, then `FOREIGN KEY`, then a quoted column name; only a `TABLE` line without a quoted name fails |
| Ddl.CreateLines | database.py:120-148 | the lines of a block in order, stopping at the first failure |
| Ddl.ParseTable | database.py:117-149 | `create_table`: the lines of the block, split on newlines, applied to an empty table |
| Ddl.PrimaryKeyLineKeeps | database.py:127-138 | every identifier on the line becomes a key, in order; existing columns, name and foreign keys are unchanged; at most one column per identifier is added |
| Ddl.PrimaryKeyLineCovers | database.py:127-138 | after the line every identifier on it names a column |
| Ddl.PrimaryKeyLineAdds | database.py:129-137 | every column the line adds is named on the line, is typed from the line, and has a name no earlier column has |
| Ddl.PrimaryKeyLineKeepsNamesDistinct | database.py:127-138 | a table whose column names are distinct keeps them distinct after a `PRIMARY KEY` line |
| Ddl.CreateLineFailure | database.py:121-123 | a line raises exactly when it mentions `TABLE` and holds no quoted name, and the error names that line |
| Ddl.CreateLineEffect | database.py:120-148 | a `TABLE` line sets the name to its first quoted word and the equivalences to that name's, and changes nothing else; a `FOREIGN KEY` line appends exactly `ForeignKeysIn(line)`, one triple per match, and nothing else; another line appends exactly one column, named by its first quoted word, typed from the line, with that name's equivalences, or changes nothing when it has no quoted word |
| Ddl.CreateLinesFailure | database.py:117-149 | a block raises exactly when one of its lines is a malformed table header, and the error names the first such line |
| Ddl.ParseTableFailure | database.py:117-149 | `create_table` raises only for a malformed table header |
| Ddl.AlterClause | database.py:153-166 | one `ALTER` clause: a `PRIMARY KEY` clause appends its keys, otherwise a `FOREIGN KEY` clause appends its triples, to the first table of the target name; a missing target raises, and an unknown table raises when there is a key to add |
| Ddl.AlterClauses | database.py:153-166 | the clauses in order, stopping at the first raise and keeping what came before it |
| Ddl.AlterClausesOf | database.py:152 | newlines become spaces, then the statement is split on `;` |
| Ddl.AlterStatement | database.py:151-166 | `alter_table`: its clauses applied in order |
| Ddl.SingleClause | database.py:152 | a statement without `;` is one clause, with newlines turned into spaces |
| Ddl.AlterClauseTouchesFirstMatch | database.py:151-166 | a clause changes at most the first table of its target name, and only by appending keys |
| Ddl.AlterClausesKeepShape | database.py:151-166 | `alter_table` never adds, removes, renames or reorders tables and never touches columns, whether or not it completes |
| Ddl.AlterClausesUnknownTable | database.py:156-159 | a clause raises `UnknownTable(n)` only when no table is called `n` |
| Ddl.Blocks | database.py:86 | the text split on a keyword, each fragment holding a `;` cut at its first `;` (lines 86 and 91) |
| Ddl.Statements | database.py:86 | no block contains `;` |
| Ddl.StatementsAreCut | database.py:86 | each fragment holding a `;` gives exactly one block, its text up to the first `;`, and other fragments give none |
| Ddl.StatementsOfConcat | database.py:86 | blocks come out in the order of their fragments |
| Ddl.TableBlocks | database.py:87-88 | the blocks acted on all mention `TABLE` and come from the split |
| Ddl.TableBlockIndices | database.py:87-88 | the positions of exactly the blocks that mention `TABLE`, increasing, with none missed |
| Ddl.TableBlocksSubsequence | database.py:87-88 | the blocks acted on are the blocks at `TableBlockIndices`: every block that mentions `TABLE` is kept, once, in the original order |
| Ddl.CreatePhase | database.py:87-90 | each block that mentions `TABLE` parsed and appended in order; the first raise stops the phase |
| Ddl.AlterPhase | database.py:92-94 | each block that mentions `TABLE` applied as an `ALTER` statement in order; the first raise stops the phase |
| Ddl.LoadContent | database.py:83-94 | `load` on text already read: the `CREATE` phase, then, when it did not raise, the `ALTER` phase |
| Ddl.CreatePhaseKeeps | database.py:86-90 | the `CREATE` phase keeps the tables it started with |
| Ddl.CreatePhaseCompletes | database.py:86-90 | when every `TABLE` block parses, the `CREATE` phase completes |
| Ddl.CreatePhaseAppends | database.py:86-90 | a completed `CREATE` phase appends exactly one table per `TABLE` block, in source order, keeping repeated names |
| Ddl.CreatePhaseFailure | database.py:86-90 | a raising `CREATE` phase raises what `create_table` raised on one of its blocks |
| Ddl.AlterPhaseKeepsShape | database.py:91-94 | the `ALTER` phase only appends keys to existing tables |
| Ddl.AlterPhaseUnknownTable | database.py:91-94 | the `ALTER` phase raises `UnknownTable(n)` only when no table is called `n` |
| Ddl.LoadFailure | database.py:83-94 | a raising `load` raised on a malformed table header, or in the `ALTER` phase after all tables were created |
| Ddl.LoadUnknownTable | database.py:83-94 | because every `CREATE` runs before any `ALTER`, `load` raises `UnknownTable(n)` only if no table anywhere in the text is called `n` |
| Ddl.LoadShape | database.py:83-94 | a completed `load` leaves the old tables, then one table per `CREATE TABLE` block in source order, each as parsed but for appended keys |
| Queries.FirstTableIndex | database.py:30-32 | the index of the first table of the name, with no such table before it; none when no table has the name |
| Queries.TableByName | database.py:29-32 | the first table of the name, or none exactly when no table has it |
| Queries.PrimaryKeysOf | database.py:54-57 | the keys of the first table of the name, or none when there is no such table |
| Queries.ForeignKeysOf | database.py:64-67 | the foreign keys of the first table of the name, or none when there is no such table |
| Queries.FirstColumnIndex | database.py:25-27 | the index of the first column of the name in one table |
| Queries.ColumnPosition | database.py:23-27 | the first table holding a column of the name, then the first such column in it |
| Queries.ColumnWithName | database.py:23-27 | a column of that name, or none exactly when no table has one |
| Queries.ColumnNames | database.py:38-39 | the names of the columns, in order |
| Queries.IndexByName | database.py:34-52 | the dictionary filled table by table with `data[table.name] = value(table)`; its properties are `IndexByNameKeys` and `IndexByNameLastWins` |
| Queries.TablesIntoDictionary | database.py:34-40 | `IndexByName` with each table's column names |
| Queries.PrimaryKeysByTable | database.py:42-46 | `IndexByName` with each table's primary keys |
| Queries.ForeignKeysByTable | database.py:48-52 | `IndexByName` with each table's foreign keys |
| Queries.IndexByNameKeys | database.py:34-52 | the dictionary's keys are exactly the table names |
| Queries.IndexByNameLastWins | database.py:34-52 | a name's entry is the value of the last table of that name |
| Queries.IndexByNameStep | database.py:36-39 | one more table overwrites its name's entry |
| Tables.Table.constructor | database.py:119 | `Table()` starts with no name, equivalences, columns or keys |
| Tables.Table.AddColumn | database.py:136 | appends the column and changes nothing else |
| Tables.Table.AddPrimaryKey | database.py:138 | appends the key and changes nothing else |
| Tables.Table.AddForeignKey | database.py:143 | appends the triple and changes nothing else |
| Database.Database.constructor | database.py:10-12 | a new database has no tables and no thesaurus |
| Database.Database.SetThesaurus | database.py:14-15 | sets the thesaurus and leaves the tables alone |
| Database.Database.NumberOfTables | database.py:17-18 | the number of tables |
| Database.Database.GetTables | database.py:20-21 | the registry's own list of table objects |
| Database.Database.AddTable | database.py:74-75 | appends the table object and nothing else |
| Database.Database.GetTableByName | database.py:29-32 | the object at the first index of the name, or none exactly when no table has it |
| Database.Database.GetColumnWithThisName | database.py:23-27 | the column `Queries.ColumnWithName` finds: tables in order, then columns in order |
| Database.Database.GetPrimaryKeysOfTable | database.py:54-57 | the keys `Queries.PrimaryKeysOf` gives |
| Database.Database.GetForeignKeysOfTable | database.py:64-67 | the foreign keys `Queries.ForeignKeysOf` gives |
| Database.Database.FillColumnNames | database.py:37-39 | the table's entry is reset, then holds its column names in order |
| Database.Database.GetTablesIntoDictionary | database.py:34-40 | the dictionary of column names by table name, last table of a name winning |
| Database.Database.GetPrimaryKeysByTable | database.py:42-46 | the dictionary of primary keys by table name, last table of a name winning |
| Database.Database.GetForeignKeysByTable | database.py:48-52 | the dictionary of foreign keys by table name, last table of a name winning |
| Database.Database.CreateTable | database.py:117-149 | a fresh table holding what the block parses to, or the error a malformed header raises |
| Database.Database.CreateLineInPlace | database.py:120-148 | one line applied to the table, as `Ddl.CreateLine` says |
| Database.Database.PrimaryKeyLineInPlace | database.py:127-138 | the table after a `PRIMARY KEY` line is `Ddl.PrimaryKeyLine` of the table before it |
| Database.Database.PrimaryKeyStepInPlace | database.py:129-138 | the `exists` scan finds whether a column has the identifier's name; a column is added only if not, then the key |
| Database.Database.AppendPrimaryKeys | database.py:158-159 | appends the keys in order and changes nothing else |
| Database.Database.AppendForeignKeys | database.py:142-143 | appends the triples in order and changes nothing else |
| Database.Database.AlterTable | database.py:151-166 | the tables after `alter_table` are what `Ddl.AlterStatement` computes, and it raises what that raises |
| Database.Database.AlterClauseInPlace | database.py:153-166 | one clause applied as `Ddl.AlterClause` says; a raising clause changes nothing |
| Database.Database.AlterPrimaryKeyClause | database.py:154-159 | a `PRIMARY KEY` clause applied as `Ddl.AlterClause` says |
| Database.Database.AlterForeignKeyClause | database.py:160-166 | a `FOREIGN KEY` clause applied as `Ddl.AlterClause` says |
| Database.Database.AppendPrimaryKeysAt | database.py:156-159 | appending to the first table of the name changes that table's value and no other |
| Database.Database.AppendForeignKeysAt | database.py:163-166 | appending to the first table of the name changes that table's value and no other |
| Database.Database.CreateTables | database.py:86-90 | the tables and the outcome are those of `Ddl.CreatePhase` |
| Database.Database.CreateAndAddTable | database.py:89-90 | the parsed table is appended, or the error is returned and nothing changes |
| Database.Database.AlterTables | database.py:91-94 | the tables and the outcome are those of `Ddl.AlterPhase` |
| Database.Database.Load | database.py:83-94 | the tables and the outcome are those of `Ddl.LoadContent`: every `CREATE` block, then every `ALTER` block |

## Left out

- File reading and path resolution (`_generate_path`, `open`, `read`, lines 77-85): `Load` takes the text that was read.
- `print_me` and the debug `print` calls (lines 137, 161, 169-182): console output only.
- The thesaurus's behaviour: it is an arbitrary function from a word to a list of words, stored as one entry.
- table.py is not part of this model. `Table` has only its five fields and three append operations, and no duplicate check is assumed.
- `get_primary_key_names_of_table` and `get_foreign_key_names_of_table` (lines 59-72): they call `Table` methods defined in table.py, which is not part of this model.
- Python's general `re` engine: only the four fixed patterns are modelled. `\w` is restricted to ASCII letters, digits and `_`, and `lower()` to ASCII letters.
- `get_column` receives the captured name rather than the match object (line 108).
- The key order of the three dictionaries (lines 34-52): a Python `dict` keeps the order in which each table name was first inserted, but the model returns a `map`, which has no order. Keys and values are modelled; their order is not.
- Exceptions are modelled only as the three `DdlError` outcomes. Python's exception types and tracebacks are not modelled.
- Database.Database.AddTable: requires that the object is not already in the list, while the code accepts it twice. The model's other methods rely on no object being listed twice. `Load` and `AddTable` keep that true.
- Database.Database.Load: requires the same distinctness of the table objects as `AddTable`, for the same reason.
- Database.Database.AlterTable: requires the same distinctness, so that keys appended to one object change no other table.
- Database.Database.AlterTables: requires the same distinctness, for the same reason as `AlterTable`.
- Database.Database.CreateTable: on a raise it returns the error and drops the half-built table. The Python exception does the same.
