/**
 * What database.py computes, as functions on values: type inference, column construction, the
 * line-by-line meaning of a `CREATE TABLE` block, the meaning of an `ALTER TABLE` statement, the
 * splitting of the DDL text into statements, and `load` as a whole. The `Database` class runs
 * the same steps in place and is proved to agree with these functions.
 */
module Ddl {
  import opened Wrappers
  import opened Text
  import opened Patterns
  import opened Tables
  import opened Queries

  // ---------------------------------------------------------------- predict_type

  /** The slice of `s` at `i` lowercases to `w`. */
  predicate LowerOccursAt(s: string, w: string, i: nat)
  {
    i + |w| <= |s| && ToLower(s[i..i + |w|]) == w
  }

  /** `s` holds `w` when case is ignored. */
  ghost predicate MentionsIgnoringCase(s: string, w: string)
  {
    exists i: nat :: LowerOccursAt(s, w, i)
  }

  lemma LowerThenContains(s: string, w: string)
    ensures Contains(ToLower(s), w) <==> MentionsIgnoringCase(s, w)
  {
    if Contains(ToLower(s), w) {
      LowerContainsMentions(s, w);
    }
    if MentionsIgnoringCase(s, w) {
      var i: nat :| LowerOccursAt(s, w, i);
      MentionAtContains(s, w, i);
    }
  }

  lemma LowerContainsMentions(s: string, w: string)
    requires Contains(ToLower(s), w)
    ensures MentionsIgnoringCase(s, w)
  {
    var i := ContainsWitness(ToLower(s), w);
    LowerOfSlice(s, i, i + |w|);
    assert LowerOccursAt(s, w, i);
  }

  lemma MentionAtContains(s: string, w: string, i: nat)
    requires LowerOccursAt(s, w, i)
    ensures Contains(ToLower(s), w)
  {
    LowerOfSlice(s, i, i + |w|);
    ContainsAt(ToLower(s), w, i);
  }

  lemma LowerOfSlice(s: string, i: nat, j: nat)
    requires i <= j <= |s|
    ensures ToLower(s[i..j]) == ToLower(s)[i..j]
  {
    var a, b := ToLower(s[i..j]), ToLower(s)[i..j];
    assert |a| == |b|;
    forall k | 0 <= k < |a| ensures a[k] == b[k] {
      assert s[i..j][k] == s[i + k];
    }
  }

  /** `predict_type(line)`: the first keyword found, ignoring case, decides the tag. */
  function PredictType(line: string): (t: ColumnType)
    ensures t == Int <==> MentionsIgnoringCase(line, "int")
    ensures t == String <==>
      !MentionsIgnoringCase(line, "int") &&
      (MentionsIgnoringCase(line, "char") || MentionsIgnoringCase(line, "text"))
    ensures t == Date <==>
      !MentionsIgnoringCase(line, "int") && !MentionsIgnoringCase(line, "char") &&
      !MentionsIgnoringCase(line, "text") && MentionsIgnoringCase(line, "date")
    ensures t == Double <==>
      !MentionsIgnoringCase(line, "int") && !MentionsIgnoringCase(line, "char") &&
      !MentionsIgnoringCase(line, "text") && !MentionsIgnoringCase(line, "date") &&
      MentionsIgnoringCase(line, "double")
  {
    LowerThenContains(line, "int");
    LowerThenContains(line, "char");
    LowerThenContains(line, "text");
    LowerThenContains(line, "date");
    LowerThenContains(line, "double");
    var lower := ToLower(line);
    if Contains(lower, "int") then Int
    else if Contains(lower, "char") || Contains(lower, "text") then String
    else if Contains(lower, "date") then Date
    else if Contains(lower, "double") then Double
    else Unknown
  }

  /** Inference only looks at letters up to case: two lines equal up to case get the same tag. */
  lemma {:induction false} PredictTypeIgnoresCase(a: string, b: string)
    requires ToLower(a) == ToLower(b)
    ensures PredictType(a) == PredictType(b)
  {
    LowerThenContains(a, "int"); LowerThenContains(b, "int");
    LowerThenContains(a, "char"); LowerThenContains(b, "char");
    LowerThenContains(a, "text"); LowerThenContains(b, "text");
    LowerThenContains(a, "date"); LowerThenContains(b, "date");
    LowerThenContains(a, "double"); LowerThenContains(b, "double");
  }

  // ---------------------------------------------------------------- get_column

  /** The equivalence list of a name: its lowercase form, then the thesaurus result as one entry. */
  function Equivalences(name: string, thesaurus: Option<Thesaurus>): (eqs: seq<Equivalent>)
    ensures |eqs| == if thesaurus.Some? then 2 else 1
    ensures eqs[0] == Name(ToLower(name))
    ensures thesaurus.Some? ==> eqs[1] == Synonyms(thesaurus.value(name))
  {
    [Name(ToLower(name))] + if thesaurus.Some? then [Synonyms(thesaurus.value(name))] else []
  }

  /** `get_column(match, line)`: the column a captured name on `line` stands for. */
  function MakeColumn(name: string, line: string, thesaurus: Option<Thesaurus>): Column
  {
    Column(name, PredictType(line), Equivalences(name, thesaurus))
  }

  // ---------------------------------------------------------------- the fixed patterns

  /** No backtick-quoted word starts before position `i`. */
  ghost predicate NoQuotedWordBefore(line: string, i: nat)
  {
    forall j: nat, v :: j < i && IsWord(v) ==> !OccursAt(line, "`" + v + "`", j)
  }

  /** `re.search("`(\w+)`", line).group(1)`: the leftmost backtick-quoted word, if any. */
  function FirstQuotedWord(line: string): (r: Option<string>)
    ensures r.Some? ==> IsWord(r.value)
    ensures r.Some? ==> exists i: nat :: OccursAt(line, "`" + r.value + "`", i) && NoQuotedWordBefore(line, i)
    ensures r.None? ==> NoQuotedWordBefore(line, |line| + 1)
  {
    match Search(line, BacktickWord)
    case None =>
      SearchQuotedNone(line);
      None
    case Some(m) =>
      SearchQuotedSome(line, m);
      Some(m.groups[0])
  }

  lemma SearchQuotedNone(line: string)
    requires Search(line, BacktickWord).None?
    ensures NoQuotedWordBefore(line, |line| + 1)
  {
    OneGroupAbsent(line, "`", "`", |line| + 1);
  }

  lemma SearchQuotedSome(line: string, m: Match)
    requires Search(line, BacktickWord) == Some(m)
    ensures |m.groups| == 1 && IsWord(m.groups[0])
    ensures OccursAt(line, "`" + m.groups[0] + "`", m.start) && NoQuotedWordBefore(line, m.start)
  {
    OneGroupFound(line, "`", "`", m);
    OneGroupAbsent(line, "`", "`", m.start);
  }

  /** The first group of every match, left to right. */
  function FirstGroups(s: string, p: Pattern): (r: seq<string>)
    requires GroupCount(p) >= 1
    ensures |r| == |FindAll(s, p)|
    ensures forall k :: 0 <= k < |r| ==> IsWord(r[k]) && r[k] == FindAll(s, p)[k].groups[0]
  {
    var caps := Captures(s, p);
    seq(|caps|, k requires 0 <= k < |caps| => caps[k][0])
  }

  /** `re.finditer("`(\w+)`", line)`: every backtick-quoted word, left to right. */
  function QuotedWords(line: string): (r: seq<string>)
    ensures forall k :: 0 <= k < |r| ==> IsWord(r[k])
  {
    FirstGroups(line, BacktickWord)
  }

  /** The text one foreign-key clause stands for. */
  function ForeignKeyText(fk: ForeignKey): string
  {
    "FOREIGN KEY (`" + fk.column + "`) REFERENCES `" + fk.refTable + "` (`" + fk.refColumn + "`)"
  }

  /** `re.findall` of the foreign-key pattern: one triple per match, left to right, each the
      text found at that match. */
  function ForeignKeysIn(line: string): (r: seq<ForeignKey>)
    ensures |r| == |FindAll(line, ForeignKeyClause)|
    ensures forall k :: 0 <= k < |r| ==> IsWord(r[k].column) && IsWord(r[k].refTable) && IsWord(r[k].refColumn)
    ensures forall k :: 0 <= k < |r| ==> OccursAt(line, ForeignKeyText(r[k]), FindAll(line, ForeignKeyClause)[k].start)
  {
    var caps := Captures(line, ForeignKeyClause);
    var r := seq(|caps|, k requires 0 <= k < |caps| => ForeignKey(caps[k][0], caps[k][1], caps[k][2]));
    forall k | 0 <= k < |r|
      ensures OccursAt(line, ForeignKeyText(r[k]), FindAll(line, ForeignKeyClause)[k].start)
    {
      ForeignKeyMatchText(line, FindAll(line, ForeignKeyClause)[k]);
    }
    r
  }

  lemma ForeignKeyMatchText(line: string, m: Match)
    requires IsMatch(line, ForeignKeyClause, m)
    ensures |m.groups| == 3
    ensures OccursAt(line, ForeignKeyText(ForeignKey(m.groups[0], m.groups[1], m.groups[2])), m.start)
  {
    ForeignKeyMatchRender(line, m);
    var text := ForeignKeyText(ForeignKey(m.groups[0], m.groups[1], m.groups[2]));
    assert line[m.start..m.end] == text;
  }

  lemma ForeignKeyMatchRender(line: string, m: Match)
    requires IsMatch(line, ForeignKeyClause, m)
    ensures |m.groups| == 3 && m.start <= m.end <= |line|
    ensures line[m.start..m.end] == ForeignKeyText(ForeignKey(m.groups[0], m.groups[1], m.groups[2]))
  {
    ForeignKeyShape("", "", "");
    MatchAtSound(line, m.start, ForeignKeyClause);
    var g := m.groups;
    assert g == [g[0], g[1], g[2]];
    ForeignKeyShape(g[0], g[1], g[2]);
  }

  // ---------------------------------------------------------------- create_table

  /** The ways the Python code raises on malformed DDL. */
  datatype DdlError =
    | MalformedTableHeader(line: string) // a `TABLE` line without a quoted name: `.group(1)` on None
    | MissingAlterTarget(clause: string) // an ALTER clause without ``TABLE `name` ``: `.group(1)` on None
    | UnknownTable(name: string)         // an ALTER naming no loaded table: a method call on None

  /** One identifier of a `PRIMARY KEY` line: a column for it unless one exists, then the key. */
  function PrimaryKeyStep(t: TableValue, id: string, line: string, thesaurus: Option<Thesaurus>): TableValue
  {
    var t' := if HasColumn(t.columns, id) then t
              else t.(columns := t.columns + [MakeColumn(id, line, thesaurus)]);
    t'.(primaryKeys := t'.primaryKeys + [id])
  }

  /** The identifiers of a `PRIMARY KEY` line, taken left to right. */
  function PrimaryKeyLine(t: TableValue, ids: seq<string>, line: string, thesaurus: Option<Thesaurus>): TableValue
    decreases |ids|
  {
    if ids == [] then t
    else PrimaryKeyLine(PrimaryKeyStep(t, ids[0], line, thesaurus), ids[1..], line, thesaurus)
  }

  /** One line of a `CREATE TABLE` block; only a `TABLE` line without a quoted name fails. */
  function CreateLine(t: TableValue, line: string, thesaurus: Option<Thesaurus>): Result<TableValue, DdlError>
  {
    if Contains(line, "TABLE") then
      match FirstQuotedWord(line)
      case None => Failure(MalformedTableHeader(line))
      case Some(name) => Success(t.(name := name, equivalences := Equivalences(name, thesaurus)))
    else if Contains(line, "PRIMARY KEY") then
      Success(PrimaryKeyLine(t, QuotedWords(line), line, thesaurus))
    else if Contains(line, "FOREIGN KEY") then
      Success(t.(foreignKeys := t.foreignKeys + ForeignKeysIn(line)))
    else
      match FirstQuotedWord(line)
      case None => Success(t)
      case Some(name) => Success(t.(columns := t.columns + [MakeColumn(name, line, thesaurus)]))
  }

  /** The lines of a block, in order, stopping at the first failure. */
  function CreateLines(t: TableValue, lines: seq<string>, thesaurus: Option<Thesaurus>): Result<TableValue, DdlError>
    decreases |lines|
  {
    if lines == [] then Success(t)
    else match CreateLine(t, lines[0], thesaurus)
      case Failure(e) => Failure(e)
      case Success(t') => CreateLines(t', lines[1..], thesaurus)
  }

  /** `create_table(block)`: the table a `CREATE` block describes. */
  function ParseTable(block: string, thesaurus: Option<Thesaurus>): Result<TableValue, DdlError>
  {
    CreateLines(EmptyTable, SplitOn(block, "\n"), thesaurus)
  }

  /** No two columns share a name. */
  predicate DistinctColumnNames(columns: seq<Column>)
  {
    forall i, j :: 0 <= i < j < |columns| ==> columns[i].name != columns[j].name
  }

  /** A `PRIMARY KEY` line makes every identifier on it a key, in order, and keeps the existing
      columns as they are, adding at most one column per identifier. */
  lemma {:induction false} PrimaryKeyLineKeeps(t: TableValue, ids: seq<string>, line: string, thesaurus: Option<Thesaurus>)
    ensures var r := PrimaryKeyLine(t, ids, line, thesaurus);
      && r.primaryKeys == t.primaryKeys + ids
      && r.name == t.name && r.equivalences == t.equivalences && r.foreignKeys == t.foreignKeys
      && |t.columns| <= |r.columns| <= |t.columns| + |ids|
      && r.columns[..|t.columns|] == t.columns
    decreases |ids|
  {
    if ids != [] {
      var t1 := PrimaryKeyStep(t, ids[0], line, thesaurus);
      var r := PrimaryKeyLine(t1, ids[1..], line, thesaurus);
      PrimaryKeyLineKeeps(t1, ids[1..], line, thesaurus);
      assert t.primaryKeys + ids == t.primaryKeys + [ids[0]] + ids[1..];
      assert r.columns[..|t.columns|] == t1.columns[..|t.columns|];
    }
  }

  /** After a `PRIMARY KEY` line, every identifier on it names a column. */
  lemma {:induction false} PrimaryKeyLineCovers(t: TableValue, ids: seq<string>, line: string, thesaurus: Option<Thesaurus>)
    ensures forall k :: 0 <= k < |ids| ==> HasColumn(PrimaryKeyLine(t, ids, line, thesaurus).columns, ids[k])
    decreases |ids|
  {
    if ids != [] {
      var t1 := PrimaryKeyStep(t, ids[0], line, thesaurus);
      var r := PrimaryKeyLine(t1, ids[1..], line, thesaurus);
      PrimaryKeyLineCovers(t1, ids[1..], line, thesaurus);
      PrimaryKeyLineKeeps(t1, ids[1..], line, thesaurus);
      var j :| 0 <= j < |t1.columns| && t1.columns[j].name == ids[0];
      assert r.columns[j] == t1.columns[j];
      forall k | 0 <= k < |ids| ensures HasColumn(r.columns, ids[k]) {
        if k > 0 { assert ids[k] == ids[1..][k - 1]; }
      }
    }
  }

  /** Every column a `PRIMARY KEY` line adds is named on the line, is typed from the line, and
      has a name no earlier column has: the line never adds a second column of a name. */
  lemma {:induction false} PrimaryKeyLineAdds(t: TableValue, ids: seq<string>, line: string, thesaurus: Option<Thesaurus>)
    ensures var r := PrimaryKeyLine(t, ids, line, thesaurus);
      forall k :: |t.columns| <= k < |r.columns| ==>
        r.columns[k] == MakeColumn(r.columns[k].name, line, thesaurus) &&
        r.columns[k].name in ids &&
        !HasColumn(r.columns[..k], r.columns[k].name)
    decreases |ids|
  {
    if ids != [] {
      var t1 := PrimaryKeyStep(t, ids[0], line, thesaurus);
      var r := PrimaryKeyLine(t1, ids[1..], line, thesaurus);
      PrimaryKeyLineAdds(t1, ids[1..], line, thesaurus);
      PrimaryKeyLineKeeps(t1, ids[1..], line, thesaurus);
      forall k | |t.columns| <= k < |r.columns|
        ensures r.columns[k] == MakeColumn(r.columns[k].name, line, thesaurus)
        ensures r.columns[k].name in ids
        ensures !HasColumn(r.columns[..k], r.columns[k].name)
      {
        if k < |t1.columns| {
          assert k == |t.columns| && r.columns[k] == t1.columns[k];
          assert r.columns[..k] == t.columns;
        } else {
          assert r.columns[k].name in ids[1..];
        }
      }
    }
  }

  /** Hence a `PRIMARY KEY` line keeps column names distinct. */
  lemma PrimaryKeyLineKeepsNamesDistinct(t: TableValue, ids: seq<string>, line: string, thesaurus: Option<Thesaurus>)
    requires DistinctColumnNames(t.columns)
    ensures DistinctColumnNames(PrimaryKeyLine(t, ids, line, thesaurus).columns)
  {
    var r := PrimaryKeyLine(t, ids, line, thesaurus);
    PrimaryKeyLineKeeps(t, ids, line, thesaurus);
    PrimaryKeyLineAdds(t, ids, line, thesaurus);
    forall i, j | 0 <= i < j < |r.columns| ensures r.columns[i].name != r.columns[j].name {
      if j >= |t.columns| {
        assert r.columns[..j][i] == r.columns[i];
      } else {
        assert r.columns[i] == t.columns[i] && r.columns[j] == t.columns[j];
      }
    }
  }

  /** A `TABLE` line that lacks a quoted name: the one line on which `create_table` raises. */
  predicate IsBadHeader(line: string)
  {
    Contains(line, "TABLE") && FirstQuotedWord(line).None?
  }

  /** A line fails exactly when it is a `TABLE` line without a quoted name. */
  lemma CreateLineFailure(t: TableValue, line: string, thesaurus: Option<Thesaurus>)
    ensures CreateLine(t, line, thesaurus).Failure? <==> IsBadHeader(line)
    ensures CreateLine(t, line, thesaurus).Failure? ==> CreateLine(t, line, thesaurus).error == MalformedTableHeader(line)
  {
  }

  /** What each kind of line may change. A `TABLE` line renames the table; a `FOREIGN KEY`
      line appends one triple per match and touches nothing else; any other line appends
      exactly one column when it holds a quoted word, named by the leftmost one and typed
      from the line, and otherwise changes nothing. */
  lemma CreateLineEffect(t: TableValue, line: string, thesaurus: Option<Thesaurus>)
    ensures var r := CreateLine(t, line, thesaurus);
      Contains(line, "TABLE") && r.Success? ==>
        r.value.columns == t.columns && r.value.primaryKeys == t.primaryKeys &&
        r.value.foreignKeys == t.foreignKeys && IsWord(r.value.name) &&
        r.value.name == FirstQuotedWord(line).value &&
        r.value.equivalences == Equivalences(r.value.name, thesaurus)
    ensures var r := CreateLine(t, line, thesaurus);
      !Contains(line, "TABLE") && !Contains(line, "PRIMARY KEY") && Contains(line, "FOREIGN KEY") ==>
        r.value.columns == t.columns && r.value.primaryKeys == t.primaryKeys &&
        r.value.name == t.name && r.value.equivalences == t.equivalences &&
        r.value.foreignKeys == t.foreignKeys + ForeignKeysIn(line) &&
        |r.value.foreignKeys| == |t.foreignKeys| + |FindAll(line, ForeignKeyClause)|
    ensures var r := CreateLine(t, line, thesaurus);
      !Contains(line, "TABLE") && !Contains(line, "PRIMARY KEY") && !Contains(line, "FOREIGN KEY") ==>
        r.value.primaryKeys == t.primaryKeys && r.value.foreignKeys == t.foreignKeys &&
        r.value.name == t.name && r.value.equivalences == t.equivalences &&
        r.value.columns[..|t.columns|] == t.columns &&
        (FirstQuotedWord(line).None? ==> r.value.columns == t.columns) &&
        (FirstQuotedWord(line).Some? ==>
          |r.value.columns| == |t.columns| + 1 &&
          r.value.columns[|t.columns|].name == FirstQuotedWord(line).value &&
          r.value.columns[|t.columns|].columnType == PredictType(line) &&
          r.value.columns[|t.columns|].equivalences == Equivalences(FirstQuotedWord(line).value, thesaurus))
  {
  }

  /** A block fails exactly when one of its lines is a `TABLE` line without a quoted name, and
      the error names the first such line. */
  lemma {:induction false} CreateLinesFailure(t: TableValue, lines: seq<string>, thesaurus: Option<Thesaurus>)
    ensures CreateLines(t, lines, thesaurus).Failure? <==> exists k :: 0 <= k < |lines| && IsBadHeader(lines[k])
    ensures CreateLines(t, lines, thesaurus).Failure? ==> exists k :: (0 <= k < |lines| && IsBadHeader(lines[k]) &&
      CreateLines(t, lines, thesaurus).error == MalformedTableHeader(lines[k]) &&
      forall j :: 0 <= j < k ==> !IsBadHeader(lines[j]))
    decreases |lines|
  {
    if lines != [] {
      CreateLineFailure(t, lines[0], thesaurus);
      match CreateLine(t, lines[0], thesaurus)
      case Failure(e) =>
      case Success(t') =>
        CreateLinesFailure(t', lines[1..], thesaurus);
        if exists k :: 0 <= k < |lines| && IsBadHeader(lines[k]) {
          var k :| 0 <= k < |lines| && IsBadHeader(lines[k]);
          assert lines[1..][k - 1] == lines[k];
        }
        if CreateLines(t, lines, thesaurus).Failure? {
          var k :| 0 <= k < |lines[1..]| && IsBadHeader(lines[1..][k]) &&
            CreateLines(t', lines[1..], thesaurus).error == MalformedTableHeader(lines[1..][k]) &&
            forall j :: 0 <= j < k ==> !IsBadHeader(lines[1..][j]);
          assert forall j :: 0 <= j < k + 1 ==> !IsBadHeader(lines[j]) by {
            forall j | 0 <= j < k + 1 ensures !IsBadHeader(lines[j]) {
              if j > 0 { assert lines[j] == lines[1..][j - 1]; }
            }
          }
        }
    }
  }

  // ---------------------------------------------------------------- alter_table

  /** `re.search("TABLE `(\w+)`", clause).group(1)`, when the pattern matches. */
  function AlterTarget(clause: string): (r: Option<string>)
    ensures r.Some? ==> IsWord(r.value)
    ensures r.Some? ==> exists i: nat :: OccursAt(clause, "TABLE `" + r.value + "`", i) && NoTargetBefore(clause, i)
    ensures r.None? ==> forall i: nat, v :: IsWord(v) ==> !OccursAt(clause, "TABLE `" + v + "`", i)
  {
    match Search(clause, TableHeader)
    case None =>
      OneGroupAbsent(clause, "TABLE `", "`", |clause| + 1);
      AbsentBeyondEnd(clause, "TABLE `", "`");
      None
    case Some(m) =>
      OneGroupFound(clause, "TABLE `", "`", m);
      OneGroupAbsent(clause, "TABLE `", "`", m.start);
      Some(m.groups[0])
  }

  /** No ``TABLE `word` `` starts before position `i`. */
  ghost predicate NoTargetBefore(clause: string, i: nat)
  {
    forall j: nat, v :: j < i && IsWord(v) ==> !OccursAt(clause, "TABLE `" + v + "`", j)
  }

  /** A match of a one-group pattern is the filled-in text at its start. */
  lemma OneGroupFound(s: string, before: string, after: string, m: Match)
    requires IsMatch(s, [Lit(before), Group, Lit(after)], m)
    ensures |m.groups| == 1 && IsWord(m.groups[0]) && OccursAt(s, before + m.groups[0] + after, m.start)
  {
    QuotedShape(before, m.groups[0], after);
    MatchAtSound(s, m.start, [Lit(before), Group, Lit(after)]);
    assert m.groups == [m.groups[0]];
  }

  /** Where a one-group pattern matches nowhere before `to`, its filled-in text occurs nowhere
      before `to`. */
  lemma OneGroupAbsent(s: string, before: string, after: string, to: nat)
    requires |after| > 0 && !IsWordChar(after[0])
    requires forall j :: 0 <= j < to && j <= |s| ==> MatchAt(s, j, [Lit(before), Group, Lit(after)]).None?
    ensures forall i: nat, v :: i < to && IsWord(v) ==> !OccursAt(s, before + v + after, i)
  {
    forall i: nat, v | i < to && IsWord(v) ensures !OccursAt(s, before + v + after, i) {
      if OccursAt(s, before + v + after, i) {
        QuotedShape(before, v, after);
        MatchAtComplete(s, i, [Lit(before), Group, Lit(after)], [v]);
      }
    }
  }

  /** Nothing non-empty occurs past the end of a text. */
  lemma AbsentBeyondEnd(s: string, before: string, after: string)
    requires forall i: nat, v :: i < |s| + 1 && IsWord(v) ==> !OccursAt(s, before + v + after, i)
    ensures forall i: nat, v :: IsWord(v) ==> !OccursAt(s, before + v + after, i)
  {
  }

  /** `re.findall("PRIMARY KEY \(`(\w+)`\)", clause)`: only single-column keys match, each the
      text found at its match. */
  function PrimaryKeysIn(clause: string): (r: seq<string>)
    ensures |r| == |FindAll(clause, PrimaryKeyClause)|
    ensures forall k :: 0 <= k < |r| ==>
      (IsWord(r[k]) && OccursAt(clause, "PRIMARY KEY (`" + r[k] + "`)", FindAll(clause, PrimaryKeyClause)[k].start))
  {
    var r := FirstGroups(clause, PrimaryKeyClause);
    forall k | 0 <= k < |r|
      ensures OccursAt(clause, "PRIMARY KEY (`" + r[k] + "`)", FindAll(clause, PrimaryKeyClause)[k].start)
    {
      OneGroupFound(clause, "PRIMARY KEY (`", "`)", FindAll(clause, PrimaryKeyClause)[k]);
    }
    r
  }

  /** One clause of an `ALTER TABLE` statement. The keys go to the first table of the target
      name; naming no loaded table raises as soon as there is a key to add. */
  function AlterClause(ts: seq<TableValue>, clause: string): Result<seq<TableValue>, DdlError>
  {
    if Contains(clause, "PRIMARY KEY") then
      match AlterTarget(clause)
      case None => Failure(MissingAlterTarget(clause))
      case Some(name) =>
        var keys := PrimaryKeysIn(clause);
        match FirstTableIndex(ts, name)
        case None => if keys == [] then Success(ts) else Failure(UnknownTable(name))
        case Some(k) => Success(ts[k := ts[k].(primaryKeys := ts[k].primaryKeys + keys)])
    else if Contains(clause, "FOREIGN KEY") then
      match AlterTarget(clause)
      case None => Failure(MissingAlterTarget(clause))
      case Some(name) =>
        var fks := ForeignKeysIn(clause);
        match FirstTableIndex(ts, name)
        case None => if fks == [] then Success(ts) else Failure(UnknownTable(name))
        case Some(k) => Success(ts[k := ts[k].(foreignKeys := ts[k].foreignKeys + fks)])
    else
      Success(ts)
  }

  /** A `PRIMARY KEY` clause whose table exists appends its keys to the first table so named. */
  lemma AlterPrimaryKeyFound(ts: seq<TableValue>, clause: string, name: string, k: nat)
    requires Contains(clause, "PRIMARY KEY") && AlterTarget(clause) == Some(name)
    requires FirstTableIndex(ts, name) == Some(k)
    ensures AlterClause(ts, clause) == Success(ts[k := ts[k].(primaryKeys := ts[k].primaryKeys + PrimaryKeysIn(clause))])
  {
  }

  /** A `FOREIGN KEY` clause whose table exists appends its keys to the first table so named. */
  lemma AlterForeignKeyFound(ts: seq<TableValue>, clause: string, name: string, k: nat)
    requires !Contains(clause, "PRIMARY KEY") && Contains(clause, "FOREIGN KEY") && AlterTarget(clause) == Some(name)
    requires FirstTableIndex(ts, name) == Some(k)
    ensures AlterClause(ts, clause) == Success(ts[k := ts[k].(foreignKeys := ts[k].foreignKeys + ForeignKeysIn(clause))])
  {
  }

  /** The tables as far as a run got, and what stopped it, if anything. A raise keeps every
      change made before it. */
  datatype Loaded = Loaded(tables: seq<TableValue>, failure: Option<DdlError>)

  function AlterClauses(ts: seq<TableValue>, clauses: seq<string>): Loaded
    decreases |clauses|
  {
    if clauses == [] then Loaded(ts, None)
    else match AlterClause(ts, clauses[0])
      case Failure(e) => Loaded(ts, Some(e))
      case Success(us) => AlterClauses(us, clauses[1..])
  }

  /** The clauses of an `ALTER` statement: newlines become spaces, then `;` separates. */
  function AlterClausesOf(statement: string): seq<string>
  {
    SplitOn(ReplaceChar(statement, '\n', ' '), ";")
  }

  /** `alter_table(statement)`. */
  function AlterStatement(ts: seq<TableValue>, statement: string): Loaded
  {
    AlterClauses(ts, AlterClausesOf(statement))
  }

  /** The statements `load` passes in were cut at their first `;`, so each is one clause. */
  lemma SingleClause(statement: string)
    requires !Contains(statement, ";")
    ensures AlterClausesOf(statement) == [ReplaceChar(statement, '\n', ' ')]
  {
    var flat := ReplaceChar(statement, '\n', ' ');
    if Contains(flat, ";") {
      var i := ContainsWitness(flat, ";");
      assert flat[i] == ';' && statement[i] == ';';
      ContainsAt(statement, ";", i);
      assert false;
    }
  }

  /** `b` is `a` with at most keys appended: same name, equivalences and columns. */
  predicate KeysOnlyGrow(a: TableValue, b: TableValue)
  {
    b.name == a.name && b.equivalences == a.equivalences && b.columns == a.columns &&
    a.primaryKeys <= b.primaryKeys && a.foreignKeys <= b.foreignKeys
  }

  predicate AllKeysOnlyGrow(ts: seq<TableValue>, us: seq<TableValue>)
  {
    |us| == |ts| && forall k :: 0 <= k < |ts| ==> KeysOnlyGrow(ts[k], us[k])
  }

  /** A clause changes at most the first table of the name it targets, and only its keys. */
  lemma AlterClauseTouchesFirstMatch(ts: seq<TableValue>, clause: string)
    ensures AlterClause(ts, clause).Success? ==> AllKeysOnlyGrow(ts, AlterClause(ts, clause).value)
    ensures AlterClause(ts, clause).Success? ==> forall j :: 0 <= j < |ts| && AlterClause(ts, clause).value[j] != ts[j] ==>
      AlterTarget(clause).Some? && FirstTableIndex(ts, AlterTarget(clause).value) == Some(j)
  {
    var r := AlterClause(ts, clause);
    if r.Success? && r.value != ts {
      var name := AlterTarget(clause).value;
      var k := FirstTableIndex(ts, name).value;
      if Contains(clause, "PRIMARY KEY") {
        assert r.value == ts[k := ts[k].(primaryKeys := ts[k].primaryKeys + PrimaryKeysIn(clause))];
      } else {
        assert r.value == ts[k := ts[k].(foreignKeys := ts[k].foreignKeys + ForeignKeysIn(clause))];
      }
      UpdateOneKeepsShape(ts, k, r.value[k]);
    } else if r.Success? {
      assert forall k :: 0 <= k < |ts| ==> KeysOnlyGrow(ts[k], r.value[k]);
    }
  }

  /** Replacing one table by one with more keys keeps every other table as it was. */
  lemma UpdateOneKeepsShape(ts: seq<TableValue>, k: nat, t: TableValue)
    requires k < |ts| && KeysOnlyGrow(ts[k], t)
    ensures AllKeysOnlyGrow(ts, ts[k := t])
    ensures forall j :: 0 <= j < |ts| && j != k ==> ts[k := t][j] == ts[j]
  {
  }

  /** `alter_table` never adds, removes, renames or reorders tables, never touches columns, and
      only appends keys, whether or not it completes. */
  lemma {:induction false} AlterClausesKeepShape(ts: seq<TableValue>, clauses: seq<string>)
    ensures AllKeysOnlyGrow(ts, AlterClauses(ts, clauses).tables)
    decreases |clauses|
  {
    if clauses != [] {
      match AlterClause(ts, clauses[0])
      case Failure(e) =>
      case Success(us) =>
        AlterClauseTouchesFirstMatch(ts, clauses[0]);
        assert AllKeysOnlyGrow(ts, us);
        AlterClausesKeepShape(us, clauses[1..]);
        var vs := AlterClauses(us, clauses[1..]).tables;
        forall k | 0 <= k < |ts| ensures KeysOnlyGrow(ts[k], vs[k]) {
          PrefixTransitive(ts[k].primaryKeys, us[k].primaryKeys, vs[k].primaryKeys);
          PrefixTransitive(ts[k].foreignKeys, us[k].foreignKeys, vs[k].foreignKeys);
        }
    }
  }

  lemma PrefixTransitive<T>(a: seq<T>, b: seq<T>, c: seq<T>)
    requires a <= b && b <= c
    ensures a <= c
  {
    assert c[..|a|] == b[..|a|];
  }

  // ---------------------------------------------------------------- load

  /** `b` is the text of `f` up to its first `;`. */
  predicate StatementOf(b: string, f: string)
  {
    |b| < |f| && f[..|b|] == b && f[|b|] == ';' && !Contains(b, ";")
  }

  /** `p.split(';')[0]` of a fragment holding a `;` is its text up to the first `;`. */
  lemma FirstPieceIsStatement(f: string)
    requires Contains(f, ";")
    ensures StatementOf(SplitOn(f, ";")[0], f)
  {
    var i := IndexOf(f, ";").value;
    assert SplitOn(f, ";")[0] == f[..i];
  }

  /** `[p.split(';')[0] for p in fragments if ';' in p]`. */
  function Statements(fragments: seq<string>): (blocks: seq<string>)
    ensures forall k :: 0 <= k < |blocks| ==> !Contains(blocks[k], ";")
    decreases |fragments|
  {
    if fragments == [] then []
    else (if Contains(fragments[0], ";") then [SplitOn(fragments[0], ";")[0]] else []) + Statements(fragments[1..])
  }

  function CountWithSemicolon(fragments: seq<string>): nat
  {
    if fragments == [] then 0
    else (if Contains(fragments[0], ";") then 1 else 0) + CountWithSemicolon(fragments[1..])
  }

  /** Every block is the text of some fragment up to that fragment's first `;`; each fragment
      holding a `;` gives exactly one block and the others none. */
  lemma {:induction false} StatementsAreCut(fragments: seq<string>)
    ensures |Statements(fragments)| == CountWithSemicolon(fragments)
    ensures forall k :: 0 <= k < |Statements(fragments)| ==>
      exists j :: 0 <= j < |fragments| && StatementOf(Statements(fragments)[k], fragments[j])
    decreases |fragments|
  {
    if fragments != [] {
      var rest := Statements(fragments[1..]);
      StatementsAreCut(fragments[1..]);
      var blocks := Statements(fragments);
      var d := if Contains(fragments[0], ";") then 1 else 0;
      if d == 1 { FirstPieceIsStatement(fragments[0]); }
      forall k | 0 <= k < |blocks|
        ensures exists j :: 0 <= j < |fragments| && StatementOf(blocks[k], fragments[j])
      {
        if k < d {
          assert StatementOf(blocks[k], fragments[0]);
        } else {
          assert blocks[k] == rest[k - d];
          var j :| 0 <= j < |fragments[1..]| && StatementOf(rest[k - d], fragments[1..][j]);
          assert fragments[1..][j] == fragments[j + 1];
        }
      }
    }
  }

  /** Blocks come out in the order of their fragments. */
  lemma {:induction false} StatementsOfConcat(a: seq<string>, b: seq<string>)
    ensures Statements(a + b) == Statements(a) + Statements(b)
    decreases |a|
  {
    if a != [] {
      StatementsOfConcat(a[1..], b);
      assert (a + b)[1..] == a[1..] + b;
    } else {
      assert a + b == b;
    }
  }

  /** The statements that follow the fragments of `content` split at `keyword`, each cut at its
      first `;` (`load` lines 86 and 91). */
  function Blocks(content: string, keyword: string): seq<string>
    requires |keyword| > 0
  {
    Statements(SplitOn(content, keyword))
  }

  /** The blocks `load` acts on: those that mention `TABLE`. */
  function TableBlocks(blocks: seq<string>): (r: seq<string>)
    ensures |r| <= |blocks|
    ensures forall k :: 0 <= k < |r| ==> Contains(r[k], "TABLE") && r[k] in blocks
    decreases |blocks|
  {
    if blocks == [] then []
    else (if Contains(blocks[0], "TABLE") then [blocks[0]] else []) + TableBlocks(blocks[1..])
  }

  /** The positions, in increasing order, of the blocks that mention `TABLE`. */
  function TableBlockIndices(blocks: seq<string>): (idx: seq<nat>)
    ensures forall k :: 0 <= k < |idx| ==> idx[k] < |blocks| && Contains(blocks[idx[k]], "TABLE")
    ensures forall k, l :: 0 <= k < l < |idx| ==> idx[k] < idx[l]
    ensures forall j :: 0 <= j < |blocks| && Contains(blocks[j], "TABLE") ==> j in idx
    decreases |blocks|
  {
    if blocks == [] then []
    else
      var rest := TableBlockIndices(blocks[1..]);
      var idx := (if Contains(blocks[0], "TABLE") then [0] else []) + Shifted(rest);
      IndicesStep(blocks, rest, idx);
      idx
  }

  /** Every position moved one block later. */
  function Shifted(idx: seq<nat>): (r: seq<nat>)
    ensures |r| == |idx|
    ensures forall k :: 0 <= k < |r| ==> r[k] == idx[k] + 1
  {
    seq(|idx|, k requires 0 <= k < |idx| => idx[k] + 1)
  }

  /** One step of `TableBlockIndices`: the positions found in the blocks after the first, moved
      one later and preceded by 0 when the first block mentions `TABLE`, are the positions of
      those blocks in the whole list. */
  lemma IndicesStep(blocks: seq<string>, rest: seq<nat>, idx: seq<nat>)
    requires |blocks| > 0
    requires forall k :: 0 <= k < |rest| ==> rest[k] < |blocks[1..]| && Contains(blocks[1..][rest[k]], "TABLE")
    requires forall k, l :: 0 <= k < l < |rest| ==> rest[k] < rest[l]
    requires forall j :: 0 <= j < |blocks[1..]| && Contains(blocks[1..][j], "TABLE") ==> j in rest
    requires idx == (if Contains(blocks[0], "TABLE") then [0] else []) + Shifted(rest)
    ensures forall k :: 0 <= k < |idx| ==> idx[k] < |blocks| && Contains(blocks[idx[k]], "TABLE")
    ensures forall k, l :: 0 <= k < l < |idx| ==> idx[k] < idx[l]
    ensures forall j :: 0 <= j < |blocks| && Contains(blocks[j], "TABLE") ==> j in idx
  {
    IndicesStepMention(blocks, rest, idx);
    IndicesStepOrdered(blocks[0], rest, idx);
    IndicesStepComplete(blocks, rest, idx);
  }

  /** The shifted positions still name blocks that mention `TABLE`. */
  lemma IndicesStepMention(blocks: seq<string>, rest: seq<nat>, idx: seq<nat>)
    requires |blocks| > 0
    requires forall k :: 0 <= k < |rest| ==> rest[k] < |blocks[1..]| && Contains(blocks[1..][rest[k]], "TABLE")
    requires idx == (if Contains(blocks[0], "TABLE") then [0] else []) + Shifted(rest)
    ensures forall k :: 0 <= k < |idx| ==> idx[k] < |blocks| && Contains(blocks[idx[k]], "TABLE")
  {
    var d := |idx| - |rest|;
    forall k | 0 <= k < |idx| ensures idx[k] < |blocks| && Contains(blocks[idx[k]], "TABLE") {
      if k >= d {
        assert idx[k] == rest[k - d] + 1;
        assert blocks[1..][rest[k - d]] == blocks[idx[k]];
      }
    }
  }

  /** Shifting keeps the positions increasing, and 0 comes before all of them. */
  lemma IndicesStepOrdered(first: string, rest: seq<nat>, idx: seq<nat>)
    requires forall k, l :: 0 <= k < l < |rest| ==> rest[k] < rest[l]
    requires idx == (if Contains(first, "TABLE") then [0] else []) + Shifted(rest)
    ensures forall k, l :: 0 <= k < l < |idx| ==> idx[k] < idx[l]
  {
    var d := |idx| - |rest|;
    forall k, l | 0 <= k < l < |idx| ensures idx[k] < idx[l] {
      assert idx[l] == rest[l - d] + 1;
      if k >= d {
        assert idx[k] == rest[k - d] + 1;
      }
    }
  }

  /** No block that mentions `TABLE` is missed by the step. */
  lemma IndicesStepComplete(blocks: seq<string>, rest: seq<nat>, idx: seq<nat>)
    requires |blocks| > 0
    requires forall j :: 0 <= j < |blocks[1..]| && Contains(blocks[1..][j], "TABLE") ==> j in rest
    requires idx == (if Contains(blocks[0], "TABLE") then [0] else []) + Shifted(rest)
    ensures forall j :: 0 <= j < |blocks| && Contains(blocks[j], "TABLE") ==> j in idx
  {
    var d := |idx| - |rest|;
    forall j | 0 <= j < |blocks| && Contains(blocks[j], "TABLE") ensures j in idx {
      if j > 0 {
        assert blocks[1..][j - 1] == blocks[j];
        var k :| 0 <= k < |rest| && rest[k] == j - 1;
        assert idx[d + k] == j;
      } else {
        assert idx[0] == 0;
      }
    }
  }

  /** `TableBlocks` is the subsequence of the blocks at `TableBlockIndices`: every block that
      mentions `TABLE` is kept, once, in its original order. */
  lemma {:induction false} TableBlocksSubsequence(blocks: seq<string>)
    ensures |TableBlocks(blocks)| == |TableBlockIndices(blocks)|
    ensures forall k :: 0 <= k < |TableBlocks(blocks)| ==>
      TableBlocks(blocks)[k] == blocks[TableBlockIndices(blocks)[k]]
    decreases |blocks|
  {
    if blocks != [] {
      TableBlocksSubsequence(blocks[1..]);
      var mentions := Contains(blocks[0], "TABLE");
      assert TableBlocks(blocks) == (if mentions then [blocks[0]] else []) + TableBlocks(blocks[1..]);
      assert TableBlockIndices(blocks) == (if mentions then [0] else []) + Shifted(TableBlockIndices(blocks[1..]));
      SubsequenceStep(blocks, mentions, TableBlocks(blocks[1..]), TableBlockIndices(blocks[1..]));
    }
  }

  /** One step of `TableBlocksSubsequence`: when the rest of the blocks sit at the positions
      `rest`, the first block, kept or not, puts them at `Shifted(rest)`. */
  lemma SubsequenceStep(blocks: seq<string>, mentions: bool, kept: seq<string>, rest: seq<nat>)
    requires |blocks| > 0
    requires |kept| == |rest|
    requires forall k :: 0 <= k < |rest| ==> rest[k] < |blocks[1..]|
    requires forall k :: 0 <= k < |kept| ==> kept[k] == blocks[1..][rest[k]]
    ensures var all := (if mentions then [blocks[0]] else []) + kept;
      var idx := (if mentions then [0] else []) + Shifted(rest);
      |all| == |idx| && forall k :: 0 <= k < |all| ==> idx[k] < |blocks| && all[k] == blocks[idx[k]]
  {
    forall k | 0 <= k < |kept| ensures kept[k] == blocks[Shifted(rest)[k]] {
      assert blocks[1..][rest[k]] == blocks[rest[k] + 1];
    }
  }


  /** What `create_table` makes of one block: the parsed table or the error it raises. */
  type Parser = string -> Result<TableValue, DdlError>

  /** `create_table` under a given thesaurus. */
  function TableParser(thesaurus: Option<Thesaurus>): Parser
  {
    (b: string) => ParseTable(b, thesaurus)
  }

  /** The `CREATE` half of `load`: one table per block, appended in order; a raise stops it. */
  function CreatePhase(ts: seq<TableValue>, blocks: seq<string>, parse: Parser): Loaded
    decreases |blocks|
  {
    if blocks == [] then Loaded(ts, None)
    else if !Contains(blocks[0], "TABLE") then CreatePhase(ts, blocks[1..], parse)
    else match parse(blocks[0])
      case Failure(e) => Loaded(ts, Some(e))
      case Success(t) => CreatePhase(ts + [t], blocks[1..], parse)
  }

  /** The `ALTER` half of `load`: every statement in order; a raise stops it. */
  function AlterPhase(ts: seq<TableValue>, blocks: seq<string>): Loaded
    decreases |blocks|
  {
    if blocks == [] then Loaded(ts, None)
    else if !Contains(blocks[0], "TABLE") then AlterPhase(ts, blocks[1..])
    else
      var r := AlterStatement(ts, blocks[0]);
      if r.failure.Some? then r else AlterPhase(r.tables, blocks[1..])
  }

  /** `load` over already-read text: every `CREATE` block first, then every `ALTER` block. */
  function LoadContent(ts: seq<TableValue>, content: string, thesaurus: Option<Thesaurus>): Loaded
  {
    var created := CreatePhase(ts, Blocks(content, "CREATE"), TableParser(thesaurus));
    if created.failure.Some? then created
    else AlterPhase(created.tables, Blocks(content, "ALTER"))
  }

  /** The `CREATE` phase keeps the tables it started with. */
  lemma {:induction false} CreatePhaseKeeps(ts: seq<TableValue>, blocks: seq<string>, parse: Parser)
    ensures |ts| <= |CreatePhase(ts, blocks, parse).tables|
    ensures CreatePhase(ts, blocks, parse).tables[..|ts|] == ts
    decreases |blocks|
  {
    if blocks != [] && Contains(blocks[0], "TABLE") && parse(blocks[0]).Success? {
      var t := parse(blocks[0]).value;
      CreatePhaseKeeps(ts + [t], blocks[1..], parse);
      var r := CreatePhase(ts + [t], blocks[1..], parse).tables;
      assert r[..|ts|] == r[..|ts| + 1][..|ts|];
    } else if blocks != [] && !Contains(blocks[0], "TABLE") {
      CreatePhaseKeeps(ts, blocks[1..], parse);
    }
  }

  /** When every `TABLE` block parses, the `CREATE` phase completes. */
  lemma {:induction false} CreatePhaseCompletes(ts: seq<TableValue>, blocks: seq<string>, parse: Parser)
    requires forall k :: 0 <= k < |TableBlocks(blocks)| ==> parse(TableBlocks(blocks)[k]).Success?
    ensures CreatePhase(ts, blocks, parse).failure.None?
    decreases |blocks|
  {
    if blocks != [] {
      var tb := TableBlocks(blocks);
      var rest := TableBlocks(blocks[1..]);
      if !Contains(blocks[0], "TABLE") {
        assert tb == rest;
        CreatePhaseCompletes(ts, blocks[1..], parse);
      } else {
        assert tb == [blocks[0]] + rest;
        assert parse(tb[0]).Success?;
        assert forall k :: 0 <= k < |rest| ==> rest[k] == tb[k + 1];
        CreatePhaseCompletes(ts + [parse(blocks[0]).value], blocks[1..], parse);
      }
    }
  }

  /** When it completes, the `CREATE` phase has appended, in source order and keeping repeated
      names, exactly the tables the `TABLE` blocks parse to (so every one of them parsed). */
  lemma {:induction false} CreatePhaseAppends(ts: seq<TableValue>, blocks: seq<string>, parse: Parser)
    requires CreatePhase(ts, blocks, parse).failure.None?
    ensures |CreatePhase(ts, blocks, parse).tables| == |ts| + |TableBlocks(blocks)|
    ensures forall k :: 0 <= k < |TableBlocks(blocks)| ==>
      parse(TableBlocks(blocks)[k]) == Success(CreatePhase(ts, blocks, parse).tables[|ts| + k])
    decreases |blocks|
  {
    if blocks != [] {
      var tb := TableBlocks(blocks);
      var rest := TableBlocks(blocks[1..]);
      if !Contains(blocks[0], "TABLE") {
        CreatePhaseAppends(ts, blocks[1..], parse);
        assert tb == rest;
      } else {
        assert tb == [blocks[0]] + rest;
        var t := parse(blocks[0]).value;
        var r := CreatePhase(ts + [t], blocks[1..], parse).tables;
        CreatePhaseAppends(ts + [t], blocks[1..], parse);
        CreatePhaseKeeps(ts + [t], blocks[1..], parse);
        assert r[|ts|] == (ts + [t])[|ts|];
        assert forall k :: 0 < k < |tb| ==> tb[k] == rest[k - 1];
      }
    }
  }

  /** A raising `CREATE` phase raises what the parser raised on some `TABLE` block. */
  lemma {:induction false} CreatePhaseFailure(ts: seq<TableValue>, blocks: seq<string>, parse: Parser)
    requires CreatePhase(ts, blocks, parse).failure.Some?
    ensures exists k :: (0 <= k < |TableBlocks(blocks)| &&
      parse(TableBlocks(blocks)[k]) == Failure(CreatePhase(ts, blocks, parse).failure.value))
    decreases |blocks|
  {
    var tb := TableBlocks(blocks);
    var rest := TableBlocks(blocks[1..]);
    if !Contains(blocks[0], "TABLE") {
      CreatePhaseFailure(ts, blocks[1..], parse);
      assert tb == rest;
    } else {
      assert tb == [blocks[0]] + rest;
      match parse(blocks[0])
      case Failure(e) =>
        assert parse(tb[0]) == Failure(e);
      case Success(t) =>
        CreatePhaseFailure(ts + [t], blocks[1..], parse);
        var k :| 0 <= k < |rest| && parse(rest[k]) == Failure(CreatePhase(ts, blocks, parse).failure.value);
        assert tb[k + 1] == rest[k];
    }
  }

  /** `create_table` raises only on a malformed table header. */
  lemma ParseTableFailure(block: string, thesaurus: Option<Thesaurus>)
    ensures ParseTable(block, thesaurus).Failure? ==> ParseTable(block, thesaurus).error.MalformedTableHeader?
  {
    CreateLinesFailure(EmptyTable, SplitOn(block, "\n"), thesaurus);
  }

  /** The `ALTER` phase never adds, removes, renames or reorders tables and never touches
      columns: it only appends keys. */
  lemma {:induction false} AlterPhaseKeepsShape(ts: seq<TableValue>, blocks: seq<string>)
    ensures AllKeysOnlyGrow(ts, AlterPhase(ts, blocks).tables)
    decreases |blocks|
  {
    if blocks != [] {
      if !Contains(blocks[0], "TABLE") {
        AlterPhaseKeepsShape(ts, blocks[1..]);
      } else {
        var r := AlterStatement(ts, blocks[0]);
        AlterClausesKeepShape(ts, AlterClausesOf(blocks[0]));
        if r.failure.None? {
          AlterPhaseKeepsShape(r.tables, blocks[1..]);
          var vs := AlterPhase(r.tables, blocks[1..]).tables;
          forall k | 0 <= k < |ts| ensures KeysOnlyGrow(ts[k], vs[k]) {
            PrefixTransitive(ts[k].primaryKeys, r.tables[k].primaryKeys, vs[k].primaryKeys);
            PrefixTransitive(ts[k].foreignKeys, r.tables[k].foreignKeys, vs[k].foreignKeys);
          }
        }
      }
    }
  }

  /** A clause raises for an unknown table only when no table of that name is loaded. */
  lemma {:induction false} AlterClausesUnknownTable(ts: seq<TableValue>, clauses: seq<string>, name: string)
    requires AlterClauses(ts, clauses).failure == Some(UnknownTable(name))
    ensures forall k :: 0 <= k < |ts| ==> ts[k].name != name
    decreases |clauses|
  {
    match AlterClause(ts, clauses[0])
    case Failure(e) =>
    case Success(us) =>
      AlterClausesUnknownTable(us, clauses[1..], name);
      AlterClauseTouchesFirstMatch(ts, clauses[0]);
  }

  lemma {:induction false} AlterPhaseUnknownTable(ts: seq<TableValue>, blocks: seq<string>, name: string)
    requires AlterPhase(ts, blocks).failure == Some(UnknownTable(name))
    ensures forall k :: 0 <= k < |ts| ==> ts[k].name != name
    decreases |blocks|
  {
    if !Contains(blocks[0], "TABLE") {
      AlterPhaseUnknownTable(ts, blocks[1..], name);
    } else {
      var r := AlterStatement(ts, blocks[0]);
      if r.failure.Some? {
        AlterClausesUnknownTable(ts, AlterClausesOf(blocks[0]), name);
      } else {
        AlterPhaseUnknownTable(r.tables, blocks[1..], name);
        AlterClausesKeepShape(ts, AlterClausesOf(blocks[0]));
      }
    }
  }

  /** A raising `load` raised in the `CREATE` phase, on a malformed table header, or in the
      `ALTER` phase, which left the created tables with keys appended only. */
  lemma LoadFailure(ts: seq<TableValue>, content: string, thesaurus: Option<Thesaurus>)
    requires LoadContent(ts, content, thesaurus).failure.Some?
    ensures var created := CreatePhase(ts, Blocks(content, "CREATE"), TableParser(thesaurus));
      || (created.failure.Some? && created.failure.value.MalformedTableHeader?)
      || (created.failure.None? && AllKeysOnlyGrow(created.tables, LoadContent(ts, content, thesaurus).tables))
  {
    var parse := TableParser(thesaurus);
    var creates := Blocks(content, "CREATE");
    var created := CreatePhase(ts, creates, parse);
    if created.failure.Some? {
      CreatePhaseFailure(ts, creates, parse);
      var k :| 0 <= k < |TableBlocks(creates)| && parse(TableBlocks(creates)[k]) == Failure(created.failure.value);
      ParseTableFailure(TableBlocks(creates)[k], thesaurus);
    } else {
      AlterPhaseKeepsShape(created.tables, Blocks(content, "ALTER"));
    }
  }

  /** Because every `CREATE` block runs before any `ALTER` block, an `ALTER` that names a table
      created anywhere in the text, before or after it, never raises for want of that table:
      `load` raises `UnknownTable(n)` only if no loaded or created table is called `n`. */
  lemma LoadUnknownTable(ts: seq<TableValue>, content: string, thesaurus: Option<Thesaurus>, name: string)
    requires LoadContent(ts, content, thesaurus).failure == Some(UnknownTable(name))
    ensures forall k :: 0 <= k < |ts| ==> ts[k].name != name
    ensures forall k :: 0 <= k < |TableBlocks(Blocks(content, "CREATE"))| ==>
      ParseTable(TableBlocks(Blocks(content, "CREATE"))[k], thesaurus).Success? &&
      ParseTable(TableBlocks(Blocks(content, "CREATE"))[k], thesaurus).value.name != name
  {
    var parse := TableParser(thesaurus);
    var creates := Blocks(content, "CREATE");
    var created := CreatePhase(ts, creates, parse);
    LoadFailure(ts, content, thesaurus);
    assert created.failure.None?;
    AlterPhaseUnknownTable(created.tables, Blocks(content, "ALTER"), name);
    CreatePhaseKeeps(ts, creates, parse);
    forall k | 0 <= k < |ts| ensures ts[k].name != name {
      assert created.tables[k] == created.tables[..|ts|][k];
    }
    CreatePhaseAppends(ts, creates, parse);
    var tb := TableBlocks(creates);
    forall k | 0 <= k < |tb|
      ensures ParseTable(tb[k], thesaurus).Success? && ParseTable(tb[k], thesaurus).value.name != name
    {
      assert parse(tb[k]) == ParseTable(tb[k], thesaurus);
      assert created.tables[|ts| + k].name != name;
    }
  }

  /** What `load` leaves when it completes: the tables it started with, then one table per
      `TABLE` block of the `CREATE` split, in source order, each as parsed but for keys the
      `ALTER` statements appended. */
  lemma LoadShape(ts: seq<TableValue>, content: string, thesaurus: Option<Thesaurus>)
    requires LoadContent(ts, content, thesaurus).failure.None?
    ensures var r := LoadContent(ts, content, thesaurus).tables;
      var creates := TableBlocks(Blocks(content, "CREATE"));
      && |r| == |ts| + |creates|
      && (forall k :: 0 <= k < |ts| ==> KeysOnlyGrow(ts[k], r[k]))
      && (forall k :: 0 <= k < |creates| ==>
            ParseTable(creates[k], thesaurus).Success? &&
            KeysOnlyGrow(ParseTable(creates[k], thesaurus).value, r[|ts| + k]))
  {
    var parse := TableParser(thesaurus);
    var creates := Blocks(content, "CREATE");
    var created := CreatePhase(ts, creates, parse);
    CreatePhaseAppends(ts, creates, parse);
    CreatePhaseKeeps(ts, creates, parse);
    AlterPhaseKeepsShape(created.tables, Blocks(content, "ALTER"));
    forall k | 0 <= k < |ts| ensures created.tables[k] == ts[k] {
      assert created.tables[k] == created.tables[..|ts|][k];
    }
    var tb := TableBlocks(creates);
    forall k | 0 <= k < |tb| ensures ParseTable(tb[k], thesaurus) == Success(created.tables[|ts| + k]) {
      assert parse(tb[k]) == ParseTable(tb[k], thesaurus);
    }
  }
}
