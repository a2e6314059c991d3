/** Placeholder counts of the fixed SQL text the repository writes around names and values. */
module SqlKeywords {
  import opened Text

  /** A text without `?` counts no placeholder. */
  lemma Unmarked(s: string)
    requires '?' !in s
    ensures CountChar(s, '?') == 0
  {
    CountCharZero(s, '?');
  }

  /** The fixed text of the INSERT holds no `?`. */
  lemma InsertKeywordsHaveNoPlaceholder()
    ensures CountChar("INSERT INTO ", '?') == 0 && CountChar(" (", '?') == 0
    ensures CountChar(") VALUES (", '?') == 0 && CountChar(")", '?') == 0
  {
    InsertIntoHasNoPlaceholder();
    ValuesHasNoPlaceholder();
  }

  lemma InsertIntoHasNoPlaceholder()
    ensures CountChar("INSERT INTO ", '?') == 0
  {
    Unmarked("INSERT INTO ");
  }

  lemma ValuesHasNoPlaceholder()
    ensures CountChar(") VALUES (", '?') == 0
  {
    Unmarked(") VALUES (");
  }

  /** The fixed head of a SELECT holds no `?`. */
  lemma SelectHasNoPlaceholder()
    ensures CountChar("SELECT * FROM ", '?') == 0
  {
    Unmarked("SELECT * FROM ");
  }

  /** The `WHERE` keyword text holds no `?`. */
  lemma WhereHasNoPlaceholder()
    ensures CountChar(" WHERE ", '?') == 0
  {
    Unmarked(" WHERE ");
  }

  /** A condition's fixed text holds one `?`. */
  lemma ConditionHasOnePlaceholder()
    ensures CountChar(" FROM ", '?') == 0
    ensures CountChar(" = ?", '?') == 1
  {
  }
}

/**
 * The SQLite-backed repository, reduced to what it decides itself: the query
 * text and parameters it builds for each operation, and how it maps the
 * backend's answer (or error) to its return value. Executing SQL is the
 * backend's business, given as a function from statement to outcome.
 */
module SqlRepository {
  import opened Wrappers
  import opened Json
  import opened Text
  import SqlKeywords

  /** A query text with the parameters bound to its `?` placeholders, as handed to `cursor.execute`. */
  datatype Statement = Statement(text: string, params: seq<Json>)

  /** One result row (a tuple). */
  type Row = seq<Json>

  /** What executing a statement gives: an `sqlite3.Error`, or the cursor afterwards. */
  datatype Execution = SqlError | Executed(rows: seq<Row>, rowcount: int, lastrowid: Option<int>)

  /** The database: runs one statement (committing or rolling back as the repository asks). */
  type Backend = Statement -> Execution

  /** An ordered dict of column name to value. */
  type Columns = seq<(string, Json)>

  function Names(cols: Columns): (r: seq<string>)
    ensures |r| == |cols| && forall i :: 0 <= i < |cols| ==> r[i] == cols[i].0
  {
    if |cols| == 0 then [] else [cols[0].0] + Names(cols[1..])
  }

  function ValuesOf(cols: Columns): (r: seq<Json>)
    ensures |r| == |cols| && forall i :: 0 <= i < |cols| ==> r[i] == cols[i].1
  {
    if |cols| == 0 then [] else [cols[0].1] + ValuesOf(cols[1..])
  }

  /** `[s] * n`. */
  function Repeat(s: string, n: nat): (r: seq<string>)
    ensures |r| == n && forall i :: 0 <= i < n ==> r[i] == s
  {
    if n == 0 then [] else [s] + Repeat(s, n - 1)
  }

  /** `f"{table}"` where `table = data.get('table')`: a missing table renders as `None`. */
  function TableText(table: Option<string>): string {
    table.GetOr("None")
  }

  /** Neither the names nor the table text contain a `?`, so every `?` of a query is a placeholder. */
  predicate NoPlaceholderIn(names: seq<string>) {
    forall i :: 0 <= i < |names| ==> '?' !in names[i]
  }

  /** The INSERT of `save`: the columns joined by `, `, one `?` per value, the values in column order. */
  function InsertStatement(table: Option<string>, values: Columns): (st: Statement)
    ensures "INSERT INTO " <= st.text
    ensures st.params == ValuesOf(values)
  {
    Statement("INSERT INTO " + TableText(table) + " (" + Join(Names(values), ", ") + ") VALUES ("
                + Join(Repeat("?", |values|), ", ") + ")",
              ValuesOf(values))
  }

  /** A column name the INSERT can be read back by: non-empty, not starting with a space, free of `,` and `)`. */
  predicate PlainColumn(n: string) {
    |n| > 0 && n[0] != ' ' && ',' !in n && ')' !in n
  }

  /**
   * Reads a column list back from the text that follows `INSERT INTO <table> (`: the text up to
   * the first `)`, split at `,`, each piece without its leading spaces.
   */
  function ColumnsOf(rest: string): seq<string> {
    var section := Split(rest, ')')[0];
    if section == "" then [] else Unspaced(Split(section, ','))
  }

  /** Every piece without its leading spaces. */
  function Unspaced(pieces: seq<string>): (r: seq<string>)
    ensures |r| == |pieces| && forall i :: 0 <= i < |pieces| ==> r[i] == LStrip(pieces[i], ' ')
  {
    seq(|pieces|, i requires 0 <= i < |pieces| => LStrip(pieces[i], ' '))
  }

  /** Plain names, all but the first behind one space, lose exactly those spaces. */
  lemma UnspacedNames(names: seq<string>)
    requires |names| > 0
    requires forall i :: 0 <= i < |names| ==> PlainColumn(names[i])
    ensures Unspaced([names[0]] + PrefixEach(names[1..], " ")) == names
  {
    var pieces := [names[0]] + PrefixEach(names[1..], " ");
    var r := Unspaced(pieces);
    forall i | 0 <= i < |names| ensures r[i] == names[i] {
      if i == 0 {
        LStripOne(names[0], ' ');
      } else {
        assert pieces[i] == [' '] + names[i];
        LStripOne(names[i], ' ');
      }
    }
  }

  /** The text before the first `)` of a closed column list is the list itself. */
  lemma ColumnSection(names: seq<string>, tail: string)
    requires forall i :: 0 <= i < |names| ==> PlainColumn(names[i])
    ensures Split(Join(names, ", ") + [')'] + tail, ')')[0] == Join(names, ", ")
  {
    JoinLacks(names, ", ", ')');
    SplitPrefixed(Join(names, ", "), tail, ')');
  }

  /** A non-empty `", "`-joined list of plain names splits at `,` into the names, each but the first behind a space. */
  lemma ColumnPieces(names: seq<string>)
    requires |names| > 0
    requires forall i :: 0 <= i < |names| ==> PlainColumn(names[i])
    ensures Join(names, ", ") != ""
    ensures Split(Join(names, ", "), ',') == [names[0]] + PrefixEach(names[1..], " ")
  {
    JoinStartsWith(names, ", ");
    assert ", " == [',', ' '];
    SplitSeparatorPair(names, ',', ' ');
  }

  /** A `", "`-joined list of plain names, closed by `)`, reads back as those names. */
  lemma ColumnListReadBack(names: seq<string>, tail: string)
    requires forall i :: 0 <= i < |names| ==> PlainColumn(names[i])
    ensures ColumnsOf(Join(names, ", ") + [')'] + tail) == names
  {
    ColumnSection(names, tail);
    if |names| > 0 {
      ColumnPieces(names);
      UnspacedNames(names);
    } else {
      assert Join(names, ", ") == "";
    }
  }

  /**
   * The INSERT names the columns of `values` in order and binds the values in the same order:
   * reading the column list back from the text gives the keys, so column `i` and parameter `i`
   * come from the same entry.
   */
  lemma InsertColumnsReadBack(table: Option<string>, values: Columns)
    requires forall i :: 0 <= i < |values| ==> PlainColumn(values[i].0)
    ensures var st := InsertStatement(table, values);
      var head := "INSERT INTO " + TableText(table) + " (";
      && head <= st.text
      && var cols := ColumnsOf(st.text[|head|..]);
      && |cols| == |st.params| == |values|
      && forall i :: 0 <= i < |values| ==> cols[i] == values[i].0 && st.params[i] == values[i].1
  {
    ClosedListReadBack("INSERT INTO " + TableText(table) + " (", Names(values), ") VALUES (",
                       Join(Repeat("?", |values|), ", "), ")", " VALUES (");
  }

  /** Concatenation regrouped around a `)` that starts the third piece. */
  lemma Regroup(h: string, j: string, v: string, p: string, z: string, w: string)
    requires v == [')'] + w
    ensures h + j + v + p + z == h + (j + [')'] + (w + p + z))
  {
  }

  /** Behind any head, a column list followed by a piece that starts with `)` reads back as its names. */
  lemma ClosedListReadBack(h: string, names: seq<string>, v: string, p: string, z: string, w: string)
    requires forall i :: 0 <= i < |names| ==> PlainColumn(names[i])
    requires v == [')'] + w
    ensures var text := h + Join(names, ", ") + v + p + z;
      h <= text && ColumnsOf(text[|h|..]) == names
  {
    var j := Join(names, ", ");
    var text := h + j + v + p + z;
    var rest := j + [')'] + (w + p + z);
    Regroup(h, j, v, p, z, w);
    assert text[|h|..] == rest;
    ColumnListReadBack(names, w + p + z);
  }

  /** `save(data)`: the new row's id, or `None` when the backend fails (after a rollback). */
  function Save(table: Option<string>, values: Columns, db: Backend): (r: Option<int>)
    ensures db(InsertStatement(table, values)).SqlError? ==> r == None
    ensures db(InsertStatement(table, values)).Executed? ==> r == db(InsertStatement(table, values)).lastrowid
  {
    match db(InsertStatement(table, values))
    case SqlError => None
    case Executed(_, _, rowid) => rowid
  }

  /** The keyed statement shared by `load` and `delete`: `<verb> FROM t WHERE key = ?` with the one value. */
  function KeyedStatement(verb: string, table: string, key: string, value: Json): (st: Statement)
    ensures st.params == [value]
    ensures verb <= st.text
  {
    Statement(verb + " FROM " + table + " WHERE " + key + " = ?", [value])
  }

  /** The keyed statement's text: the verb, one space, then the fixed words with the table and key between them. */
  lemma KeyedText(verb: string, table: string, key: string, value: Json)
    ensures KeyedStatement(verb, table, key, value).text
      == verb + [' '] + ("FROM" + [' '] + (table + [' '] + ("WHERE" + [' '] + (key + [' '] + ("=" + [' '] + "?")))))
  {
    KeyedRegroup(verb, table, key, " FROM ", " WHERE ", " = ?", "FROM", "WHERE", "=", "?");
  }

  /** Concatenation regrouped word by word, with the spaces of the fixed pieces made explicit. */
  lemma KeyedRegroup(verb: string, table: string, key: string, f: string, w: string, q: string,
                     fw: string, ww: string, ew: string, qw: string)
    requires f == [' '] + fw + [' '] && w == [' '] + ww + [' '] && q == [' '] + ew + [' '] + qw
    ensures verb + f + table + w + key + q
      == verb + [' '] + (fw + [' '] + (table + [' '] + (ww + [' '] + (key + [' '] + (ew + [' '] + qw)))))
  {
  }

  /** None of the keyed statement's fixed words holds a space. */
  lemma KeyedWordsUnspaced()
    ensures ' ' !in "FROM" && ' ' !in "WHERE" && ' ' !in "=" && ' ' !in "?"
  {
  }

  /**
   * After the verb and one space, the keyed statement reads as the words
   * `FROM <table> WHERE <key> = ?`: the table follows `FROM` and the key column follows `WHERE`,
   * and the one parameter is the value.
   */
  lemma KeyedStatementWords(verb: string, table: string, key: string, value: Json)
    requires ' ' !in table && ' ' !in key
    ensures var st := KeyedStatement(verb, table, key, value);
      && |verb| < |st.text| && st.text[..|verb| + 1] == verb + " "
      && Split(st.text[|verb| + 1..], ' ') == ["FROM", table, "WHERE", key, "=", "?"]
      && st.params == [value]
  {
    var tail := "FROM" + [' '] + (table + [' '] + ("WHERE" + [' '] + (key + [' '] + ("=" + [' '] + "?"))));
    var text := KeyedStatement(verb, table, key, value).text;
    KeyedText(verb, table, key, value);
    assert text[..|verb| + 1] == verb + [' '];
    assert text[|verb| + 1..] == tail;
    KeyedWordsUnspaced();
    SplitSixWords("FROM", table, "WHERE", key, "=", "?", ' ');
  }

  /** `load(identifier)`: the first matching row, or `None` when there is none or the backend fails. */
  function Load(table: string, key: string, value: Json, db: Backend): (r: Option<Row>)
    ensures var ex := db(KeyedStatement("SELECT *", table, key, value));
      r.Some? <==> ex.Executed? && |ex.rows| > 0
    ensures r.Some? ==> r.value == db(KeyedStatement("SELECT *", table, key, value)).rows[0]
  {
    match db(KeyedStatement("SELECT *", table, key, value))
    case SqlError => None
    case Executed(rows, _, _) => if |rows| > 0 then Some(rows[0]) else None
  }

  /** `delete(identifier)`: true exactly when the backend ran the DELETE and it removed a row. */
  function Delete(table: string, key: string, value: Json, db: Backend): (r: bool)
    ensures var ex := db(KeyedStatement("DELETE", table, key, value));
      r <==> ex.Executed? && ex.rowcount > 0
  {
    match db(KeyedStatement("DELETE", table, key, value))
    case SqlError => false
    case Executed(_, count, _) => count > 0
  }

  function SelectAllStatement(table: string): (st: Statement)
    ensures st.params == []
    ensures |st.text| >= |table| && st.text[|st.text| - |table|..] == table
    ensures st.text[..|st.text| - |table|] == "SELECT * FROM "
  {
    Statement("SELECT * FROM " + table, [])
  }

  /** `get_all(table)`: every row, or `[]` when the backend fails. */
  function GetAll(table: string, db: Backend): (r: seq<Row>)
    ensures db(SelectAllStatement(table)).SqlError? ==> r == []
    ensures db(SelectAllStatement(table)).Executed? ==> r == db(SelectAllStatement(table)).rows
  {
    match db(SelectAllStatement(table))
    case SqlError => []
    case Executed(rows, _, _) => rows
  }

  /** `k = ?` for each condition, joined by ` AND `. */
  function WhereClause(conditions: Columns): string {
    Join(Conditions(Names(conditions)), " AND ")
  }

  function Conditions(names: seq<string>): (r: seq<string>)
    ensures |r| == |names| && forall i :: 0 <= i < |names| ==> r[i] == names[i] + " = ?"
  {
    if |names| == 0 then [] else [names[0] + " = ?"] + Conditions(names[1..])
  }

  /** The SELECT `find_by` builds as written: `WHERE` followed by the clause, even when the clause is empty. */
  function FindByStatementAsWritten(table: string, conditions: Columns): (st: Statement)
    ensures st.params == ValuesOf(conditions)
    ensures |conditions| == 0 ==> st.text == "SELECT * FROM " + table + " WHERE "
  {
    Statement("SELECT * FROM " + table + " WHERE " + WhereClause(conditions), ValuesOf(conditions))
  }

  /** The SELECT `find_by` should build: no `WHERE` at all when there are no conditions. */
  function FindByStatement(table: string, conditions: Columns): (st: Statement)
    ensures |conditions| == 0 ==> st == SelectAllStatement(table)
    ensures |conditions| > 0 ==> st == FindByStatementAsWritten(table, conditions)
  {
    if |conditions| == 0 then SelectAllStatement(table) else FindByStatementAsWritten(table, conditions)
  }

  /** `find_by(criteria)` as written: the matching rows, or `[]` when the backend fails. */
  function FindByAsWritten(table: string, conditions: Columns, db: Backend): (r: seq<Row>)
    ensures db(FindByStatementAsWritten(table, conditions)).SqlError? ==> r == []
    ensures db(FindByStatementAsWritten(table, conditions)).Executed? ==>
      r == db(FindByStatementAsWritten(table, conditions)).rows
  {
    match db(FindByStatementAsWritten(table, conditions))
    case SqlError => []
    case Executed(rows, _, _) => rows
  }

  /** `find_by(criteria)` with the empty-conditions case mended: no conditions select every row. */
  function FindBy(table: string, conditions: Columns, db: Backend): (r: seq<Row>)
    ensures db(FindByStatement(table, conditions)).SqlError? ==> r == []
    ensures db(FindByStatement(table, conditions)).Executed? ==> r == db(FindByStatement(table, conditions)).rows
  {
    match db(FindByStatement(table, conditions))
    case SqlError => []
    case Executed(rows, _, _) => rows
  }

  // ---------------------------------------------------------------------
  // Properties of the statements

  /** The INSERT has exactly one `?` per value, so the placeholders and the bound values line up. */
  lemma InsertPlaceholdersMatchValues(table: Option<string>, values: Columns)
    requires '?' !in TableText(table) && NoPlaceholderIn(Names(values))
    ensures CountChar(InsertStatement(table, values).text, '?') == |InsertStatement(table, values).params| == |values|
  {
    CountCharZero(TableText(table), '?');
    forall i | 0 <= i < |values| ensures CountChar(Names(values)[i], '?') == 0 {
      CountCharZero(Names(values)[i], '?');
    }
    CountJoinUniform(Names(values), ", ", '?', 0);
    CountJoinUniform(Repeat("?", |values|), ", ", '?', 1);
    InsertTextCount(TableText(table), Join(Names(values), ", "), Join(Repeat("?", |values|), ", "));
  }

  /** The INSERT text has the `?`s of its table, columns and placeholder list, and no others. */
  lemma InsertTextCount(t: string, cols: string, marks: string)
    ensures CountChar("INSERT INTO " + t + " (" + cols + ") VALUES (" + marks + ")", '?')
         == CountChar(t, '?') + CountChar(cols, '?') + CountChar(marks, '?')
  {
    SqlKeywords.InsertKeywordsHaveNoPlaceholder();
    var t1 := "INSERT INTO " + t;
    CountCharAppend("INSERT INTO ", t, '?');
    var t2 := t1 + " (";
    CountCharAppend(t1, " (", '?');
    var t3 := t2 + cols;
    CountCharAppend(t2, cols, '?');
    var t4 := t3 + ") VALUES (";
    CountCharAppend(t3, ") VALUES (", '?');
    var t5 := t4 + marks;
    CountCharAppend(t4, marks, '?');
    CountCharAppend(t5, ")", '?');
  }

  /** `load` and `delete` bind exactly one value to exactly one `?`. */
  lemma KeyedStatementOnePlaceholder(verb: string, table: string, key: string, value: Json)
    requires '?' !in verb && '?' !in table && '?' !in key
    ensures CountChar(KeyedStatement(verb, table, key, value).text, '?') == 1
    ensures KeyedStatement(verb, table, key, value).params == [value]
  {
    CountCharZero(verb, '?');
    CountCharZero(table, '?');
    CountCharZero(key, '?');
    SqlKeywords.ConditionHasOnePlaceholder();
    SqlKeywords.WhereHasNoPlaceholder();
    CountCharAppend(verb, " FROM ", '?');
    CountCharAppend(verb + " FROM ", table, '?');
    CountCharAppend(verb + " FROM " + table, " WHERE ", '?');
    CountCharAppend(verb + " FROM " + table + " WHERE ", key, '?');
    CountCharAppend(verb + " FROM " + table + " WHERE " + key, " = ?", '?');
  }

  /** The WHERE clause holds one `?` per condition. */
  lemma WhereClausePlaceholders(conditions: Columns)
    requires NoPlaceholderIn(Names(conditions))
    ensures CountChar(WhereClause(conditions), '?') == |conditions|
  {
    JoinedConditionsPlaceholders(Names(conditions));
  }

  /** The conditions for `?`-free names, joined by `AND`, hold one `?` per name. */
  lemma JoinedConditionsPlaceholders(names: seq<string>)
    requires NoPlaceholderIn(names)
    ensures CountChar(Join(Conditions(names), " AND "), '?') == |names|
  {
    ConditionsPlaceholders(names);
    AndJoinPlaceholders(Conditions(names));
  }

  /** Every condition built from a `?`-free name holds one `?`. */
  lemma ConditionsPlaceholders(names: seq<string>)
    requires NoPlaceholderIn(names)
    ensures forall i :: 0 <= i < |names| ==> CountChar(Conditions(names)[i], '?') == 1
  {
    var parts := Conditions(names);
    forall i | 0 <= i < |parts| ensures CountChar(parts[i], '?') == 1 {
      ConditionPlaceholder(names[i]);
    }
  }

  /** Joining with `AND` adds no `?`: one per part when each part holds one. */
  lemma AndJoinPlaceholders(parts: seq<string>)
    requires forall i :: 0 <= i < |parts| ==> CountChar(parts[i], '?') == 1
    ensures CountChar(Join(parts, " AND "), '?') == |parts|
  {
    assert '?' !in " AND ";
    CountJoinUniform(parts, " AND ", '?', 1);
  }

  /** One condition `name = ?` holds one `?`. */
  lemma ConditionPlaceholder(name: string)
    requires '?' !in name
    ensures CountChar(name + " = ?", '?') == 1
  {
    SqlKeywords.ConditionHasOnePlaceholder();
    CountCharZero(name, '?');
    CountCharAppend(name, " = ?", '?');
  }

  /** The `find_by` statement has one `k = ?` per condition and binds the condition values in the same order. */
  lemma FindByPlaceholdersMatchConditions(table: string, conditions: Columns)
    requires '?' !in table && NoPlaceholderIn(Names(conditions))
    ensures CountChar(FindByStatement(table, conditions).text, '?') == |FindByStatement(table, conditions).params| == |conditions|
    ensures FindByStatement(table, conditions).params == ValuesOf(conditions)
  {
    CountCharZero(table, '?');
    SqlKeywords.SelectHasNoPlaceholder();
    var t1 := "SELECT * FROM " + table;
    CountCharAppend("SELECT * FROM ", table, '?');
    if |conditions| > 0 {
      var w := WhereClause(conditions);
      WhereClausePlaceholders(conditions);
      SqlKeywords.WhereHasNoPlaceholder();
      CountCharAppend(t1, " WHERE ", '?');
      CountCharAppend(t1 + " WHERE ", w, '?');
      assert FindByStatement(table, conditions).text == t1 + " WHERE " + w;
    }
  }

  /** A backend that refuses a query ending in a bare `WHERE`, as SQLite does with an incomplete-input syntax error. */
  predicate RejectsDanglingWhere(db: Backend, table: string) {
    db(Statement("SELECT * FROM " + table + " WHERE ", [])).SqlError?
  }

  /** As written, `find_by` with no conditions ends its query in a bare `WHERE`, and on such a backend finds nothing. */
  lemma FindByEmptyAsWrittenFindsNothing(table: string, db: Backend)
    requires RejectsDanglingWhere(db, table)
    ensures var text := FindByStatementAsWritten(table, []).text;
      " WHERE " <= text[|text| - 7..]
    ensures FindByAsWritten(table, [], db) == []
  {
    assert WhereClause([]) == "";
    assert FindByStatementAsWritten(table, []) == Statement("SELECT * FROM " + table + " WHERE ", []);
  }

  /** Mended, `find_by` with no conditions is `get_all`. */
  lemma FindByEmptyIsGetAll(table: string, db: Backend)
    ensures FindBy(table, [], db) == GetAll(table, db)
  {
  }

  /** With conditions, the mended `find_by` sends exactly the statement written in the source. */
  lemma FindByAgreesWithSourceOnConditions(table: string, conditions: Columns, db: Backend)
    requires |conditions| > 0
    ensures FindBy(table, conditions, db) == FindByAsWritten(table, conditions, db)
  {
  }
}
