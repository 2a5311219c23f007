/** The loading half of `main`: for every chunk of every downloaded file the
    rows are written through one prepared INSERT, and the very first chunk
    also provisions the table. The database session is modelled as the log
    of commands sent to it; the chunks, their column names and the schema
    text pandas derives from them are inputs. */
module Driver {
  import opened Wrappers
  import opened Text

  /** One chunk of a CSV file, as `pd.read_csv(..., chunksize=...)` yields it. */
  datatype Batch = Batch(
    columns: seq<string>,      // `df.columns`, in order
    schema: string,            // `sql.get_schema(df, name=TABLE_NAME)`
    rows: seq<seq<string>>)    // `r.values` of each row, in order

  /** A command sent to the database session. */
  datatype Command =
    | Execute(cql: string)                                   // `session.execute`
    | Prepare(cql: string)                                   // `session.prepare`
    | ExecuteConcurrent(statement: string, rows: seq<seq<string>>)  // the prepared INSERT, one row per parameter list

  /** The column types pandas writes, renamed for CQL. */
  function Retyped(schema: string): string {
    ReplaceAll(ReplaceAll(schema, "REAL", "FLOAT"), "INTEGER", "INT")
  }

  /** The key column that closes the `CREATE TABLE` text. */
  const KeyClause: string := ", id UUID PRIMARY KEY\n)"

  /** `table_definition`: the three successive `replace` passes. */
  function TableDefinition(schema: string): string {
    ReplaceAll(Retyped(schema), ")", KeyClause)
  }

  /** `get_schema` closes its column list with the only `)` of the text;
      the definition is then the retyped columns with the key column added
      before that parenthesis. */
  lemma TableDefinitionAppendsKey(body: string)
    requires ')' !in body
    ensures TableDefinition(body + ")") == Retyped(body) + KeyClause
  {
    var once := ReplaceAll(body, "REAL", "FLOAT");
    ReplaceAllSnoc(body, "REAL", "FLOAT", ')');
    ReplaceAllSnoc(once, "INTEGER", "INT", ')');
    ReplaceAllExcludes(body, "REAL", "FLOAT", ')');
    ReplaceAllExcludes(once, "INTEGER", "INT", ')');
    assert ")" == [')'];
    ReplaceLastChar(Retyped(body), ')', KeyClause);
  }

  /** Without a closing parenthesis no key column is added at all. */
  lemma TableDefinitionWithoutParen(schema: string)
    requires ')' !in schema
    ensures TableDefinition(schema) == Retyped(schema)
    ensures ')' !in TableDefinition(schema)
  {
    var once := ReplaceAll(schema, "REAL", "FLOAT");
    ReplaceAllExcludes(schema, "REAL", "FLOAT", ')');
    ReplaceAllExcludes(once, "INTEGER", "INT", ')');
    ReplaceAbsent(Retyped(schema), ')', KeyClause);
  }

  /** Replacing a character that does not occur changes nothing. */
  lemma {:induction false} ReplaceAbsent(s: string, p: char, rep: string)
    requires p !in s
    ensures ReplaceAll(s, [p], rep) == s
    decreases |s|
  {
    if s != [] {
      assert s[..1] == [s[0]];
      ReplaceAbsent(s[1..], p, rep);
      assert s == [s[0]] + s[1..];
    }
  }

  /** `f'"{c}"'` for each column. */
  function Quoted(columns: seq<string>): (quoted: seq<string>)
    ensures |quoted| == |columns|
  {
    seq(|columns|, i requires 0 <= i < |columns| => "\"" + columns[i] + "\"")
  }

  /** `['?'] * n`. */
  function Marks(n: nat): (marks: seq<string>)
    ensures |marks| == n
  {
    seq(n, i => "?")
  }

  /** `query_parameterized`: the head naming the table, the column list
      and the value list. */
  function InsertQuery(table: string, columns: seq<string>): string {
    InsertHead(table) + ColumnList(columns) + ValueList(|columns|)
  }

  function InsertHead(table: string): string {
    "INSERT INTO " + table + " (\n"
  }

  function ColumnList(columns: seq<string>): string {
    Join(Quoted(columns), "\n, ") + "\n, \"id\"\n) VALUES "
  }

  function ValueList(n: nat): string {
    "(\n" + Join(Marks(n), ", ") + ", uuid()\n)"
  }

  /** With one or more columns, the column list is the quoted columns in
      order followed by `"id"`. */
  lemma ColumnListShape(columns: seq<string>)
    requires |columns| >= 1
    ensures ColumnList(columns) == Join(Quoted(columns + ["id"]), "\n, ") + "\n) VALUES "
  {
    var q := Quoted(columns);
    assert "\"" + "id" + "\"" == "\"id\"";
    assert Quoted(columns + ["id"])[|columns|] == "\"id\"";
    assert Quoted(columns + ["id"]) == q + ["\"id\""];
    JoinSnoc(q, "\n, ", "\"id\"");
    var j := Join(q, "\n, ");
    assert "\n, \"id\"\n) VALUES " == "\n, " + "\"id\"" + "\n) VALUES ";
    Associative(j, "\n, ", "\"id\"");
    Associative(j, "\n, " + "\"id\"", "\n) VALUES ");
  }

  /** With one or more columns, the value list is one `?` per column
      followed by `uuid()`. */
  lemma ValueListShape(n: nat)
    requires n >= 1
    ensures ValueList(n) == "(\n" + Join(Marks(n) + ["uuid()"], ", ") + "\n)"
  {
    JoinSnoc(Marks(n), ", ", "uuid()");
    var j := Join(Marks(n), ", ");
    assert ", uuid()\n)" == ", " + "uuid()" + "\n)";
    Associative("(\n" + j, ", ", "uuid()");
    Associative("(\n" + j, ", " + "uuid()", "\n)");
  }

  /** The statement has exactly one bind marker per column, provided the
      table and column names hold no `?`. */
  lemma InsertQueryMarks(table: string, columns: seq<string>)
    requires '?' !in table
    requires forall i :: 0 <= i < |columns| ==> '?' !in columns[i]
    ensures CountChar(InsertQuery(table, columns), '?') == |columns|
  {
    HeadMarks(table);
    ColumnListMarks(columns);
    ValueListMarks(|columns|);
    CountCharConcat(InsertHead(table), ColumnList(columns), '?');
    CountCharConcat(InsertHead(table) + ColumnList(columns), ValueList(|columns|), '?');
  }

  lemma HeadMarks(table: string)
    requires '?' !in table
    ensures CountChar(InsertHead(table), '?') == 0
  {
    CountCharAbsent(InsertHead(table), '?');
  }

  lemma ColumnListMarks(columns: seq<string>)
    requires forall i :: 0 <= i < |columns| ==> '?' !in columns[i]
    ensures CountChar(ColumnList(columns), '?') == 0
  {
    var q := Quoted(columns);
    assert forall i :: 0 <= i < |q| ==> '?' !in q[i];
    JoinExcludes(q, "\n, ", '?');
    CountCharAbsent(ColumnList(columns), '?');
  }

  lemma ValueListMarks(n: nat)
    ensures CountChar(ValueList(n), '?') == n
  {
    MarksCount(n);
    assert '?' !in "(\n" && '?' !in ", uuid()\n)";
    CountCharAround("(\n", Join(Marks(n), ", "), ", uuid()\n)", '?');
  }

  /** `', '.join(['?'] * n)` holds `n` question marks. */
  lemma {:induction false} MarksCount(n: nat)
    ensures CountChar(Join(Marks(n), ", "), '?') == n
  {
    if n == 1 {
      assert Join(Marks(1), ", ") == "?";
    } else if n > 1 {
      MarksCount(n - 1);
      assert Marks(n) == Marks(n - 1) + ["?"];
      JoinSnoc(Marks(n - 1), ", ", "?");
      var j := Join(Marks(n - 1), ", ");
      CountCharConcat(j + ", ", "?", '?');
      CountCharConcat(j, ", ", '?');
      CountCharAbsent(", ", '?');
    }
  }

  /** The first chunk's provisioning: drop the table, create it from the
      chunk's schema, prepare the INSERT for its columns. */
  function Provisioning(table: string, first: Batch): seq<Command> {
    [Execute("DROP TABLE IF EXISTS " + table),
     Execute(TableDefinition(first.schema)),
     Prepare(InsertQuery(table, first.columns))]
  }

  /** The chunks of all files, file by file, in order. */
  function Flatten(files: seq<seq<Batch>>): seq<Batch> {
    if files == [] then [] else Flatten(files[..|files| - 1]) + files[|files| - 1]
  }

  /** The prepared statement after the chunks `batches`, starting from
      `prepared`: the first chunk prepares one if none is. */
  function PreparedAfter(table: string, prepared: Option<string>, batches: seq<Batch>): Option<string> {
    if prepared.Some? || batches == [] then prepared else Some(InsertQuery(table, batches[0].columns))
  }

  /** The commands the loop body sends for one chunk. */
  function ChunkLog(table: string, prepared: Option<string>, batch: Batch): seq<Command> {
    if prepared.None? then
      Provisioning(table, batch) + [ExecuteConcurrent(InsertQuery(table, batch.columns), batch.rows)]
    else
      [ExecuteConcurrent(prepared.value, batch.rows)]
  }

  /** The commands the loop sends for the chunks `batches`, one chunk after
      the other. */
  function ChunksLog(table: string, prepared: Option<string>, batches: seq<Batch>): seq<Command> {
    if batches == [] then []
    else
      var front := batches[..|batches| - 1];
      ChunksLog(table, prepared, front) + ChunkLog(table, PreparedAfter(table, prepared, front), batches[|batches| - 1])
  }

  /** One write per chunk, all through `statement`. */
  function Writes(statement: string, batches: seq<Batch>): (log: seq<Command>)
    ensures |log| == |batches|
  {
    seq(|batches|, i requires 0 <= i < |batches| => ExecuteConcurrent(statement, batches[i].rows))
  }

  /** The reference form of a run from a fresh latch: nothing without
      chunks; otherwise the first chunk's provisioning, then one write per
      chunk through the INSERT prepared for the first chunk's columns. */
  function RunLog(table: string, batches: seq<Batch>): seq<Command> {
    if batches == [] then []
    else Provisioning(table, batches[0]) + Writes(InsertQuery(table, batches[0].columns), batches)
  }

  /** The chunk-by-chunk loop from a fresh latch sends exactly the
      reference log. */
  lemma {:induction false} ChunksLogFresh(table: string, batches: seq<Batch>)
    ensures ChunksLog(table, None, batches) == RunLog(table, batches)
  {
    if |batches| == 1 {
      assert batches[..0] == [];
      assert Writes(InsertQuery(table, batches[0].columns), batches) ==
        [ExecuteConcurrent(InsertQuery(table, batches[0].columns), batches[0].rows)];
    } else if |batches| > 1 {
      var front := batches[..|batches| - 1];
      ChunksLogFresh(table, front);
      var stmt := InsertQuery(table, batches[0].columns);
      assert front[0] == batches[0];
      assert Writes(stmt, batches) == Writes(stmt, front) + [ExecuteConcurrent(stmt, batches[|batches| - 1].rows)];
    }
  }

  /** With a statement already prepared, every chunk is one write through
      it and nothing else is sent. */
  lemma {:induction false} ChunksLogPrepared(table: string, statement: string, batches: seq<Batch>)
    ensures ChunksLog(table, Some(statement), batches) == Writes(statement, batches)
  {
    if batches != [] {
      var front := batches[..|batches| - 1];
      ChunksLogPrepared(table, statement, front);
      assert Writes(statement, batches) == Writes(statement, front) + [ExecuteConcurrent(statement, batches[|batches| - 1].rows)];
    }
  }

  predicate IsPrepare(c: Command) {
    c.Prepare?
  }

  predicate IsExecute(c: Command) {
    c.Execute?
  }

  /** How many commands of `log` satisfy `p`. */
  function Count(log: seq<Command>, p: Command -> bool): nat {
    if log == [] then 0 else Count(log[..|log| - 1], p) + (if p(log[|log| - 1]) then 1 else 0)
  }

  lemma {:induction false} CountConcat(a: seq<Command>, b: seq<Command>, p: Command -> bool)
    ensures Count(a + b, p) == Count(a, p) + Count(b, p)
    decreases |b|
  {
    if b == [] {
      assert a + b == a;
    } else {
      var front := b[..|b| - 1];
      assert (a + b)[..|a + b| - 1] == a + front;
      CountConcat(a, front, p);
    }
  }

  lemma {:induction false} CountWrites(statement: string, batches: seq<Batch>, p: Command -> bool)
    requires forall rows :: !p(ExecuteConcurrent(statement, rows))
    ensures Count(Writes(statement, batches), p) == 0
  {
    if batches != [] {
      var front := batches[..|batches| - 1];
      CountWrites(statement, front, p);
      assert Writes(statement, batches)[..|batches| - 1] == Writes(statement, front);
    }
  }

  /** The table is provisioned once when there is a chunk and never
      otherwise: one `prepare` and two plain `execute`s (the drop and the
      create), and the first three commands are exactly that provisioning,
      so it happens on the first chunk before its write. */
  lemma ProvisionedOnce(table: string, batches: seq<Batch>)
    ensures var log := RunLog(table, batches);
      && Count(log, IsPrepare) == (if batches == [] then 0 else 1)
      && Count(log, IsExecute) == (if batches == [] then 0 else 2)
      && (batches != [] ==> log[..3] == Provisioning(table, batches[0]))
  {
    if batches != [] {
      var stmt := InsertQuery(table, batches[0].columns);
      var prov := Provisioning(table, batches[0]);
      CountConcat(prov, Writes(stmt, batches), IsPrepare);
      CountConcat(prov, Writes(stmt, batches), IsExecute);
      CountWrites(stmt, batches, IsPrepare);
      CountWrites(stmt, batches, IsExecute);
      assert prov == [prov[0], prov[1]] + [prov[2]];
      assert [prov[0], prov[1]] == [prov[0]] + [prov[1]];
      assert [prov[0]] == [] + [prov[0]];
      CountConcat([prov[0], prov[1]], [prov[2]], IsPrepare);
      CountConcat([prov[0], prov[1]], [prov[2]], IsExecute);
      CountConcat([prov[0]], [prov[1]], IsPrepare);
      CountConcat([prov[0]], [prov[1]], IsExecute);
      CountConcat([], [prov[0]], IsPrepare);
      CountConcat([], [prov[0]], IsExecute);
    }
  }

  /** Every write goes through the statement prepared earlier in the log:
      there is one write per chunk, the `k`-th carrying the rows of the
      `k`-th chunk, and it comes after the only `prepare`, whose text it
      uses. */
  lemma WritesUsePrepared(table: string, batches: seq<Batch>)
    requires batches != []
    ensures var log := RunLog(table, batches);
      && |log| == 3 + |batches|
      && log[2] == Prepare(InsertQuery(table, batches[0].columns))
      && forall k :: 0 <= k < |batches| ==>
           log[3 + k] == ExecuteConcurrent(log[2].cql, batches[k].rows)
  {
  }

  /** The complete loop: one chunk after another, with the latch
      `one_timer_executed` and the statement it guards. */
  class Loader {
    const table: string
    var oneTimerExecuted: bool
    var prepared: Option<string>
    var session: seq<Command>

    /** The latch is set exactly when a statement has been prepared. */
    predicate Valid()
      reads this
    {
      oneTimerExecuted <==> prepared.Some?
    }

    /** `one_timer_executed = False` and a fresh session. */
    constructor (table: string)
      ensures Valid()
      ensures this.table == table && !oneTimerExecuted && prepared == None && session == []
    {
      this.table := table;
      oneTimerExecuted := false;
      prepared := None;
      session := [];
    }

    /** The body of the chunk loop. */
    method Load(batch: Batch)
      requires Valid()
      modifies this
      ensures Valid()
      ensures session == old(session) + ChunkLog(table, old(prepared), batch)
      ensures prepared == PreparedAfter(table, old(prepared), [batch])
    {
      if !oneTimerExecuted {
        oneTimerExecuted := true;
        var definition := TableDefinition(batch.schema);
        session := session + [Execute("DROP TABLE IF EXISTS " + table)];
        session := session + [Execute(definition)];
        var query := InsertQuery(table, batch.columns);
        session := session + [Prepare(query)];
        prepared := Some(query);
      }
      session := session + [ExecuteConcurrent(prepared.value, batch.rows)];
    }

    /** The loops over files and their chunks. */
    method Run(files: seq<seq<Batch>>)
      requires Valid()
      modifies this
      ensures Valid()
      ensures session == old(session) + ChunksLog(table, old(prepared), Flatten(files))
      ensures prepared == PreparedAfter(table, old(prepared), Flatten(files))
    {
      ghost var session0, prepared0 := session, prepared;
      ghost var done: seq<Batch> := [];
      assert session0 + [] == session0;
      for i := 0 to |files|
        invariant Valid()
        invariant done == Flatten(files[..i])
        invariant session == session0 + ChunksLog(table, prepared0, done)
        invariant prepared == PreparedAfter(table, prepared0, done)
      {
        FlattenSnoc(files, i);
        ghost var before := done;
        for j := 0 to |files[i]|
          invariant Valid()
          invariant done == before + files[i][..j]
          invariant session == session0 + ChunksLog(table, prepared0, done)
          invariant prepared == PreparedAfter(table, prepared0, done)
        {
          ghost var log := session;
          Load(files[i][j]);
          ChunksLogSnoc(table, prepared0, done, files[i][j]);
          Associative(session0, ChunksLog(table, prepared0, done), ChunkLog(table, PreparedAfter(table, prepared0, done), files[i][j]));
          PreparedAfterSnoc(table, prepared0, done, files[i][j]);
          BatchesSnoc(before, files[i], j);
          done := done + [files[i][j]];
        }
        assert files[i][..|files[i]|] == files[i];
      }
      assert files[..|files|] == files;
    }
  }

  lemma FlattenSnoc(files: seq<seq<Batch>>, i: nat)
    requires i < |files|
    ensures Flatten(files[..i + 1]) == Flatten(files[..i]) + files[i]
    ensures Flatten(files[..i]) + files[i][..0] == Flatten(files[..i])
  {
    assert files[..i + 1][..i] == files[..i];
  }

  lemma BatchesSnoc(before: seq<Batch>, chunks: seq<Batch>, j: nat)
    requires j < |chunks|
    ensures before + chunks[..j] + [chunks[j]] == before + chunks[..j + 1]
  {
    assert chunks[..j + 1] == chunks[..j] + [chunks[j]];
  }

  lemma ChunksLogSnoc(table: string, prepared: Option<string>, batches: seq<Batch>, batch: Batch)
    ensures ChunksLog(table, prepared, batches + [batch]) ==
      ChunksLog(table, prepared, batches) + ChunkLog(table, PreparedAfter(table, prepared, batches), batch)
  {
    assert (batches + [batch])[..|batches|] == batches;
  }

  lemma PreparedAfterSnoc(table: string, prepared: Option<string>, batches: seq<Batch>, batch: Batch)
    ensures PreparedAfter(table, prepared, batches + [batch]) ==
      PreparedAfter(table, PreparedAfter(table, prepared, batches), [batch])
  {
    if batches != [] {
      assert (batches + [batch])[0] == batches[0];
    }
  }
}
