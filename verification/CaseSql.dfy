/** The batched `UPDATE ... CASE` compiler: builders that turn a list of partial records into
    one statement with positional placeholders, an engine that reads such a statement back,
    and the proof that running the statement patches each row on its own. */
module CaseSql {
  import opened Base

  /** The columns of the tables that are updated in batches. */
  datatype Column =
    | ID | UPDATED_AT | NAME | NUMBER | META
    | HOLDER_USER_ID | SUBMITTER_USER_ID | ISSUER_USER_ID | REJECTER_USER_ID | REVOKER_USER_ID
    | ISSUER_ORGANIZATION_ID | TYPE_ID | TOKEN_ID | FILE_HASH | FILE_URI
    | ISSUED_AT | EXPIRES_AT | ACTIVATED_AT | REJECTED_AT | REVOKED_AT
    | REJECTION_REASON | REVOCATION_REASON
    | EXTRACT_ENQUEUED_AT | EXTRACT_FAILED_AT | EXTRACT_ERROR | EXTRACTED_AT
    | PARENT_ID | ACTIVE | ROLE

  datatype Cell = Null | Text(text: string) | Instant(at: Time) | Flag(flag: bool) | Digest(token: TokenId)

  /** A row is its columns; a table is its rows by primary key. */
  type Cells = map<Column, Cell>
  type Table = map<Id, Cells>

  // ----- Statements as text: lexical tokens with positional placeholders -----

  datatype Keyword = UPDATE | SET | CASE | WHEN | THEN | ELSE | END | WHERE | IN | NOW

  datatype Token = Kw(keyword: Keyword) | Col(col: Column) | Name(name: string) | Hole | Comma | Equals | Open | Close

  type Sql = seq<Token>

  /** A placeholder argument: one value, or the slice the driver expands inside `IN (?)`. */
  datatype Arg = Scalar(cell: Cell) | Slice(ids: seq<Id>)

  // ----- The builders (helpers.go) -----

  function Whens(n: nat): Sql {
    if n == 0 then [] else [Kw(WHEN), Hole, Kw(THEN), Hole] + Whens(n - 1)
  }

  lemma {:induction false} WhensSnoc(n: nat)
    ensures Whens(n) + [Kw(WHEN), Hole, Kw(THEN), Hole] == Whens(n + 1)
  {
    if n != 0 {
      WhensSnoc(n - 1);
      var w: Sql := [Kw(WHEN), Hole, Kw(THEN), Hole];
      assert Whens(n) + w == w + (Whens(n - 1) + w);
    }
  }

  function CaseExpr(key: Column, col: Column, n: nat): Sql {
    [Kw(CASE), Col(key)] + (Whens(n) + [Kw(ELSE), Col(col), Kw(END)])
  }

  function CaseClause(key: Column, col: Column, n: nat): Sql {
    [Col(col), Equals] + CaseExpr(key, col, n)
  }

  method BuildCaseColumnSql(key: Column, col: Column, pairs: seq<Cell>) returns (sql: Sql, args: seq<Cell>)
    ensures pairs == [] ==> sql == [] && args == []
    ensures pairs != [] ==> sql == CaseClause(key, col, |pairs| / 2) && args == pairs
  {
    if |pairs| == 0 {
      return [], [];
    }
    var b: Sql := [Kw(CASE), Col(key)];
    var i := 0;
    while i < |pairs| / 2
      invariant 0 <= i <= |pairs| / 2
      invariant b == [Kw(CASE), Col(key)] + Whens(i)
    {
      WhensSnoc(i);
      b := b + [Kw(WHEN), Hole, Kw(THEN), Hole];
      i := i + 1;
    }
    Assoc([Kw(CASE), Col(key)], Whens(i), [Kw(ELSE), Col(col), Kw(END)]);
    b := b + [Kw(ELSE), Col(col), Kw(END)];
    sql := [Col(col), Equals] + b;
    args := pairs;
  }

  function Join(clauses: seq<Sql>): Sql {
    if |clauses| == 0 then []
    else if |clauses| == 1 then clauses[0]
    else clauses[0] + [Comma] + Join(clauses[1..])
  }

  function Flatten<T>(parts: seq<seq<T>>): seq<T> {
    if parts == [] then [] else parts[0] + Flatten(parts[1..])
  }

  lemma {:induction false} FlattenSnoc<T>(parts: seq<seq<T>>, last: seq<T>)
    ensures Flatten(parts + [last]) == Flatten(parts) + last
  {
    if parts == [] {
      assert [] + [last] == [last] && [last][1..] == [];
    } else {
      calc {
        Flatten(parts + [last]);
        { assert (parts + [last])[0] == parts[0] && (parts + [last])[1..] == parts[1..] + [last]; }
        parts[0] + Flatten(parts[1..] + [last]);
        { FlattenSnoc(parts[1..], last); }
        parts[0] + (Flatten(parts[1..]) + last);
        (parts[0] + Flatten(parts[1..])) + last;
        Flatten(parts) + last;
      }
    }
  }

  function Scalars(cells: seq<Cell>): seq<Arg> {
    seq(|cells|, i requires 0 <= i < |cells| => Scalar(cells[i]))
  }

  function UpdateText(table: string, key: Column, clauses: seq<Sql>): (sql: Sql)
    ensures sql != []
  {
    [Kw(UPDATE), Name(table), Kw(SET)] + (Join(clauses) + [Kw(WHERE), Col(key), Kw(IN), Open, Hole, Close])
  }

  method BuildBatchUpdateSql(table: string, key: Column, setClauses: seq<Sql>, setArgs: seq<seq<Cell>>,
                             ids: seq<Id>, extra: seq<Sql>) returns (sql: Sql, args: seq<Arg>)
    ensures sql == UpdateText(table, key, setClauses + extra)
    ensures args == Scalars(Flatten(setArgs)) + [Slice(ids)]
  {
    var flat: seq<Cell> := [];
    for i := 0 to |setArgs|
      invariant flat == Flatten(setArgs[..i])
    {
      FlattenSnoc(setArgs[..i], setArgs[i]);
      assert setArgs[..i + 1] == setArgs[..i] + [setArgs[i]];
      flat := flat + setArgs[i];
    }
    assert setArgs[..|setArgs|] == setArgs;
    sql := UpdateText(table, key, setClauses + extra);
    args := Scalars(flat) + [Slice(ids)];
  }

  // ----- The engine: parse, bind placeholders left to right, execute -----

  datatype Expr = ColumnRef(col: Column) | Case(subject: Column, whens: seq<(Cell, Cell)>, otherwise: Column)
    | Timestamp

  datatype Assign = Assign(col: Column, expr: Expr)

  datatype Statement = Update(table: string, sets: seq<Assign>, key: Column, ids: seq<Id>)

  /** What a parser has read, and what it has left of the text and of the arguments. */
  datatype Parsed<+T> = Parsed(node: T, text: Sql, args: seq<Arg>)

  function ParseWhens(text: Sql, args: seq<Arg>): (r: Option<Parsed<seq<(Cell, Cell)>>>)
    ensures r.Some? ==> |r.value.text| <= |text|
    decreases |text|
  {
    if |text| >= 4 && text[0] == Kw(WHEN) && text[1] == Hole && text[2] == Kw(THEN) && text[3] == Hole then
      if |args| >= 2 && args[0].Scalar? && args[1].Scalar? then
        match ParseWhens(text[4..], args[2..])
        case None => None
        case Some(p) => Some(Parsed([(args[0].cell, args[1].cell)] + p.node, p.text, p.args))
      else None
    else Some(Parsed([], text, args))
  }

  function ParseExpr(text: Sql, args: seq<Arg>): (r: Option<Parsed<Expr>>)
    ensures r.Some? ==> |r.value.text| < |text|
  {
    if text == [] then None
    else if text[0] == Kw(NOW) then Some(Parsed(Timestamp, text[1..], args))
    else if text[0].Col? then Some(Parsed(ColumnRef(text[0].col), text[1..], args))
    else if |text| >= 2 && text[0] == Kw(CASE) && text[1].Col? then
      match ParseWhens(text[2..], args)
      case None => None
      case Some(p) =>
        if |p.text| >= 3 && p.text[0] == Kw(ELSE) && p.text[1].Col? && p.text[2] == Kw(END)
        then Some(Parsed(Case(text[1].col, p.node, p.text[1].col), p.text[3..], p.args))
        else None
    else None
  }

  function ParseSets(text: Sql, args: seq<Arg>): (r: Option<Parsed<seq<Assign>>>)
    decreases |text|
  {
    if |text| >= 2 && text[0].Col? && text[1] == Equals then
      match ParseExpr(text[2..], args)
      case None => None
      case Some(p) =>
        var one := Assign(text[0].col, p.node);
        if p.text != [] && p.text[0] == Comma then
          match ParseSets(p.text[1..], p.args)
          case None => None
          case Some(q) => Some(Parsed([one] + q.node, q.text, q.args))
        else Some(Parsed([one], p.text, p.args))
    else None
  }

  function ParseUpdate(text: Sql, args: seq<Arg>): Option<Statement> {
    if |text| >= 3 && text[0] == Kw(UPDATE) && text[1].Name? && text[2] == Kw(SET) then
      match ParseSets(text[3..], args)
      case None => None
      case Some(p) =>
        if |p.text| == 6 && p.text[0] == Kw(WHERE) && p.text[1].Col? && p.text[2..] == [Kw(IN), Open, Hole, Close]
           && |p.args| == 1 && p.args[0].Slice?
        then Some(Update(text[1].name, p.node, p.text[1].col, p.args[0].ids))
        else None
    else None
  }

  function Lookup(row: Cells, col: Column): Cell {
    if col in row then row[col] else Null
  }

  /** `CASE subject WHEN k THEN v ...`: the first equal key decides. */
  function Choose(whens: seq<(Cell, Cell)>, subject: Cell, otherwise: Cell): Cell {
    if whens == [] then otherwise
    else if whens[0].0 == subject then whens[0].1
    else Choose(whens[1..], subject, otherwise)
  }

  function Eval(e: Expr, row: Cells, now: Time): Cell {
    match e
    case ColumnRef(c) => Lookup(row, c)
    case Case(s, whens, c) => Choose(whens, Lookup(row, s), Lookup(row, c))
    case Timestamp => Instant(now)
  }

  function ExprFor(sets: seq<Assign>, col: Column): Option<Expr> {
    if sets == [] then None
    else if sets[0].col == col then Some(sets[0].expr)
    else ExprFor(sets[1..], col)
  }

  /** SQL evaluates every right-hand side on the old row. */
  function Assigned(sets: seq<Assign>, row: Cells, now: Time): Cells {
    map c | c in row :: var e := ExprFor(sets, c); if e.Some? then Eval(e.value, row, now) else row[c]
  }

  /** The database refuses a statement that assigns a column twice. */
  predicate Executable(s: Statement) {
    forall i, j :: 0 <= i < j < |s.sets| ==> s.sets[i].col != s.sets[j].col
  }

  predicate Selects(s: Statement, row: Cells) {
    exists k :: 0 <= k < |s.ids| && Lookup(row, s.key) == Text(s.ids[k])
  }

  function Execute(s: Statement, t: Table, now: Time): Table {
    map id | id in t :: if Selects(s, t[id]) then Assigned(s.sets, t[id], now) else t[id]
  }

  /** What running the text against the arguments does; None when the database refuses it. The
      repositories run nothing when the text is empty. */
  function Meaning(sql: Sql, args: seq<Arg>, t: Table, now: Time): Option<Table> {
    if sql == [] then Some(t)
    else match ParseUpdate(sql, args)
         case None => None
         case Some(s) => if Executable(s) then Some(Execute(s, t, now)) else None
  }

  // ----- What a batch of partial records means -----

  /** A partial record: the columns it provides. */
  datatype Patch = Patch(id: Id, sets: map<Column, Cell>)

  /** The value the first record for `id` that provides `col` gives it. */
  function FirstProvided(batch: seq<Patch>, id: Id, col: Column): Option<Cell> {
    if batch == [] then None
    else if batch[0].id == id && col in batch[0].sets then Some(batch[0].sets[col])
    else FirstProvided(batch[1..], id, col)
  }

  const KEY: Column := ID

  predicate Mentions(batch: seq<Patch>, id: Id) {
    exists i :: 0 <= i < |batch| && batch[i].id == id
  }

  predicate Provides(batch: seq<Patch>, col: Column) {
    exists i :: 0 <= i < |batch| && col in batch[i].sets
  }

  function PatchRow(row: Cells, batch: seq<Patch>, cols: seq<Column>, id: Id, now: Time): Cells {
    map c | c in row ::
      if c == UPDATED_AT then Instant(now)
      else if c in cols then FirstProvided(batch, id, c).GetOr(row[c])
      else row[c]
  }

  /** Patching each row on its own; a batch that provides nothing issues no statement. */
  function Patched(t: Table, batch: seq<Patch>, cols: seq<Column>, now: Time): Table {
    if forall c | c in cols :: !Provides(batch, c) then t
    else map id | id in t :: if Mentions(batch, id) then PatchRow(t[id], batch, cols, id, now) else t[id]
  }

  /** Every row knows its key and has all the columns that an update may name. */
  ghost predicate WellFormed(t: Table, cols: seq<Column>) {
    forall id :: id in t ==>
      KEY in t[id] && t[id][KEY] == Text(id) && UPDATED_AT in t[id] && forall c :: c in cols ==> c in t[id]
  }

  // ----- The compiler: one clause per column that some record provides -----

  function Pairs(batch: seq<Patch>, col: Column): seq<(Cell, Cell)> {
    if batch == [] then []
    else (if col in batch[0].sets then [(Text(batch[0].id), batch[0].sets[col])] else []) + Pairs(batch[1..], col)
  }

  function Flat(pairs: seq<(Cell, Cell)>): (r: seq<Cell>)
    ensures |r| == 2 * |pairs|
  {
    if pairs == [] then [] else [pairs[0].0, pairs[0].1] + Flat(pairs[1..])
  }

  lemma {:induction false} FlatAppend(a: seq<(Cell, Cell)>, b: seq<(Cell, Cell)>)
    ensures Flat(a + b) == Flat(a) + Flat(b)
  {
    if a == [] {
      assert a + b == b;
    } else {
      var head := [a[0].0, a[0].1];
      calc {
        Flat(a + b);
        { assert (a + b)[0] == a[0] && (a + b)[1..] == a[1..] + b; }
        head + Flat(a[1..] + b);
        { FlatAppend(a[1..], b); }
        head + (Flat(a[1..]) + Flat(b));
        (head + Flat(a[1..])) + Flat(b);
        Flat(a) + Flat(b);
      }
    }
  }

  lemma {:induction false} PairsAppend(a: seq<Patch>, b: seq<Patch>, col: Column)
    ensures Pairs(a + b, col) == Pairs(a, col) + Pairs(b, col)
  {
    if a == [] {
      assert a + b == b;
    } else {
      var head := if col in a[0].sets then [(Text(a[0].id), a[0].sets[col])] else [];
      calc {
        Pairs(a + b, col);
        { assert (a + b)[0] == a[0] && (a + b)[1..] == a[1..] + b; }
        head + Pairs(a[1..] + b, col);
        { PairsAppend(a[1..], b, col); }
        head + (Pairs(a[1..], col) + Pairs(b, col));
        (head + Pairs(a[1..], col)) + Pairs(b, col);
        Pairs(a, col) + Pairs(b, col);
      }
    }
  }

  lemma {:induction false} PairsEmpty(batch: seq<Patch>, col: Column)
    ensures Pairs(batch, col) == [] <==> !Provides(batch, col)
  {
    if batch != [] {
      PairsEmpty(batch[1..], col);
      if Provides(batch[1..], col) {
        var i :| 0 <= i < |batch[1..]| && col in batch[1..][i].sets;
        assert batch[i + 1] == batch[1..][i];
      }
      if Provides(batch, col) && col !in batch[0].sets {
        var i :| 0 <= i < |batch| && col in batch[i].sets;
        assert batch[1..][i - 1] == batch[i];
      }
    }
  }

  /** The columns that get a clause, in column order. */
  function Used(batch: seq<Patch>, cols: seq<Column>): seq<Column> {
    if cols == [] then []
    else (if Pairs(batch, cols[0]) == [] then [] else [cols[0]]) + Used(batch, cols[1..])
  }

  function ClausesFor(batch: seq<Patch>, used: seq<Column>): seq<Sql> {
    seq(|used|, i requires 0 <= i < |used| => CaseClause(KEY, used[i], |Pairs(batch, used[i])|))
  }

  function ArgsFor(batch: seq<Patch>, used: seq<Column>): seq<seq<Cell>> {
    seq(|used|, i requires 0 <= i < |used| => Flat(Pairs(batch, used[i])))
  }

  const TOUCH: Sql := [Col(UPDATED_AT), Equals, Kw(NOW)]

  function IdsOf(batch: seq<Patch>): seq<Id> {
    seq(|batch|, i requires 0 <= i < |batch| => batch[i].id)
  }

  function CompiledText(table: string, cols: seq<Column>, batch: seq<Patch>): Sql {
    var used := Used(batch, cols);
    if used == [] then [] else UpdateText(table, KEY, ClausesFor(batch, used) + [TOUCH])
  }

  function CompiledArgs(cols: seq<Column>, batch: seq<Patch>): seq<Arg> {
    var used := Used(batch, cols);
    if used == [] then [] else Scalars(Flatten(ArgsFor(batch, used))) + [Slice(IdsOf(batch))]
  }

  lemma {:induction false} UsedSnoc(batch: seq<Patch>, cols: seq<Column>, col: Column)
    ensures Used(batch, cols + [col]) == Used(batch, cols) + (if Pairs(batch, col) == [] then [] else [col])
  {
    if cols == [] {
      assert [] + [col] == [col] && [col][1..] == [];
    } else {
      var head := if Pairs(batch, cols[0]) == [] then [] else [cols[0]];
      var last := if Pairs(batch, col) == [] then [] else [col];
      calc {
        Used(batch, cols + [col]);
        { assert (cols + [col])[0] == cols[0] && (cols + [col])[1..] == cols[1..] + [col]; }
        head + Used(batch, cols[1..] + [col]);
        { UsedSnoc(batch, cols[1..], col); }
        head + (Used(batch, cols[1..]) + last);
        (head + Used(batch, cols[1..])) + last;
        Used(batch, cols) + last;
      }
    }
  }

  /** `addCol`: the flattened pairs of the records that provide one column. */
  method CollectPairs(batch: seq<Patch>, col: Column) returns (pairs: seq<Cell>)
    ensures pairs == Flat(Pairs(batch, col))
  {
    pairs := [];
    for i := 0 to |batch|
      invariant pairs == Flat(Pairs(batch[..i], col))
    {
      assert batch[..i + 1] == batch[..i] + [batch[i]];
      PairsAppend(batch[..i], [batch[i]], col);
      FlatAppend(Pairs(batch[..i], col), Pairs([batch[i]], col));
      assert [batch[i]][1..] == [];
      if col in batch[i].sets {
        pairs := pairs + [Text(batch[i].id), batch[i].sets[col]];
      }
    }
    assert batch[..|batch|] == batch;
  }

  lemma {:induction false} ClausesSnoc(batch: seq<Patch>, used: seq<Column>, col: Column)
    ensures ClausesFor(batch, used + [col]) == ClausesFor(batch, used) + [CaseClause(KEY, col, |Pairs(batch, col)|)]
    ensures ArgsFor(batch, used + [col]) == ArgsFor(batch, used) + [Flat(Pairs(batch, col))]
  {
  }

  lemma {:induction false} CollectStep(batch: seq<Patch>, cols: seq<Column>, i: nat)
    requires i < |cols|
    ensures var used, used' := Used(batch, cols[..i]), Used(batch, cols[..i + 1]);
      var pairs := Pairs(batch, cols[i]);
      ClausesFor(batch, used')
      == ClausesFor(batch, used) + (if pairs == [] then [] else [CaseClause(KEY, cols[i], |pairs|)]) &&
      ArgsFor(batch, used') == ArgsFor(batch, used) + (if pairs == [] then [] else [Flat(pairs)])
  {
    assert cols[..i + 1] == cols[..i] + [cols[i]];
    UsedSnoc(batch, cols[..i], cols[i]);
    if Pairs(batch, cols[i]) != [] {
      ClausesSnoc(batch, Used(batch, cols[..i]), cols[i]);
    }
  }

  /** The `addCol` calls: one clause and one argument list per provided column. */
  method CollectClauses(batch: seq<Patch>, cols: seq<Column>) returns (clauses: seq<Sql>, allArgs: seq<seq<Cell>>)
    ensures clauses == ClausesFor(batch, Used(batch, cols))
    ensures allArgs == ArgsFor(batch, Used(batch, cols))
  {
    clauses, allArgs := [], [];
    for i := 0 to |cols|
      invariant clauses == ClausesFor(batch, Used(batch, cols[..i]))
      invariant allArgs == ArgsFor(batch, Used(batch, cols[..i]))
    {
      CollectStep(batch, cols, i);
      var pairs := CollectPairs(batch, cols[i]);
      var clause, clauseArgs := BuildCaseColumnSql(KEY, cols[i], pairs);
      if clause != [] {
        clauses := clauses + [clause];
        allArgs := allArgs + [clauseArgs];
      }
    }
    assert cols[..|cols|] == cols;
  }

  /** updateBatchCase after sorting: nothing when no column is provided, otherwise one statement. */
  method CompileUpdate(table: string, cols: seq<Column>, batch: seq<Patch>) returns (sql: Sql, args: seq<Arg>)
    ensures sql == CompiledText(table, cols, batch) && args == CompiledArgs(cols, batch)
  {
    var clauses, allArgs := CollectClauses(batch, cols);
    if |clauses| == 0 {
      return [], [];
    }
    var ids: seq<Id> := [];
    for i := 0 to |batch|
      invariant ids == IdsOf(batch[..i])
    {
      ids := ids + [batch[i].id];
    }
    assert batch[..|batch|] == batch;
    sql, args := BuildBatchUpdateSql(table, KEY, clauses, allArgs, ids, [TOUCH]);
  }

  // ----- Correctness: the engine reads back exactly what was meant -----

  lemma {:induction false} ParseOneWhen(key: Cell, value: Cell, text: Sql, args: seq<Arg>)
    ensures ParseWhens([Kw(WHEN), Hole, Kw(THEN), Hole] + text, [Scalar(key), Scalar(value)] + args)
         == match ParseWhens(text, args)
            case None => None
            case Some(p) => Some(Parsed([(key, value)] + p.node, p.text, p.args))
  {
    DropPrefix([Kw(WHEN), Hole, Kw(THEN), Hole], text);
    DropPrefix([Scalar(key), Scalar(value)], args);
  }

  lemma {:induction false} ParseWhensReadsBack(pairs: seq<(Cell, Cell)>, text: Sql, args: seq<Arg>)
    requires text != [] && text[0] != Kw(WHEN)
    ensures ParseWhens(Whens(|pairs|) + text, Scalars(Flat(pairs)) + args) == Some(Parsed(pairs, text, args))
  {
    if pairs == [] {
      assert Whens(|pairs|) + text == text && Scalars(Flat(pairs)) + args == args;
    } else {
      var n := |pairs[1..]|;
      var bound := Scalars(Flat(pairs[1..]));
      ParseWhensReadsBack(pairs[1..], text, args);
      ParseOneWhen(pairs[0].0, pairs[0].1, Whens(n) + text, bound + args);
      Assoc([Kw(WHEN), Hole, Kw(THEN), Hole], Whens(n), text);
      ScalarsOfPair(pairs);
      Assoc([Scalar(pairs[0].0), Scalar(pairs[0].1)], bound, args);
      assert [(pairs[0].0, pairs[0].1)] + pairs[1..] == pairs;
    }
  }

  lemma {:induction false} ScalarsOfPair(pairs: seq<(Cell, Cell)>)
    requires pairs != []
    ensures Scalars(Flat(pairs)) == [Scalar(pairs[0].0), Scalar(pairs[0].1)] + Scalars(Flat(pairs[1..]))
  {
  }

  function AssignsFor(batch: seq<Patch>, used: seq<Column>): seq<Assign> {
    if used == [] then [Assign(UPDATED_AT, Timestamp)]
    else [Assign(used[0], Case(KEY, Pairs(batch, used[0]), used[0]))] + AssignsFor(batch, used[1..])
  }

  lemma {:induction false} ParseCase(text: Sql, args: seq<Arg>, key: Column, col: Column, pairs: seq<(Cell, Cell)>,
                                     rest: Sql, left: seq<Arg>)
    requires |text| >= 2 && text[0] == Kw(CASE) && text[1] == Col(key)
    requires ParseWhens(text[2..], args) == Some(Parsed(pairs, [Kw(ELSE), Col(col), Kw(END)] + rest, left))
    ensures ParseExpr(text, args) == Some(Parsed(Case(key, pairs, col), rest, left))
  {
    assert ([Kw(ELSE), Col(col), Kw(END)] + rest)[3..] == rest;
  }

  lemma {:induction false} ParseCaseReadsBack(pairs: seq<(Cell, Cell)>, col: Column, text: Sql, args: seq<Arg>)
    ensures ParseExpr(CaseExpr(KEY, col, |pairs|) + text, Scalars(Flat(pairs)) + args)
         == Some(Parsed(Case(KEY, pairs, col), text, args))
  {
    var close := [Kw(ELSE), Col(col), Kw(END)];
    ParseWhensReadsBack(pairs, close + text, args);
    Assoc([Kw(CASE), Col(KEY)], Whens(|pairs|) + close, text);
    Assoc(Whens(|pairs|), close, text);
    DropPrefix([Kw(CASE), Col(KEY)], Whens(|pairs|) + (close + text));
    ParseCase(CaseExpr(KEY, col, |pairs|) + text, Scalars(Flat(pairs)) + args, KEY, col, pairs, text, args);
  }

  lemma {:induction false} ParseOneSet(pairs: seq<(Cell, Cell)>, col: Column, text: Sql, args: seq<Arg>)
    ensures var text' := CaseClause(KEY, col, |pairs|) + text;
      |text'| >= 2 && text'[0] == Col(col) && text'[1] == Equals &&
      ParseExpr(text'[2..], Scalars(Flat(pairs)) + args) == Some(Parsed(Case(KEY, pairs, col), text, args))
  {
    Assoc([Col(col), Equals], CaseExpr(KEY, col, |pairs|), text);
    DropPrefix([Col(col), Equals], CaseExpr(KEY, col, |pairs|) + text);
    ParseCaseReadsBack(pairs, col, text, args);
  }

  lemma {:induction false} JoinCons(first: Sql, rest: seq<Sql>, text: Sql)
    requires rest != []
    ensures Join([first] + rest) + text == first + ([Comma] + (Join(rest) + text))
  {
    assert ([first] + rest)[1..] == rest;
  }

  lemma {:induction false} ArgsCons(batch: seq<Patch>, used: seq<Column>, args: seq<Arg>)
    requires used != []
    ensures Scalars(Flatten(ArgsFor(batch, used))) + args
         == Scalars(Flat(Pairs(batch, used[0]))) + (Scalars(Flatten(ArgsFor(batch, used[1..]))) + args)
  {
    assert ArgsFor(batch, used)[1..] == ArgsFor(batch, used[1..]);
  }

  lemma {:induction false} ParseSetsReadsBack(batch: seq<Patch>, used: seq<Column>, text: Sql, args: seq<Arg>)
    requires text != [] && text[0] != Comma
    ensures ParseSets(Join(ClausesFor(batch, used) + [TOUCH]) + text, Scalars(Flatten(ArgsFor(batch, used))) + args)
         == Some(Parsed(AssignsFor(batch, used), text, args))
  {
    if used == [] {
      assert ClausesFor(batch, used) + [TOUCH] == [TOUCH];
      assert Scalars(Flatten(ArgsFor(batch, used))) + args == args;
      assert (TOUCH + text)[2..][1..] == text;
    } else {
      var clause := CaseClause(KEY, used[0], |Pairs(batch, used[0])|);
      var later := ClausesFor(batch, used[1..]) + [TOUCH];
      var rest := Join(later) + text;
      var bound := Scalars(Flatten(ArgsFor(batch, used[1..]))) + args;
      assert ClausesFor(batch, used) + [TOUCH] == [clause] + later;
      JoinCons(clause, later, text);
      ArgsCons(batch, used, args);
      ParseOneSet(Pairs(batch, used[0]), used[0], [Comma] + rest, bound);
      ParseSetsReadsBack(batch, used[1..], text, args);
      ParseAfterComma(clause + ([Comma] + rest), rest, Scalars(Flat(Pairs(batch, used[0]))) + bound, bound,
                      used[0], Case(KEY, Pairs(batch, used[0]), used[0]));
    }
  }

  lemma {:induction false} ParseAfterComma(whole: Sql, rest: Sql, args: seq<Arg>, left: seq<Arg>, col: Column, e: Expr)
    requires |whole| >= 2 && whole[0] == Col(col) && whole[1] == Equals
    requires ParseExpr(whole[2..], args) == Some(Parsed(e, [Comma] + rest, left))
    requires ParseSets(rest, left).Some?
    ensures var q := ParseSets(rest, left).value;
      ParseSets(whole, args) == Some(Parsed([Assign(col, e)] + q.node, q.text, q.args))
  {
    assert ([Comma] + rest)[1..] == rest;
  }

  lemma {:induction false} ParseWhole(table: string, text: Sql, sets: seq<Assign>, ids: seq<Id>, args: seq<Arg>)
    requires |text| >= 3 && text[0] == Kw(UPDATE) && text[1] == Name(table) && text[2] == Kw(SET)
    requires ParseSets(text[3..], args)
       == Some(Parsed(sets, [Kw(WHERE), Col(KEY), Kw(IN), Open, Hole, Close], [Slice(ids)]))
    ensures ParseUpdate(text, args) == Some(Update(table, sets, KEY, ids))
  {
  }

  lemma {:induction false} ParseUpdateReadsBack(table: string, batch: seq<Patch>, used: seq<Column>, ids: seq<Id>)
    ensures ParseUpdate(UpdateText(table, KEY, ClausesFor(batch, used) + [TOUCH]),
                        Scalars(Flatten(ArgsFor(batch, used))) + [Slice(ids)])
         == Some(Update(table, AssignsFor(batch, used), KEY, ids))
  {
    var tail: Sql := [Kw(WHERE), Col(KEY), Kw(IN), Open, Hole, Close];
    var sets := Join(ClausesFor(batch, used) + [TOUCH]) + tail;
    DropPrefix([Kw(UPDATE), Name(table), Kw(SET)], sets);
    ParseSetsReadsBack(batch, used, tail, [Slice(ids)]);
    ParseWhole(table, [Kw(UPDATE), Name(table), Kw(SET)] + sets, AssignsFor(batch, used), ids,
               Scalars(Flatten(ArgsFor(batch, used))) + [Slice(ids)]);
  }

  lemma {:induction false} ChooseIsFirstProvided(batch: seq<Patch>, id: Id, col: Column, otherwise: Cell)
    ensures Choose(Pairs(batch, col), Text(id), otherwise) == FirstProvided(batch, id, col).GetOr(otherwise)
  {
    if batch != [] {
      ChooseIsFirstProvided(batch[1..], id, col, otherwise);
      var p := Pairs(batch, col);
      if col in batch[0].sets {
        assert p[1..] == Pairs(batch[1..], col);
      } else {
        assert p == Pairs(batch[1..], col);
      }
    }
  }

  lemma {:induction false} ExprForAssigns(batch: seq<Patch>, used: seq<Column>, col: Column)
    requires UPDATED_AT !in used
    ensures ExprFor(AssignsFor(batch, used), col) ==
      if col == UPDATED_AT then Some(Timestamp)
      else if col in used then Some(Case(KEY, Pairs(batch, col), col))
      else None
  {
    if used != [] {
      ExprForAssigns(batch, used[1..], col);
      assert AssignsFor(batch, used)[1..] == AssignsFor(batch, used[1..]);
    } else {
      assert AssignsFor(batch, used)[1..] == [];
    }
  }

  lemma {:induction false} UsedIsProvided(batch: seq<Patch>, cols: seq<Column>, c: Column)
    ensures c in Used(batch, cols) <==> c in cols && Provides(batch, c)
  {
    if cols != [] {
      UsedIsProvided(batch, cols[1..], c);
      PairsEmpty(batch, cols[0]);
      assert c in cols <==> c == cols[0] || c in cols[1..];
    }
  }

  lemma {:induction false} UsedDistinct(batch: seq<Patch>, cols: seq<Column>)
    requires Distinct(cols)
    ensures Distinct(Used(batch, cols))
  {
    if cols != [] {
      UsedDistinct(batch, cols[1..]);
      UsedIsProvided(batch, cols[1..], cols[0]);
    }
  }

  lemma {:induction false} NothingProvided(batch: seq<Patch>, id: Id, col: Column)
    requires !Provides(batch, col)
    ensures FirstProvided(batch, id, col) == None
  {
    if batch != [] {
      assert col !in batch[0].sets;
      assert forall i :: 0 <= i < |batch[1..]| ==> batch[1..][i] == batch[i + 1];
      NothingProvided(batch[1..], id, col);
    }
  }

  lemma {:induction false} ExprForUsed(batch: seq<Patch>, cols: seq<Column>, c: Column)
    requires UPDATED_AT !in cols
    ensures ExprFor(AssignsFor(batch, Used(batch, cols)), c) ==
      if c == UPDATED_AT then Some(Timestamp)
      else if c in cols && Provides(batch, c) then Some(Case(KEY, Pairs(batch, c), c))
      else None
  {
    UsedIsProvided(batch, cols, c);
    UsedIsProvided(batch, cols, UPDATED_AT);
    ExprForAssigns(batch, Used(batch, cols), c);
  }

  lemma {:induction false} AssignedAt(sets: seq<Assign>, row: Cells, c: Column, now: Time)
    requires c in row
    ensures Assigned(sets, row, now)[c] == match ExprFor(sets, c) case Some(e) => Eval(e, row, now) case None => row[c]
  {
  }

  lemma {:induction false} CellIsPatched(row: Cells, cols: seq<Column>, batch: seq<Patch>, id: Id, c: Column, now: Time)
    requires c in row && Lookup(row, KEY) == Text(id) && UPDATED_AT !in cols && KEY !in cols
    ensures Assigned(AssignsFor(batch, Used(batch, cols)), row, now)[c] == PatchRow(row, batch, cols, id, now)[c]
  {
    AssignedAt(AssignsFor(batch, Used(batch, cols)), row, c, now);
    ExprForUsed(batch, cols, c);
    ChooseIsFirstProvided(batch, id, c, row[c]);
    if !Provides(batch, c) {
      NothingProvided(batch, id, c);
    }
  }

  lemma {:induction false} RowIsPatched(t: Table, cols: seq<Column>, batch: seq<Patch>, id: Id, now: Time)
    requires WellFormed(t, cols) && id in t && UPDATED_AT !in cols && KEY !in cols
    ensures Assigned(AssignsFor(batch, Used(batch, cols)), t[id], now) == PatchRow(t[id], batch, cols, id, now)
  {
    forall c | c in t[id]
      ensures Assigned(AssignsFor(batch, Used(batch, cols)), t[id], now)[c] == PatchRow(t[id], batch, cols, id, now)[c]
    {
      CellIsPatched(t[id], cols, batch, id, c, now);
    }
  }

  lemma {:induction false} AssignsDistinct(batch: seq<Patch>, used: seq<Column>)
    requires Distinct(used) && UPDATED_AT !in used
    ensures |AssignsFor(batch, used)| == |used| + 1
    ensures forall i :: 0 <= i < |used| ==> AssignsFor(batch, used)[i].col == used[i]
    ensures AssignsFor(batch, used)[|used|].col == UPDATED_AT
  {
    if used != [] {
      AssignsDistinct(batch, used[1..]);
    }
  }

  lemma {:induction false} ExecutePatches(t: Table, cols: seq<Column>, batch: seq<Patch>, s: Statement, now: Time)
    requires WellFormed(t, cols) && UPDATED_AT !in cols && KEY !in cols
    requires s.key == KEY && s.ids == IdsOf(batch) && s.sets == AssignsFor(batch, Used(batch, cols))
    requires exists c :: c in cols && Provides(batch, c)
    ensures Execute(s, t, now) == Patched(t, batch, cols, now)
  {
    forall id | id in t
      ensures Execute(s, t, now)[id] == if Mentions(batch, id) then PatchRow(t[id], batch, cols, id, now) else t[id]
    {
      SelectsMentioned(t[id], batch, id, s);
      RowIsPatched(t, cols, batch, id, now);
    }
  }

  lemma {:induction false} MeaningOf(sql: Sql, args: seq<Arg>, t: Table, now: Time, s: Statement)
    requires sql != [] && ParseUpdate(sql, args) == Some(s) && Executable(s)
    ensures Meaning(sql, args, t, now) == Some(Execute(s, t, now))
  {
  }

  /** The compiled statement, parsed and run against its flattened arguments, patches every row on
      its own: provided fields are set, every other cell and every row outside the batch keeps its
      value, and a batch that provides nothing runs nothing. */
  lemma {:induction false} StatementPatchesRows(table: string, t: Table, cols: seq<Column>, batch: seq<Patch>,
                                                now: Time)
    requires WellFormed(t, cols) && Distinct(cols) && UPDATED_AT !in cols && KEY !in cols
    ensures Meaning(CompiledText(table, cols, batch), CompiledArgs(cols, batch), t, now)
         == Some(Patched(t, batch, cols, now))
  {
    if Used(batch, cols) == [] {
      UsedNothing(batch, cols);
    } else {
      var s := Update(table, AssignsFor(batch, Used(batch, cols)), KEY, IdsOf(batch));
      CompiledParses(table, cols, batch, s);
      UsedSomething(batch, cols);
      CompiledExecutable(batch, Used(batch, cols), s);
      MeaningOf(CompiledText(table, cols, batch), CompiledArgs(cols, batch), t, now, s);
      ExecutePatches(t, cols, batch, s, now);
    }
  }

  lemma {:induction false} CompiledParses(table: string, cols: seq<Column>, batch: seq<Patch>, s: Statement)
    requires Used(batch, cols) != []
    requires s == Update(table, AssignsFor(batch, Used(batch, cols)), KEY, IdsOf(batch))
    ensures CompiledText(table, cols, batch) != []
    ensures ParseUpdate(CompiledText(table, cols, batch), CompiledArgs(cols, batch)) == Some(s)
  {
    ParseUpdateReadsBack(table, batch, Used(batch, cols), IdsOf(batch));
  }

  lemma {:induction false} CompiledExecutable(batch: seq<Patch>, used: seq<Column>, s: Statement)
    requires s.sets == AssignsFor(batch, used) && Distinct(used) && UPDATED_AT !in used
    ensures Executable(s)
  {
    AssignsDistinct(batch, used);
    forall i, j | 0 <= i < j < |s.sets| ensures s.sets[i].col != s.sets[j].col {
      assert s.sets[i].col == used[i];
      if j < |used| {
        assert s.sets[j].col == used[j];
      }
    }
  }

  lemma {:induction false} UsedNothing(batch: seq<Patch>, cols: seq<Column>)
    requires Used(batch, cols) == []
    ensures forall c | c in cols :: !Provides(batch, c)
  {
    forall c | c in cols ensures !Provides(batch, c) {
      UsedIsProvided(batch, cols, c);
    }
  }

  lemma {:induction false} UsedSomething(batch: seq<Patch>, cols: seq<Column>)
    requires Used(batch, cols) != [] && Distinct(cols) && UPDATED_AT !in cols
    ensures Distinct(Used(batch, cols)) && UPDATED_AT !in Used(batch, cols)
    ensures exists c :: c in cols && Provides(batch, c)
  {
    UsedDistinct(batch, cols);
    UsedIsProvided(batch, cols, UPDATED_AT);
    UsedIsProvided(batch, cols, Used(batch, cols)[0]);
  }

  lemma {:induction false} SelectsMentioned(row: Cells, batch: seq<Patch>, id: Id, s: Statement)
    requires Lookup(row, KEY) == Text(id) && s.key == KEY && s.ids == IdsOf(batch)
    ensures Selects(s, row) <==> Mentions(batch, id)
  {
    if Selects(s, row) {
      var k :| 0 <= k < |s.ids| && Lookup(row, s.key) == Text(s.ids[k]);
      assert batch[k].id == id;
    }
    if Mentions(batch, id) {
      var i :| 0 <= i < |batch| && batch[i].id == id;
      assert s.ids[i] == id;
    }
  }

  // ----- Batch order -----

  ghost predicate DistinctIds(batch: seq<Patch>) {
    forall i, j :: 0 <= i < j < |batch| ==> batch[i].id != batch[j].id
  }

  /** With distinct ids a row's patch is the one record that names it. */
  lemma {:induction false} OnlyRecordDecides(batch: seq<Patch>, k: nat, col: Column)
    requires DistinctIds(batch) && k < |batch|
    ensures FirstProvided(batch, batch[k].id, col)
         == if col in batch[k].sets then Some(batch[k].sets[col]) else None
  {
    if k == 0 {
      if col !in batch[0].sets {
        Unmentioned(batch[1..], batch[0].id, col);
      }
    } else {
      OnlyRecordDecides(batch[1..], k - 1, col);
    }
  }

  lemma {:induction false} Unmentioned(batch: seq<Patch>, id: Id, col: Column)
    requires forall i :: 0 <= i < |batch| ==> batch[i].id != id
    ensures FirstProvided(batch, id, col) == None
  {
    if batch != [] {
      Unmentioned(batch[1..], id, col);
    }
  }

  /** The meaning of a batch with distinct ids does not depend on the order of its records. */
  lemma {:induction false} OrderDoesNotMatter(t: Table, a: seq<Patch>, b: seq<Patch>, cols: seq<Column>, now: Time)
    requires DistinctIds(a) && DistinctIds(b) && multiset(a) == multiset(b)
    ensures Patched(t, a, cols, now) == Patched(t, b, cols, now)
  {
    assert forall p :: p in a <==> p in b by {
      forall p ensures p in a <==> p in b {
        assert p in a <==> p in multiset(a);
        assert p in b <==> p in multiset(b);
      }
    }
    forall c ensures Provides(a, c) <==> Provides(b, c) {
      ProvidesByMembers(a, c);
      ProvidesByMembers(b, c);
    }
    forall id | id in t
      ensures PatchRow(t[id], a, cols, id, now) == PatchRow(t[id], b, cols, id, now)
      ensures Mentions(a, id) <==> Mentions(b, id)
    {
      SameRecordDecides(a, b, id, KEY);
      forall c ensures FirstProvided(a, id, c) == FirstProvided(b, id, c) {
        SameRecordDecides(a, b, id, c);
      }
    }
    var none := forall c | c in cols :: !Provides(a, c);
    assert none == forall c | c in cols :: !Provides(b, c);
  }

  lemma {:induction false} ProvidesByMembers(batch: seq<Patch>, c: Column)
    ensures Provides(batch, c) <==> exists p :: p in batch && c in p.sets
  {
    if Provides(batch, c) {
      var i :| 0 <= i < |batch| && c in batch[i].sets;
      assert batch[i] in batch;
    }
  }

  lemma {:induction false} SameRecordDecides(a: seq<Patch>, b: seq<Patch>, id: Id, c: Column)
    requires DistinctIds(a) && DistinctIds(b) && forall p :: p in a <==> p in b
    ensures FirstProvided(a, id, c) == FirstProvided(b, id, c)
    ensures Mentions(a, id) <==> Mentions(b, id)
  {
    if i :| 0 <= i < |a| && a[i].id == id {
      assert a[i] in b;
      var j :| 0 <= j < |b| && b[j] == a[i];
      OnlyRecordDecides(a, i, c);
      OnlyRecordDecides(b, j, c);
    } else {
      Unmentioned(a, id, c);
      assert forall j :: 0 <= j < |b| ==> b[j].id != id by {
        forall j | 0 <= j < |b| ensures b[j].id != id {
          assert b[j] in a;
        }
      }
      Unmentioned(b, id, c);
    }
  }

  // ----- Sorting: a deterministic statement -----

  ghost predicate Sorted(batch: seq<Patch>) {
    forall i, j :: 0 <= i < j < |batch| ==> !Less(batch[j].id, batch[i].id)
  }

  /** sort.Slice by id, which keeps no promise about records with equal ids. */
  method SortById(batch: seq<Patch>) returns (sorted: seq<Patch>)
    ensures Sorted(sorted) && multiset(sorted) == multiset(batch)
  {
    sorted := [];
    for i := 0 to |batch|
      invariant Sorted(sorted) && multiset(sorted) == multiset(batch[..i])
    {
      sorted := Insert(sorted, batch[i]);
      assert batch[..i + 1] == batch[..i] + [batch[i]];
    }
    assert batch[..|batch|] == batch;
  }

  method Insert(sorted: seq<Patch>, p: Patch) returns (r: seq<Patch>)
    requires Sorted(sorted)
    ensures Sorted(r) && multiset(r) == multiset(sorted) + multiset{p}
  {
    var k := |sorted|;
    while k > 0 && Less(p.id, sorted[k - 1].id)
      invariant 0 <= k <= |sorted|
      invariant forall i :: k <= i < |sorted| ==> Less(p.id, sorted[i].id)
    {
      k := k - 1;
    }
    assert sorted == sorted[..k] + sorted[k..];
    r := sorted[..k] + [p] + sorted[k..];
    SortedAround(sorted, k, p);
  }

  lemma {:induction false} SortedAround(sorted: seq<Patch>, k: nat, p: Patch)
    requires Sorted(sorted) && k <= |sorted|
    requires forall i :: k <= i < |sorted| ==> Less(p.id, sorted[i].id)
    requires k > 0 ==> !Less(p.id, sorted[k - 1].id)
    ensures Sorted(sorted[..k] + [p] + sorted[k..])
  {
    var r := sorted[..k] + [p] + sorted[k..];
    forall i, j | 0 <= i < j < |r| ensures !Less(r[j].id, r[i].id) {
      if i < k && j == k {
        if Less(p.id, sorted[i].id) {
          NotLessChain(sorted[i].id, sorted[k - 1].id, p.id, i == k - 1);
        }
      } else if i == k {
        LessTrichotomy(p.id, r[j].id);
      }
    }
  }

  lemma {:induction false} NotLessChain(a: string, b: string, p: string, same: bool)
    requires same ==> a == b
    requires !same ==> !Less(b, a)
    requires !Less(p, b)
    ensures !Less(p, a)
  {
    LessTrichotomy(a, b);
    if Less(p, a) && Less(a, b) {
      LessTransitive(p, a, b);
    }
  }

  lemma {:induction false} HeadsAgree(a: seq<Patch>, b: seq<Patch>)
    requires DistinctIds(a) && DistinctIds(b) && Sorted(a) && Sorted(b)
    requires multiset(a) == multiset(b) && a != []
    ensures b != [] && a[0] == b[0]
  {
    assert a[0] in multiset(b) && |b| == |a|;
    assert b[0] in multiset(a);
    var i :| 0 <= i < |b| && b[i] == a[0];
    var j :| 0 <= j < |a| && a[j] == b[0];
    LessTrichotomy(a[0].id, b[0].id);
  }

  /** Batches with distinct ids that hold the same records compile to the same statement: sorting
      them gives the same sequence. */
  lemma {:induction false} SortedOnce(a: seq<Patch>, b: seq<Patch>)
    requires DistinctIds(a) && DistinctIds(b) && Sorted(a) && Sorted(b)
    requires multiset(a) == multiset(b)
    ensures a == b
  {
    if a == [] {
      assert |multiset(b)| == 0;
    } else {
      HeadsAgree(a, b);
      DropHead(a);
      DropHead(b);
      SortedOnce(a[1..], b[1..]);
    }
  }

  lemma {:induction false} DropHead(a: seq<Patch>)
    requires a != []
    ensures a == [a[0]] + a[1..] && multiset(a[1..]) == multiset(a) - multiset{a[0]}
  {
    assert a == [a[0]] + a[1..];
  }

  /** The repository call: sort, compile, run. Whatever order sorting leaves equal ids in, the table
      ends as patching that order of records leaves it. */
  method UpdateBatch(table: string, t: Table, cols: seq<Column>, batch: seq<Patch>, now: Time)
    returns (t': Table, ghost order: seq<Patch>)
    requires WellFormed(t, cols) && Distinct(cols) && UPDATED_AT !in cols && KEY !in cols
    ensures multiset(order) == multiset(batch) && Sorted(order)
    ensures t' == Patched(t, order, cols, now)
    ensures DistinctIds(batch) ==> t' == Patched(t, batch, cols, now)
  {
    var sorted := SortById(batch);
    order := sorted;
    var sql, args := CompileUpdate(table, cols, sorted);
    StatementPatchesRows(table, t, cols, sorted, now);
    t' := Meaning(sql, args, t, now).value;
    if DistinctIds(batch) {
      DistinctIdsPermute(batch, sorted);
      OrderDoesNotMatter(t, sorted, batch, cols, now);
    }
  }

  lemma {:induction false} DistinctIdsPermute(a: seq<Patch>, b: seq<Patch>)
    requires DistinctIds(a) && multiset(a) == multiset(b)
    ensures DistinctIds(b)
  {
    forall i, j | 0 <= i < j < |b| ensures b[i].id != b[j].id {
      if b[i].id == b[j].id {
        assert b[i] in multiset(a) && b[j] in multiset(a);
        var x :| 0 <= x < |a| && a[x] == b[i];
        var y :| 0 <= y < |a| && a[y] == b[j];
        assert x == y;
        TwiceInMultiset(b, i, j);
        OnceInMultiset(a, x);
      }
    }
  }

  lemma {:induction false} TwiceInMultiset(b: seq<Patch>, i: nat, j: nat)
    requires i < j < |b| && b[i] == b[j]
    ensures multiset(b)[b[i]] >= 2
  {
    assert b == b[..j] + b[j..];
    assert b[i] in b[..j] && b[j] in b[j..];
    assert multiset(b) == multiset(b[..j]) + multiset(b[j..]);
  }

  lemma {:induction false} OnceInMultiset(a: seq<Patch>, x: nat)
    requires DistinctIds(a) && x < |a|
    ensures multiset(a)[a[x]] == 1
  {
    assert a == a[..x] + [a[x]] + a[x + 1..];
    assert a[x] !in a[..x] && a[x] !in a[x + 1..];
    assert multiset(a) == multiset(a[..x]) + multiset{a[x]} + multiset(a[x + 1..]);
  }
}
