/**
 `sql_changes`: every row of a keyset query is one change event. This module holds the
 compiled plan, the arguments of a page, and one poll over an ordered table.
 */
module WatchChanges {
  import opened Wrappers
  import opened Keyset
  import Params
  import StatementScan

  datatype Start = Latest | Beginning

  datatype ChangeOp = Insert | Update | Delete

  const LIMIT_NAME := "_limit"
  const SETTLE_NAME := "_settle_before"
  const MAX_BATCH_SIZE: nat := 500
  const MAX_ROWS_PER_TICK: nat := 500
  const MAX_EVENT_BYTES: nat := 256 * 1024
  const HOST_QUEUE: nat := 1024
  const CURSOR_VERSION: nat := 1

  // ---------------------------------------------------------------------
  // The spec and its plan
  // ---------------------------------------------------------------------

  /** A watch spec. A query body that is not SQL text is `None`. */
  datatype Spec = Spec(
    driver: Params.Driver,
    rowModeMany: bool,
    sql: Option<string>,
    keyColumns: seq<string>,
    initial: map<string, Value>,
    start: Start,
    latestSql: Option<string>,
    batchSize: nat,
    intervalMs: nat,
    occurredAtColumn: Option<string>,
    opColumn: Option<string>,
    settleMs: Option<nat>)

  datatype Plan = Plan(
    stmt: Params.PreparedStmt,
    latest: Option<Params.PreparedStmt>,
    keyColumns: seq<string>,
    initial: Key,
    start: Start,
    batchSize: nat,
    opColumn: Option<string>,
    settleMs: Option<nat>)

  /** Checks of other files that compiling calls: the connection's own, and the one on privileged DDL. */
  datatype Checks = Checks(connection: bool, privileged: string -> bool)

  datatype SpecError =
    | BadConnection | NotMany | NotSql | NoKeyColumns | BadColumn(name: string) | NoInitial(column: string)
    | ExtraInitial(name: string) | BadBatchSize | BadInterval | ZeroSettle
    | Scan(error: StatementScan.ScanError) | Privileged
    | UnknownName(name: string) | MissingName(name: string) | NoLatestSql | LatestBinds(name: string)

  predicate IsColumnName(s: string) {
    s != [] && forall c :: c in s ==> Params.IsIdent(c)
  }

  /** The placeholders the page query must bind, each at least once, and no other. */
  function Allowed(columns: seq<string>, settle: bool): seq<string> {
    AfterNames(columns) + [LIMIT_NAME] + (if settle then [SETTLE_NAME] else [])
  }

  ghost predicate SqlOk(checks: Checks, sql: string) {
    StatementScan.SingleStatement(sql) && !checks.privileged(sql)
  }

  ghost predicate ColumnOk(column: Option<string>) {
    column.Some? ==> IsColumnName(column.value)
  }

  ghost predicate KeyOk(spec: Spec) {
    && spec.keyColumns != []
    && (forall c :: c in spec.keyColumns ==> IsColumnName(c) && c in spec.initial && spec.initial[c] != Null)
    && (forall c :: c in spec.initial ==> c in spec.keyColumns)
  }

  ghost predicate PageSqlOk(spec: Spec, checks: Checks) {
    && spec.sql.Some? && SqlOk(checks, spec.sql.value)
    && forall name :: name in Params.OrderOf(spec.sql.value) <==> name in Allowed(spec.keyColumns, spec.settleMs.Some?)
  }

  ghost predicate LatestOk(spec: Spec, checks: Checks) {
    && (spec.start == Latest ==> spec.latestSql.Some?)
    && (spec.latestSql.Some? ==> SqlOk(checks, spec.latestSql.value) && Params.OrderOf(spec.latestSql.value) == [])
  }

  /** What a spec must meet. */
  ghost predicate Accepts(spec: Spec, checks: Checks) {
    && checks.connection && spec.rowModeMany
    && KeyOk(spec) && PageSqlOk(spec, checks) && LatestOk(spec, checks)
    && 1 <= spec.batchSize <= MAX_BATCH_SIZE && 100 <= spec.intervalMs
    && ColumnOk(spec.occurredAtColumn) && ColumnOk(spec.opColumn)
    && spec.settleMs != Some(0)
  }

  function InitialKey(columns: seq<string>, initial: map<string, Value>): (key: Key)
    requires forall c :: c in columns ==> c in initial
    ensures |key| == |columns| && forall i :: 0 <= i < |columns| ==> key[i] == initial[columns[i]]
  {
    seq(|columns|, i requires 0 <= i < |columns| => initial[columns[i]])
  }

  /** The plan of a spec that meets the checks. */
  ghost predicate PlanFits(spec: Spec, plan: Plan) {
    && spec.sql.Some?
    && plan.stmt == Params.PreparedStmt(Params.Rewritten(spec.sql.value, spec.driver), Params.OrderOf(spec.sql.value))
    && (plan.latest.Some? <==> spec.latestSql.Some?)
    && (plan.latest.Some? ==>
          plan.latest.value == Params.PreparedStmt(Params.Rewritten(spec.latestSql.value, spec.driver), []))
    && plan.keyColumns == spec.keyColumns && plan.start == spec.start && plan.batchSize == spec.batchSize
    && plan.opColumn == spec.opColumn && plan.settleMs == spec.settleMs
    && |plan.initial| == |plan.keyColumns|
    && forall i :: 0 <= i < |plan.initial| ==>
         plan.keyColumns[i] in spec.initial && plan.initial[i] == spec.initial[plan.keyColumns[i]]
  }

  /** The names an accepted page query binds: the limit, the settle time if there is one, and each key column. */
  lemma BindsExactly(spec: Spec, checks: Checks, plan: Plan, name: string)
    requires Accepts(spec, checks) && PlanFits(spec, plan)
    ensures name in plan.stmt.order <==>
            || name == "_limit" || (spec.settleMs.Some? && name == "_settle_before")
            || exists c :: c in spec.keyColumns && name == "_after_" + c
  {
    var names := AfterNames(spec.keyColumns);
    if name in names {
      var i :| 0 <= i < |names| && names[i] == name;
      assert spec.keyColumns[i] in spec.keyColumns && name == "_after_" + spec.keyColumns[i];
    }
    if c :| c in spec.keyColumns && name == "_after_" + c {
      var i :| 0 <= i < |spec.keyColumns| && spec.keyColumns[i] == c;
      assert names[i] == name;
    }
    assert name in Allowed(spec.keyColumns, spec.settleMs.Some?) <==>
           name in names || name == LIMIT_NAME || (spec.settleMs.Some? && name == SETTLE_NAME);
  }

  /** The first column that is not a name, or has no initial value. */
  method CheckKeyColumns(spec: Spec) returns (r: Result<Key, SpecError>)
    ensures r.Ok? <==> KeyOk(spec)
    ensures r.Ok? ==> r.value == InitialKey(spec.keyColumns, spec.initial)
  {
    if spec.keyColumns == [] {
      return Err(NoKeyColumns);
    }
    var columns := spec.keyColumns;
    for i := 0 to |columns|
      invariant forall j :: 0 <= j < i ==> IsColumnName(columns[j])
    {
      if !IsColumnName(columns[i]) {
        return Err(BadColumn(columns[i]));
      }
    }
    var initial: Key := [];
    for i := 0 to |columns|
      invariant |initial| == i
      invariant forall j :: 0 <= j < i ==>
        columns[j] in spec.initial && spec.initial[columns[j]] != Null && initial[j] == spec.initial[columns[j]]
    {
      if columns[i] !in spec.initial || spec.initial[columns[i]] == Null {
        return Err(NoInitial(columns[i]));
      }
      initial := initial + [spec.initial[columns[i]]];
    }
    if extra :| extra in spec.initial && extra !in columns {
      return Err(ExtraInitial(extra));
    }
    r := Ok(initial);
  }

  /** The first name of `names` that is not in `others`. */
  method FirstOutside(names: seq<string>, others: seq<string>) returns (r: Option<string>)
    ensures r.None? <==> forall name :: name in names ==> name in others
    ensures r.Some? ==> r.value in names && r.value !in others
  {
    for i := 0 to |names|
      invariant forall j :: 0 <= j < i ==> names[j] in others
    {
      if names[i] !in others {
        return Some(names[i]);
      }
    }
    r := None;
  }

  /** One statement, nothing privileged; its rewrite and the names it binds. */
  method CompileSql(sql: string, driver: Params.Driver, checks: Checks)
    returns (r: Result<Params.PreparedStmt, SpecError>)
    ensures r.Ok? <==> SqlOk(checks, sql)
    ensures r.Ok? ==> r.value == Params.PreparedStmt(Params.Rewritten(sql, driver), Params.OrderOf(sql))
  {
    var scan := StatementScan.RejectMultiStatement(sql);
    if scan.Err? {
      return Err(Scan(scan.error));
    }
    if checks.privileged(sql) {
      return Err(Privileged);
    }
    var out, order := Params.RewritePlaceholders(sql, driver);
    r := Ok(Params.PreparedStmt(out, order));
  }

  method CompilePage(spec: Spec, sql: string, checks: Checks) returns (r: Result<Params.PreparedStmt, SpecError>)
    requires spec.sql == Some(sql)
    ensures r.Ok? <==> PageSqlOk(spec, checks)
    ensures r.Ok? ==> r.value == Params.PreparedStmt(Params.Rewritten(sql, spec.driver), Params.OrderOf(sql))
  {
    var stmt := CompileSql(sql, spec.driver, checks);
    if stmt.Err? {
      return stmt;
    }
    var allowed := Allowed(spec.keyColumns, spec.settleMs.Some?);
    var unknown := FirstOutside(stmt.value.order, allowed);
    if unknown.Some? {
      return Err(UnknownName(unknown.value));
    }
    var missing := FirstOutside(allowed, stmt.value.order);
    if missing.Some? {
      return Err(MissingName(missing.value));
    }
    r := stmt;
  }

  method CompileLatest(spec: Spec, checks: Checks) returns (r: Result<Option<Params.PreparedStmt>, SpecError>)
    ensures r.Ok? <==> LatestOk(spec, checks)
    ensures r.Ok? ==> (r.value.Some? <==> spec.latestSql.Some?)
    ensures r.Ok? && r.value.Some? ==>
              r.value.value == Params.PreparedStmt(Params.Rewritten(spec.latestSql.value, spec.driver), [])
  {
    if spec.latestSql.None? {
      return if spec.start == Latest then Err(NoLatestSql) else Ok(None);
    }
    var stmt := CompileSql(spec.latestSql.value, spec.driver, checks);
    if stmt.Err? {
      return Err(stmt.error);
    }
    if stmt.value.order != [] {
      return Err(LatestBinds(stmt.value.order[0]));
    }
    r := Ok(Some(stmt.value));
  }

  /** `compile`: a plan exactly for the specs that meet every check. */
  method Compile(spec: Spec, checks: Checks) returns (r: Result<Plan, SpecError>)
    ensures r.Ok? <==> Accepts(spec, checks)
    ensures r.Ok? ==> PlanFits(spec, r.value)
  {
    if !checks.connection {
      return Err(BadConnection);
    }
    if !spec.rowModeMany {
      return Err(NotMany);
    }
    if spec.sql.None? {
      return Err(NotSql);
    }
    var initial := CheckKeyColumns(spec);
    if initial.Err? {
      return Err(initial.error);
    }
    if !(1 <= spec.batchSize <= MAX_BATCH_SIZE) {
      return Err(BadBatchSize);
    }
    if spec.intervalMs < 100 {
      return Err(BadInterval);
    }
    if spec.occurredAtColumn.Some? && !IsColumnName(spec.occurredAtColumn.value) {
      return Err(BadColumn(spec.occurredAtColumn.value));
    }
    if spec.opColumn.Some? && !IsColumnName(spec.opColumn.value) {
      return Err(BadColumn(spec.opColumn.value));
    }
    if spec.settleMs == Some(0) {
      return Err(ZeroSettle);
    }
    var stmt := CompilePage(spec, spec.sql.value, checks);
    if stmt.Err? {
      return Err(stmt.error);
    }
    var latest := CompileLatest(spec, checks);
    if latest.Err? {
      return Err(latest.error);
    }
    r := Ok(Plan(stmt.value, latest.value, spec.keyColumns, initial.value, spec.start, spec.batchSize,
                 spec.opColumn, spec.settleMs));
  }

  // ---------------------------------------------------------------------
  // The arguments of a page
  // ---------------------------------------------------------------------

  function Position(columns: seq<string>, column: string): (r: Option<nat>)
    ensures r.None? <==> column !in columns
    ensures r.Some? ==> r.value < |columns| && columns[r.value] == column && column !in columns[..r.value]
  {
    if columns == [] then None
    else if columns[0] == column then Some(0)
    else
      var r := Position(columns[1..], column);
      if r.None? then None else Some(r.value + 1)
  }

  /** One argument; `None` where slicing the name or indexing the key would be out of bounds. */
  function PageArg(plan: Plan, key: Key, now: int, name: string): Option<Value> {
    if name == LIMIT_NAME then Some(Int(plan.batchSize))
    else if name == SETTLE_NAME then
      Some(Int(now - if plan.settleMs.Some? then plan.settleMs.value / 1000 else 0))
    else if |name| < |AFTER_PREFIX| then None
    else
      var index := Position(plan.keyColumns, name[|AFTER_PREFIX|..]);
      var index := if index.Some? then index.value else 0;
      if index < |key| then Some(key[index]) else None
  }

  /** `page_args`. */
  function PageArgs(plan: Plan, key: Key, now: int): (args: seq<Option<Value>>)
    ensures |args| == |plan.stmt.order|
  {
    seq(|plan.stmt.order|, k requires 0 <= k < |plan.stmt.order| => PageArg(plan, key, now, plan.stmt.order[k]))
  }

  /** What the argument called `name` is to be. */
  ghost predicate RightArg(plan: Plan, key: Key, now: int, name: string, arg: Option<Value>)
    requires |key| == |plan.keyColumns|
  {
    || (name == LIMIT_NAME && arg == Some(Int(plan.batchSize)))
    || (name == SETTLE_NAME && plan.settleMs.Some? && arg == Some(Int(now - plan.settleMs.value / 1000)))
    || (exists i :: 0 <= i < |key| && name == AFTER_PREFIX + plan.keyColumns[i]
                    && plan.keyColumns[i] !in plan.keyColumns[..i] && arg == Some(key[i]))
  }

  /**
   With an accepted spec and a key of one value per key column, every argument exists and
   is the limit, the settle time or the value of the key column its name spells: the
   fallback to column 0 is never taken.
   */
  lemma PageArgsAreRight(spec: Spec, checks: Checks, plan: Plan, key: Key, now: int, k: nat)
    requires Accepts(spec, checks) && PlanFits(spec, plan) && |key| == |plan.keyColumns|
    requires k < |plan.stmt.order|
    ensures RightArg(plan, key, now, plan.stmt.order[k], PageArgs(plan, key, now)[k])
  {
    var name := plan.stmt.order[k];
    assert name in Allowed(plan.keyColumns, plan.settleMs.Some?);
    if name != LIMIT_NAME && name != SETTLE_NAME {
      assert name in AfterNames(plan.keyColumns);
      var j :| 0 <= j < |plan.keyColumns| && name == AFTER_PREFIX + plan.keyColumns[j];
      var i := Position(plan.keyColumns, plan.keyColumns[j]).value;
      AfterArg(plan, key, now, plan.keyColumns[i], i);
    } else if name == SETTLE_NAME {
      NotAfterName(SETTLE_NAME, plan.keyColumns);
    }
  }

  lemma NotAfterName(name: string, columns: seq<string>)
    requires |name| > 1 && name[1] != 'a'
    ensures name !in AfterNames(columns)
  {
    forall i | 0 <= i < |columns|
      ensures AfterNames(columns)[i] != name
    {
      assert (AFTER_PREFIX + columns[i])[1] == 'a';
    }
  }

  /** The query sees the whole key: each column's value is bound, and by every use of its name. */
  lemma QuerySeesTheKey(spec: Spec, checks: Checks, plan: Plan, key: Key, now: int, i: nat)
    requires Accepts(spec, checks) && PlanFits(spec, plan) && |key| == |plan.keyColumns|
    requires i < |key| && plan.keyColumns[i] !in plan.keyColumns[..i]
    ensures AFTER_PREFIX + plan.keyColumns[i] in plan.stmt.order && LIMIT_NAME in plan.stmt.order
    ensures forall k :: 0 <= k < |plan.stmt.order| && plan.stmt.order[k] == AFTER_PREFIX + plan.keyColumns[i] ==>
              PageArgs(plan, key, now)[k] == Some(key[i])
    ensures SETTLE_NAME in plan.stmt.order <==> plan.settleMs.Some?
  {
    var names := Allowed(plan.keyColumns, plan.settleMs.Some?);
    assert names[i] == AFTER_PREFIX + plan.keyColumns[i] && names[|plan.keyColumns|] == LIMIT_NAME;
    NotAfterName(SETTLE_NAME, plan.keyColumns);
    NotAfterName(LIMIT_NAME, plan.keyColumns);
    if plan.settleMs.Some? {
      assert names[|plan.keyColumns| + 1] == SETTLE_NAME;
    }
    FirstPosition(plan.keyColumns, i);
    AfterArg(plan, key, now, plan.keyColumns[i], i);
  }

  /** The argument of a key column's placeholder. */
  lemma AfterArg(plan: Plan, key: Key, now: int, column: string, i: nat)
    requires Position(plan.keyColumns, column) == Some(i) && i < |key|
    ensures PageArg(plan, key, now, AFTER_PREFIX + column) == Some(key[i])
  {
    var name := AFTER_PREFIX + column;
    assert name[1] == 'a' && name[|AFTER_PREFIX|..] == column;
  }

  lemma FirstPosition(columns: seq<string>, i: nat)
    requires i < |columns| && columns[i] !in columns[..i]
    ensures Position(columns, columns[i]) == Some(i)
  {
  }

  /** The settle time is cut to whole seconds: a row can be read early unless it is a whole number of them. */
  lemma SettleIsCutToSeconds(plan: Plan, key: Key, now: int)
    requires plan.settleMs.Some?
    ensures var arg := PageArg(plan, key, now, SETTLE_NAME);
            && arg.Some? && arg.value.Int?
            && (arg.value.n * 1000 == now * 1000 - plan.settleMs.value <==> plan.settleMs.value % 1000 == 0)
            && 0 <= arg.value.n * 1000 - (now * 1000 - plan.settleMs.value) < 1000
  {
    var ms := plan.settleMs.value;
    assert ms == ms / 1000 * 1000 + ms % 1000;
  }

  /** With 1500 milliseconds, rows only one second old are read. */
  lemma SettleReadsEarly(plan: Plan, key: Key, now: int)
    ensures PageArg(plan.(settleMs := Some(1500)), key, now, SETTLE_NAME) == Some(Int(now - 1))
  {
  }

  // ---------------------------------------------------------------------
  // Rows
  // ---------------------------------------------------------------------

  datatype Cursor = Cursor(v: nat, k: Key)

  datatype Event = Event(op: ChangeOp, row: Row, cursor: Cursor)

  /** `row_key`: the values of the key columns, if none is missing or null. */
  function RowKey(columns: seq<string>, row: Row): (r: Option<Key>)
    ensures r.Some? <==> forall i :: 0 <= i < |columns| ==> columns[i] in row && row[columns[i]] != Null
    ensures r.Some? ==> |r.value| == |columns| &&
                        forall i :: 0 <= i < |columns| ==> columns[i] in row && r.value[i] == row[columns[i]]
  {
    if columns == [] then Some([])
    else
      var last := columns[|columns| - 1];
      if last !in row || row[last] == Null then None
      else
        var front := RowKey(columns[..|columns| - 1], row);
        if front.None? then None else Some(front.value + [row[last]])
  }

  function Lower(c: char): char {
    if 'A' <= c <= 'Z' then c - 'A' + 'a' else c
  }

  function LowerCase(s: string): string {
    seq(|s|, i requires 0 <= i < |s| => Lower(s[i]))
  }

  function OpOf(value: Value): Option<ChangeOp> {
    if !value.Str? then None
    else
      var text := LowerCase(value.s);
      if text == "insert" then Some(Insert)
      else if text == "update" then Some(Update)
      else if text == "delete" then Some(Delete)
      else None
  }

  /** `row_event`, without its id and time. */
  function RowEvent(plan: Plan, row: Row, key: Key): Option<Event> {
    var op :=
      if plan.opColumn.None? then Some(Insert)
      else if plan.opColumn.value in row then OpOf(row[plan.opColumn.value])
      else None;
    if op.None? then None else Some(Event(op.value, row, Cursor(CURSOR_VERSION, key)))
  }

  /** `resume_key`: the key of a stored cursor that fits the plan. */
  function ResumeKey(plan: Plan, cursor: Cursor): (r: Option<Key>)
    ensures r.Some? ==> cursor == Cursor(CURSOR_VERSION, r.value) && |r.value| == |plan.keyColumns|
    ensures r.None? ==> cursor.v != CURSOR_VERSION || |cursor.k| != |plan.keyColumns|
  {
    if cursor.v != CURSOR_VERSION || |cursor.k| != |plan.keyColumns| then None else Some(cursor.k)
  }

  /** `start_key`, given the rows of the latest query. */
  function StartKey(plan: Plan, rows: seq<Row>): (key: Key)
    requires |plan.initial| == |plan.keyColumns|
    ensures |key| == |plan.keyColumns|
  {
    if plan.latest.None? || plan.start != Latest || rows == [] then plan.initial
    else
      var key := RowKey(plan.keyColumns, rows[0]);
      if key.Some? then key.value else plan.initial
  }

  // ---------------------------------------------------------------------
  // The table
  // ---------------------------------------------------------------------

  /** The query's order on keys, and the size of an event as JSON. */
  datatype World = World(before: Order, size: Event -> nat)

  /** A row has the key of its place, or misses a key column. */
  predicate Faithful(plan: Plan, e: Entry) {
    var key := RowKey(plan.keyColumns, e.row);
    key.None? || key == Some(e.pos)
  }

  predicate Keyed(plan: Plan, e: Entry) {
    RowKey(plan.keyColumns, e.row) == Some(e.pos)
  }

  ghost predicate TableOk(plan: Plan, w: World, table: Table) {
    Sorted(w.before, table) && forall i :: 0 <= i < |table| ==> Faithful(plan, table[i])
  }

  /** The event of a row that is not skipped. */
  function Emits(plan: Plan, w: World, e: Entry): Option<Event> {
    var event := RowEvent(plan, e.row, e.pos);
    if event.Some? && w.size(event.value) <= MAX_EVENT_BYTES then event else None
  }

  /** The cursor of a row's event resumes at the row's key. */
  lemma CursorResumes(plan: Plan, w: World, e: Entry)
    requires Keyed(plan, e) && Emits(plan, w, e).Some?
    ensures ResumeKey(plan, Emits(plan, w, e).value.cursor) == Some(e.pos)
  {
  }

  /** The events of rows, in order, without the skipped ones. */
  function Events(plan: Plan, w: World, rows: Table): seq<Event> {
    if rows == [] then []
    else
      var front := Events(plan, w, rows[..|rows| - 1]);
      var event := Emits(plan, w, rows[|rows| - 1]);
      if event.Some? then front + [event.value] else front
  }

  // ---------------------------------------------------------------------
  // Events
  // ---------------------------------------------------------------------

  lemma {:induction false} EventsJoin(plan: Plan, w: World, a: Table, b: Table)
    ensures Events(plan, w, a + b) == Events(plan, w, a) + Events(plan, w, b)
    decreases |b|
  {
    if b == [] {
      assert a + b == a;
    } else {
      assert (a + b)[..|a + b| - 1] == a + b[..|b| - 1];
      EventsJoin(plan, w, a, b[..|b| - 1]);
    }
  }

  // ---------------------------------------------------------------------
  // Which rows are changes, and what is said of them
  // ---------------------------------------------------------------------

  function NameOf(op: ChangeOp): string {
    match op
    case Insert => "insert"
    case Update => "update"
    case Delete => "delete"
  }

  /** `text` is `name`, but that some of its letters are capitals. */
  predicate SameLetters(text: string, name: string) {
    && |text| == |name|
    && forall i :: 0 <= i < |text| ==>
         text[i] == name[i] || ('A' <= text[i] <= 'Z' && text[i] as int + 32 == name[i] as int)
  }

  /** The row names change `op`; without an op column every row is new. */
  predicate Says(plan: Plan, row: Row, op: ChangeOp) {
    match plan.opColumn
    case None => op == Insert
    case Some(column) => column in row && row[column].Str? && SameLetters(row[column].s, NameOf(op))
  }

  /** `event` is what a row gives: the change it names, the row itself and its key, if that is not too much. */
  predicate Gives(plan: Plan, w: World, e: Entry, event: Event) {
    && Says(plan, e.row, event.op) && event.row == e.row && event.cursor == Cursor(CURSOR_VERSION, e.pos)
    && w.size(event) <= MAX_EVENT_BYTES
  }

  /** `events` are what `rows` give, in order, and nothing else. */
  ghost predicate Delivers(plan: Plan, w: World, rows: Table, events: seq<Event>) {
    if rows == [] then events == []
    else
      var n, last := |rows| - 1, |events| - 1;
      if exists event :: Gives(plan, w, rows[n], event)
      then events != [] && Gives(plan, w, rows[n], events[last]) && Delivers(plan, w, rows[..n], events[..last])
      else Delivers(plan, w, rows[..n], events)
  }

  lemma LowerCaseIs(text: string, name: string)
    requires forall i :: 0 <= i < |name| ==> 'a' <= name[i] <= 'z'
    ensures LowerCase(text) == name <==> SameLetters(text, name)
  {
    if SameLetters(text, name) {
      assert forall i :: 0 <= i < |text| ==> LowerCase(text)[i] == name[i];
    } else if |text| == |name| {
      var i :| 0 <= i < |text| && Lower(text[i]) != name[i];
      assert LowerCase(text)[i] != name[i];
    }
  }

  /** `ChangeOp::of` gives exactly the change named, in any letter case. */
  lemma OpIsTheOneNamed(value: Value, op: ChangeOp)
    ensures OpOf(value) == Some(op) <==> value.Str? && SameLetters(value.s, NameOf(op))
  {
    if value.Str? {
      LowerCaseIs(value.s, "insert");
      LowerCaseIs(value.s, "update");
      LowerCaseIs(value.s, "delete");
    }
  }

  /** A row read gives exactly the event that says what it is. */
  lemma EmitsExactly(plan: Plan, w: World, e: Entry, event: Event)
    ensures Emits(plan, w, e) == Some(event) <==> Gives(plan, w, e, event)
  {
    if plan.opColumn.Some? && plan.opColumn.value in e.row {
      var value := e.row[plan.opColumn.value];
      OpIsTheOneNamed(value, event.op);
    }
  }

  lemma {:induction false} EventsAreDelivered(plan: Plan, w: World, rows: Table)
    ensures Delivers(plan, w, rows, Events(plan, w, rows))
    decreases |rows|
  {
    if rows != [] {
      var n := |rows| - 1;
      var front, event := Events(plan, w, rows[..n]), Emits(plan, w, rows[n]);
      EventsAreDelivered(plan, w, rows[..n]);
      forall other
        ensures event == Some(other) <==> Gives(plan, w, rows[n], other)
      {
        EmitsExactly(plan, w, rows[n], other);
      }
      if event.Some? {
        assert (front + [event.value])[..|front|] == front;
      }
    }
  }

  // ---------------------------------------------------------------------
  // One poll
  // ---------------------------------------------------------------------

  /** What one page query meets: rows, `extra` of them past the limit, an error, or a cancel. */
  datatype Reply = Rows(extra: nat, cancelled: bool) | Fails | CancelledFirst

  predicate Cancels(reply: Reply) {
    reply == CancelledFirst || (reply.Rows? && reply.cancelled)
  }

  datatype PollError = QueryFailed | RowWithoutKey

  predicate AllKeyed(plan: Plan, rows: Table) {
    forall e :: e in rows ==> Keyed(plan, e)
  }

  /** The first `n` of `rows` were read from `from`: the key is past them and their events were emitted. */
  ghost predicate HasRead(plan: Plan, w: World, rows: Table, from: Key, n: nat, key: Key, events: seq<Event>) {
    && n <= |rows| && AllKeyed(plan, rows[..n])
    && key == KeyPast(rows[..n], from)
    && events == Events(plan, w, rows[..n])
  }

  lemma EventsOneMore(plan: Plan, w: World, rows: Table, n: nat)
    requires n < |rows|
    ensures var event := Emits(plan, w, rows[n]);
            Events(plan, w, rows[..n + 1]) ==
            Events(plan, w, rows[..n]) + if event.Some? then [event.value] else []
  {
    var more := rows[..n + 1];
    assert more[..|more| - 1] == rows[..n] && more[|more| - 1] == rows[n];
  }

  lemma EventsOfOne(plan: Plan, w: World, e: Entry)
    ensures Events(plan, w, [e]) == if Emits(plan, w, e).Some? then [Emits(plan, w, e).value] else []
  {
    assert [e][..0] == [];
    assert Events(plan, w, []) == [];
  }

  /** Reading one more row. */
  lemma ReadOneMore(plan: Plan, w: World, rows: Table, from: Key, n: nat, key: Key, events: seq<Event>)
    requires HasRead(plan, w, rows, from, n, key, events) && n < |rows| && Keyed(plan, rows[n])
    ensures var event := Emits(plan, w, rows[n]);
            HasRead(plan, w, rows, from, n + 1, rows[n].pos, events + if event.Some? then [event.value] else [])
  {
    EventsOneMore(plan, w, rows, n);
  }

  lemma PageIsSlice(rows: Table, n: nat, page: Table)
    requires n <= |rows| && page <= rows[n..]
    ensures n + |page| <= |rows| && page == rows[n..n + |page|]
  {
  }

  class Watch {
    const plan: Plan
    const world: World
    var key: Key
    /** What the sink was given. */
    var sink: seq<Event>

    ghost predicate Valid()
      reads this
    {
      |key| == |plan.keyColumns| == |plan.initial| && 1 <= plan.batchSize <= MAX_BATCH_SIZE
    }

    constructor (plan: Plan, world: World, key: Key)
      requires |key| == |plan.keyColumns| == |plan.initial|
      requires 1 <= plan.batchSize <= MAX_BATCH_SIZE
      ensures Valid() && this.plan == plan && this.world == world && this.key == key && sink == []
    {
      this.plan, this.world, this.key, this.sink := plan, world, key, [];
    }

    /**
     `poll`. The rows after the key are read in order, `n` of them: the key is past the
     last one and exactly their events were emitted, fewer than `500 + batch_size` and so
     fewer than the host's queue holds. It stops early only for a cancel, an error, a row
     without its key (at that row), or once 500 events were emitted.
     */
    method Poll(table: Table, replies: nat -> Reply)
      returns (r: Result<(), PollError>, ghost n: nat, ghost events: seq<Event>)
      requires Valid() && Ordered(world.before) && TableOk(plan, world, table)
      modifies this
      ensures Valid() && sink == old(sink) + events
      ensures Reached(table, old(key), n, events)
      ensures |events| < MAX_ROWS_PER_TICK + plan.batchSize < HOST_QUEUE
      ensures r == Err(RowWithoutKey) ==> StopsAt(table, old(key), n)
      ensures r == Err(QueryFailed) ==> exists i: nat :: replies(i) == Fails
      ensures r.Ok? ==> n == |After(world.before, table, old(key))| || |events| >= MAX_ROWS_PER_TICK ||
                        exists i: nat :: Cancels(replies(i))
    {
      var before := |sink|;
      var call: nat := 0;
      ghost var base, from := sink, key;
      n, events := 0, [];
      NothingRead(table);
      while true
        invariant Valid() && before == |base| && |sink| - before < MAX_ROWS_PER_TICK
        invariant Since(base) && Reached(table, from, n, Given(base))
        decreases |After(world.before, table, from)| - n
      {
        var reply := replies(call);
        if reply == CancelledFirst {
          return Ok(()), n, Given(base);
        }
        if reply == Fails {
          return Err(QueryFailed), n, Given(base);
        }
        var full, keyed, m := OnePage(table, plan.batchSize + reply.extra, from, n, base);
        n := m;
        if !keyed {
          return Err(RowWithoutKey), n, Given(base);
        }
        if !full || |sink| - before >= MAX_ROWS_PER_TICK || reply.cancelled {
          return Ok(()), n, Given(base);
        }
        call := call + 1;
      }
    }

    ghost predicate Since(base: seq<Event>)
      reads this
    {
      base <= sink
    }

    /** What the sink was given since it was `base`. */
    ghost function Given(base: seq<Event>): (events: seq<Event>)
      requires Since(base)
      reads this
      ensures sink == base + events
    {
      sink[|base|..]
    }

    /** The first `n` rows after `from` were read, `events` emitted for them, and the rest is still after the key. */
    ghost predicate Reached(table: Table, from: Key, n: nat, events: seq<Event>)
      reads this
    {
      var rows := After(world.before, table, from);
      HasRead(plan, world, rows, from, n, key, events) && After(world.before, table, key) == rows[n..]
    }

    lemma NothingRead(table: Table)
      ensures Since(sink) && Given(sink) == [] && Reached(table, key, 0, Given(sink))
    {
    }

    /** The row after the first `n` has no key. */
    ghost predicate StopsAt(table: Table, from: Key, n: nat) {
      var rows := After(world.before, table, from);
      n < |rows| && RowKey(plan.keyColumns, rows[n].row) == None
    }

    /** One page: at most `batch_size` of the rows the query returned. */
    method OnePage(table: Table, limit: nat, ghost from: Key, ghost n: nat, ghost base: seq<Event>)
      returns (full: bool, keyed: bool, ghost m: nat)
      requires Valid() && Ordered(world.before) && TableOk(plan, world, table) && limit >= plan.batchSize
      requires Since(base) && Reached(table, from, n, Given(base))
      modifies this
      ensures Valid() && |sink| <= old(|sink|) + plan.batchSize
      ensures Since(base) && Reached(table, from, m, Given(base))
      ensures keyed && full ==> m > n
      ensures keyed && !full ==> m == |After(world.before, table, from)|
      ensures !keyed ==> StopsAt(table, from, m)
    {
      ghost var rows := After(world.before, table, from);
      RowsAreFaithful(table, from);
      var batch := Fetch(table, key, limit);
      full := |batch| >= plan.batchSize;
      var page := if full then batch[..plan.batchSize] else batch;
      PageIsSlice(rows, n, page);
      keyed, m := ReadPage(page, rows, from, n, base);
      AfterMoves(world.before, table, from, m);
    }

    /** The first `m` of `rows` were read, and gave what the sink was given since it was `base`. */
    ghost predicate Went(rows: Table, from: Key, m: nat, base: seq<Event>)
      reads this
    {
      Since(base) && HasRead(plan, world, rows, from, m, key, Given(base))
    }

    /** `page` is the part of `rows` from the `n`-th on. */
    ghost predicate IsPage(page: Table, rows: Table, n: nat) {
      n + |page| <= |rows| && page == rows[n..n + |page|] && forall e :: e in rows ==> Faithful(plan, e)
    }

    ghost predicate NoKeyAt(rows: Table, n: nat) {
      n < |rows| && RowKey(plan.keyColumns, rows[n].row) == None
    }

    /** The rows of one page, in order, up to one without its key. */
    method ReadPage(page: Table, ghost rows: Table, ghost from: Key, ghost n: nat, ghost base: seq<Event>)
      returns (keyed: bool, ghost m: nat)
      requires Valid() && IsPage(page, rows, n) && Went(rows, from, n, base)
      modifies this
      ensures Valid() && |sink| <= old(|sink|) + |page| && Went(rows, from, m, base)
      ensures if keyed then m == n + |page| else n <= m < n + |page| && NoKeyAt(rows, m)
    {
      m := n;
      for i := 0 to |page|
        invariant Valid() && m == n + i && |sink| <= old(|sink|) + i && Went(rows, from, m, base)
      {
        keyed := ReadNext(page, i, rows, from, n, base);
        if !keyed {
          return;
        }
        m := m + 1;
      }
      keyed := true;
    }

    method ReadNext(page: Table, i: nat, ghost rows: Table, ghost from: Key, ghost n: nat, ghost base: seq<Event>)
      returns (keyed: bool)
      requires Valid() && IsPage(page, rows, n) && i < |page| && Went(rows, from, n + i, base)
      modifies this
      ensures Valid() && |sink| <= old(|sink|) + 1
      ensures Went(rows, from, if keyed then n + i + 1 else n + i, base)
      ensures !keyed ==> NoKeyAt(rows, n + i)
    {
      assert page[i] == rows[n + i] && rows[n + i] in rows;
      keyed := ReadRow(page[i], rows, from, n + i, base);
    }

    /** One row: its event, unless it is skipped, and then its key. */
    method ReadRow(e: Entry, ghost rows: Table, ghost from: Key, ghost n: nat, ghost base: seq<Event>)
      returns (keyed: bool)
      requires Valid() && n < |rows| && e == rows[n] && Faithful(plan, e) && Went(rows, from, n, base)
      modifies this
      ensures Valid() && |sink| <= old(|sink|) + 1
      ensures keyed <==> RowKey(plan.keyColumns, e.row).Some?
      ensures Went(rows, from, if keyed then n + 1 else n, base)
      ensures !keyed ==> key == old(key) && sink == old(sink)
      ensures keyed ==> key == e.pos && sink == old(sink) + Events(plan, world, [e])
    {
      var next := RowKey(plan.keyColumns, e.row);
      if next.None? {
        return false;
      }
      ghost var given := Given(base);
      ReadOneMore(plan, world, rows, from, n, key, given);
      EventsOfOne(plan, world, e);
      var event := RowEvent(plan, e.row, next.value);
      if event.Some? && world.size(event.value) <= MAX_EVENT_BYTES {
        sink := sink + [event.value];
      }
      key := next.value;
      GivenMore(base, given, old(sink), Emits(plan, world, e));
      keyed := true;
    }

    lemma GivenMore(base: seq<Event>, given: seq<Event>, before: seq<Event>, event: Option<Event>)
      requires before == base + given && sink == before + if event.Some? then [event.value] else []
      ensures Since(base) && Given(base) == given + if event.Some? then [event.value] else []
    {
    }

    lemma RowsAreFaithful(table: Table, from: Key)
      requires Ordered(world.before) && TableOk(plan, world, table)
      ensures forall e :: e in After(world.before, table, from) ==> Faithful(plan, e)
    {
      var at := AfterIsRest(world.before, table, from);
      forall e | e in table[at..]
        ensures Faithful(plan, e)
      {
        var i :| 0 <= i < |table[at..]| && table[at..][i] == e;
        assert table[at + i] == e;
      }
    }

    /** The page query: the first `limit` rows after `key`. */
    function Fetch(table: Table, key: Key, limit: nat): (rows: Table)
      ensures rows <= After(world.before, table, key)
      ensures |rows| == limit || (|rows| < limit && rows == After(world.before, table, key))
    {
      var rows := After(world.before, table, key);
      if |rows| <= limit then rows else rows[..limit]
    }
  }
}
