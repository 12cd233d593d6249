/**
 Transaction groups: several statements on one transaction handle, all applied or none.
 The database is any type with a meaning for each statement.
 */
module Transaction {
  import opened Wrappers
  import opened Keyset
  import Params
  import ParamsText

  type Bound = seq<(string, Value)>

  /** What a statement gives; `rows` is none when a row does not decode. */
  datatype Batch = Batch(rows: Option<seq<Value>>, affected: nat)

  /** A statement inside a transaction: refused by the server, or run. */
  datatype Ran<D> = Refused(after: D) | Ran(after: D, batch: Batch)

  /** The meaning of statements, and the first column of a row. */
  datatype Env<!D> = Env(run: (Params.PreparedStmt, Bound, D) -> Ran<D>, scalar: Value -> Value)

  datatype Mode = AffectedRows | Many | Single | Scalar | OtherMode(name: string)

  datatype Step = Step(id: string, sql: string, params: seq<string>, mode: Mode)

  datatype Shaped = Affected(n: nat) | Rows(rows: seq<Value>) | One(value: Value)

  /** How the server answers a commit. With the reply lost it is applied all the same. */
  datatype CommitFate = Committed | NotCommitted | ReplyLost

  datatype TxError = BeginFailed | StepFailed(id: string) | CommitFailed | AlreadyClosed | StatementFailed

  // ---------------------------------------------------------------------
  // The handle
  // ---------------------------------------------------------------------

  class Database<D> {
    var committed: D
    /** Transactions ended: committed, rolled back or dropped. */
    var ends: nat

    constructor (d: D)
      ensures committed == d && ends == 0
    {
      committed, ends := d, 0;
    }
  }

  /** A transaction: `inner` is its view of the data, and none once it ended. */
  class TxHandle<D> {
    const db: Database<D>
    var inner: Option<D>

    constructor (db: Database<D>)
      ensures this.db == db && inner == Some(db.committed)
    {
      this.db, inner := db, Some(db.committed);
    }

    method Take() returns (tx: Option<D>)
      modifies this
      ensures tx == old(inner) && inner == None
    {
      tx := inner;
      inner := None;
    }

    /** `execute`: a row that does not decode drops the transaction, which rolls it back. */
    method Execute(env: Env<D>, stmt: Params.PreparedStmt, args: Bound) returns (r: Result<seq<Value>, TxError>)
      modifies this, db
      ensures db.committed == old(db.committed)
      ensures old(inner).None? ==> r == Err(AlreadyClosed) && inner.None? && db.ends == old(db.ends)
      ensures old(inner).Some? ==>
                var ran := env.run(stmt, args, old(inner).value);
                var kept := ran.Refused? || ran.batch.rows.Some?;
                && inner == (if kept then Some(ran.after) else None)
                && db.ends == old(db.ends) + (if kept then 0 else 1)
                && r == (if ran.Ran? && kept then Ok(ran.batch.rows.value) else Err(StatementFailed))
    {
      var tx := Take();
      if tx.None? {
        return Err(AlreadyClosed);
      }
      var ran := env.run(stmt, args, tx.value);
      if ran.Refused? {
        inner := Some(ran.after);
        return Err(StatementFailed);
      }
      if ran.batch.rows.None? {
        db.ends := db.ends + 1;
        return Err(StatementFailed);
      }
      inner := Some(ran.after);
      r := Ok(ran.batch.rows.value);
    }

    method ExecuteAffected(env: Env<D>, stmt: Params.PreparedStmt, args: Bound) returns (r: Result<nat, TxError>)
      modifies this
      ensures old(inner).None? ==> r == Err(AlreadyClosed) && inner.None?
      ensures old(inner).Some? ==>
                var ran := env.run(stmt, args, old(inner).value);
                && inner == Some(ran.after)
                && r == (if ran.Ran? then Ok(ran.batch.affected) else Err(StatementFailed))
    {
      var tx := Take();
      if tx.None? {
        return Err(AlreadyClosed);
      }
      var ran := env.run(stmt, args, tx.value);
      inner := Some(ran.after);
      r := if ran.Ran? then Ok(ran.batch.affected) else Err(StatementFailed);
    }

    method Commit(fate: CommitFate) returns (r: Result<(), TxError>)
      modifies this, db
      ensures inner.None?
      ensures old(inner).None? ==>
                r == Err(AlreadyClosed) && db.committed == old(db.committed) && db.ends == old(db.ends)
      ensures old(inner).Some? ==>
                && db.ends == old(db.ends) + 1
                && db.committed == (if fate == NotCommitted then old(db.committed) else old(inner).value)
                && r == (if fate == Committed then Ok(()) else Err(CommitFailed))
    {
      var tx := Take();
      if tx.None? {
        return Err(AlreadyClosed);
      }
      db.ends := db.ends + 1;
      if fate != NotCommitted {
        db.committed := tx.value;
      }
      r := if fate == Committed then Ok(()) else Err(CommitFailed);
    }

    /** `rollback`; with or without the server's answer the transaction is gone. */
    method Rollback(answered: bool) returns (r: Result<(), TxError>)
      modifies this, db
      ensures inner.None? && db.committed == old(db.committed)
      ensures db.ends == old(db.ends) + if old(inner).Some? then 1 else 0
      ensures r.Ok? <==> old(inner).Some? && answered
    {
      var tx := Take();
      if tx.None? {
        return Err(AlreadyClosed);
      }
      db.ends := db.ends + 1;
      r := if answered then Ok(()) else Err(StatementFailed);
    }
  }

  // ---------------------------------------------------------------------
  // One step
  // ---------------------------------------------------------------------

  /** `args` are the values of `order` in `input`, name by name. */
  ghost predicate IsBound(input: Params.Args<Value>, order: seq<string>, args: Bound) {
    && !input.OtherJson? && |args| == |order|
    && forall k :: 0 <= k < |order| ==>
         input.Object? && order[k] in input.fields && args[k] == (order[k], input.fields[order[k]])
  }

  /** What mode `mode` makes of a batch. */
  ghost predicate ShapedBy<D>(env: Env<D>, mode: Mode, batch: Batch, out: Shaped) {
    match mode
    case AffectedRows => out == Affected(batch.affected)
    case Many => batch.rows.Some? && out == Rows(batch.rows.value)
    case Single =>
      batch.rows.Some? && out == One(if batch.rows.value == [] then Null else batch.rows.value[0])
    case Scalar =>
      batch.rows.Some? && out == One(if batch.rows.value == [] then Null else env.scalar(batch.rows.value[0]))
    case OtherMode(_) => false
  }

  /** The statement of a step: it binds the names in its SQL, or else those it lists. */
  function StatementOf(driver: Params.Driver, step: Step): Params.PreparedStmt {
    var order := Params.OrderOf(step.sql);
    Params.PreparedStmt(Params.Rewritten(step.sql, driver), if order == [] then step.params else order)
  }

  /** Where the SQL names its parameters, each placeholder sent is bound to the value of its own name. */
  lemma StatementBindsItsNames(driver: Params.Driver, step: Step)
    requires Params.Ascii(step.sql) && (Params.OrderOf(step.sql) != [] || step.params == [])
    ensures var stmt := StatementOf(driver, step);
            ParamsText.Rewrites(step.sql, 0, 0, stmt.order, driver, stmt.sql)
  {
    ParamsText.RewritesExactly(step.sql, driver);
  }

  ghost predicate RunsWith<D>(
    env: Env<D>, stmt: Params.PreparedStmt, args: Bound, mode: Mode, d: D, after: D, out: Shaped)
  {
    var ran := env.run(stmt, args, d);
    ran.Ran? && after == ran.after && ShapedBy(env, mode, ran.batch, out)
  }

  /** The server refuses the statement, or a row that is needed does not decode. */
  ghost predicate FailsWith<D>(env: Env<D>, stmt: Params.PreparedStmt, args: Bound, mode: Mode, d: D) {
    var ran := env.run(stmt, args, d);
    ran.Refused? || (mode != AffectedRows && ran.batch.rows.None?)
  }

  /** On `d` the step's statement runs with its parameters bound, leaves `after` and gives `out`. */
  ghost predicate Runs<D>(
    env: Env<D>, driver: Params.Driver, input: Params.Args<Value>, step: Step, d: D, after: D, out: Shaped)
  {
    var stmt := StatementOf(driver, step);
    exists args :: IsBound(input, stmt.order, args) && RunsWith(env, stmt, args, step.mode, d, after, out)
  }

  /** Its parameters cannot be bound, its mode is unknown, or its statement fails. */
  ghost predicate Fails<D>(env: Env<D>, driver: Params.Driver, input: Params.Args<Value>, step: Step, d: D) {
    var stmt := StatementOf(driver, step);
    step.mode.OtherMode? || forall args :: IsBound(input, stmt.order, args) ==> FailsWith(env, stmt, args, step.mode, d)
  }

  lemma BoundOnce(input: Params.Args<Value>, order: seq<string>, a: Bound, b: Bound)
    requires IsBound(input, order, a) && IsBound(input, order, b)
    ensures a == b
  {
  }

  /** A step runs in one way only. */
  lemma RunsOnce<D>(
    env: Env<D>, driver: Params.Driver, input: Params.Args<Value>, step: Step, d: D, a: D, x: Shaped, b: D, y: Shaped)
    requires Runs(env, driver, input, step, d, a, x) && Runs(env, driver, input, step, d, b, y)
    ensures a == b && x == y
  {
    var stmt := StatementOf(driver, step);
    var p :| IsBound(input, stmt.order, p) && RunsWith(env, stmt, p, step.mode, d, a, x);
    var q :| IsBound(input, stmt.order, q) && RunsWith(env, stmt, q, step.mode, d, b, y);
    BoundOnce(input, stmt.order, p, q);
  }

  lemma NotBoth<D>(
    env: Env<D>, driver: Params.Driver, input: Params.Args<Value>, step: Step, d: D, after: D, out: Shaped)
    requires Runs(env, driver, input, step, d, after, out)
    ensures !Fails(env, driver, input, step, d)
  {
  }

  /** The shape of a batch that did not fail. */
  function ShapeOf<D>(env: Env<D>, mode: Mode, batch: Batch): (out: Shaped)
    requires !mode.OtherMode? && (mode == AffectedRows || batch.rows.Some?)
    ensures ShapedBy(env, mode, batch, out)
  {
    if mode == AffectedRows then Affected(batch.affected)
    else
      var rows := batch.rows.value;
      if mode == Many then Rows(rows)
      else if rows == [] then One(Null)
      else if mode == Scalar then One(env.scalar(rows[0]))
      else One(rows[0])
  }

  /** A step runs, or it fails for one of those reasons. */
  lemma EitherRunsOrFails<D>(env: Env<D>, driver: Params.Driver, input: Params.Args<Value>, step: Step, d: D)
    ensures Fails(env, driver, input, step, d) <==>
            forall after: D, out: Shaped :: !Runs(env, driver, input, step, d, after, out)
  {
    var stmt := StatementOf(driver, step);
    if !Fails(env, driver, input, step, d) {
      var args :| IsBound(input, stmt.order, args) && !FailsWith(env, stmt, args, step.mode, d);
      var ran := env.run(stmt, args, d);
      var out := ShapeOf(env, step.mode, ran.batch);
      assert RunsWith(env, stmt, args, step.mode, d, ran.after, out);
      assert Runs(env, driver, input, step, d, ran.after, out);
    }
  }

  /** `run_tx_nested_step`. It ends the transaction only where it fails; a closed one it leaves closed. */
  method RunNestedStep<D>(
    handle: TxHandle<D>, env: Env<D>, driver: Params.Driver, input: Params.Args<Value>, step: Step)
    returns (r: Result<Shaped, TxError>)
    modifies handle, handle.db
    ensures handle.db.committed == old(handle.db.committed)
    ensures handle.db.ends == old(handle.db.ends) + if old(handle.inner).Some? && handle.inner.None? then 1 else 0
    ensures old(handle.inner).None? ==> r.Err? && handle.inner.None?
    ensures old(handle.inner).Some? && r.Ok? ==>
              handle.inner.Some? &&
              Runs(env, driver, input, step, old(handle.inner).value, handle.inner.value, r.value)
    ensures old(handle.inner).Some? && r.Err? ==> Fails(env, driver, input, step, old(handle.inner).value)
  {
    var sql, order := Params.RewritePlaceholders(step.sql, driver);
    if order == [] {
      order := step.params;
    }
    var args := Params.CollectBoundParams(input, order);
    var stmt := Params.PreparedStmt(sql, order);
    assert stmt == StatementOf(driver, step);
    if args.Err? {
      NotBound(input, order);
      return Err(StatementFailed);
    }
    if step.mode.OtherMode? {
      return Err(StatementFailed);
    }
    r := RunStatement(handle, env, stmt, args.value, step.mode);
    ghost var d := old(handle.inner);
    if d.Some? {
      StatementDecides(env, driver, input, step, args.value, d.value);
    }
  }

  predicate CanBind(input: Params.Args<Value>, order: seq<string>) {
    (input.Null? && order == []) || (input.Object? && forall k :: 0 <= k < |order| ==> order[k] in input.fields)
  }

  lemma BoundMeansCan(input: Params.Args<Value>, order: seq<string>, args: Bound)
    requires IsBound(input, order, args)
    ensures CanBind(input, order)
  {
    if order != [] {
      assert args[0].0 == order[0] && input.Object?;
      forall k | 0 <= k < |order|
        ensures order[k] in input.fields
      {
        assert args[k].0 == order[k];
      }
    }
  }

  lemma NotBound(input: Params.Args<Value>, order: seq<string>)
    requires !CanBind(input, order)
    ensures forall args :: !IsBound(input, order, args)
  {
    forall args: Bound
      ensures !IsBound(input, order, args)
    {
      if IsBound(input, order, args) {
        BoundMeansCan(input, order, args);
      }
    }
  }

  lemma StatementDecides<D>(
    env: Env<D>, driver: Params.Driver, input: Params.Args<Value>, step: Step, args: Bound, d: D)
    requires IsBound(input, StatementOf(driver, step).order, args)
    ensures FailsWith(env, StatementOf(driver, step), args, step.mode, d) ==> Fails(env, driver, input, step, d)
    ensures forall after, out :: RunsWith(env, StatementOf(driver, step), args, step.mode, d, after, out) ==>
              Runs(env, driver, input, step, d, after, out)
  {
    forall other | IsBound(input, StatementOf(driver, step).order, other)
      ensures other == args
    {
      BoundOnce(input, StatementOf(driver, step).order, other, args);
    }
  }

  /** The `row_mode` arms. */
  method RunStatement<D>(handle: TxHandle<D>, env: Env<D>, stmt: Params.PreparedStmt, args: Bound, mode: Mode)
    returns (r: Result<Shaped, TxError>)
    requires !mode.OtherMode?
    modifies handle, handle.db
    ensures handle.db.committed == old(handle.db.committed)
    ensures handle.db.ends == old(handle.db.ends) + if old(handle.inner).Some? && handle.inner.None? then 1 else 0
    ensures old(handle.inner).None? ==> r.Err? && handle.inner.None?
    ensures old(handle.inner).Some? && r.Ok? ==>
              handle.inner.Some? &&
              RunsWith(env, stmt, args, mode, old(handle.inner).value, handle.inner.value, r.value)
    ensures old(handle.inner).Some? && r.Err? ==> FailsWith(env, stmt, args, mode, old(handle.inner).value)
  {
    if mode == AffectedRows {
      var n := handle.ExecuteAffected(env, stmt, args);
      return if n.Ok? then Ok(Affected(n.value)) else Err(n.error);
    }
    var rows := handle.Execute(env, stmt, args);
    if rows.Err? {
      return Err(rows.error);
    }
    r := Ok(
      if mode == Many then Rows(rows.value)
      else if rows.value == [] then One(Null)
      else if mode == Scalar then One(env.scalar(rows.value[0]))
      else One(rows.value[0]));
  }

  // ---------------------------------------------------------------------
  // The group
  // ---------------------------------------------------------------------

  /** One step after the other, from `ds[0]` to the last of `ds`. */
  ghost predicate Trace<D>(
    env: Env<D>, driver: Params.Driver, input: Params.Args<Value>, steps: seq<Step>, ds: seq<D>, outs: seq<Shaped>)
  {
    && |ds| == |steps| + 1 && |outs| == |steps|
    && forall k :: 0 <= k < |steps| ==> Runs(env, driver, input, steps[k], ds[k], ds[k + 1], outs[k])
  }

  ghost predicate LastOfId(steps: seq<Step>, k: nat) {
    k < |steps| && forall j :: k < j < |steps| ==> steps[j].id != steps[k].id
  }

  /** Each id has what the last step of that id gave, and nothing else has a result. */
  ghost predicate ById(steps: seq<Step>, outs: seq<Shaped>, results: map<string, Shaped>) {
    && |outs| == |steps|
    && (forall k: nat :: LastOfId(steps, k) ==> steps[k].id in results && results[steps[k].id] == outs[k])
    && (forall id :: id in results ==> exists k :: 0 <= k < |steps| && steps[k].id == id)
  }

  /** All statements ran, in order, from `d` to `end`. */
  ghost predicate AllRan<D(!new)>(
    env: Env<D>, driver: Params.Driver, input: Params.Args<Value>, steps: seq<Step>, d: D, end: D,
    results: map<string, Shaped>)
  {
    exists ds, outs :: Trace(env, driver, input, steps, ds, outs) && ds[0] == d && ds[|steps|] == end &&
                       ById(steps, outs, results)
  }

  /** From `d` the steps before the `k`-th ran, and that one fails. */
  ghost predicate StopsAt<D(!new)>(
    env: Env<D>, driver: Params.Driver, input: Params.Args<Value>, steps: seq<Step>, d: D, k: nat)
  {
    k < |steps| && exists ds, outs :: Trace(env, driver, input, steps[..k], ds, outs) && ds[0] == d &&
                                      Fails(env, driver, input, steps[k], ds[k])
  }

  lemma ByIdMore(steps: seq<Step>, outs: seq<Shaped>, results: map<string, Shaped>, last: Step, out: Shaped)
    requires ById(steps, outs, results)
    ensures ById(steps + [last], outs + [out], results[last.id := out])
  {
    var all, more := steps + [last], results[last.id := out];
    forall k: nat | LastOfId(all, k)
      ensures all[k].id in more && more[all[k].id] == (outs + [out])[k]
    {
      if k < |steps| {
        assert forall j :: k < j < |steps| ==> all[j] == steps[j];
        assert all[|steps|] == last;
        assert LastOfId(steps, k);
      }
    }
    forall id | id in more
      ensures exists k :: 0 <= k < |all| && all[k].id == id
    {
      if id == last.id {
        assert all[|steps|].id == id;
      } else {
        var k :| 0 <= k < |steps| && steps[k].id == id;
        assert all[k].id == id;
      }
    }
  }

  lemma TraceMore<D>(
    env: Env<D>, driver: Params.Driver, input: Params.Args<Value>, steps: seq<Step>, ds: seq<D>, outs: seq<Shaped>,
    last: Step, after: D, out: Shaped)
    requires Trace(env, driver, input, steps, ds, outs) && Runs(env, driver, input, last, ds[|steps|], after, out)
    ensures Trace(env, driver, input, steps + [last], ds + [after], outs + [out])
  {
    var all, ends, values := steps + [last], ds + [after], outs + [out];
    forall k | 0 <= k < |all|
      ensures Runs(env, driver, input, all[k], ends[k], ends[k + 1], values[k])
    {
      if k < |steps| {
        assert Runs(env, driver, input, steps[k], ds[k], ds[k + 1], outs[k]);
      }
    }
  }

  lemma TraceFront<D>(
    env: Env<D>, driver: Params.Driver, input: Params.Args<Value>, steps: seq<Step>, ds: seq<D>, outs: seq<Shaped>,
    k: nat)
    requires Trace(env, driver, input, steps, ds, outs) && k <= |steps|
    ensures Trace(env, driver, input, steps[..k], ds[..k + 1], outs[..k])
  {
    forall j | 0 <= j < k
      ensures Runs(env, driver, input, steps[..k][j], ds[..k + 1][j], ds[..k + 1][j + 1], outs[..k][j])
    {
      assert Runs(env, driver, input, steps[j], ds[j], ds[j + 1], outs[j]);
    }
  }

  lemma SameButLast<T>(a: seq<T>, b: seq<T>)
    requires |a| == |b| > 0 && a[..|a| - 1] == b[..|a| - 1] && a[|a| - 1] == b[|a| - 1]
    ensures a == b
  {
    assert a == a[..|a| - 1] + [a[|a| - 1]] && b == b[..|a| - 1] + [b[|a| - 1]];
  }

  /** From the same data the steps run in one way only. */
  lemma {:induction false} TraceOnce<D>(
    env: Env<D>, driver: Params.Driver, input: Params.Args<Value>, steps: seq<Step>, ds: seq<D>, outs: seq<Shaped>,
    es: seq<D>, others: seq<Shaped>)
    requires Trace(env, driver, input, steps, ds, outs) && Trace(env, driver, input, steps, es, others)
    requires ds[0] == es[0]
    ensures ds == es && outs == others
    decreases |steps|
  {
    if steps != [] {
      var n := |steps| - 1;
      TraceFront(env, driver, input, steps, ds, outs, n);
      TraceFront(env, driver, input, steps, es, others, n);
      TraceOnce(env, driver, input, steps[..n], ds[..n + 1], outs[..n], es[..n + 1], others[..n]);
      assert ds[n] == ds[..n + 1][n] == es[n];
      RunsOnce(env, driver, input, steps[n], ds[n], ds[n + 1], outs[n], es[n + 1], others[n]);
      SameButLast(ds, es);
      SameButLast(outs, others);
    }
  }

  lemma LastOf(steps: seq<Step>, k: nat) returns (last: nat)
    requires k < |steps|
    ensures LastOfId(steps, last) && steps[last].id == steps[k].id
    decreases |steps| - k
  {
    last := k;
    if j :| k < j < |steps| && steps[j].id == steps[k].id {
      last := LastOf(steps, j);
    }
  }

  lemma ResultsOnce(steps: seq<Step>, outs: seq<Shaped>, a: map<string, Shaped>, b: map<string, Shaped>)
    requires ById(steps, outs, a) && ById(steps, outs, b)
    ensures a == b
  {
    forall id | id in a || id in b
      ensures id in a && id in b && a[id] == b[id]
    {
      var k :| 0 <= k < |steps| && steps[k].id == id;
      k := LastOf(steps, k);
      assert LastOfId(steps, k);
    }
  }

  /** What a group does to given data is determined. */
  lemma AllRanOnce<D(!new)>(
    env: Env<D>, driver: Params.Driver, input: Params.Args<Value>, steps: seq<Step>, d: D, ds: seq<D>,
    outs: seq<Shaped>, end: D, results: map<string, Shaped>)
    requires Trace(env, driver, input, steps, ds, outs) && ds[0] == d
    requires AllRan(env, driver, input, steps, d, end, results)
    ensures end == ds[|steps|] && ById(steps, outs, results)
  {
    var es, others :| Trace(env, driver, input, steps, es, others) && es[0] == d && es[|steps|] == end &&
                      ById(steps, others, results);
    TraceOnce(env, driver, input, steps, ds, outs, es, others);
  }

  /** Where a step fails the group does not run, and no other step is the first to fail. */
  lemma FailureUndoes<D(!new)>(
    env: Env<D>, driver: Params.Driver, input: Params.Args<Value>, steps: seq<Step>, d: D, k: nat)
    requires StopsAt(env, driver, input, steps, d, k)
    ensures forall end, results :: !AllRan(env, driver, input, steps, d, end, results)
    ensures forall j: nat :: StopsAt(env, driver, input, steps, d, j) ==> j == k
  {
    forall end, results
      ensures !AllRan(env, driver, input, steps, d, end, results)
    {
      if AllRan(env, driver, input, steps, d, end, results) {
        var ds, outs :| Trace(env, driver, input, steps, ds, outs) && ds[0] == d && ds[|steps|] == end &&
                        ById(steps, outs, results);
        assert steps[..|steps|] == steps;
        DoesNotStop(env, driver, input, steps, d, k, |steps|, ds, outs);
      }
    }
    forall j: nat | StopsAt(env, driver, input, steps, d, j)
      ensures j == k
    {
      OneStop(env, driver, input, steps, d, j, k);
      OneStop(env, driver, input, steps, d, k, j);
    }
  }

  /** A group that ran up to step `n` did not stop before it. */
  lemma DoesNotStop<D(!new)>(
    env: Env<D>, driver: Params.Driver, input: Params.Args<Value>, steps: seq<Step>, d: D, k: nat, n: nat,
    es: seq<D>, others: seq<Shaped>)
    requires n <= |steps| && StopsAt(env, driver, input, steps, d, k)
    requires Trace(env, driver, input, steps[..n], es, others) && es[0] == d
    ensures k >= n
  {
    var ds, outs :| Trace(env, driver, input, steps[..k], ds, outs) && ds[0] == d &&
                    Fails(env, driver, input, steps[k], ds[k]);
    if k < n {
      TraceFront(env, driver, input, steps[..n], es, others, k);
      assert steps[..n][..k] == steps[..k];
      TraceOnce(env, driver, input, steps[..k], ds, outs, es[..k + 1], others[..k]);
      assert es[k] == es[..k + 1][k] == ds[k] && steps[..n][k] == steps[k];
      NotBoth(env, driver, input, steps[k], ds[k], es[k + 1], others[k]);
    }
  }

  lemma OneStop<D(!new)>(
    env: Env<D>, driver: Params.Driver, input: Params.Args<Value>, steps: seq<Step>, d: D, j: nat, k: nat)
    requires StopsAt(env, driver, input, steps, d, j) && StopsAt(env, driver, input, steps, d, k)
    ensures j >= k
  {
    var ds, outs :| Trace(env, driver, input, steps[..k], ds, outs) && ds[0] == d &&
                    Fails(env, driver, input, steps[k], ds[k]);
    DoesNotStop(env, driver, input, steps, d, j, k, ds, outs);
  }

  /** How the outside world behaves during one group. */
  datatype Fate = Fate(begins: bool, rollbackAnswered: bool, commit: CommitFate)

  /**
   `execute_transaction`. If it succeeds, or the data changed, every statement ran in order
   and the data is what the last one left, with each step's result under its id. If all of
   them run, it succeeds exactly when the commit is answered, and the data is as they left it
   unless the commit was not taken. If one fails, the data is as it was and the error names
   that step. A transaction that began is ended exactly once.
   */
  method ExecuteTransaction<D(!new)>(
    db: Database<D>, env: Env<D>, driver: Params.Driver, input: Params.Args<Value>, steps: seq<Step>, fate: Fate)
    returns (r: Result<map<string, Shaped>, TxError>)
    modifies db
    ensures r.Ok? ==> AllRan(env, driver, input, steps, old(db.committed), db.committed, r.value)
    ensures db.committed != old(db.committed) ==>
              exists results :: AllRan(env, driver, input, steps, old(db.committed), db.committed, results)
    ensures forall end, results :: AllRan(env, driver, input, steps, old(db.committed), end, results) ==>
              && (r.Ok? <==> fate.begins && fate.commit == Committed)
              && db.committed == (if fate.begins && fate.commit != NotCommitted then end else old(db.committed))
    ensures forall k: nat :: StopsAt(env, driver, input, steps, old(db.committed), k) ==>
              && db.committed == old(db.committed)
              && r == Err(if fate.begins then StepFailed(steps[k].id) else BeginFailed)
    ensures db.ends == old(db.ends) + if fate.begins then 1 else 0
  {
    if !fate.begins {
      return Err(BeginFailed);
    }
    var handle := new TxHandle(db);
    ghost var start := db.committed;
    ghost var ds, outs := [start], [];
    var results := map[];
    for i := 0 to |steps|
      invariant handle.db == db && fresh(handle) && handle.inner.Some?
      invariant db.committed == start && db.ends == old(db.ends)
      invariant RanSoFar(env, driver, input, steps, i, start, ds, outs, handle.inner.value, results)
    {
      var step := RunNestedStep(handle, env, driver, input, steps[i]);
      if step.Err? {
        assert StopsAt(env, driver, input, steps, start, i);
        FailureUndoes(env, driver, input, steps, start, i);
        var rolledBack := handle.Rollback(fate.rollbackAnswered);
        return Err(StepFailed(steps[i].id));
      }
      RanMore(env, driver, input, steps, i, start, ds, outs, results, handle.inner.value, step.value);
      ds, outs := ds + [handle.inner.value], outs + [step.value];
      results := results[steps[i].id := step.value];
    }
    RanToTheEnd(env, driver, input, steps, start, ds, outs, handle.inner.value, results);
    var committed := handle.Commit(fate.commit);
    r := if committed.Ok? then Ok(results) else Err(CommitFailed);
  }

  /** The first `i` steps ran from `d` to `now`, with `results`. */
  ghost predicate RanSoFar<D>(
    env: Env<D>, driver: Params.Driver, input: Params.Args<Value>, steps: seq<Step>, i: nat, d: D, ds: seq<D>,
    outs: seq<Shaped>, now: D, results: map<string, Shaped>)
  {
    && i <= |steps| && Trace(env, driver, input, steps[..i], ds, outs) && ds[0] == d && ds[i] == now
    && ById(steps[..i], outs, results)
  }

  lemma RanMore<D>(
    env: Env<D>, driver: Params.Driver, input: Params.Args<Value>, steps: seq<Step>, i: nat, d: D, ds: seq<D>,
    outs: seq<Shaped>, results: map<string, Shaped>, after: D, out: Shaped)
    requires i < |steps| && |ds| == i + 1 && RanSoFar(env, driver, input, steps, i, d, ds, outs, ds[i], results)
    requires Runs(env, driver, input, steps[i], ds[i], after, out)
    ensures RanSoFar(
              env, driver, input, steps, i + 1, d, ds + [after], outs + [out], after, results[steps[i].id := out])
  {
    assert steps[..i] + [steps[i]] == steps[..i + 1];
    TraceMore(env, driver, input, steps[..i], ds, outs, steps[i], after, out);
    ByIdMore(steps[..i], outs, results, steps[i], out);
  }

  lemma RanToTheEnd<D(!new)>(
    env: Env<D>, driver: Params.Driver, input: Params.Args<Value>, steps: seq<Step>, d: D, ds: seq<D>,
    outs: seq<Shaped>, now: D, results: map<string, Shaped>)
    requires RanSoFar(env, driver, input, steps, |steps|, d, ds, outs, now, results)
    ensures AllRan(env, driver, input, steps, d, now, results)
    ensures forall end, other :: AllRan(env, driver, input, steps, d, end, other) ==> end == now
    ensures forall k: nat :: !StopsAt(env, driver, input, steps, d, k)
  {
    assert steps[..|steps|] == steps;
    forall end, other | AllRan(env, driver, input, steps, d, end, other)
      ensures end == now
    {
      AllRanOnce(env, driver, input, steps, d, ds, outs, end, other);
    }
    forall k: nat
      ensures !StopsAt(env, driver, input, steps, d, k)
    {
      if StopsAt(env, driver, input, steps, d, k) {
        assert steps[..|steps|] == steps;
        DoesNotStop(env, driver, input, steps, d, k, |steps|, ds, outs);
      }
    }
  }
}
