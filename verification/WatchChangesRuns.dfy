/**
 Whole runs of a `sql_changes` watch: the table grows, polls read, the host stores what
 it was given, and the watch is restarted from what the host stored.
 */
module WatchChangesRuns {
  import opened Wrappers
  import opened Keyset
  import opened WatchChanges
  import StatementScan
  import Params

  /** `pending` events were emitted and not stored: a restart loses them. */
  datatype State = State(table: Table, start: Key, key: Key, stored: seq<Event>, pending: seq<Event>)

  datatype Step =
    | Grows(rows: Table)
    | Reads(n: nat)
    | Stores(n: nat)
    | Restarts

  /** The rows of a latest query that gives the newest row. */
  function Newest(table: Table): seq<Row> {
    if table == [] then [] else [table[|table| - 1].row]
  }

  ghost predicate PlanOk(plan: Plan, w: World) {
    Ordered(w.before) && |plan.initial| == |plan.keyColumns|
  }

  ghost function Init(plan: Plan, table: Table): State
    requires |plan.initial| == |plan.keyColumns|
  {
    var start := StartKey(plan, Newest(table));
    State(table, start, start, [], [])
  }

  /** The key a restarted watch begins after, and the start it counts from. */
  function RestartKey(plan: Plan, s: State): Option<(Key, Key)>
    requires |plan.initial| == |plan.keyColumns|
  {
    if s.stored == [] then
      var start := StartKey(plan, Newest(s.table));
      Some((start, start))
    else
      var key := ResumeKey(plan, s.stored[|s.stored| - 1].cursor);
      if key.None? then None else Some((s.start, key.value))
  }

  /**
   One step. New rows come after all others. A poll reads `n` rows, whichever page, error,
   cancel or crash ended it. A step that cannot happen changes nothing.
   */
  ghost function Do(plan: Plan, w: World, s: State, step: Step): State
    requires |plan.initial| == |plan.keyColumns|
  {
    match step
    case Grows(rows) => if TableOk(plan, w, s.table + rows) then s.(table := s.table + rows) else s
    case Reads(n) =>
      var rows := After(w.before, s.table, s.key);
      if n <= |rows| && AllKeyed(plan, rows[..n])
      then s.(key := KeyPast(rows[..n], s.key), pending := s.pending + Events(plan, w, rows[..n]))
      else s
    case Stores(n) =>
      if n <= |s.pending| then s.(stored := s.stored + s.pending[..n], pending := s.pending[n..]) else s
    case Restarts =>
      var r := RestartKey(plan, s);
      if r.None? then s else s.(start := r.value.0, key := r.value.1, pending := [])
  }

  ghost function Run(plan: Plan, w: World, s: State, steps: seq<Step>): State
    requires |plan.initial| == |plan.keyColumns|
  {
    if steps == [] then s else Do(plan, w, Run(plan, w, s, steps[..|steps| - 1]), steps[|steps| - 1])
  }

  /** How many of the rows after the start are not after the key. */
  function Done(w: World, s: State): int {
    |After(w.before, s.table, s.start)| - |After(w.before, s.table, s.key)|
  }

  ghost predicate Inv(plan: Plan, w: World, s: State) {
    var rows := After(w.before, s.table, s.start);
    && TableOk(plan, w, s.table) && |s.start| == |plan.keyColumns|
    && Done(w, s) >= 0 && After(w.before, s.table, s.key) == rows[Done(w, s)..]
    && HasRead(plan, w, rows, s.start, Done(w, s), s.key, s.stored + s.pending)
  }

  // ---------------------------------------------------------------------
  // Every step keeps the invariant
  // ---------------------------------------------------------------------

  /** From a watch that has read `n` of the rows after its start. */
  lemma InvFromRead(plan: Plan, w: World, s: State, n: nat)
    requires Ordered(w.before) && TableOk(plan, w, s.table) && |s.start| == |plan.keyColumns|
    requires HasRead(plan, w, After(w.before, s.table, s.start), s.start, n, s.key, s.stored + s.pending)
    ensures Inv(plan, w, s) && Done(w, s) == n
  {
    AfterMoves(w.before, s.table, s.start, n);
  }

  lemma FreshHolds(plan: Plan, w: World, s: State)
    requires Ordered(w.before) && TableOk(plan, w, s.table) && |s.start| == |plan.keyColumns|
    requires s.key == s.start && s.stored + s.pending == []
    ensures Inv(plan, w, s)
  {
    InvFromRead(plan, w, s, 0);
  }

  lemma GrowsKeeps(plan: Plan, w: World, s: State, rows: Table)
    requires PlanOk(plan, w) && Inv(plan, w, s)
    ensures Inv(plan, w, Do(plan, w, s, Grows(rows)))
  {
    if TableOk(plan, w, s.table + rows) {
      var n := Done(w, s);
      var all := After(w.before, s.table, s.start);
      var more := After(w.before, s.table + rows, s.start);
      if n > 0 {
        GrowthFollows(w.before, s.table, rows, s.start);
        assert more[..n] == all[..n];
      } else {
        assert more[..0] == all[..0];
      }
      InvFromRead(plan, w, s.(table := s.table + rows), n);
    }
  }

  lemma {:induction false} ReadOn(
    plan: Plan, w: World, all: Table, from: Key, n: nat, key: Key, events: seq<Event>, m: nat)
    requires HasRead(plan, w, all, from, n, key, events)
    requires n + m <= |all| && AllKeyed(plan, all[n..][..m])
    ensures var rows := all[n..][..m];
            HasRead(plan, w, all, from, n + m, KeyPast(rows, key), events + Events(plan, w, rows))
  {
    var rows := all[n..][..m];
    assert all[..n + m] == all[..n] + rows;
    EventsJoin(plan, w, all[..n], rows);
  }

  lemma ReadsKeeps(plan: Plan, w: World, s: State, m: nat)
    requires PlanOk(plan, w) && Inv(plan, w, s)
    ensures Inv(plan, w, Do(plan, w, s, Reads(m)))
  {
    var rows := After(w.before, s.table, s.key);
    if m <= |rows| && AllKeyed(plan, rows[..m]) {
      var n := Done(w, s);
      ReadOn(plan, w, After(w.before, s.table, s.start), s.start, n, s.key, s.stored + s.pending, m);
      var events := Events(plan, w, rows[..m]);
      assert s.stored + (s.pending + events) == s.stored + s.pending + events;
      InvFromRead(plan, w, Do(plan, w, s, Reads(m)), n + m);
    }
  }

  lemma StoresKeeps(plan: Plan, w: World, s: State, n: nat)
    requires PlanOk(plan, w) && Inv(plan, w, s)
    ensures Inv(plan, w, Do(plan, w, s, Stores(n)))
  {
    if n <= |s.pending| {
      assert s.stored + s.pending[..n] + s.pending[n..] == s.stored + s.pending;
    }
  }

  /** The rows up to the one whose event is the `m`-th. */
  lemma {:induction false} RowOfEvent(plan: Plan, w: World, rows: Table, m: nat) returns (n: nat)
    requires 0 < m <= |Events(plan, w, rows)|
    ensures 0 < n <= |rows| && Events(plan, w, rows[..n]) == Events(plan, w, rows)[..m]
    ensures Events(plan, w, rows)[m - 1].cursor == Cursor(CURSOR_VERSION, rows[n - 1].pos)
    decreases |rows|
  {
    var front := rows[..|rows| - 1];
    var events := Events(plan, w, front);
    if m <= |events| {
      n := RowOfEvent(plan, w, front, m);
      assert front[..n] == rows[..n];
      assert Events(plan, w, rows)[..m] == events[..m];
    } else {
      n := |rows|;
      assert rows[..n] == rows;
    }
  }

  lemma ResumedHasRead(
    plan: Plan, w: World, rows: Table, from: Key, n: nat, key: Key, stored: seq<Event>, pending: seq<Event>)
    returns (m: nat)
    requires HasRead(plan, w, rows, from, n, key, stored + pending) && stored != []
    ensures 0 < m <= n
    ensures HasRead(plan, w, rows, from, m, rows[m - 1].pos, stored)
    ensures stored[|stored| - 1].cursor == Cursor(CURSOR_VERSION, rows[m - 1].pos)
    ensures |rows[m - 1].pos| == |plan.keyColumns|
  {
    m := RowOfEvent(plan, w, rows[..n], |stored|);
    assert rows[..n][..m] == rows[..m] && rows[..n][m - 1] == rows[m - 1];
    assert (stored + pending)[..|stored|] == stored;
    assert Keyed(plan, rows[m - 1]);
  }

  lemma ResumedHolds(plan: Plan, w: World, s: State) returns (key: Key)
    requires Ordered(w.before) && Inv(plan, w, s) && s.stored != []
    ensures ResumeKey(plan, s.stored[|s.stored| - 1].cursor) == Some(key)
    ensures Inv(plan, w, s.(key := key, pending := []))
  {
    var rows := After(w.before, s.table, s.start);
    var m := ResumedHasRead(plan, w, rows, s.start, Done(w, s), s.key, s.stored, s.pending);
    key := rows[m - 1].pos;
    assert s.stored + [] == s.stored;
    InvFromRead(plan, w, s.(key := key, pending := []), m);
  }

  /** A watch that stored something can resume. */
  lemma RestartResumes(plan: Plan, w: World, s: State)
    requires PlanOk(plan, w) && Inv(plan, w, s)
    ensures RestartKey(plan, s).Some?
  {
    if s.stored != [] {
      var key := ResumedHolds(plan, w, s);
    }
  }

  lemma RestartsKeeps(plan: Plan, w: World, s: State)
    requires PlanOk(plan, w) && Inv(plan, w, s)
    ensures Inv(plan, w, Do(plan, w, s, Restarts))
  {
    if s.stored == [] {
      FreshHolds(plan, w, Do(plan, w, s, Restarts));
    } else {
      var key := ResumedHolds(plan, w, s);
    }
  }

  lemma StepKeeps(plan: Plan, w: World, s: State, step: Step)
    requires PlanOk(plan, w) && Inv(plan, w, s)
    ensures Inv(plan, w, Do(plan, w, s, step))
  {
    match step
    case Grows(rows) => GrowsKeeps(plan, w, s, rows);
    case Reads(n) => ReadsKeeps(plan, w, s, n);
    case Stores(n) => StoresKeeps(plan, w, s, n);
    case Restarts => RestartsKeeps(plan, w, s);
  }

  lemma {:induction false} RunKeeps(plan: Plan, w: World, s: State, steps: seq<Step>)
    requires PlanOk(plan, w) && Inv(plan, w, s)
    ensures Inv(plan, w, Run(plan, w, s, steps))
    decreases |steps|
  {
    if steps != [] {
      RunKeeps(plan, w, s, steps[..|steps| - 1]);
      StepKeeps(plan, w, Run(plan, w, s, steps[..|steps| - 1]), steps[|steps| - 1]);
    }
  }

  // ---------------------------------------------------------------------
  // What every run delivers
  // ---------------------------------------------------------------------

  /**
   In every run, what was stored and what is on its way are the events of exactly the rows
   after the start that are not after the key, in the table's order; the other rows after
   the start are those the next page query returns.
   */
  lemma NothingLostOrRepeated(plan: Plan, w: World, table: Table, steps: seq<Step>)
    requires PlanOk(plan, w) && TableOk(plan, w, table)
    ensures exists read :: ReadSoFar(plan, w, Run(plan, w, Init(plan, table), steps), read)
  {
    ReachableHolds(plan, w, table, steps);
    ReadAt(plan, w, Run(plan, w, Init(plan, table), steps));
  }

  /** `read` are the rows after the start that are not after the key, and their events were delivered. */
  ghost predicate ReadSoFar(plan: Plan, w: World, s: State, read: Table) {
    && After(w.before, s.table, s.start) == read + After(w.before, s.table, s.key)
    && s.stored + s.pending == Events(plan, w, read) && Delivers(plan, w, read, s.stored + s.pending)
  }

  lemma ReadAt(plan: Plan, w: World, s: State)
    requires Inv(plan, w, s)
    ensures exists read :: ReadSoFar(plan, w, s, read)
  {
    var rows, n := After(w.before, s.table, s.start), Done(w, s);
    EventsAreDelivered(plan, w, rows[..n]);
    FrontAndRest(rows, n);
    assert ReadSoFar(plan, w, s, rows[..n]);
  }

  lemma FrontAndRest(rows: Table, n: nat)
    requires n <= |rows|
    ensures rows == rows[..n] + rows[n..]
  {
  }

  lemma ReachableHolds(plan: Plan, w: World, table: Table, steps: seq<Step>)
    requires PlanOk(plan, w) && TableOk(plan, w, table)
    ensures Inv(plan, w, Run(plan, w, Init(plan, table), steps))
  {
    FreshHolds(plan, w, Init(plan, table));
    RunKeeps(plan, w, Init(plan, table), steps);
  }

  lemma CaughtUpAt(plan: Plan, w: World, s: State)
    requires Inv(plan, w, s) && After(w.before, s.table, s.key) == []
    ensures s.stored + s.pending == Events(plan, w, After(w.before, s.table, s.start))
  {
    var rows := After(w.before, s.table, s.start);
    assert rows[..|rows|] == rows;
  }

  /** Once no row is after the key, every row after the start was read, and each that names a change was delivered. */
  lemma CaughtUp(plan: Plan, w: World, table: Table, steps: seq<Step>)
    requires PlanOk(plan, w) && TableOk(plan, w, table)
    requires var s := Run(plan, w, Init(plan, table), steps); After(w.before, s.table, s.key) == []
    ensures var s := Run(plan, w, Init(plan, table), steps);
            Delivers(plan, w, After(w.before, s.table, s.start), s.stored + s.pending)
  {
    ReachableHolds(plan, w, table, steps);
    var s := Run(plan, w, Init(plan, table), steps);
    CaughtUpAt(plan, w, s);
    EventsAreDelivered(plan, w, After(w.before, s.table, s.start));
  }

  /** The rows of two events. */
  lemma RowsOfEvents(plan: Plan, w: World, rows: Table, i: nat, j: nat) returns (m: nat, n: nat)
    requires i < j < |Events(plan, w, rows)|
    ensures m < n < |rows|
    ensures Events(plan, w, rows)[i].cursor.k == rows[m].pos && Events(plan, w, rows)[j].cursor.k == rows[n].pos
  {
    var events := Events(plan, w, rows);
    n := RowOfEvent(plan, w, rows, j + 1);
    n := n - 1;
    var front := rows[..n];
    EventsOneMore(plan, w, rows, n);
    assert i < |Events(plan, w, front)| && Events(plan, w, front)[i] == events[..j + 1][i];
    m := RowOfEvent(plan, w, front, i + 1);
    m := m - 1;
  }

  /** The events come in the order of their keys, each key once. */
  lemma EventsIncrease(plan: Plan, w: World, rows: Table, i: nat, j: nat)
    requires Sorted(w.before, rows) && i < j < |Events(plan, w, rows)|
    ensures w.before(Events(plan, w, rows)[i].cursor.k, Events(plan, w, rows)[j].cursor.k)
  {
    var m, n := RowsOfEvents(plan, w, rows, i, j);
  }

  lemma InOrderAt(plan: Plan, w: World, s: State, i: nat, j: nat)
    requires Ordered(w.before) && Inv(plan, w, s) && i < j < |s.stored + s.pending|
    ensures w.before((s.stored + s.pending)[i].cursor.k, (s.stored + s.pending)[j].cursor.k)
  {
    var n := Done(w, s);
    var read := After(w.before, s.table, s.start)[..n];
    assert Sorted(w.before, read) by {
      var at := AfterIsRest(w.before, s.table, s.start);
      assert forall a :: 0 <= a < n ==> read[a] == s.table[at + a];
    }
    EventsIncrease(plan, w, read, i, j);
  }

  lemma DeliveredInOrder(plan: Plan, w: World, table: Table, steps: seq<Step>, i: nat, j: nat)
    requires PlanOk(plan, w) && TableOk(plan, w, table)
    requires var s := Run(plan, w, Init(plan, table), steps); i < j < |s.stored + s.pending|
    ensures var s := Run(plan, w, Init(plan, table), steps);
            w.before((s.stored + s.pending)[i].cursor.k, (s.stored + s.pending)[j].cursor.k)
  {
    ReachableHolds(plan, w, table, steps);
    InOrderAt(plan, w, Run(plan, w, Init(plan, table), steps), i, j);
  }

  /** A poll is a `Reads` step: the state it leaves is the one the poll promises. */
  lemma PollIsAStep(plan: Plan, w: World, s: State, n: nat, key: Key, events: seq<Event>)
    requires |plan.initial| == |plan.keyColumns|
    requires HasRead(plan, w, After(w.before, s.table, s.key), s.key, n, key, events)
    ensures Do(plan, w, s, Reads(n)) == s.(key := key, pending := s.pending + events)
  {
  }

  /** Every reachable watch has a key of one value per key column, and its stored cursor resumes it. */
  lemma AlwaysResumes(plan: Plan, w: World, table: Table, steps: seq<Step>)
    requires PlanOk(plan, w) && TableOk(plan, w, table)
    ensures var s := Run(plan, w, Init(plan, table), steps);
            RestartKey(plan, s).Some? && |s.key| == |plan.keyColumns|
  {
    ReachableHolds(plan, w, table, steps);
    var s := Run(plan, w, Init(plan, table), steps);
    RestartResumes(plan, w, s);
    var n := Done(w, s);
    if n > 0 {
      assert Keyed(plan, After(w.before, s.table, s.start)[..n][n - 1]);
    }
  }

  /** A watch from the beginning counts from `initial` for ever. */
  lemma {:induction false} BeginningStays(plan: Plan, w: World, table: Table, steps: seq<Step>)
    requires PlanOk(plan, w) && TableOk(plan, w, table) && plan.start == Beginning
    ensures Run(plan, w, Init(plan, table), steps).start == plan.initial
    decreases |steps|
  {
    if steps != [] {
      BeginningStays(plan, w, table, steps[..|steps| - 1]);
    }
  }

  lemma {:induction false} NoEvents(plan: Plan, w: World, rows: Table)
    ensures Events(plan, w, rows) == [] <==> forall i :: 0 <= i < |rows| ==> Emits(plan, w, rows[i]).None?
    decreases |rows|
  {
    if rows != [] {
      var n := |rows| - 1;
      NoEvents(plan, w, rows[..n]);
      assert Events(plan, w, rows) == [] ==> Events(plan, w, rows[..n]) == [] && Emits(plan, w, rows[n]).None?;
      assert forall i :: 0 <= i < n ==> rows[..n][i] == rows[i];
    }
  }

  /** No row to deliver is after one of the two keys and not after the other. */
  ghost predicate NoneBetween(plan: Plan, w: World, table: Table, a: Key, b: Key) {
    forall i :: 0 <= i < |table| && Emits(plan, w, table[i]).Some? ==>
      (w.before(a, table[i].pos) <==> w.before(b, table[i].pos))
  }

  lemma SameOwedFrom(plan: Plan, w: World, table: Table, m: nat, n: nat)
    requires m <= n <= |table|
    ensures Events(plan, w, table[m..]) == Events(plan, w, table[n..]) <==>
            forall i :: m <= i < n ==> Emits(plan, w, table[i]).None?
  {
    assert table[m..] == table[m..n] + table[n..];
    EventsJoin(plan, w, table[m..n], table[n..]);
    NoEvents(plan, w, table[m..n]);
    assert forall i :: m <= i < n ==> table[i] == table[m..n][i - m];
    assert forall i :: 0 <= i < n - m ==> table[m..n][i] == table[m + i];
  }

  /** Two keys leave the same events owed exactly when no row to deliver lies between them. */
  lemma SameOwed(plan: Plan, w: World, table: Table, a: Key, b: Key)
    requires Ordered(w.before) && Sorted(w.before, table)
    ensures Events(plan, w, After(w.before, table, a)) == Events(plan, w, After(w.before, table, b)) <==>
            NoneBetween(plan, w, table, a, b)
  {
    var m, n := AfterFrom(w.before, table, a), AfterFrom(w.before, table, b);
    if m <= n {
      SameOwedFrom(plan, w, table, m, n);
    } else {
      SameOwedFrom(plan, w, table, n, m);
    }
  }

  ghost function AfterFrom(before: Order, table: Table, key: Key): (n: nat)
    requires Ordered(before) && Sorted(before, table)
    ensures n <= |table| && After(before, table, key) == table[n..]
    ensures forall i :: 0 <= i < |table| ==> (before(key, table[i].pos) <==> n <= i)
  {
    AfterFromExists(before, table, key);
    var n :| 0 <= n <= |table| && After(before, table, key) == table[n..] && SplitsAt(before, table, key, n);
    n
  }

  ghost predicate SplitsAt(before: Order, table: Table, key: Key, n: nat) {
    forall i :: 0 <= i < |table| ==> (before(key, table[i].pos) <==> n <= i)
  }

  lemma AfterFromExists(before: Order, table: Table, key: Key)
    requires Ordered(before) && Sorted(before, table)
    ensures exists n :: 0 <= n <= |table| && After(before, table, key) == table[n..] && SplitsAt(before, table, key, n)
  {
    SortedIsUpward(before, table, key);
    var n := UpwardRest(before, table, key);
    assert SplitsAt(before, table, key, n);
  }

  /** Where a watch with nothing stored starts: past every row, or at `initial`. */
  lemma StartsAtNewest(plan: Plan, w: World, table: Table)
    requires PlanOk(plan, w) && TableOk(plan, w, table)
    ensures var start := StartKey(plan, Newest(table));
            if plan.start == Latest && plan.latest.Some? && table != [] && Keyed(plan, table[|table| - 1])
            then start == table[|table| - 1].pos && After(w.before, table, start) == []
            else start == plan.initial
  {
    if table != [] {
      AfterRow(w.before, table, |table| - 1);
    }
  }

  /**
   The events owed since the start are the same before and after a restart exactly when
   something was stored, or no row to deliver lies between the start and the key the watch
   starts at anew: the newest row's, or `initial` if that row has none.
   */
  lemma RestartOwesTheSame(plan: Plan, w: World, s: State)
    requires PlanOk(plan, w) && Inv(plan, w, s)
    ensures var t := Do(plan, w, s, Restarts);
            Events(plan, w, After(w.before, t.table, t.start)) ==
            Events(plan, w, After(w.before, s.table, s.start)) <==>
            s.stored != [] || NoneBetween(plan, w, s.table, s.start, StartKey(plan, Newest(s.table)))
  {
    RestartStart(plan, w, s);
    if s.stored == [] {
      SameOwed(plan, w, s.table, s.start, StartKey(plan, Newest(s.table)));
    }
  }

  /**
   So a watch with `start: latest` and nothing stored gives up all it owes, unless the
   newest row has no key; and one from the beginning, or with something stored, nothing.
   */
  lemma RestartGivesUp(plan: Plan, w: World, s: State)
    requires PlanOk(plan, w) && Inv(plan, w, s)
    requires plan.start == Latest ==> plan.latest.Some?
    requires plan.start == Beginning ==> s.start == plan.initial
    ensures var t := Do(plan, w, s, Restarts);
            var newestKeyed := s.table == [] || Keyed(plan, s.table[|s.table| - 1]);
            Events(plan, w, After(w.before, t.table, t.start)) ==
            Events(plan, w, After(w.before, s.table, s.start)) <==>
            || s.stored != [] || plan.start == Beginning
            || (if newestKeyed then Events(plan, w, After(w.before, s.table, s.start)) == []
                else NoneBetween(plan, w, s.table, s.start, plan.initial))
  {
    RestartStart(plan, w, s);
    if s.stored == [] && plan.start == Latest {
      if s.table == [] || Keyed(plan, s.table[|s.table| - 1]) {
        assert After(w.before, s.table, StartKey(plan, Newest(s.table))) == [] by {
          StartsAtNewest(plan, w, s.table);
        }
      } else {
        RestartOwesTheSame(plan, w, s);
      }
    }
  }

  lemma RestartStart(plan: Plan, w: World, s: State)
    requires PlanOk(plan, w) && Inv(plan, w, s)
    ensures var t := Do(plan, w, s, Restarts);
            t.table == s.table && t.start == if s.stored != [] then s.start else StartKey(plan, Newest(s.table))
  {
    RestartResumes(plan, w, s);
  }

  // ---------------------------------------------------------------------
  // A row given up
  // ---------------------------------------------------------------------

  /** A latest watch on one column of numbers. */
  function ByNumber(page: string, newest: string): Spec {
    Spec(Params.Sqlite, true, Some(page), ["id"], map["id" := Int(0)], Latest, Some(newest), 1, 100, None, None, None)
  }

  /** What its plan says of keys and rows. */
  ghost predicate PlanByNumber(plan: Plan) {
    && plan.keyColumns == ["id"] && plan.initial == [Int(0)]
    && plan.start == Latest && plan.latest.Some? && plan.opColumn.None?
  }

  /** The text of two placeholders. */
  function Binding(a: string, b: string): string {
    ":" + a + " :" + b
  }

  ghost predicate IsName(name: string) {
    name != [] && forall c :: c in name ==> Params.IsIdent(c)
  }

  /** The placeholder of `name` at `i`. */
  lemma NameAt(sql: string, i: nat, name: string)
    requires IsName(name) && i + 1 + |name| <= |sql| && sql[i] == ':' && sql[i + 1..i + 1 + |name|] == name
    requires i + 1 + |name| < |sql| ==> !Params.IsIdent(sql[i + 1 + |name|])
    ensures Params.Names(Params.Lex(sql, i, Params.Outside)) ==
            [name] + Params.Names(Params.Lex(sql, i + 1 + |name|, Params.Outside))
  {
    var e := i + 1 + |name|;
    forall k | i + 1 <= k < e
      ensures Params.IsIdent(sql[k])
    {
      assert sql[k] == name[k - i - 1] && name[k - i - 1] in name;
    }
    Params.NameEnds(sql, i + 1, e);
    Params.LexStep(sql, i, Params.Outside);
    Params.NamesStep(Params.Name(name), Params.Lex(sql, e, Params.Outside));
  }

  lemma SpaceAt(sql: string, i: nat)
    requires i < |sql| && sql[i] == ' '
    ensures Params.Names(Params.Lex(sql, i, Params.Outside)) == Params.Names(Params.Lex(sql, i + 1, Params.Outside))
  {
    Params.LexStep(sql, i, Params.Outside);
    Params.NamesStep(Params.Lit(' '), Params.Lex(sql, i + 1, Params.Outside));
  }

  /** Where the parts of `Binding(a, b)` stand. */
  ghost predicate HasBoth(sql: string, a: string, b: string) {
    && |sql| == |a| + 3 + |b| && sql[0] == ':' && sql[1..1 + |a|] == a
    && sql[1 + |a|] == ' ' && sql[|a| + 2] == ':' && sql[|a| + 3..|a| + 3 + |b|] == b
  }

  lemma BindingHasBoth(a: string, b: string)
    ensures HasBoth(Binding(a, b), a, b)
    ensures forall c :: c in Binding(a, b) ==> c == ':' || c == ' ' || c in a || c in b
  {
  }

  lemma BindsBoth(sql: string, a: string, b: string)
    requires HasBoth(sql, a, b) && IsName(a) && IsName(b)
    ensures Params.OrderOf(sql) == [a, b]
  {
    NameAt(sql, 0, a);
    SpaceAt(sql, 1 + |a|);
    NameAt(sql, |a| + 2, b);
  }

  lemma BindingIsSingle(a: string, b: string)
    requires IsName(a) && IsName(b)
    ensures StatementScan.SingleStatement(Binding(a, b))
  {
    BindingHasBoth(a, b);
    assert ';' !in Binding(a, b);
  }

  lemma KeyNames()
    ensures IsName(AFTER_PREFIX + "id") && IsName(LIMIT_NAME)
    ensures Allowed(["id"], false) == [AFTER_PREFIX + "id", LIMIT_NAME]
  {
    assert AfterNames(["id"]) == [AFTER_PREFIX + "id"];
  }

  lemma AcceptsBinding(checks: Checks, a: string, b: string)
    requires checks.connection && forall sql :: !checks.privileged(sql)
    requires IsName(a) && IsName(b) && Allowed(["id"], false) == [a, b]
    ensures Accepts(ByNumber(Binding(a, b), ""), checks)
  {
    BindingHasBoth(a, b);
    BindsBoth(Binding(a, b), a, b);
    BindingIsSingle(a, b);
    assert Params.OrderOf("") == [];
    assert IsColumnName("id");
  }

  /** There is such a watch: a page that binds the key and the limit is accepted. */
  lemma ByNumberIsAccepted(checks: Checks)
    requires checks.connection && forall sql :: !checks.privileged(sql)
    ensures Accepts(ByNumber(Binding(AFTER_PREFIX + "id", LIMIT_NAME), ""), checks)
  {
    KeyNames();
    AcceptsBinding(checks, AFTER_PREFIX + "id", LIMIT_NAME);
  }

  /** Keys of one number, in their order, and events of no size. */
  function SmallNumbers(): World {
    World(Numbers(), (e: Event) => 0)
  }

  function RowOne(): Entry {
    Entry([Int(1)], map["id" := Int(1)])
  }

  lemma RowOneIsKeyed(plan: Plan)
    requires PlanByNumber(plan)
    ensures Keyed(plan, RowOne()) && Emits(plan, SmallNumbers(), RowOne()).Some?
  {
    var key := RowKey(["id"], RowOne().row);
    assert key.Some? && key.value == [Int(1)];
  }

  lemma AfterNumber(n: int)
    ensures After(Numbers(), [RowOne()], [Int(n)]) == if n < 1 then [RowOne()] else []
  {
    assert [RowOne()][..0] == [];
    assert After(Numbers(), [], [Int(n)]) == [];
  }

  lemma RowOneComes(plan: Plan)
    requires PlanByNumber(plan)
    ensures TableOk(plan, SmallNumbers(), [RowOne()]) && TableOk(plan, SmallNumbers(), [])
    ensures Init(plan, []) == State([], [Int(0)], [Int(0)], [], [])
    ensures Do(plan, SmallNumbers(), Init(plan, []), Grows([RowOne()])) ==
            State([RowOne()], [Int(0)], [Int(0)], [], [])
  {
    RowOneIsKeyed(plan);
    assert [] + [RowOne()] == [RowOne()];
  }

  lemma RowOneIsRead(plan: Plan)
    requires PlanByNumber(plan)
    ensures var s := Do(plan, SmallNumbers(), State([RowOne()], [Int(0)], [Int(0)], [], []), Reads(1));
            s == State([RowOne()], [Int(0)], [Int(1)], [], s.pending) && s.pending != []
  {
    RowOneIsKeyed(plan);
    AfterNumber(0);
    assert [RowOne()][..1] == [RowOne()];
    EventsOneMore(plan, SmallNumbers(), [RowOne()], 0);
  }

  lemma RowOneIsLeft(plan: Plan, events: seq<Event>)
    requires PlanByNumber(plan)
    ensures Do(plan, SmallNumbers(), State([RowOne()], [Int(0)], [Int(1)], [], events), Restarts) ==
            State([RowOne()], [Int(1)], [Int(1)], [], [])
  {
    RowOneIsKeyed(plan);
  }

  /**
   With any accepted watch of this kind: a row comes, is read and emitted, and a restart before
   it is stored never emits it again.
   */
  lemma RowIsGivenUp(page: string, newest: string, checks: Checks, plan: Plan)
    requires Accepts(ByNumber(page, newest), checks) && PlanFits(ByNumber(page, newest), plan)
    ensures var w := SmallNumbers();
            var steps := [Grows([RowOne()]), Reads(1), Restarts];
            var s := Run(plan, w, Init(plan, []), steps);
            && PlanOk(plan, w) && TableOk(plan, w, [])
            && s.table == [RowOne()] && s.stored + s.pending == [] && After(w.before, s.table, s.key) == []
            && Run(plan, w, Init(plan, []), steps[..2]).pending != []
  {
    var w := SmallNumbers();
    var grow, read := Grows([RowOne()]), Reads(1);
    RowOneComes(plan);
    RowOneIsRead(plan);
    var s2 := Do(plan, w, State([RowOne()], [Int(0)], [Int(0)], [], []), read);
    RowOneIsLeft(plan, s2.pending);
    AfterNumber(1);
    RunThree(plan, w, Init(plan, []), grow, read, Restarts);
  }

  lemma RunOneMore(plan: Plan, w: World, s: State, steps: seq<Step>, step: Step)
    requires |plan.initial| == |plan.keyColumns|
    ensures Run(plan, w, s, steps + [step]) == Do(plan, w, Run(plan, w, s, steps), step)
  {
    assert (steps + [step])[..|steps|] == steps;
  }

  lemma RunThree(plan: Plan, w: World, s: State, a: Step, b: Step, c: Step)
    requires |plan.initial| == |plan.keyColumns|
    ensures var two := Do(plan, w, Do(plan, w, s, a), b);
            Run(plan, w, s, [a, b, c][..2]) == two && Run(plan, w, s, [a, b, c]) == Do(plan, w, two, c)
  {
    assert [] + [a] == [a] && [a] + [b] == [a, b] && [a, b] + [c] == [a, b, c] && [a, b, c][..2] == [a, b];
    RunOneMore(plan, w, s, [], a);
    RunOneMore(plan, w, s, [a], b);
    RunOneMore(plan, w, s, [a, b], c);
  }
}
