/** Tables read by keyset: the rows after a key, in key order. */
module Keyset {

  /** A JSON value; the ones the code never looks into are one constructor. */
  datatype Value = Null | Int(n: int) | Str(s: string) | OtherValue(id: nat)

  type Key = seq<Value>
  type Row = map<string, Value>

  /** What the name of a key column's placeholder begins with. */
  const AFTER_PREFIX := "_after_"

  function AfterNames(columns: seq<string>): (names: seq<string>)
    ensures |names| == |columns|
    ensures forall i :: 0 <= i < |columns| ==> names[i] == AFTER_PREFIX + columns[i]
  {
    seq(|columns|, i requires 0 <= i < |columns| => AFTER_PREFIX + columns[i])
  }

  /** The query's order on keys. */
  type Order = (Key, Key) -> bool

  /** A row at its place in the query's order. */
  datatype Entry = Entry(pos: Key, row: Row)

  type Table = seq<Entry>

  /** A strict order; no two rows of a sorted table share a key. */
  ghost predicate Ordered(before: Order) {
    && (forall a :: !before(a, a))
    && (forall a, b, c :: before(a, b) && before(b, c) ==> before(a, c))
  }

  ghost predicate Sorted(before: Order, table: Table) {
    forall i, j :: 0 <= i < j < |table| ==> before(table[i].pos, table[j].pos)
  }

  /** Keys of one number, in their order. */
  function Numbers(): Order {
    (a: Key, b: Key) => |a| == 1 == |b| && a[0].Int? && b[0].Int? && a[0].n < b[0].n
  }

  /** The rows with a key greater than `key`. */
  function After(before: Order, table: Table, key: Key): Table {
    if table == [] then []
    else
      var front, last := table[..|table| - 1], table[|table| - 1];
      if before(key, last.pos) then After(before, front, key) + [last] else After(before, front, key)
  }

  /** The key once `rows` are read. */
  function KeyPast(rows: Table, key: Key): Key {
    if rows == [] then key else rows[|rows| - 1].pos
  }

  // ---------------------------------------------------------------------
  // Keyset paging
  // ---------------------------------------------------------------------

  /** Once a row is after the key, all later ones are. */
  ghost predicate Upward(before: Order, table: Table, key: Key) {
    forall i, j :: 0 <= i < j < |table| && before(key, table[i].pos) ==> before(key, table[j].pos)
  }

  lemma SortedIsUpward(before: Order, table: Table, key: Key)
    requires Ordered(before) && Sorted(before, table)
    ensures Upward(before, table, key)
  {
  }

  lemma {:induction false} UpwardRest(before: Order, table: Table, key: Key) returns (n: nat)
    requires Upward(before, table, key)
    ensures n <= |table| && After(before, table, key) == table[n..]
    ensures n < |table| ==> before(key, table[n].pos)
    ensures n > 0 ==> !before(key, table[n - 1].pos)
    decreases |table|
  {
    n := 0;
    if table != [] {
      var front, last := table[..|table| - 1], table[|table| - 1];
      n := UpwardRest(before, front, key);
      if before(key, last.pos) {
        assert front[n..] + [last] == table[n..];
      } else {
        assert n == |front|;
        n := |table|;
      }
    }
  }

  /** In an ordered table the rows after a key are the rest of it. */
  lemma AfterIsRest(before: Order, table: Table, key: Key) returns (n: nat)
    requires Ordered(before) && Sorted(before, table)
    ensures n <= |table| && After(before, table, key) == table[n..]
    ensures n < |table| ==> before(key, table[n].pos)
    ensures n > 0 ==> !before(key, table[n - 1].pos)
  {
    SortedIsUpward(before, table, key);
    n := UpwardRest(before, table, key);
  }

  /** Reading `n` rows and asking again from the last one's key leaves exactly the others. */
  lemma AfterMoves(before: Order, table: Table, key: Key, n: nat)
    requires Ordered(before) && Sorted(before, table) && n <= |After(before, table, key)|
    ensures var rows := After(before, table, key);
            After(before, table, KeyPast(rows[..n], key)) == rows[n..]
  {
    if n > 0 {
      var from := AfterIsRest(before, table, key);
      RestOfRest(table, from, n);
      assert KeyPast(table[from..][..n], key) == table[from + n - 1].pos;
      AfterRow(before, table, from + n - 1);
    }
  }

  lemma RestOfRest(table: Table, from: nat, n: nat)
    requires 0 < n && from + n <= |table|
    ensures table[from..][..n][n - 1] == table[from + n - 1] && table[from..][n..] == table[from + n..]
  {
  }

  lemma RestAt(before: Order, table: Table, i: nat, n: nat)
    requires Ordered(before) && Sorted(before, table) && i < |table| && n <= |table|
    requires n < |table| ==> before(table[i].pos, table[n].pos)
    requires n > 0 ==> !before(table[i].pos, table[n - 1].pos)
    ensures n == i + 1
  {
    assert !before(table[i].pos, table[i].pos);
  }

  /** The rows after a row's own key are those that follow it. */
  lemma AfterRow(before: Order, table: Table, i: nat)
    requires Ordered(before) && Sorted(before, table) && i < |table|
    ensures After(before, table, table[i].pos) == table[i + 1..]
  {
    var n := AfterIsRest(before, table, table[i].pos);
    RestAt(before, table, i, n);
  }

  lemma {:induction false} AfterJoin(before: Order, a: Table, b: Table, key: Key)
    ensures After(before, a + b, key) == After(before, a, key) + After(before, b, key)
    decreases |b|
  {
    if b == [] {
      assert a + b == a;
    } else {
      var front := b[..|b| - 1];
      AfterJoin(before, a, front, key);
      assert (a + b)[..|a + b| - 1] == a + front;
    }
  }

  lemma {:induction false} AllAfter(before: Order, rows: Table, key: Key)
    requires forall i :: 0 <= i < |rows| ==> before(key, rows[i].pos)
    ensures After(before, rows, key) == rows
    decreases |rows|
  {
    if rows != [] {
      AllAfter(before, rows[..|rows| - 1], key);
    }
  }

  /** Rows that come after every row come after the start, if any row does. */
  lemma GrowthFollows(before: Order, table: Table, rows: Table, start: Key)
    requires Ordered(before) && Sorted(before, table + rows) && After(before, table, start) != []
    ensures After(before, table + rows, start) == After(before, table, start) + rows
  {
    var all := table + rows;
    SortedIsUpward(before, all, start);
    assert Upward(before, table, start) by {
      assert forall i :: 0 <= i < |table| ==> table[i] == all[i];
    }
    var n := UpwardRest(before, table, start);
    forall i | 0 <= i < |rows|
      ensures before(start, rows[i].pos)
    {
      assert all[n] == table[n] && all[|table| + i] == rows[i];
    }
    AllAfter(before, rows, start);
    AfterJoin(before, table, rows, start);
  }
}
