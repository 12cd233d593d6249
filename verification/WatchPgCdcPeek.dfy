/**
 What one peek does, apart from how it loops: the row loop is a fold over whole
 transactions, and what it hands out is the fresh changes in commit order, up to
 the limit.
 */
module WatchPgCdcPeek {
  import opened Wrappers
  import opened PgOutput
  import opened WatchPgCdc

  // ---------------------------------------------------------------------
  // Rows to transactions
  // ---------------------------------------------------------------------

  lemma {:induction false} ScanSplits(s: Scan, a: seq<Row>, b: seq<Row>, max: nat)
    ensures ScanRows(s, a + b, max) == ScanRows(ScanRows(s, a, max), b, max)
    decreases |b|
  {
    if b == [] {
      assert a + b == a;
    } else {
      var n := |b| - 1;
      assert (a + b)[..|a + b| - 1] == a + b[..n];
      ScanSplits(s, a, b[..n], max);
    }
  }

  /** The rows between a Begin and its Commit. */
  ghost predicate Inside(rows: seq<Row>, n: nat) {
    && 0 < n <= |rows| && rows[0].message.Begin?
    && forall i :: 0 < i < n ==> !rows[i].message.Begin? && !rows[i].message.Commit?
  }

  /** The loop has handed out `changes` of a transaction and remembers their LSNs. */
  ghost predicate HandedOut(s: Scan, changes: seq<Row>, u: Scan, max: nat) {
    && (forall c :: c in changes ==> IsChange(c))
    && HandOut(s.progress, changes, s.out, max) == (u.progress, u.out)
    && SetOf(u.transaction) == Lsns(changes)
  }

  lemma ScanChange(s: Scan, changes: seq<Row>, u: Scan, r: Row, max: nat)
    requires HandedOut(s, changes, u, max) && IsChange(r)
    ensures HandedOut(s, changes + [r], ScanRow(u, r, max), max)
  {
    var more := changes + [r];
    assert HandOut(s.progress, more, s.out, max) ==
           (ScanRow(u, r, max).progress, ScanRow(u, r, max).out) by {
      assert more[..|more| - 1] == changes && more[|more| - 1] == r;
      HandOutMore(s.progress, more, s.out, max);
    }
    assert SetOf(u.transaction + [r.lsn]) == SetOf(u.transaction) + {r.lsn};
    assert Lsns(more) == Lsns(changes) + {r.lsn};
  }

  lemma ScanOther(s: Scan, changes: seq<Row>, u: Scan, r: Row, max: nat)
    requires HandedOut(s, changes, u, max) && !IsChange(r) && !r.message.Begin? && !r.message.Commit?
    ensures HandedOut(s, changes + [], ScanRow(u, r, max), max)
  {
    assert changes + [] == changes;
  }

  /** Inside a transaction the loop hands out, and remembers, the changes read so far. */
  lemma {:induction false} ScanInside(s: Scan, rows: seq<Row>, n: nat, max: nat)
    requires Inside(rows, n)
    ensures HandedOut(s, ChangesIn(rows[..n]), ScanRows(s, rows[..n], max), max)
  {
    var so, r := rows[..n], rows[n - 1];
    assert so[..n - 1] == rows[..n - 1] && so[n - 1] == r;
    if n == 1 {
      assert rows[..0] == [];
      StartsInside(s, r, max);
    } else {
      ScanInside(s, rows, n - 1, max);
      var changes, u := ChangesIn(rows[..n - 1]), ScanRows(s, rows[..n - 1], max);
      if IsChange(r) {
        ScanChange(s, changes, u, r, max);
      } else {
        ScanOther(s, changes, u, r, max);
      }
    }
  }

  lemma StartsInside(s: Scan, r: Row, max: nat)
    requires r.message.Begin?
    ensures HandedOut(s, [], ScanRow(s, r, max), max)
  {
  }

  lemma ScanOne(s: Scan, rows: seq<Row>, t: Txn, max: nat)
    requires RendersOne(rows, t)
    ensures (forall c :: c in t.changes ==> IsChange(c))
    ensures var u := ScanRows(s, rows, max);
            var (p, out) := HandOut(s.progress, t.changes, s.out, max);
            u.progress == Register(p, t.end, Lsns(t.changes)) && u.out == out && u.transaction == []
  {
    var n := |rows| - 1;
    ScanInside(s, rows, n, max);
    assert ChangesIn(rows) == ChangesIn(rows[..n]) + [];
    assert t.changes == ChangesIn(rows[..n]);
  }

  /** The rows of the last transaction, and those before them. */
  lemma LastRendered(rows: seq<Row>, txns: seq<Txn>) returns (n: nat)
    requires Renders(rows, txns) && txns != []
    ensures n < |rows| && Renders(rows[..n], txns[..|txns| - 1]) && RendersOne(rows[n..], txns[|txns| - 1])
  {
    var last := |txns| - 1;
    n :| 0 <= n < |rows| && Renders(rows[..n], txns[..last]) && RendersOne(rows[n..], txns[last]);
  }

  lemma Halves(rows: seq<Row>, n: nat)
    requires n <= |rows|
    ensures rows == rows[..n] + rows[n..]
  {
  }

  lemma {:induction false} RenderedAreChanges(rows: seq<Row>, txns: seq<Txn>)
    requires Renders(rows, txns)
    ensures AllChanges(txns)
    decreases |txns|
  {
    if txns != [] {
      var last := |txns| - 1;
      assert AllChanges(txns[..last]) && forall c :: c in txns[last].changes ==> IsChange(c) by {
        var n := LastRendered(rows, txns);
        RenderedAreChanges(rows[..n], txns[..last]);
        OneHasChanges(rows[n..], txns[last]);
      }
      AllChangesJoin(txns[..last], txns[last]);
      assert txns == txns[..last] + [txns[last]];
    }
  }

  lemma OneHasChanges(rows: seq<Row>, t: Txn)
    requires RendersOne(rows, t)
    ensures forall c :: c in t.changes ==> IsChange(c)
  {
  }

  lemma AllChangesJoin(txns: seq<Txn>, t: Txn)
    requires AllChanges(txns) && forall c :: c in t.changes ==> IsChange(c)
    ensures AllChanges(txns + [t])
  {
  }

  /** The row loop is the fold over the transactions the rows render. */
  lemma {:induction false} PeekRefines(s: Scan, rows: seq<Row>, txns: seq<Txn>, max: nat)
    requires Renders(rows, txns) && AllChanges(txns)
    ensures var u := ScanRows(s, rows, max);
            PeekAll(s.progress, txns, s.out, max) == (u.progress, u.out)
    decreases |txns|
  {
    if txns != [] {
      var last := |txns| - 1;
      var n := LastRendered(rows, txns);
      var mid := ScanRows(s, rows[..n], max);
      assert PeekAll(s.progress, txns[..last], s.out, max) == (mid.progress, mid.out) by {
        PeekRefines(s, rows[..n], txns[..last], max);
      }
      assert ScanRows(s, rows, max) == ScanRows(mid, rows[n..], max) by {
        Halves(rows, n);
        ScanSplits(s, rows[..n], rows[n..], max);
      }
      PeekOneMore(s, txns, mid, rows[n..], max);
    }
  }

  lemma PeekOneMore(s: Scan, txns: seq<Txn>, mid: Scan, rows: seq<Row>, max: nat)
    requires txns != [] && AllChanges(txns) && RendersOne(rows, txns[|txns| - 1])
    requires PeekAll(s.progress, txns[..|txns| - 1], s.out, max) == (mid.progress, mid.out)
    ensures var u := ScanRows(mid, rows, max);
            PeekAll(s.progress, txns, s.out, max) == (u.progress, u.out)
  {
    ScanOne(mid, rows, txns[|txns| - 1], max);
  }

  // ---------------------------------------------------------------------
  // The changes of a run of transactions, in commit order
  // ---------------------------------------------------------------------

  function ChangesOf(txns: seq<Txn>): seq<Row> {
    if txns == [] then [] else ChangesOf(txns[..|txns| - 1]) + txns[|txns| - 1].changes
  }

  lemma {:induction false} ChangesOfAreChanges(txns: seq<Txn>)
    requires AllChanges(txns)
    ensures forall c :: c in ChangesOf(txns) ==> IsChange(c)
    ensures forall t, c :: t in txns && c in t.changes ==> c in ChangesOf(txns)
    ensures forall c :: c in ChangesOf(txns) ==> exists t :: t in txns && c in t.changes
    decreases |txns|
  {
    if txns != [] {
      var n := |txns| - 1;
      ChangesOfAreChanges(txns[..n]);
      assert txns == txns[..n] + [txns[n]];
      assert txns[n] in txns;
      forall c | c in ChangesOf(txns)
        ensures exists t :: t in txns && c in t.changes
      {
        if c in ChangesOf(txns[..n]) {
          var t :| t in txns[..n] && c in t.changes;
          assert t in txns;
        }
      }
    }
  }

  /** One more change. */
  lemma HandOutMore(p: Progress, changes: seq<Row>, out: seq<Delivery>, max: nat)
    requires changes != [] && forall c :: c in changes ==> IsChange(c)
    ensures var n := |changes| - 1;
            var (q, ds) := HandOut(p, changes[..n], out, max);
            HandOut(p, changes, out, max) ==
            if Fresh(q, changes[n].lsn) && |ds| < max
            then (q.(delivered := q.delivered + {changes[n].lsn}), ds + DeliveriesOf(changes[n])) else (q, ds)
  {
  }

  /** One more transaction. */
  lemma PeekMore(p: Progress, txns: seq<Txn>, out: seq<Delivery>, max: nat)
    requires txns != [] && AllChanges(txns)
    ensures var n := |txns| - 1;
            var (q, mid) := PeekAll(p, txns[..n], out, max);
            var (h, ds) := HandOut(q, txns[n].changes, mid, max);
            PeekAll(p, txns, out, max) == (Register(h, txns[n].end, Lsns(txns[n].changes)), ds)
  {
  }

  /** What is handed out depends only on the position consumed and the changes in flight. */
  lemma {:induction false} HandOutDependsOn(p: Progress, q: Progress, changes: seq<Row>, out: seq<Delivery>, max: nat)
    requires forall c :: c in changes ==> IsChange(c)
    requires p.consumed == q.consumed && p.delivered == q.delivered
    ensures var (p', a), (q', b) := HandOut(p, changes, out, max), HandOut(q, changes, out, max);
            a == b && p' == p.(delivered := q'.delivered) && q' == q.(delivered := p'.delivered)
    decreases |changes|
  {
    if changes != [] {
      HandOutDependsOn(p, q, changes[..|changes| - 1], out, max);
    }
  }

  lemma {:induction false} HandOutSplits(p: Progress, a: seq<Row>, b: seq<Row>, out: seq<Delivery>, max: nat)
    requires forall c :: c in a + b ==> IsChange(c)
    ensures (forall c :: c in a ==> IsChange(c)) && (forall c :: c in b ==> IsChange(c))
    ensures var (q, mid) := HandOut(p, a, out, max);
            HandOut(p, a + b, out, max) == HandOut(q, b, mid, max)
    decreases |b|
  {
    forall c | c in a || c in b ensures IsChange(c) { assert c in a + b; }
    if b == [] {
      assert a + b == a;
    } else {
      var n := |b| - 1;
      var all := a + b;
      assert all[..|all| - 1] == a + b[..n] && all[|all| - 1] == b[n];
      HandOutSplits(p, a, b[..n], out, max);
      var (q, mid) := HandOut(p, a, out, max);
      HandOutMore(p, all, out, max);
      HandOutMore(q, b, mid, max);
    }
  }

  /** A peek hands out as if its transactions were one list of changes. */
  lemma {:induction false} PeekHandsOut(p: Progress, txns: seq<Txn>, out: seq<Delivery>, max: nat)
    requires AllChanges(txns)
    ensures forall c :: c in ChangesOf(txns) ==> IsChange(c)
    ensures var (q, ds), (h, es) := PeekAll(p, txns, out, max), HandOut(p, ChangesOf(txns), out, max);
            ds == es && q.delivered == h.delivered && q.consumed == p.consumed
    decreases |txns|
  {
    ChangesOfAreChanges(txns);
    if txns != [] {
      var n := |txns| - 1;
      PeekHandsOut(p, txns[..n], out, max);
      var (q, ds) := PeekAll(p, txns[..n], out, max);
      var (h, es) := HandOut(p, ChangesOf(txns[..n]), out, max);
      HandOutSplits(p, ChangesOf(txns[..n]), txns[n].changes, out, max);
      HandOutDependsOn(h, h, ChangesOf(txns[..n]), out, max);
      HandOutDependsOn(p, p, ChangesOf(txns[..n]), out, max);
      HandOutDependsOn(q, h, txns[n].changes, ds, max);
    }
  }

  // ---------------------------------------------------------------------
  // Progress of one peek
  // ---------------------------------------------------------------------

  /** A TRUNCATE names at least one table. */
  predicate HasEvents(changes: seq<Row>) {
    forall c :: c in changes ==> IsChange(c) && Oids(c) != []
  }

  /** Nothing else is put in flight, and a fresh change stays out only for want of room. */
  lemma {:induction false} HandOutFills(p: Progress, changes: seq<Row>, out: seq<Delivery>, max: nat)
    requires forall c :: c in changes ==> IsChange(c)
    ensures var (q, ds) := HandOut(p, changes, out, max);
            && q == p.(delivered := q.delivered)
            && p.delivered <= q.delivered <= p.delivered + Lsns(changes)
            && (forall l :: l in q.delivered ==> l in p.delivered || l >= p.consumed)
            && out <= ds
            && (|ds| >= max || forall c :: c in changes ==> !Fresh(q, c.lsn))
            && (HasEvents(changes) && q.delivered != p.delivered ==> |ds| > |out|)
    decreases |changes|
  {
    if changes != [] {
      var n := |changes| - 1;
      HandOutFills(p, changes[..n], out, max);
      assert changes == changes[..n] + [changes[n]];
      assert Lsns(changes) == Lsns(changes[..n]) + {changes[n].lsn};
      assert changes[n] in changes;
    }
  }

  /**
   What a peek leaves: every unconsumed change it read is in flight, or `max`
   deliveries are out; and it hands something out if anything it read was fresh.
   */
  lemma PeekFills(p: Progress, txns: seq<Txn>, max: nat)
    requires AllChanges(txns)
    ensures var (q, ds) := PeekAll(p, txns, [], max);
            && (|ds| >= max || forall c :: c in ChangesOf(txns) && c.lsn >= p.consumed ==> c.lsn in q.delivered)
            && (max >= 1 && HasEvents(ChangesOf(txns)) && (exists c :: c in ChangesOf(txns) && Fresh(p, c.lsn))
                ==> ds != [])
  {
    PeekHandsOut(p, txns, [], max);
    HandOutFills(p, ChangesOf(txns), [], max);
  }

  lemma {:induction false} NewChangesFound(p: Progress, rows: seq<Row>)
    ensures NewChanges(p, rows) > 0 <==> exists c :: c in ChangesIn(rows) && Fresh(p, c.lsn)
    decreases |rows|
  {
    if rows != [] {
      var n := |rows| - 1;
      NewChangesFound(p, rows[..n]);
      if NewChanges(p, rows[..n]) > 0 {
        var c :| c in ChangesIn(rows[..n]) && Fresh(p, c.lsn);
        assert c in ChangesIn(rows) && Fresh(p, c.lsn);
      } else if IsChange(rows[n]) && Fresh(p, rows[n].lsn) {
        assert rows[n] in ChangesIn(rows) && Fresh(p, rows[n].lsn);
      }
    }
  }

  /** `new_changes` is the number of rows that are fresh changes. */
  lemma {:induction false} NewChangesCounts(p: Progress, rows: seq<Row>)
    ensures NewChanges(p, rows) == |NewPlaces(p, rows)|
    decreases |rows|
  {
    if rows != [] {
      var n := |rows| - 1;
      NewChangesCounts(p, rows[..n]);
      assert NewPlaces(p, rows) == NewPlaces(p, rows[..n]) +
             if IsChange(rows[n]) && Fresh(p, rows[n].lsn) then {n} else {};
    }
  }

  function NewPlaces(p: Progress, rows: seq<Row>): set<nat> {
    set i | 0 <= i < |rows| && IsChange(rows[i]) && Fresh(p, rows[i].lsn)
  }

  lemma {:induction false} ChangesInSplits(a: seq<Row>, b: seq<Row>)
    ensures ChangesIn(a + b) == ChangesIn(a) + ChangesIn(b)
    decreases |b|
  {
    if b == [] {
      assert a + b == a;
    } else {
      var n := |b| - 1;
      assert (a + b)[..|a + b| - 1] == a + b[..n];
      ChangesInSplits(a, b[..n]);
    }
  }

  lemma {:induction false} RenderedChanges(rows: seq<Row>, txns: seq<Txn>)
    requires Renders(rows, txns)
    ensures ChangesIn(rows) == ChangesOf(txns)
    decreases |txns|
  {
    if txns != [] {
      var last := |txns| - 1;
      var n := LastRendered(rows, txns);
      assert ChangesIn(rows[..n]) == ChangesOf(txns[..last]) by {
        RenderedChanges(rows[..n], txns[..last]);
      }
      Halves(rows, n);
      ChangesInSplits(rows[..n], rows[n..]);
    }
  }

  // ---------------------------------------------------------------------
  // A peek that fails
  // ---------------------------------------------------------------------

  /** `j` changes of the `k`-th of `txns`. */
  predicate IsPart(txns: seq<Txn>, k: nat, j: nat) {
    AllChanges(txns) && k < |txns| && j <= |txns[k].changes|
  }

  /** What is left of a peek that fails after `k` transactions and `j` changes of the next: no delivery is kept. */
  function PartPeek(p: Progress, txns: seq<Txn>, k: nat, j: nat, max: nat): Progress
    requires IsPart(txns, k, j)
  {
    var (q, ds) := PeekAll(p, txns[..k], [], max);
    HandOut(q, txns[k].changes[..j], ds, max).0
  }

  lemma PartInside(p: Progress, mid: Scan, rows: seq<Row>, m: nat, txns: seq<Txn>, max: nat) returns (j: nat)
    requires txns != [] && AllChanges(txns) && RendersOne(rows, txns[|txns| - 1]) && Inside(rows, m)
    requires PeekAll(p, txns[..|txns| - 1], [], max) == (mid.progress, mid.out)
    ensures IsPart(txns, |txns| - 1, j)
    ensures ScanRows(mid, rows[..m], max).progress == PartPeek(p, txns, |txns| - 1, j, max)
  {
    var changes := ChangesIn(rows[..m]);
    ScanInside(mid, rows, m, max);
    ChangesInSplits(rows[..m], rows[m..]);
    assert rows == rows[..m] + rows[m..];
    j := |changes|;
    assert txns[|txns| - 1].changes[..j] == changes;
  }

  /** The rows before the `i`-th do the part of the fold that `k` and `j` tell. */
  ghost predicate StopsWithin(p: Progress, rows: seq<Row>, txns: seq<Txn>, max: nat, i: nat, k: nat, j: nat) {
    && i <= |rows| && IsPart(txns, k, j)
    && ScanRows(Scan(p, {}, [], []), rows[..i], max).progress == PartPeek(p, txns, k, j, max)
  }

  lemma StopInFront(
    p: Progress, rows: seq<Row>, n: nat, txns: seq<Txn>, m: nat, max: nat, i: nat, k: nat, j: nat)
    requires n <= |rows| && m <= |txns| && AllChanges(txns) && StopsWithin(p, rows[..n], txns[..m], max, i, k, j)
    ensures StopsWithin(p, rows, txns, max, i, k, j)
  {
    assert txns[..m][..k] == txns[..k] && rows[..n][..i] == rows[..i];
  }

  /** The stop lies in the last transaction, `m` rows in. */
  lemma StopInLast(p: Progress, rows: seq<Row>, txns: seq<Txn>, max: nat, n: nat, m: nat) returns (j: nat)
    requires txns != [] && AllChanges(txns) && n + m < |rows| && IsChange(rows[n + m])
    requires Renders(rows[..n], txns[..|txns| - 1]) && RendersOne(rows[n..], txns[|txns| - 1])
    ensures StopsWithin(p, rows, txns, max, n + m, |txns| - 1, j)
  {
    var start, last := Scan(p, {}, [], []), rows[n..];
    assert last[m] == rows[n + m];
    var mid := ScanRows(start, rows[..n], max);
    assert PeekAll(p, txns[..|txns| - 1], [], max) == (mid.progress, mid.out) by {
      PeekRefines(start, rows[..n], txns[..|txns| - 1], max);
    }
    assert ScanRows(start, rows[..n + m], max) == ScanRows(mid, last[..m], max) by {
      assert rows[..n + m] == rows[..n] + last[..m];
      ScanSplits(start, rows[..n], last[..m], max);
    }
    j := PartInside(p, mid, last, m, txns, max);
  }

  /** The rows from `n` to `e` are those of the `k`-th transaction. */
  ghost predicate StandsAt(rows: seq<Row>, txns: seq<Txn>, k: nat, n: nat, e: nat) {
    k < |txns| && n <= e <= |rows| && Renders(rows[..n], txns[..k]) && RendersOne(rows[n..e], txns[k])
  }

  lemma StandsInFront(rows: seq<Row>, m: nat, txns: seq<Txn>, last: nat, k: nat, n: nat, e: nat)
    requires m <= |rows| && last <= |txns| && StandsAt(rows[..m], txns[..last], k, n, e)
    ensures StandsAt(rows, txns, k, n, e)
  {
    assert rows[..m][..n] == rows[..n] && rows[..m][n..e] == rows[n..e] && txns[..last][..k] == txns[..k];
  }

  lemma LastStands(rows: seq<Row>, txns: seq<Txn>) returns (n: nat)
    requires Renders(rows, txns) && rows != []
    ensures txns != [] && n < |rows| && Renders(rows[..n], txns[..|txns| - 1])
    ensures StandsAt(rows, txns, |txns| - 1, n, |rows|)
  {
    n := LastRendered(rows, txns);
    assert rows[n..|rows|] == rows[n..];
  }

  /** The transaction whose rows hold the `i`-th. */
  lemma {:induction false} TxnAt(rows: seq<Row>, txns: seq<Txn>, i: nat) returns (k: nat, n: nat, e: nat)
    requires Renders(rows, txns) && i < |rows|
    ensures StandsAt(rows, txns, k, n, e) && n <= i < e
    decreases |txns|
  {
    var m := LastStands(rows, txns);
    var last := |txns| - 1;
    if i < m {
      k, n, e := TxnAt(rows[..m], txns[..last], i);
      assert StandsAt(rows, txns, k, n, e) by { StandsInFront(rows, m, txns, last, k, n, e); }
    } else {
      k, n, e := last, m, |rows|;
    }
  }

  /** A peek that stops at a change has done part of the fold, wherever in the rows that is. */
  lemma StopIsPart(p: Progress, rows: seq<Row>, txns: seq<Txn>, max: nat, i: nat) returns (k: nat, j: nat)
    requires Renders(rows, txns) && AllChanges(txns) && i < |rows| && IsChange(rows[i])
    ensures StopsWithin(p, rows, txns, max, i, k, j)
  {
    var n, e;
    k, n, e := TxnAt(rows, txns, i);
    FrontChanges(txns, k + 1);
    var m := i - n;
    assert rows[..e][..n] == rows[..n] && rows[..e][n..] == rows[n..e] && rows[..e][n + m] == rows[i];
    assert txns[..k + 1][..k] == txns[..k] && txns[..k + 1][k] == txns[k];
    j := StopInLast(p, rows[..e], txns[..k + 1], max, n, m);
    StopInFront(p, rows, e, txns, k + 1, max, i, k, j);
  }

  lemma FrontChanges(txns: seq<Txn>, n: nat)
    requires n <= |txns| && AllChanges(txns)
    ensures AllChanges(txns[..n])
  {
    assert forall t :: t in txns[..n] ==> t in txns;
  }

  // ---------------------------------------------------------------------
  // What a delivery says
  // ---------------------------------------------------------------------

  /** `d` reports a change among `changes` that was fresh. */
  ghost predicate ReportsFresh(p: Progress, changes: seq<Row>, d: Delivery) {
    exists c, i :: c in changes && Fresh(p, c.lsn) && Reports(c, i, d)
  }

  lemma ReportedOf(p: Progress, changes: seq<Row>, c: Row)
    requires IsChange(c) && c in changes && Fresh(p, c.lsn)
    ensures forall d :: d in DeliveriesOf(c) ==> ReportsFresh(p, changes, d)
  {
    forall d | d in DeliveriesOf(c)
      ensures ReportsFresh(p, changes, d)
    {
      var i :| 0 <= i < |DeliveriesOf(c)| && DeliveriesOf(c)[i] == d;
      DeliveriesReport(c, i);
      assert Reports(c, i, d);
    }
  }

  lemma ReportedMore(p: Progress, changes: seq<Row>, n: nat, d: Delivery)
    requires n <= |changes| && ReportsFresh(p, changes[..n], d)
    ensures ReportsFresh(p, changes, d)
  {
    var c, i :| c in changes[..n] && Fresh(p, c.lsn) && Reports(c, i, d);
    assert c in changes;
  }

  /** Every delivery reports a fresh change, with that change's own kind and table. */
  lemma {:induction false} HandOutReports(p: Progress, changes: seq<Row>, max: nat, d: Delivery)
    requires (forall c :: c in changes ==> IsChange(c)) && d in HandOut(p, changes, [], max).1
    ensures ReportsFresh(p, changes, d)
    decreases |changes|
  {
    var n := |changes| - 1;
    HandOutMore(p, changes, [], max);
    if d in HandOut(p, changes[..n], [], max).1 {
      HandOutReports(p, changes[..n], max, d);
      ReportedMore(p, changes, n, d);
    } else {
      HandOutFills(p, changes[..n], [], max);
      ReportedOf(p, changes, changes[n]);
    }
  }

  lemma PeekReports(p: Progress, txns: seq<Txn>, max: nat)
    requires AllChanges(txns)
    ensures forall d :: d in PeekAll(p, txns, [], max).1 ==> ReportsFresh(p, ChangesOf(txns), d)
  {
    PeekHandsOut(p, txns, [], max);
    forall d | d in PeekAll(p, txns, [], max).1
      ensures ReportsFresh(p, ChangesOf(txns), d)
    {
      HandOutReports(p, ChangesOf(txns), max, d);
    }
  }

  /**
   One whole `peek`: it reads whole transactions from the first unconfirmed one, folds
   them, and hands something out whenever the largest read holds a fresh change; a change
   of a relation not described ends it with the rows before that applied.
   `slot(limit)` renders `count(limit)` of the unconfirmed transactions `txns`.
   */
  method Peek(watch: PostgresCdc, slot: nat -> seq<Row>, ghost txns: seq<Txn>, ghost count: nat -> nat, max: nat)
    returns (r: Result<seq<Delivery>, WatchError>, ghost limit: nat)
    requires forall limit :: 1 <= limit <= MAX_PEEK_ROWS ==> ReadsSlot(slot(limit), limit, txns, count(limit))
    modifies watch`progress
    ensures 1 <= limit <= MAX_PEEK_ROWS && count(limit) <= |txns| && AllChanges(txns[..count(limit)])
    ensures txns != [] ==> count(limit) >= 1
    ensures AllDescribed(slot(limit)) ==> r.Ok?
    ensures r.Ok? ==>
              PeekAll(old(watch.progress), txns[..count(limit)], [], max) == (watch.progress, r.value)
    ensures r.Ok? && NewChanges(old(watch.progress), slot(MAX_PEEK_ROWS)) > 0 ==>
              max >= 1 && HasEvents(ChangesOf(txns)) ==> r.value != []
    ensures r.Ok? ==>
              forall d :: d in r.value ==> ReportsFresh(old(watch.progress), ChangesOf(txns[..count(limit)]), d)
    ensures r.Err? ==> exists k, j :: IsPart(txns[..count(limit)], k, j) &&
                                      watch.progress == PartPeek(old(watch.progress), txns[..count(limit)], k, j, max)
  {
    var messages, top := watch.Read(slot, max);
    limit := top;
    ghost var n, p := count(limit), watch.progress;
    assert ReadsSlot(slot(limit), limit, txns, n);
    RenderedAreChanges(messages, txns[..n]);
    PeekRefines(Scan(p, {}, [], []), messages, txns[..n], max);
    PeekReports(p, txns[..n], max);
    if max >= 1 && HasEvents(ChangesOf(txns)) && NewChanges(p, slot(MAX_PEEK_ROWS)) > 0 {
      FreshIsRead(p, slot, txns, count, limit, max);
      ChangesOfPrefix(txns, n);
      PeekFills(p, txns[..n], max);
    }
    r := watch.Apply(messages, max);
    if r.Err? {
      ghost var i :| 0 <= i < |messages| && Stops(p, messages, max, i, watch.progress);
      ghost var k, j := StopIsPart(p, messages, txns[..n], max, i);
    }
  }

  lemma {:induction false} ChangesOfPrefix(txns: seq<Txn>, n: nat)
    requires n <= |txns|
    ensures forall c :: c in ChangesOf(txns[..n]) ==> c in ChangesOf(txns)
    decreases |txns| - n
  {
    if n == |txns| {
      assert txns[..n] == txns;
    } else {
      assert txns[..n + 1][..n] == txns[..n];
      ChangesOfPrefix(txns, n + 1);
    }
  }

  /** Whichever way the growing read ends, a fresh change within the largest read is in it. */
  lemma FreshIsRead(p: Progress, slot: nat -> seq<Row>, txns: seq<Txn>, count: nat -> nat, limit: nat, max: nat)
    requires forall limit :: 1 <= limit <= MAX_PEEK_ROWS ==> ReadsSlot(slot(limit), limit, txns, count(limit))
    requires 1 <= limit <= MAX_PEEK_ROWS && max >= 1
    requires |slot(limit)| < limit || limit == MAX_PEEK_ROWS || NewChanges(p, slot(limit)) >= max
    requires NewChanges(p, slot(MAX_PEEK_ROWS)) > 0
    ensures count(limit) <= |txns|
    ensures exists c :: c in ChangesOf(txns[..count(limit)]) && Fresh(p, c.lsn)
  {
    assert ReadsSlot(slot(limit), limit, txns, count(limit));
    RenderedChanges(slot(limit), txns[..count(limit)]);
    if |slot(limit)| < limit {
      var n := count(MAX_PEEK_ROWS);
      assert ReadsSlot(slot(MAX_PEEK_ROWS), MAX_PEEK_ROWS, txns, n);
      RenderedChanges(slot(MAX_PEEK_ROWS), txns[..n]);
      NewChangesFound(p, slot(MAX_PEEK_ROWS));
      ChangesOfPrefix(txns, n);
      assert txns[..count(limit)] == txns;
    } else {
      NewChangesFound(p, slot(limit));
    }
  }

  // ---------------------------------------------------------------------
  // Exactly which changes are handed out
  // ---------------------------------------------------------------------

  ghost predicate DistinctLsns(changes: seq<Row>) {
    forall i, j :: 0 <= i < j < |changes| ==> changes[i].lsn != changes[j].lsn
  }

  /** No earlier change has the LSN of the `i`-th. */
  predicate FirstAt(changes: seq<Row>, i: nat)
    requires i < |changes|
  {
    forall h :: 0 <= h < i ==> changes[h].lsn != changes[i].lsn
  }

  /** The fresh changes that are first at their LSN, in order. */
  function FreshOf(p: Progress, changes: seq<Row>): (fresh_: seq<Row>)
    ensures forall c :: c in fresh_ ==> c in changes && Fresh(p, c.lsn)
  {
    if changes == [] then []
    else
      var n := |changes| - 1;
      FreshOf(p, changes[..n]) + if Fresh(p, changes[n].lsn) && FirstAt(changes, n) then [changes[n]] else []
  }

  /** Every event of `changes`, in order. */
  function Flat(changes: seq<Row>): seq<Delivery>
    requires forall c :: c in changes ==> IsChange(c)
  {
    if changes == [] then [] else Flat(changes[..|changes| - 1]) + DeliveriesOf(changes[|changes| - 1])
  }

  /** The first changes, until their events reach `max`. */
  function UpTo(changes: seq<Row>, max: nat): (some: seq<Row>)
    requires forall c :: c in changes ==> IsChange(c)
    ensures forall c :: c in some ==> c in changes
  {
    if changes == [] then []
    else
      var some := UpTo(changes[..|changes| - 1], max);
      if |Flat(some)| < max then some + [changes[|changes| - 1]] else some
  }

  lemma FlatMore(some: seq<Row>, c: Row)
    requires IsChange(c) && forall d :: d in some ==> IsChange(d)
    ensures Flat(some + [c]) == Flat(some) + DeliveriesOf(c) && Lsns(some + [c]) == Lsns(some) + {c.lsn}
  {
    assert (some + [c])[..|some|] == some;
  }

  lemma UpToMore(changes: seq<Row>, c: Row, max: nat)
    requires IsChange(c) && forall d :: d in changes ==> IsChange(d)
    ensures var some := UpTo(changes, max);
            UpTo(changes + [c], max) == if |Flat(some)| < max then some + [c] else some
  {
    assert (changes + [c])[..|changes|] == changes;
  }

  /** What was handed out so far, and one more change whose LSN is not among it. */
  lemma HandsOutStep(p: Progress, q: Progress, some: seq<Row>, c: Row)
    requires IsChange(c) && (forall d :: d in some ==> IsChange(d)) && c.lsn !in Lsns(some)
    requires q == p.(delivered := p.delivered + Lsns(some))
    ensures Fresh(q, c.lsn) == Fresh(p, c.lsn)
    ensures q.(delivered := q.delivered + {c.lsn}) == p.(delivered := p.delivered + Lsns(some + [c]))
    ensures Flat(some + [c]) == Flat(some) + DeliveriesOf(c)
  {
    FlatMore(some, c);
    assert p.delivered + Lsns(some) + {c.lsn} == p.delivered + (Lsns(some) + {c.lsn});
  }

  lemma FreshMore(p: Progress, changes: seq<Row>)
    requires changes != []
    ensures var n := |changes| - 1;
            FreshOf(p, changes) == FreshOf(p, changes[..n]) +
              if Fresh(p, changes[n].lsn) && FirstAt(changes, n) then [changes[n]] else []
  {
  }

  lemma NewLsn(p: Progress, changes: seq<Row>, max: nat)
    requires changes != [] && (forall c :: c in changes ==> IsChange(c)) && FirstAt(changes, |changes| - 1)
    ensures var n := |changes| - 1;
            (forall d :: d in FreshOf(p, changes[..n]) ==> IsChange(d)) &&
            changes[n].lsn !in Lsns(UpTo(FreshOf(p, changes[..n]), max))
  {
    var n := |changes| - 1;
    forall d | d in UpTo(FreshOf(p, changes[..n]), max)
      ensures d.lsn != changes[n].lsn
    {
      assert d in changes[..n];
    }
  }

  /** A change that is not fresh, or not first at its LSN, is not taken. */
  lemma NotTaken(p: Progress, changes: seq<Row>, max: nat)
    requires changes != [] && forall c :: c in changes ==> IsChange(c)
    requires !(Fresh(p, changes[|changes| - 1].lsn) && FirstAt(changes, |changes| - 1))
    ensures HandOut(p, changes, [], max) == HandOut(p, changes[..|changes| - 1], [], max)
  {
    var n := |changes| - 1;
    HandOutFills(p, changes[..n], [], max);
    if !FirstAt(changes, n) {
      var h :| 0 <= h < n && changes[h].lsn == changes[n].lsn;
      assert changes[h] in changes[..n];
    }
    HandOutMore(p, changes, [], max);
  }

  /** `r` is what a peek of `some`, all of them fresh, gives. */
  ghost predicate GivesAll(p: Progress, some: seq<Row>, r: (Progress, seq<Delivery>))
    requires forall c :: c in some ==> IsChange(c)
  {
    r.0 == p.(delivered := p.delivered + Lsns(some)) && r.1 == Flat(some)
  }

  lemma TakesOne(p: Progress, changes: seq<Row>, max: nat)
    requires changes != [] && forall c :: c in changes ==> IsChange(c)
    requires Fresh(p, changes[|changes| - 1].lsn) && FirstAt(changes, |changes| - 1)
    requires var front := changes[..|changes| - 1];
             GivesAll(p, UpTo(FreshOf(p, front), max), HandOut(p, front, [], max))
    ensures GivesAll(p, UpTo(FreshOf(p, changes), max), HandOut(p, changes, [], max))
  {
    var front, c := changes[..|changes| - 1], changes[|changes| - 1];
    var fresh_ := FreshOf(p, front);
    assert FreshOf(p, changes) == fresh_ + [c] by { FreshMore(p, changes); }
    NewLsn(p, changes, max);
    HandOutMore(p, changes, [], max);
    HandsOutStep(p, HandOut(p, front, [], max).0, UpTo(fresh_, max), c);
    UpToMore(fresh_, c, max);
  }

  /** A peek hands out the fresh changes first at their LSN, in commit order, until `max` is reached. */
  lemma {:induction false} HandsOutExactly(p: Progress, changes: seq<Row>, max: nat)
    requires forall c :: c in changes ==> IsChange(c)
    ensures GivesAll(p, UpTo(FreshOf(p, changes), max), HandOut(p, changes, [], max))
    decreases |changes|
  {
    if changes == [] {
      assert p.delivered + Lsns([]) == p.delivered;
    } else {
      var front, c := changes[..|changes| - 1], changes[|changes| - 1];
      HandsOutExactly(p, front, max);
      if Fresh(p, c.lsn) && FirstAt(changes, |front|) {
        TakesOne(p, changes, max);
      } else {
        NotTaken(p, changes, max);
        assert FreshOf(p, front) + [] == FreshOf(p, front);
      }
    }
  }

  /** `some` is the shortest prefix of `changes` that reaches `max`, `k` long, or everything. */
  ghost predicate Shortest(changes: seq<Row>, max: nat, some: seq<Row>, k: nat)
    requires forall c :: c in changes ==> IsChange(c)
  {
    && k <= |changes| && some == changes[..k] && AllShort(changes, max, k)
    && (k < |changes| ==> |Flat(some)| >= max)
  }

  /** `UpTo` takes the shortest prefix that reaches `max`, or everything. */
  lemma {:induction false} UpToShape(changes: seq<Row>, max: nat) returns (k: nat)
    requires forall c :: c in changes ==> IsChange(c)
    ensures Shortest(changes, max, UpTo(changes, max), k)
    decreases |changes|
  {
    k := 0;
    if changes != [] {
      var n := |changes| - 1;
      k := UpToShape(changes[..n], max);
      ShortestStep(changes, max, UpTo(changes[..n], max), k);
      if |Flat(UpTo(changes[..n], max))| < max {
        k := n + 1;
      }
    }
  }

  lemma ShortestStep(changes: seq<Row>, max: nat, some: seq<Row>, k: nat)
    requires changes != [] && forall c :: c in changes ==> IsChange(c)
    requires Shortest(changes[..|changes| - 1], max, some, k)
    ensures var n := |changes| - 1;
            if |Flat(some)| < max then Shortest(changes, max, some + [changes[n]], n + 1)
            else Shortest(changes, max, some, k)
  {
    var n := |changes| - 1;
    var front := changes[..n];
    assert front[..k] == changes[..k];
    ShortExtends(changes, max, n, k);
    if |Flat(some)| < max {
      assert k == n && some + [changes[n]] == changes[..n + 1];
    }
  }

  /** The prefixes shorter than `k` do not reach `max`. */
  ghost predicate AllShort(changes: seq<Row>, max: nat, k: nat)
    requires (forall c :: c in changes ==> IsChange(c)) && k <= |changes|
  {
    forall j :: 0 <= j < k ==> |Flat(changes[..j])| < max
  }

  lemma ShortExtends(changes: seq<Row>, max: nat, n: nat, k: nat)
    requires (forall c :: c in changes ==> IsChange(c)) && k <= n < |changes| && AllShort(changes[..n], max, k)
    ensures AllShort(changes, max, k)
    ensures k == n && |Flat(changes[..n])| < max ==> AllShort(changes, max, n + 1)
  {
    forall j | 0 <= j < k
      ensures |Flat(changes[..j])| < max
    {
      assert changes[..n][..j] == changes[..j];
    }
  }

  /**
   A peek is meant to hand out at most `max` deliveries. It does so exactly when some
   whole number of those changes has `max` events, or all of them have no more: a
   TRUNCATE of several tables is never split.
   */
  lemma WithinMax(p: Progress, changes: seq<Row>, max: nat)
    requires forall c :: c in changes ==> IsChange(c)
    ensures var fresh_ := FreshOf(p, changes);
            |HandOut(p, changes, [], max).1| <= max <==>
            (|Flat(fresh_)| <= max || exists k :: 0 <= k <= |fresh_| && |Flat(fresh_[..k])| == max)
  {
    HandsOutExactly(p, changes, max);
    var fresh_ := FreshOf(p, changes);
    var k := UpToShape(fresh_, max);
    if |Flat(fresh_[..k])| <= max {
      if k == |fresh_| {
        assert fresh_[..k] == fresh_;
      }
    } else {
      forall j | 0 <= j <= |fresh_|
        ensures |Flat(fresh_[..j])| != max
      {
        if j > k {
          FlatGrows(fresh_, k, j);
        } else if j < k {
          assert AllShort(fresh_, max, k);
        }
      }
      assert fresh_[..|fresh_|] == fresh_;
      FlatGrows(fresh_, k, |fresh_|);
    }
  }

  lemma {:induction false} FlatGrows(changes: seq<Row>, i: nat, j: nat)
    requires (forall c :: c in changes ==> IsChange(c)) && i <= j <= |changes|
    ensures |Flat(changes[..i])| <= |Flat(changes[..j])|
    ensures HasEvents(changes) && i < j ==> |Flat(changes[..i])| < |Flat(changes[..j])|
    decreases j - i
  {
    if i < j {
      FlatGrows(changes, i, j - 1);
      assert changes[..j][..j - 1] == changes[..j - 1];
      assert changes[j - 1] in changes;
    }
  }

  /** Two deliveries where one was asked for: a TRUNCATE of two tables. */
  lemma TruncateOverfills()
    ensures var r := Row(5, Truncate([1, 2], false, false));
            |HandOut(EMPTY, [r], [], 1).1| == 2
  {
    var r := Row(5, Truncate([1, 2], false, false));
    assert [r][..0] == [];
    assert HandOut(EMPTY, [], [], 1) == (EMPTY, []);
    assert |DeliveriesOf(r)| == 2;
  }

  /** A change that shares its LSN with an earlier one adds nothing. */
  lemma SharedAddsNothing(p: Progress, changes: seq<Row>, max: nat)
    requires changes != [] && HasEvents(changes) && !DistinctLsns(changes)
    requires DistinctLsns(changes[..|changes| - 1])
    ensures HandOut(p, changes, [], max) == HandOut(p, changes[..|changes| - 1], [], max)
  {
    var i, j :| 0 <= i < j < |changes| && changes[i].lsn == changes[j].lsn;
    assert j == |changes| - 1;
    NotTaken(p, changes, max);
  }

  lemma {:induction false} HandOutAtMostOnce(p: Progress, changes: seq<Row>, max: nat)
    requires HasEvents(changes)
    ensures |HandOut(p, changes, [], max).1| <= |Flat(changes)|
    ensures !DistinctLsns(changes) ==> |HandOut(p, changes, [], max).1| < |Flat(changes)|
    decreases |changes|
  {
    if changes != [] {
      var n := |changes| - 1;
      HandOutAtMostOnce(p, changes[..n], max);
      HandOutMore(p, changes, [], max);
      assert changes[n] in changes;
      if !DistinctLsns(changes) && DistinctLsns(changes[..n]) {
        SharedAddsNothing(p, changes, max);
      }
    }
  }

  /**
   A change is known by its LSN alone. With room for them all, every fresh change is
   handed out exactly when no two share an LSN; one that shares its LSN is never seen.
   */
  lemma SharedLsnIsLost(p: Progress, changes: seq<Row>, max: nat)
    requires HasEvents(changes) && max >= |Flat(changes)|
    requires forall c :: c in changes ==> Fresh(p, c.lsn)
    ensures HandOut(p, changes, [], max).1 == Flat(changes) <==> DistinctLsns(changes)
  {
    HandOutAtMostOnce(p, changes, max);
    if DistinctLsns(changes) {
      HandsOutExactly(p, changes, max);
      AllFresh(p, changes);
      AllFit(changes, max);
    }
  }

  lemma AllFit(changes: seq<Row>, max: nat)
    requires HasEvents(changes) && max >= |Flat(changes)|
    ensures UpTo(changes, max) == changes
  {
    var k := UpToShape(changes, max);
    assert changes[..|changes|] == changes;
    if k < |changes| {
      FlatGrows(changes, k, |changes|);
    }
  }

  lemma DistinctFront(changes: seq<Row>)
    requires DistinctLsns(changes) && changes != []
    ensures DistinctLsns(changes[..|changes| - 1]) && FirstAt(changes, |changes| - 1)
    ensures forall c :: c in changes[..|changes| - 1] ==> c in changes
  {
  }

  lemma {:induction false} AllFresh(p: Progress, changes: seq<Row>)
    requires DistinctLsns(changes) && forall c :: c in changes ==> Fresh(p, c.lsn)
    ensures FreshOf(p, changes) == changes
    decreases |changes|
  {
    if changes != [] {
      var n := |changes| - 1;
      DistinctFront(changes);
      AllFresh(p, changes[..n]);
      FreshMore(p, changes);
      assert changes[n] in changes;
    }
  }
}
