/** Changes are handed out in commit order over a whole session, not only by one peek. */
module WatchPgCdcOrder {
  import opened WatchPgCdc
  import opened WatchPgCdcPeek
  import opened WatchPgCdcRuns
  import opened WatchPgCdcTheorems
  import opened WatchPgCdcReach
  import opened WatchPgCdcDelivery

  /** Commit order: by the end of the transaction, then by the place in it. */
  predicate Before(a: Place, b: Place) {
    a.end < b.end || (a.end == b.end && a.index < b.index)
  }

  // ---------------------------------------------------------------------
  // One peek
  // ---------------------------------------------------------------------

  /** The changes of one transaction are given in order. */
  lemma {:induction false} GivenInOrder(p: Progress, changes: seq<Row>, out: seq<Delivery>, max: nat, i: nat, j: nat)
    requires (forall c :: c in changes ==> IsChange(c)) && i < j < |Given(p, changes, out, max)|
    ensures Given(p, changes, out, max)[i] < Given(p, changes, out, max)[j]
    decreases |changes|
  {
    var front := Given(p, changes[..|changes| - 1], out, max);
    if j < |front| {
      GivenInOrder(p, changes[..|changes| - 1], out, max, i, j);
    } else {
      assert front[i] in front;
    }
  }

  /** A change is given only while there is room, and leaves itself and all before it held. */
  lemma {:induction false} GivenHoldsFront(
    p: Progress, changes: seq<Row>, out: seq<Delivery>, max: nat, k: nat, i: nat)
    requires (forall c :: c in changes ==> IsChange(c)) && k in Given(p, changes, out, max) && i <= k
    ensures |out| < max && !Fresh(HandOut(p, changes, out, max).0, changes[i].lsn)
    decreases |changes|
  {
    var n := |changes| - 1;
    HandOutMore(p, changes, out, max);
    HandOutFills(p, changes[..n], out, max);
    if k in Given(p, changes[..n], out, max) {
      GivenHoldsFront(p, changes[..n], out, max, k, i);
    } else if i < n {
      assert changes[i] in changes[..n];
    }
  }

  /** Only what is fresh is given. */
  lemma {:induction false} GivenIsFresh(p: Progress, changes: seq<Row>, out: seq<Delivery>, max: nat, k: nat)
    requires (forall c :: c in changes ==> IsChange(c)) && k in Given(p, changes, out, max)
    ensures Fresh(p, changes[k].lsn)
    decreases |changes|
  {
    var n := |changes| - 1;
    HandOutFills(p, changes[..n], out, max);
    if k in Given(p, changes[..n], out, max) {
      GivenIsFresh(p, changes[..n], out, max, k);
    }
  }

  /** With room left, a peek holds every change it has read. */
  lemma RoomMeansHeld(p: Progress, txns: seq<Txn>, out: seq<Delivery>, max: nat, t: Txn, i: nat)
    requires AllChanges(txns) && |PeekAll(p, txns, out, max).1| < max && t in txns && i < |t.changes|
    ensures !Fresh(PeekAll(p, txns, out, max).0, t.changes[i].lsn)
  {
    PeekHandsOut(p, txns, out, max);
    HandOutFills(p, ChangesOf(txns), out, max);
    ChangesOfAreChanges(txns);
    assert t.changes[i] in ChangesOf(txns);
  }

  /** One more transaction lets go of nothing. */
  lemma MoreStaysHeld(p: Progress, txns: seq<Txn>, out: seq<Delivery>, max: nat, l: nat)
    requires txns != [] && AllChanges(txns) && !Fresh(PeekAll(p, txns[..|txns| - 1], out, max).0, l)
    ensures !Fresh(PeekAll(p, txns, out, max).0, l)
  {
    var n := |txns| - 1;
    var (q, ds) := PeekAll(p, txns[..n], out, max);
    PeekMore(p, txns, out, max);
    HandOutSkips(q, txns[n].changes, ds, max, l);
  }

  /** `place` is one of `txns`, with its change. */
  ghost predicate PlaceIn(txns: seq<Txn>, place: Place, t: Txn) {
    t in txns && t.end == place.end && place.index < |t.changes|
  }

  /** A change of the last transaction given leaves held what was read before it. */
  lemma LastHoldsFront(
    p: Progress, txns: seq<Txn>, out: seq<Delivery>, max: nat, k: nat, t: Txn, i: nat)
    requires txns != [] && AllChanges(txns) && i < |t.changes|
    requires var (q, ds) := PeekAll(p, txns[..|txns| - 1], out, max);
             k in Given(q, txns[|txns| - 1].changes, ds, max)
    requires t in txns[..|txns| - 1] || (t == txns[|txns| - 1] && i <= k)
    ensures !Fresh(PeekAll(p, txns, out, max).0, t.changes[i].lsn)
  {
    var n := |txns| - 1;
    var (q, ds) := PeekAll(p, txns[..n], out, max);
    if t in txns[..n] {
      GivenHoldsFront(q, txns[n].changes, ds, max, k, k);
      RoomMeansHeld(p, txns[..n], out, max, t, i);
      MoreStaysHeld(p, txns, out, max, t.changes[i].lsn);
    } else {
      GivenHoldsFront(q, txns[n].changes, ds, max, k, i);
      PeekMore(p, txns, out, max);
    }
  }

  lemma SortedFront(txns: seq<Txn>, n: nat)
    requires AllChanges(txns) && Sorted(txns) && n <= |txns|
    ensures AllChanges(txns[..n]) && Sorted(txns[..n])
  {
    FrontChanges(txns, n);
  }

  /** What ends no later than one of the first `n` is among them. */
  lemma InFront(txns: seq<Txn>, n: nat, t: Txn, end: nat)
    requires Sorted(txns) && n <= |txns| && t in txns && t.end <= end
    requires exists i :: 0 <= i < n && txns[..n][i].end == end
    ensures t in txns[..n]
  {
    var x :| 0 <= x < |txns| && txns[x] == t;
    var i :| 0 <= i < n && txns[..n][i].end == end;
    assert x <= i && txns[..n][x] == t;
  }

  /** A change given leaves held every change read before it. */
  lemma {:induction false} PeekHoldsFront(
    p: Progress, txns: seq<Txn>, out: seq<Delivery>, max: nat, a: Place, b: Place, t: Txn)
    requires AllChanges(txns) && Sorted(txns) && a in GivenBy(p, txns, out, max)
    requires PlaceIn(txns, b, t) && !Before(a, b)
    ensures !Fresh(PeekAll(p, txns, out, max).0, t.changes[b.index].lsn)
    decreases |txns|
  {
    var n := |txns| - 1;
    SortedFront(txns, n);
    if a in GivenBy(p, txns[..n], out, max) {
      GivenEndsIn(p, txns[..n], out, max, a);
      InFront(txns, n, t, a.end);
      PeekHoldsFront(p, txns[..n], out, max, a, b, t);
      MoreStaysHeld(p, txns, out, max, t.changes[b.index].lsn);
    } else {
      OrLast(txns, t);
      LastHoldsFront(p, txns, out, max, a.index, t, b.index);
    }
  }

  lemma OrLast(txns: seq<Txn>, t: Txn)
    requires t in txns
    ensures t in txns[..|txns| - 1] || t == txns[|txns| - 1]
  {
    assert txns == txns[..|txns| - 1] + [txns[|txns| - 1]];
  }

  /** A place given is of a transaction read. */
  lemma {:induction false} GivenEndsIn(p: Progress, txns: seq<Txn>, out: seq<Delivery>, max: nat, a: Place)
    requires AllChanges(txns) && a in GivenBy(p, txns, out, max)
    ensures exists i :: 0 <= i < |txns| && txns[i].end == a.end
    decreases |txns|
  {
    var n := |txns| - 1;
    if a in GivenBy(p, txns[..n], out, max) {
      GivenEndsIn(p, txns[..n], out, max, a);
      var i :| 0 <= i < n && txns[..n][i].end == a.end;
      assert txns[i].end == a.end;
    } else {
      assert txns[n].end == a.end;
    }
  }

  /** And was fresh before the peek. */
  lemma {:induction false} GivenWasFresh(
    p: Progress, txns: seq<Txn>, out: seq<Delivery>, max: nat, b: Place) returns (t: Txn)
    requires AllChanges(txns) && b in GivenBy(p, txns, out, max)
    ensures PlaceIn(txns, b, t) && Fresh(p, t.changes[b.index].lsn)
    decreases |txns|
  {
    var n := |txns| - 1;
    if b in GivenBy(p, txns[..n], out, max) {
      t := GivenWasFresh(p, txns[..n], out, max, b);
    } else {
      t := txns[n];
      var (q, ds) := PeekAll(p, txns[..n], out, max);
      GivenIsFresh(q, t.changes, ds, max, b.index);
      PeekHandsOut(p, txns[..n], out, max);
      HandOutFills(p, ChangesOf(txns[..n]), out, max);
    }
  }

  // ---------------------------------------------------------------------
  // The session
  // ---------------------------------------------------------------------

  lemma StepGrows(s: State, step: Step)
    ensures s.log <= Do(s, step).log && s.confirmed <= Do(s, step).confirmed
  {
    if step.Settles? {
      NewPositions(s, step.outcome);
    }
  }

  lemma {:induction false} RunGrows(s: State, steps: seq<Step>)
    ensures s.log <= Run(s, steps).log && s.confirmed <= Run(s, steps).confirmed
    decreases |steps|
  {
    if steps != [] {
      RunGrows(s, steps[..|steps| - 1]);
      StepGrows(Run(s, steps[..|steps| - 1]), steps[|steps| - 1]);
    }
  }

  /** A transaction that ends no later than one of an earlier log was in it. */
  lemma WasThere(log: seq<Txn>, more: seq<Txn>, t: Txn, u: Txn)
    requires Sorted(more) && log <= more && t in more && u in log && t.end <= u.end
    ensures t in log
  {
    var i :| 0 <= i < |more| && more[i] == t;
    var j :| 0 <= j < |log| && log[j] == u;
    assert i <= j && log[i] == t;
  }

  /** An unconfirmed transaction that ends no later than one read was read. */
  lemma WasRead(log: seq<Txn>, confirmed: nat, n: nat, t: Txn, u: Txn)
    requires Sorted(log) && n <= |Unread(log, confirmed)| && u in Unread(log, confirmed)[..n]
    requires t in log && confirmed < t.end <= u.end
    ensures t in Unread(log, confirmed)[..n] && Sorted(Unread(log, confirmed)[..n])
  {
    var k := UnreadIsSuffix(log, confirmed);
    var i :| 0 <= i < |log| && log[i] == t;
    var j :| 0 <= j < n && log[k..][j] == u;
    assert k <= i <= k + j;
    assert log[k..][i - k] == t;
  }

  /** A place that is not after one given was read with it, if its transaction is past the slot: it is held. */
  lemma StepHoldsFront(s: State, n: nat, max: nat, a: Place, b: Place, t: Txn, log: seq<Txn>)
    requires a in StepGives(s, Peeks(n, max)) && !Before(a, b)
    requires Sorted(log) && s.log <= log && PlaceIn(log, b, t) && t.end > s.confirmed
    ensures Held(Do(s, Peeks(n, max)), t.changes[b.index].lsn)
  {
    var txns := Unread(s.log, s.confirmed)[..n];
    GivenEndsIn(s.progress, txns, [], max, a);
    var u :| u in txns && u.end == a.end;
    assert u in s.log;
    WasThere(s.log, log, t, u);
    WasRead(s.log, s.confirmed, n, t, u);
    PeekHoldsFront(s.progress, txns, [], max, a, b, t);
  }

  /** The change of a place given was fresh, and its transaction past the slot. */
  lemma StepGivesFresh(s: State, n: nat, max: nat, b: Place) returns (t: Txn)
    requires Sorted(s.log) && b in StepGives(s, Peeks(n, max))
    ensures PlaceIn(s.log, b, t) && t.end > s.confirmed && !Held(s, t.changes[b.index].lsn)
  {
    t := GivenWasFresh(s.progress, Unread(s.log, s.confirmed)[..n], [], max, b);
    UnreadAhead(s.log, s.confirmed, t);
  }

  /** The LSN of the change at `place`. */
  ghost predicate HasLsn(log: seq<Txn>, place: Place, l: nat) {
    exists t :: PlaceIn(log, place, t) && t.changes[place.index].lsn == l
  }

  /**
   Delivery in commit order: in one session, whatever runs between two peeks, everything the
   later one hands out comes after everything the earlier one did, unless it was released.
   */
  lemma HandedOutInCommitOrder(
    s: State, n: nat, max: nat, steps: seq<Step>, m: nat, more: nat, a: Place, b: Place, l: nat)
    requires Inv(s) && a in StepGives(s, Peeks(n, max))
    requires var later := Run(Do(s, Peeks(n, max)), steps);
             b in StepGives(later, Peeks(m, more)) && HasLsn(later.log, b, l)
    requires Keeps(steps, l)
    ensures Before(a, b)
  {
    var peeked := Do(s, Peeks(n, max));
    var later := Run(peeked, steps);
    assert Inv(peeked) by { StepKeeps(s, Peeks(n, max)); }
    assert LogOk(later.start, later.log) by { RunKeeps(peeked, steps); }
    assert s.log <= later.log && s.confirmed <= later.confirmed by {
      StepGrows(s, Peeks(n, max));
      RunGrows(peeked, steps);
    }
    var t := StepGivesFresh(later, m, more, b);
    var u :| PlaceIn(later.log, b, u) && u.changes[b.index].lsn == l;
    OneTxnPerEnd(later.start, later.log, t, u);
    if !Before(a, b) {
      StepHoldsFront(s, n, max, a, b, t, later.log);
      RunHolds(peeked, l, steps);
    }
  }
}
