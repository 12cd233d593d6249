/** Exactly which changes the watch can still hand out in this session, and which after a reconnect. */
module WatchPgCdcReach {
  import opened Wrappers
  import opened WatchPgCdc
  import opened WatchPgCdcPeek
  import opened WatchPgCdcRuns
  import opened WatchPgCdcTheorems

  ghost predicate SameSession(steps: seq<Step>) {
    Connects !in steps
  }

  /** Change `l` of `t` is not in flight, and the slot is past `t` or the change lies before what is consumed. */
  ghost predicate OutOfReach(s: State, t: Txn, l: nat) {
    && t in s.log && l in Lsns(t.changes) && l !in s.progress.delivered
    && (t.end <= s.confirmed || l < s.progress.consumed)
  }

  // ---------------------------------------------------------------------
  // Out of reach, a change stays so until a reconnect
  // ---------------------------------------------------------------------

  lemma PeekLeavesOut(s: State, t: Txn, l: nat, n: nat, max: nat)
    requires Inv(s) && OutOfReach(s, t, l) && Enabled(s, Peeks(n, max))
    ensures OutOfReach(Do(s, Peeks(n, max)), t, l) && Do(s, Peeks(n, max)).handed[l] == s.handed[l]
  {
    var txns, p := Unread(s.log, s.confirmed)[..n], s.progress;
    PeekHandsOut(p, txns, [], max);
    HandOutFills(p, ChangesOf(txns), [], max);
    if t.end <= s.confirmed {
      NotRead(s.start, s.log, s.confirmed, n, t, l);
    }
    PeekReceipts(p, txns, max, l);
  }

  lemma FailedPeekLeavesOut(s: State, t: Txn, l: nat, k: nat, j: nat, max: nat)
    requires Inv(s) && OutOfReach(s, t, l) && Enabled(s, PeekFails(k, j, max))
    ensures OutOfReach(Do(s, PeekFails(k, j, max)), t, l)
  {
    var txns := Unread(s.log, s.confirmed);
    PeekLeavesOut(s, t, l, k, max);
    PartIsMoreInFlight(s.progress, txns, k, j, max);
    if t.end <= s.confirmed {
      UnreadAhead(s.log, s.confirmed, txns[k]);
      assert forall c :: c in txns[k].changes[..j] ==> c.lsn in Lsns(txns[k].changes);
    }
  }

  lemma SettleLeavesOut(s: State, t: Txn, l: nat, outcome: Outcome)
    requires OutOfReach(s, t, l)
    ensures OutOfReach(Do(s, Settles(outcome)), t, l) && Do(s, Settles(outcome)).handed == s.handed
  {
    NewPositions(s, outcome);
  }

  lemma StepLeavesOut(s: State, t: Txn, l: nat, step: Step)
    requires Inv(s) && OutOfReach(s, t, l) && step != Connects
    ensures OutOfReach(Do(s, step), t, l) && Do(s, step).handed[l] == s.handed[l]
  {
    match step
    case Commits(u) =>
    case Peeks(n, max) =>
      if Enabled(s, step) {
        PeekLeavesOut(s, t, l, n, max);
      }
    case PeekFails(k, j, max) =>
      if Enabled(s, step) {
        FailedPeekLeavesOut(s, t, l, k, j, max);
      }
    case Acks(receipt) =>
    case Releases(receipt) =>
    case Settles(outcome) => SettleLeavesOut(s, t, l, outcome);
  }

  lemma {:induction false} RunLeavesOut(s: State, t: Txn, l: nat, steps: seq<Step>)
    requires Inv(s) && OutOfReach(s, t, l) && SameSession(steps)
    ensures OutOfReach(Run(s, steps), t, l) && Run(s, steps).handed[l] == s.handed[l]
    decreases |steps|
  {
    if steps != [] {
      var n := |steps| - 1;
      assert steps[n] in steps && forall step :: step in steps[..n] ==> step in steps;
      RunLeavesOut(s, t, l, steps[..n]);
      RunKeeps(s, steps[..n]);
      StepLeavesOut(Run(s, steps[..n]), t, l, steps[n]);
    }
  }

  // ---------------------------------------------------------------------
  // In flight or consumed, a change is not handed out
  // ---------------------------------------------------------------------

  predicate Held(s: State, l: nat) {
    !Fresh(s.progress, l)
  }

  lemma {:induction false} HandOutSkips(p: Progress, changes: seq<Row>, out: seq<Delivery>, max: nat, l: nat)
    requires (forall c :: c in changes ==> IsChange(c)) && !Fresh(p, l)
    ensures var (q, ds) := HandOut(p, changes, out, max);
            !Fresh(q, l) && ReceiptsOf(ds)[l] == ReceiptsOf(out)[l]
    decreases |changes|
  {
    if changes != [] {
      var n := |changes| - 1;
      HandOutSkips(p, changes[..n], out, max, l);
      HandOutMore(p, changes, out, max);
      var (q, ds) := HandOut(p, changes[..n], out, max);
      ReceiptsSplit(ds, DeliveriesOf(changes[n]));
      ReceiptOfChange(changes[n]);
    }
  }

  lemma PeekSkips(p: Progress, txns: seq<Txn>, max: nat, l: nat)
    requires AllChanges(txns) && !Fresh(p, l)
    ensures var (q, ds) := PeekAll(p, txns, [], max);
            !Fresh(q, l) && ReceiptsOf(ds)[l] == 0
  {
    PeekHandsOut(p, txns, [], max);
    HandOutSkips(p, ChangesOf(txns), [], max, l);
    HandOutFills(p, ChangesOf(txns), [], max);
  }

  lemma FailedPeekSkips(p: Progress, txns: seq<Txn>, k: nat, j: nat, max: nat, l: nat)
    requires IsPart(txns, k, j) && !Fresh(p, l)
    ensures !Fresh(PartPeek(p, txns, k, j, max), l)
  {
    PeekSkips(p, txns[..k], max, l);
    PartIsMoreInFlight(p, txns, k, j, max);
  }

  lemma AdvanceHolds(start: nat, log: seq<Txn>, acknowledged: set<nat>, p: Progress, l: nat)
    requires LogOk(start, log) && Tracks(log, acknowledged, p) && !Fresh(p, l)
    ensures !Fresh(Advanced(p), l)
  {
    if l in p.delivered && l !in Advanced(p).delivered {
      DroppedIsConsumed(start, log, acknowledged, p, l);
    }
  }

  lemma SettleHolds(s: State, l: nat, outcome: Outcome)
    requires Inv(s) && Held(s, l)
    ensures Held(Do(s, Settles(outcome)), l) && Do(s, Settles(outcome)).handed == s.handed
  {
    AdvanceHolds(s.start, s.log, s.acknowledged, s.progress, l);
    assert SettledState(s, outcome).progress == Advanced(s.progress);
  }

  lemma StepHolds(s: State, l: nat, step: Step)
    requires Inv(s) && Held(s, l) && step != Connects && step != Releases(Some(l))
    ensures Held(Do(s, step), l) && Do(s, step).handed[l] == s.handed[l]
  {
    match step
    case Commits(u) =>
    case Peeks(n, max) =>
      if Enabled(s, step) {
        PeekSkips(s.progress, Unread(s.log, s.confirmed)[..n], max, l);
      }
    case PeekFails(k, j, max) =>
      if Enabled(s, step) {
        FailedPeekSkips(s.progress, Unread(s.log, s.confirmed), k, j, max, l);
      }
    case Acks(receipt) =>
    case Releases(receipt) =>
    case Settles(outcome) => SettleHolds(s, l, outcome);
  }

  /** Neither a reconnect nor a release of `l`. */
  ghost predicate Keeps(steps: seq<Step>, l: nat) {
    forall step :: step in steps ==> step != Connects && step != Releases(Some(l))
  }

  lemma {:induction false} RunHolds(s: State, l: nat, steps: seq<Step>)
    requires Inv(s) && Held(s, l) && Keeps(steps, l)
    ensures Held(Run(s, steps), l) && Run(s, steps).handed[l] == s.handed[l]
    decreases |steps|
  {
    if steps != [] {
      var n := |steps| - 1;
      assert steps[n] in steps && forall step :: step in steps[..n] ==> step in steps;
      var t := Run(s, steps[..n]);
      assert Held(t, l) && t.handed[l] == s.handed[l] by { RunHolds(s, l, steps[..n]); }
      assert Inv(t) by { RunKeeps(s, steps[..n]); }
      StepHolds(t, l, steps[n]);
    }
  }

  /**
   What a failed peek has put in flight was not handed out, and is not until a reconnect:
   not by any run without one, unless the gateway releases a receipt it was not given now.
   */
  lemma LostInFlight(s: State, k: nat, j: nat, max: nat, l: nat, steps: seq<Step>)
    requires Inv(s) && l !in s.progress.delivered && Keeps(steps, l)
    requires l in Do(s, PeekFails(k, j, max)).progress.delivered
    ensures Run(Do(s, PeekFails(k, j, max)), steps).handed[l] == s.handed[l]
  {
    StepKeeps(s, PeekFails(k, j, max));
    RunHolds(Do(s, PeekFails(k, j, max)), l, steps);
  }

  // ---------------------------------------------------------------------
  // Within reach, one peek with room hands it out
  // ---------------------------------------------------------------------

  /** A peek gives no more deliveries than the changes have events. */
  lemma {:induction false} NoMoreThanEvents(p: Progress, changes: seq<Row>, max: nat)
    requires forall c :: c in changes ==> IsChange(c)
    ensures |HandOut(p, changes, [], max).1| <= |Flat(changes)|
    decreases |changes|
  {
    if changes != [] {
      NoMoreThanEvents(p, changes[..|changes| - 1], max);
      HandOutMore(p, changes, [], max);
    }
  }

  /** All unconfirmed transactions may be read, and hold every one past the slot. */
  lemma AllUnread(s: State)
    requires Inv(s)
    ensures AllChanges(Unread(s.log, s.confirmed))
    ensures forall t :: t in s.log && t.end > s.confirmed ==> t in Unread(s.log, s.confirmed)
  {
    var k := UnreadIsSuffix(s.log, s.confirmed);
    forall t | t in s.log && t.end > s.confirmed
      ensures t in s.log[k..]
    {
      var i :| 0 <= i < |s.log| && s.log[i] == t;
      assert s.log[k..][i - k] == t;
    }
  }

  /** A peek of everything, with room for everything. */
  lemma PeekReaches(s: State, t: Txn, c: Row) returns (n: nat, max: nat)
    requires Inv(s) && t in s.log && c in t.changes
    requires t.end > s.confirmed && c.lsn >= s.progress.consumed
    ensures Enabled(s, Peeks(n, max)) && c.lsn in Do(s, Peeks(n, max)).progress.delivered
  {
    AllUnread(s);
    var txns := Unread(s.log, s.confirmed);
    ChangesOfAreChanges(txns);
    n, max := |txns|, |Flat(ChangesOf(txns))| + 1;
    assert txns[..n] == txns;
    PeekHandsOut(s.progress, txns, [], max);
    NoMoreThanEvents(s.progress, ChangesOf(txns), max);
    PeekFills(s.progress, txns, max);
    assert c in ChangesOf(txns);
  }

  lemma OneStep(s: State, step: Step)
    ensures Run(s, [step]) == Do(s, step)
  {
    assert [step][..0] == [];
    assert Run(s, []) == s;
  }

  /**
   A change not in flight comes again in this session, by some run, exactly when its
   transaction is past the slot and the change is not before what is consumed.
   */
  lemma ComesAgainExactly(s: State, t: Txn, c: Row)
    requires Inv(s) && t in s.log && c in t.changes && c.lsn !in s.progress.delivered
    ensures (exists steps :: SameSession(steps) && c.lsn in Run(s, steps).progress.delivered) <==>
            t.end > s.confirmed && c.lsn >= s.progress.consumed
  {
    if t.end > s.confirmed && c.lsn >= s.progress.consumed {
      var n, max := PeekReaches(s, t, c);
      var steps := [Peeks(n, max)];
      OneStep(s, Peeks(n, max));
      assert SameSession(steps) && c.lsn in Run(s, steps).progress.delivered;
    } else {
      forall steps | SameSession(steps)
        ensures c.lsn !in Run(s, steps).progress.delivered
      {
        RunLeavesOut(s, t, c.lsn, steps);
      }
    }
  }

  /** A released change is no longer in flight, and a peek with room hands it out once more. */
  lemma ReleaseBringsBack(s: State, t: Txn, c: Row) returns (n: nat, max: nat)
    requires Inv(s) && t in s.log && c in t.changes && t.end > s.confirmed && c.lsn >= s.progress.consumed
    ensures var released := Do(s, Releases(Some(c.lsn)));
            && c.lsn !in released.progress.delivered && Enabled(released, Peeks(n, max))
            && c.lsn in Do(released, Peeks(n, max)).progress.delivered
  {
    StepKeeps(s, Releases(Some(c.lsn)));
    n, max := PeekReaches(Do(s, Releases(Some(c.lsn))), t, c);
  }

  /** After a reconnect only the slot decides: a change comes again exactly when its transaction is past it. */
  lemma ReconnectReaches(s: State, t: Txn, c: Row)
    requires Inv(s) && t in s.log && c in t.changes
    ensures (exists steps :: SameSession(steps) && c.lsn in Run(Do(s, Connects), steps).progress.delivered) <==>
            t.end > s.confirmed
  {
    StepKeeps(s, Connects);
    ComesAgainExactly(Do(s, Connects), t, c);
  }

  // ---------------------------------------------------------------------
  // Where the watch stalls until it reconnects
  // ---------------------------------------------------------------------

  /**
   Change `l` of tracked transaction `e` is neither in flight nor acknowledged, and no
   peek will hand it out: the slot is past it, or it lies before what is consumed.
   */
  ghost predicate Stuck(s: State, e: nat, l: nat, bound: nat) {
    var p := s.progress;
    && e in p.transactions && l in p.transactions[e].changes && l !in p.transactions[e].acked && l !in p.delivered
    && (e <= s.confirmed || l < p.consumed)
    && s.confirmed <= bound && OrZero(s.unadvanced) <= bound && e <= bound + 1
  }

  lemma {:induction false} PeekKeepsAcks(p: Progress, txns: seq<Txn>, out: seq<Delivery>, max: nat, e: nat)
    requires AllChanges(txns) && e in p.transactions
    ensures var q := PeekAll(p, txns, out, max).0;
            e in q.transactions && q.transactions[e].acked == p.transactions[e].acked
    decreases |txns|
  {
    if txns != [] {
      var n := |txns| - 1;
      PeekKeepsAcks(p, txns[..n], out, max, e);
      PeekMore(p, txns, out, max);
      var (q, mid) := PeekAll(p, txns[..n], out, max);
      HandOutFills(q, txns[n].changes, mid, max);
    }
  }

  lemma StuckPeek(s: State, e: nat, l: nat, bound: nat, n: nat, max: nat)
    requires Inv(s) && Stuck(s, e, l, bound) && Enabled(s, Peeks(n, max))
    ensures Stuck(Do(s, Peeks(n, max)), e, l, bound)
  {
    var txns, p := Unread(s.log, s.confirmed)[..n], s.progress;
    var q := PeekAll(p, txns, [], max).0;
    PeekKeepsAcks(p, txns, [], max, e);
    var t := StuckIsOutOfReach(s, e, l, bound);
    assert q.transactions[e].changes == Lsns(t.changes) by { PeekKeeps(s, n, max); }
    assert l !in q.delivered && q.consumed == p.consumed by {
      PeekLeavesOut(s, t, l, n, max);
      PeekKeeps(s, n, max);
    }
  }

  lemma StuckFailedPeek(s: State, e: nat, l: nat, bound: nat, k: nat, j: nat, max: nat)
    requires Inv(s) && Stuck(s, e, l, bound) && Enabled(s, PeekFails(k, j, max))
    ensures Stuck(Do(s, PeekFails(k, j, max)), e, l, bound)
  {
    StuckPeek(s, e, l, bound, k, max);
    PartIsMoreInFlight(s.progress, Unread(s.log, s.confirmed), k, j, max);
    var t := StuckIsOutOfReach(s, e, l, bound);
    FailedPeekLeavesOut(s, t, l, k, j, max);
  }

  lemma StuckIsOutOfReach(s: State, e: nat, l: nat, bound: nat) returns (t: Txn)
    requires Inv(s) && Stuck(s, e, l, bound)
    ensures t.end == e && OutOfReach(s, t, l)
    ensures s.progress.transactions[e].changes == Lsns(t.changes)
  {
    t :| t in s.log && t.end == e;
  }

  lemma LeadersBefore(p: Progress, e: nat)
    requires e in p.transactions && !Settled(p.transactions[e])
    ensures forall f :: f in Leading(p) ==> f < e
    ensures e in Advanced(p).transactions && Advanced(p).transactions[e] == p.transactions[e]
  {
    forall f | f in Leading(p) ensures f < e {
      assert Leads(p, f);
    }
  }

  lemma StuckSettle(s: State, e: nat, l: nat, bound: nat, outcome: Outcome)
    requires Tracks(s.log, s.acknowledged, s.progress) && Stuck(s, e, l, bound)
    ensures Stuck(Do(s, Settles(outcome)), e, l, bound)
  {
    assert !Settled(s.progress.transactions[e]) by {
      var t :| t in s.log && t.end == e;
      SettledMeansAcked(s.progress.transactions[e]);
    }
    LeadersBefore(s.progress, e);
  }

  lemma StuckStep(s: State, e: nat, l: nat, bound: nat, step: Step)
    requires Inv(s) && Stuck(s, e, l, bound) && step != Connects && step != Acks(Some(l))
    ensures Stuck(Do(s, step), e, l, bound)
  {
    match step
    case Commits(t) =>
    case Peeks(n, max) =>
      if Enabled(s, step) {
        StuckPeek(s, e, l, bound, n, max);
      }
    case PeekFails(k, j, max) =>
      if Enabled(s, step) {
        StuckFailedPeek(s, e, l, bound, k, j, max);
      }
    case Acks(receipt) => StuckAck(s, e, l, bound, receipt);
    case Releases(receipt) =>
    case Settles(outcome) => StuckSettle(s, e, l, bound, outcome);
  }

  lemma StuckAck(s: State, e: nat, l: nat, bound: nat, receipt: Option<nat>)
    requires Stuck(s, e, l, bound) && receipt != Some(l)
    ensures Stuck(Do(s, Acks(receipt)), e, l, bound)
  {
  }

  lemma {:induction false} StaysStuck(s: State, e: nat, l: nat, bound: nat, steps: seq<Step>)
    requires Inv(s) && Stuck(s, e, l, bound)
    requires forall step :: step in steps ==> step != Connects && step != Acks(Some(l))
    ensures Stuck(Run(s, steps), e, l, bound)
    decreases |steps|
  {
    if steps != [] {
      var n := |steps| - 1;
      assert forall step :: step in steps[..n] ==> step in steps;
      StaysStuck(s, e, l, bound, steps[..n]);
      RunKeeps(s, steps[..n]);
      assert steps[n] in steps;
      StuckStep(Run(s, steps[..n]), e, l, bound, steps[n]);
    }
  }

  /**
   Once stuck, no run without a reconnect (or an acknowledgement of the change itself)
   hands the change out again or takes the slot past its bound.
   */
  lemma StuckUntilReconnect(s: State, e: nat, l: nat, bound: nat, steps: seq<Step>)
    requires Inv(s) && Stuck(s, e, l, bound)
    requires forall step :: step in steps ==> step != Connects && step != Acks(Some(l))
    ensures Stuck(Run(s, steps), e, l, bound) && Run(s, steps).handed[l] == s.handed[l]
  {
    assert Stuck(Run(s, steps), e, l, bound) by { StaysStuck(s, e, l, bound, steps); }
    var t := StuckIsOutOfReach(s, e, l, bound);
    RunLeavesOut(s, t, l, steps);
  }
}
