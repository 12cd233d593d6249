/**
 What reaches the gateway, change by change: a change is told by its place, the end of its
 transaction and its index there, since several changes may share an LSN.
 */
module WatchPgCdcDelivery {
  import Sequences
  import opened WatchPgCdc
  import opened WatchPgCdcPeek
  import opened WatchPgCdcRuns
  import opened WatchPgCdcTheorems

  datatype Place = Place(end: nat, index: nat)

  // ---------------------------------------------------------------------
  // What one peek hands out
  // ---------------------------------------------------------------------

  /** Which of `changes` are handed out. */
  function Given(p: Progress, changes: seq<Row>, out: seq<Delivery>, max: nat): (given: seq<nat>)
    requires forall c :: c in changes ==> IsChange(c)
    ensures forall i :: i in given ==> i < |changes|
  {
    if changes == [] then []
    else
      var n := |changes| - 1;
      var (q, ds) := HandOut(p, changes[..n], out, max);
      Given(p, changes[..n], out, max) + if Fresh(q, changes[n].lsn) && |ds| < max then [n] else []
  }

  /** The deliveries of the changes at `places`, in that order. */
  function DeliveriesAt(changes: seq<Row>, places: seq<nat>): seq<Delivery>
    requires forall c :: c in changes ==> IsChange(c)
    requires forall i :: i in places ==> i < |changes|
  {
    if places == [] then []
    else
      var n := |places| - 1;
      assert places[n] in places && forall i :: i in places[..n] ==> i in places;
      DeliveriesAt(changes, places[..n]) + DeliveriesOf(changes[places[n]])
  }

  lemma DeliveriesAtMore(changes: seq<Row>, places: seq<nat>, i: nat)
    requires forall c :: c in changes ==> IsChange(c)
    requires (forall k :: k in places ==> k < |changes|) && i < |changes|
    ensures (forall k :: k in places + [i] ==> k < |changes|) &&
            DeliveriesAt(changes, places + [i]) == DeliveriesAt(changes, places) + DeliveriesOf(changes[i])
  {
    assert (places + [i])[..|places|] == places;
  }

  /** More changes at the end do not matter to earlier places. */
  lemma {:induction false} DeliveriesAtFront(changes: seq<Row>, n: nat, places: seq<nat>)
    requires n <= |changes| && (forall c :: c in changes ==> IsChange(c)) && forall i :: i in places ==> i < n
    ensures (forall c :: c in changes[..n] ==> IsChange(c)) &&
            DeliveriesAt(changes[..n], places) == DeliveriesAt(changes, places)
    decreases |places|
  {
    if places != [] {
      var k := |places| - 1;
      assert places[k] in places && forall i :: i in places[..k] ==> i in places;
      DeliveriesAtFront(changes, n, places[..k]);
    }
  }

  /** The deliveries of a peek are those of the changes it gives, in order. */
  lemma {:induction false} GivenAreDelivered(p: Progress, changes: seq<Row>, out: seq<Delivery>, max: nat)
    requires forall c :: c in changes ==> IsChange(c)
    ensures HandOut(p, changes, out, max).1 == out + DeliveriesAt(changes, Given(p, changes, out, max))
    decreases |changes|
  {
    if changes != [] {
      var n := |changes| - 1;
      var front := Given(p, changes[..n], out, max);
      GivenAreDelivered(p, changes[..n], out, max);
      HandOutMore(p, changes, out, max);
      DeliveriesAtFront(changes, n, front);
      DeliveriesAtMore(changes, front, n);
      Sequences.Associative(out, DeliveriesAt(changes, front), DeliveriesOf(changes[n]));
      assert front + [] == front;
    }
  }

  /** Only the first change at an LSN is ever given. */
  lemma {:induction false} GivenIsFirst(p: Progress, changes: seq<Row>, out: seq<Delivery>, max: nat, i: nat)
    requires (forall c :: c in changes ==> IsChange(c)) && i in Given(p, changes, out, max)
    ensures FirstAt(changes, i)
    decreases |changes|
  {
    var n := |changes| - 1;
    if i in Given(p, changes[..n], out, max) {
      GivenIsFirst(p, changes[..n], out, max, i);
      assert forall h :: 0 <= h <= i ==> changes[..n][h] == changes[h];
    } else {
      HandOutFills(p, changes[..n], out, max);
      assert forall h :: 0 <= h < n ==> changes[h] in changes[..n];
    }
  }

  function PlacesOf(end: nat, given: seq<nat>): set<Place> {
    set i | i in given :: Place(end, i)
  }

  /** The places of the changes a peek of `txns` hands out. */
  function GivenBy(p: Progress, txns: seq<Txn>, out: seq<Delivery>, max: nat): set<Place>
    requires AllChanges(txns)
  {
    if txns == [] then {}
    else
      var n := |txns| - 1;
      var (q, ds) := PeekAll(p, txns[..n], out, max);
      GivenBy(p, txns[..n], out, max) + PlacesOf(txns[n].end, Given(q, txns[n].changes, ds, max))
  }

  /** With each transaction read, a peek gives the deliveries of exactly its given changes. */
  lemma PeekDelivers(p: Progress, txns: seq<Txn>, out: seq<Delivery>, max: nat)
    requires txns != [] && AllChanges(txns)
    ensures var n := |txns| - 1;
            var (q, ds) := PeekAll(p, txns[..n], out, max);
            PeekAll(p, txns, out, max).1 ==
            ds + DeliveriesAt(txns[n].changes, Given(q, txns[n].changes, ds, max))
  {
    var n := |txns| - 1;
    var (q, ds) := PeekAll(p, txns[..n], out, max);
    PeekMore(p, txns, out, max);
    GivenAreDelivered(q, txns[n].changes, ds, max);
  }

  /** Every place is of a transaction of the log, and first at its LSN there. */
  ghost predicate FirstPlaces(log: seq<Txn>, places: set<Place>) {
    forall place :: place in places ==> FirstPlace(log, place)
  }

  ghost predicate FirstPlace(log: seq<Txn>, place: Place) {
    exists t :: t in log && IsFirst(t, place)
  }

  ghost predicate IsFirst(t: Txn, place: Place) {
    t.end == place.end && place.index < |t.changes| && FirstAt(t.changes, place.index)
  }

  lemma {:induction false} GivenByIsFirst(p: Progress, txns: seq<Txn>, out: seq<Delivery>, max: nat)
    requires AllChanges(txns)
    ensures FirstPlaces(txns, GivenBy(p, txns, out, max))
    decreases |txns|
  {
    if txns != [] {
      var n := |txns| - 1;
      GivenByIsFirst(p, txns[..n], out, max);
      var (q, ds) := PeekAll(p, txns[..n], out, max);
      var given := Given(q, txns[n].changes, ds, max);
      FirstsIn(txns[..n], txns, GivenBy(p, txns[..n], out, max));
      forall i | i in given
        ensures FirstPlace(txns, Place(txns[n].end, i))
      {
        GivenIsFirst(q, txns[n].changes, ds, max, i);
        assert txns[n] in txns && IsFirst(txns[n], Place(txns[n].end, i));
      }
    }
  }

  lemma FirstsIn(txns: seq<Txn>, log: seq<Txn>, places: set<Place>)
    requires FirstPlaces(txns, places) && forall t :: t in txns ==> t in log
    ensures FirstPlaces(log, places)
  {
    forall place | place in places
      ensures FirstPlace(log, place)
    {
      var t :| t in txns && IsFirst(t, place);
      assert t in log && IsFirst(t, place);
    }
  }

  // ---------------------------------------------------------------------
  // What a run hands out
  // ---------------------------------------------------------------------

  ghost function StepGives(s: State, step: Step): set<Place> {
    if step.Peeks? && Enabled(s, step)
    then GivenBy(s.progress, Unread(s.log, s.confirmed)[..step.n], [], step.max) else {}
  }

  /** The places of all changes handed out in a run, in any session of it. */
  ghost function GivenSoFar(s: State, steps: seq<Step>): set<Place> {
    if steps == [] then {}
    else
      var n := |steps| - 1;
      GivenSoFar(s, steps[..n]) + StepGives(Run(s, steps[..n]), steps[n])
  }

  lemma StepGivesFirsts(s: State, step: Step)
    ensures FirstPlaces(s.log, StepGives(s, step))
  {
    if step.Peeks? && Enabled(s, step) {
      var txns := Unread(s.log, s.confirmed)[..step.n];
      GivenByIsFirst(s.progress, txns, [], step.max);
      FirstsIn(txns, s.log, GivenBy(s.progress, txns, [], step.max));
    }
  }

  lemma LogGrows(s: State, step: Step)
    ensures forall t :: t in s.log ==> t in Do(s, step).log
  {
  }

  lemma {:induction false} GivenSoFarAreFirst(s: State, steps: seq<Step>)
    ensures FirstPlaces(Run(s, steps).log, GivenSoFar(s, steps))
    decreases |steps|
  {
    if steps != [] {
      var n := |steps| - 1;
      var before, step := Run(s, steps[..n]), steps[n];
      GivenSoFarAreFirst(s, steps[..n]);
      StepGivesFirsts(before, step);
      LogGrows(before, step);
      FirstsIn(before.log, Do(before, step).log, GivenSoFar(s, steps[..n]));
      FirstsIn(before.log, Do(before, step).log, StepGives(before, step));
    }
  }

  lemma ReachableLog(start: nat, steps: seq<Step>)
    ensures var s := Run(Init(start), steps); LogOk(s.start, s.log)
  {
    InitHolds(start);
    RunKeeps(Init(start), steps);
  }

  lemma FirstIn(start: nat, log: seq<Txn>, place: Place, t: Txn)
    requires LogOk(start, log) && FirstPlace(log, place) && t in log && t.end == place.end
    ensures IsFirst(t, place)
  {
    var u :| u in log && IsFirst(u, place);
    OneTxnPerEnd(start, log, t, u);
  }

  /** Of two changes of a transaction with one LSN, the second is never handed out, in any run. */
  lemma SecondIsNeverHandedOut(start: nat, steps: seq<Step>, t: Txn, i: nat, j: nat)
    requires t in Run(Init(start), steps).log && i < j < |t.changes| && t.changes[i].lsn == t.changes[j].lsn
    ensures Place(t.end, j) !in GivenSoFar(Init(start), steps)
  {
    GivenSoFarAreFirst(Init(start), steps);
    ReachableLog(start, steps);
    var s := Run(Init(start), steps);
    if Place(t.end, j) in GivenSoFar(Init(start), steps) {
      FirstIn(s.start, s.log, Place(t.end, j), t);
    }
  }

  // ---------------------------------------------------------------------
  // What every run with honest acknowledgements delivers
  // ---------------------------------------------------------------------

  /** `l` is the receipt of a change handed out. */
  ghost predicate Receipted(log: seq<Txn>, places: set<Place>, l: nat) {
    exists t, i :: t in log && HasReceipt(t, i, places, l)
  }

  ghost predicate HasReceipt(t: Txn, i: nat, places: set<Place>, l: nat) {
    && i < |t.changes| && Place(t.end, i) in places
    && t.changes[i].lsn == l && IsChange(t.changes[i]) && Oids(t.changes[i]) != []
  }

  /** Every acknowledgement is of a receipt handed out before it. */
  ghost predicate Honest(s: State, steps: seq<Step>) {
    if steps == [] then true
    else
      var n := |steps| - 1;
      && Honest(s, steps[..n])
      && (steps[n].Acks? && steps[n].receipt.Some? ==>
            Receipted(Run(s, steps[..n]).log, GivenSoFar(s, steps[..n]), steps[n].receipt.value))
  }

  ghost predicate AllReceipted(log: seq<Txn>, places: set<Place>, acknowledged: set<nat>) {
    forall l :: l in acknowledged ==> Receipted(log, places, l)
  }

  lemma ReceiptedMore(log: seq<Txn>, more: seq<Txn>, places: set<Place>, all: set<Place>, acknowledged: set<nat>)
    requires AllReceipted(log, places, acknowledged) && places <= all && forall t :: t in log ==> t in more
    ensures AllReceipted(more, all, acknowledged)
  {
    forall l | l in acknowledged
      ensures Receipted(more, all, l)
    {
      var t, i :| t in log && HasReceipt(t, i, places, l);
      assert t in more && HasReceipt(t, i, all, l);
    }
  }

  lemma OneMoreAcked(s: State, step: Step)
    ensures Do(s, step).acknowledged ==
            s.acknowledged + if step.Acks? && step.receipt.Some? then {step.receipt.value} else {}
  {
  }

  lemma {:induction false} AckedAreReceipted(start: nat, steps: seq<Step>)
    requires Honest(Init(start), steps)
    ensures var s := Run(Init(start), steps); AllReceipted(s.log, GivenSoFar(Init(start), steps), s.acknowledged)
    decreases |steps|
  {
    if steps != [] {
      var n := |steps| - 1;
      var front := steps[..n];
      var before, after := Run(Init(start), front), Run(Init(start), steps);
      AckedAreReceipted(start, front);
      OneMoreAcked(before, steps[n]);
      LogGrows(before, steps[n]);
      assert AllReceipted(before.log, GivenSoFar(Init(start), front), after.acknowledged);
      ReceiptedMore(
        before.log, after.log, GivenSoFar(Init(start), front), GivenSoFar(Init(start), steps), after.acknowledged);
    }
  }

  lemma OnlyFirst(changes: seq<Row>, i: nat, j: nat)
    requires i < |changes| && j < |changes| && changes[i].lsn == changes[j].lsn
    requires FirstAt(changes, i) && FirstAt(changes, j)
    ensures i == j
  {
  }

  lemma ReceiptInTxn(start: nat, log: seq<Txn>, places: set<Place>, t: Txn, i: nat)
    requires LogOk(start, log) && FirstPlaces(log, places) && t in log && i < |t.changes|
    requires FirstAt(t.changes, i) && Receipted(log, places, t.changes[i].lsn)
    ensures Place(t.end, i) in places
  {
    var l := t.changes[i].lsn;
    var u, j :| u in log && HasReceipt(u, j, places, l);
    assert l in Lsns(t.changes) && l in Lsns(u.changes);
    OneTxnPerEnd(start, log, t, u);
    FirstIn(start, log, Place(t.end, j), t);
    OnlyFirst(t.changes, i, j);
  }

  /**
   In every run whose acknowledgements are of receipts handed out, a change of a
   transaction the slot has passed was handed out exactly when it is the first at its LSN.
   */
  lemma ConfirmedIsHandedOut(start: nat, steps: seq<Step>, t: Txn, i: nat)
    requires Honest(Init(start), steps)
    requires var s := Run(Init(start), steps); t in s.log && t.end <= s.confirmed && i < |t.changes|
    ensures Place(t.end, i) in GivenSoFar(Init(start), steps) <==> FirstAt(t.changes, i)
  {
    var s, places := Run(Init(start), steps), GivenSoFar(Init(start), steps);
    ReachableLog(start, steps);
    GivenSoFarAreFirst(Init(start), steps);
    if Place(t.end, i) in places {
      FirstIn(s.start, s.log, Place(t.end, i), t);
    }
    if FirstAt(t.changes, i) {
      assert Receipted(s.log, places, t.changes[i].lsn) by {
        NeverPassesUnacknowledged(start, steps, t, t.changes[i]);
        AckedAreReceipted(start, steps);
      }
      ReceiptInTxn(s.start, s.log, places, t, i);
    }
  }

  ghost predicate Confirmed(s: State, t: Txn) {
    t in s.log && t.end <= s.confirmed
  }

  ghost predicate AllHandedOut(t: Txn, places: set<Place>) {
    forall i :: 0 <= i < |t.changes| ==> Place(t.end, i) in places
  }

  lemma DistinctMeansFirst(changes: seq<Row>)
    ensures DistinctLsns(changes) <==> forall i :: 0 <= i < |changes| ==> FirstAt(changes, i)
  {
    if i, j :| 0 <= i < j < |changes| && changes[i].lsn == changes[j].lsn {
      assert !FirstAt(changes, j);
    }
  }

  /**
   So in such a run every change the slot has passed was handed out exactly when no two
   changes of a transaction it has passed share an LSN.
   */
  lemma NothingPassedUndelivered(start: nat, steps: seq<Step>)
    requires Honest(Init(start), steps)
    ensures var s := Run(Init(start), steps);
            (forall t :: Confirmed(s, t) ==> AllHandedOut(t, GivenSoFar(Init(start), steps))) <==>
            (forall t :: Confirmed(s, t) ==> DistinctLsns(t.changes))
  {
    var s, places := Run(Init(start), steps), GivenSoFar(Init(start), steps);
    forall t | Confirmed(s, t)
      ensures AllHandedOut(t, places) <==> DistinctLsns(t.changes)
    {
      forall i | 0 <= i < |t.changes|
        ensures Place(t.end, i) in places <==> FirstAt(t.changes, i)
      {
        ConfirmedIsHandedOut(start, steps, t, i);
      }
      DistinctMeansFirst(t.changes);
    }
  }
}
