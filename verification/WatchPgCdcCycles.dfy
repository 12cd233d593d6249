/**
 The slot catches up, however much a peek reads and hands out: each cycle of a receive and
 the acknowledgements that follow it takes a waiting change in hand, or confirms the first
 transaction not yet confirmed.
 */
module WatchPgCdcCycles {
  import opened WatchPgCdc
  import opened WatchPgCdcPeek
  import opened WatchPgCdcRuns
  import opened WatchPgCdcTheorems
  import opened WatchPgCdcReach
  import opened WatchPgCdcProgress

  /** The LSNs past the slot that a peek may hand out. */
  ghost function Waiting(s: State): set<nat> {
    set t, c | t in s.log && c in t.changes && t.end > s.confirmed && Fresh(s.progress, c.lsn) :: c.lsn
  }

  ghost predicate IsWaiting(s: State, t: Txn, l: nat) {
    t in s.log && l in Lsns(t.changes) && t.end > s.confirmed && Fresh(s.progress, l)
  }

  lemma WaitingIn(s: State, l: nat)
    ensures l in Waiting(s) <==> exists t :: IsWaiting(s, t, l)
  {
    if l in Waiting(s) {
      var t, c :| t in s.log && c in t.changes && t.end > s.confirmed && Fresh(s.progress, c.lsn) && c.lsn == l;
      assert IsWaiting(s, t, l);
    }
    if t :| IsWaiting(s, t, l) {
      var c :| c in t.changes && c.lsn == l;
    }
  }

  /** Fewer wait if none that waits now did not before. */
  lemma FewerWait(s: State, u: State)
    requires forall t, l :: IsWaiting(u, t, l) ==> IsWaiting(s, t, l)
    ensures Waiting(u) <= Waiting(s)
  {
    forall l | l in Waiting(u)
      ensures l in Waiting(s)
    {
      WaitingIn(u, l);
      var t :| IsWaiting(u, t, l);
      assert IsWaiting(s, t, l);
      WaitingIn(s, l);
    }
  }

  // ---------------------------------------------------------------------
  // What a receive and the acknowledgements do to what waits
  // ---------------------------------------------------------------------

  /** A delivery puts a fresh change in flight. */
  lemma {:induction false} DeliveryTakesFresh(p: Progress, changes: seq<Row>, max: nat)
    requires forall c :: c in changes ==> IsChange(c)
    requires HandOut(p, changes, [], max).1 != []
    ensures exists c :: c in changes && Fresh(p, c.lsn) && c.lsn in HandOut(p, changes, [], max).0.delivered
    decreases |changes|
  {
    var n := |changes| - 1;
    HandOutMore(p, changes, [], max);
    HandOutFills(p, changes[..n], [], max);
    var (q, ds) := HandOut(p, changes[..n], [], max);
    if ds != [] {
      DeliveryTakesFresh(p, changes[..n], max);
      var c :| c in changes[..n] && Fresh(p, c.lsn) && c.lsn in q.delivered;
      assert c in changes;
    } else {
      assert changes[n] in changes && Fresh(p, changes[n].lsn);
    }
  }

  /** A peek lets none wait that did not, and fewer if it puts a change in flight. */
  lemma PeekLeavesWaiting(s: State, txns: seq<Txn>, max: nat, u: State)
    requires AllChanges(txns) && (forall t :: t in txns ==> t in s.log && t.end > s.confirmed)
    requires u.log == s.log && u.confirmed == s.confirmed && u.progress == PeekAll(s.progress, txns, [], max).0
    ensures Waiting(u) <= Waiting(s)
    ensures u.progress.delivered != s.progress.delivered ==> Waiting(u) < Waiting(s)
  {
    var p := s.progress;
    PeekHandsOut(p, txns, [], max);
    HandOutFills(p, ChangesOf(txns), [], max);
    FewerWait(s, u);
    if u.progress.delivered != p.delivered {
      var l :| l in u.progress.delivered && l !in p.delivered;
      var c :| c in ChangesOf(txns) && c.lsn == l;
      ChangesOfAreChanges(txns);
      var t :| t in txns && c in t.changes;
      assert IsWaiting(s, t, l);
      WaitingIn(s, l);
      WaitingIn(u, l);
    }
  }

  /** A peek that puts nothing in flight delivers nothing. */
  lemma NothingTaken(p: Progress, txns: seq<Txn>, max: nat)
    requires AllChanges(txns) && PeekAll(p, txns, [], max).0.delivered == p.delivered
    ensures PeekAll(p, txns, [], max).1 == []
  {
    PeekHandsOut(p, txns, [], max);
    if HandOut(p, ChangesOf(txns), [], max).1 != [] {
      DeliveryTakesFresh(p, ChangesOf(txns), max);
    }
  }

  lemma AcksLeaveWaiting(s: State, lsns: seq<nat>)
    requires Inv(s)
    ensures Waiting(AckAll(s, lsns)) == Waiting(s)
  {
    AckAllOnlyAcks(s, lsns);
    var u := AckAll(s, lsns);
    FewerWait(s, u);
    FewerWait(u, s);
  }

  /** A change in flight that a taken settle drops is no longer past the slot. */
  lemma DroppedIsPassed(s: State, t: Txn, l: nat)
    requires LogOk(s.start, s.log) && Tracks(s.log, s.acknowledged, s.progress)
    requires t in s.log && l in Lsns(t.changes) && l in s.progress.delivered
    requires l !in Advanced(s.progress).delivered
    ensures t.end <= SettledState(s, Taken).confirmed
  {
    var e := DroppedWith(s.progress, l);
    assert t.end == e by {
      var u :| u in s.log && u.end == e;
      assert l in Lsns(u.changes);
    }
    NewPositions(s, Taken);
  }

  lemma DroppedWith(p: Progress, l: nat) returns (e: nat)
    requires l in p.delivered && l !in Advanced(p).delivered
    ensures e in p.transactions && l in p.transactions[e].changes && e <= Top(p)
  {
    e :| e in Leading(p) && l in p.transactions[e].changes;
  }

  lemma SettleLeavesWaiting(s: State)
    requires Inv(s)
    ensures Waiting(Do(s, Settles(Taken))) <= Waiting(s)
  {
    var u := SettledState(s, Taken);
    NewPositions(s, Taken);
    forall t, l | IsWaiting(u, t, l)
      ensures IsWaiting(s, t, l)
    {
      if l in s.progress.delivered {
        DroppedIsPassed(s, t, l);
      }
    }
    FewerWait(s, u);
  }

  lemma SmallerSet(a: set<nat>, b: set<nat>)
    requires a < b
    ensures |a| < |b|
  {
    var x :| x in b && x !in a;
    SizeGrows(a, b - {x});
  }

  // ---------------------------------------------------------------------
  // What is in flight is tracked, and acknowledged once the gateway has answered
  // ---------------------------------------------------------------------

  ghost predicate TrackedAt(p: Progress, e: nat, l: nat) {
    e in p.transactions && l in p.transactions[e].changes
  }

  ghost predicate InFlightTracked(p: Progress) {
    forall l :: l in p.delivered ==> exists e :: TrackedAt(p, e, l)
  }

  ghost predicate AckedAt(p: Progress, e: nat, l: nat) {
    TrackedAt(p, e, l) && l in p.transactions[e].acked
  }

  /** Everything in flight is acknowledged. */
  ghost predicate Answered(p: Progress) {
    forall l :: l in p.delivered ==> exists e :: AckedAt(p, e, l)
  }

  lemma AnsweredIsTracked(p: Progress)
    requires Answered(p)
    ensures InFlightTracked(p)
  {
    forall l | l in p.delivered
      ensures exists e :: TrackedAt(p, e, l)
    {
      var e :| AckedAt(p, e, l);
      assert TrackedAt(p, e, l);
    }
  }

  lemma PeekTracksInFlight(s: State, txns: seq<Txn>, max: nat)
    requires LogOk(s.start, s.log) && Tracks(s.log, s.acknowledged, s.progress) && Owns(s.progress)
    requires AllChanges(txns) && (forall t :: t in txns ==> t in s.log) && InFlightTracked(s.progress)
    ensures InFlightTracked(PeekAll(s.progress, txns, [], max).0)
  {
    var p, q := s.progress, PeekAll(s.progress, txns, [], max).0;
    PeekTracks(s, txns, max);
    PeekHandsOut(p, txns, [], max);
    HandOutFills(p, ChangesOf(txns), [], max);
    ChangesOfAreChanges(txns);
    forall l | l in q.delivered
      ensures exists e :: TrackedAt(q, e, l)
    {
      if l in p.delivered {
        var e :| TrackedAt(p, e, l);
        StillTracked(s.log, s.acknowledged, p, q, e, l);
      } else {
        var c :| c in ChangesOf(txns) && c.lsn == l;
        var t :| t in txns && c in t.changes;
        assert t.end in Registered(txns, p.consumed) && l in Lsns(t.changes);
        assert TrackedAt(q, t.end, l);
      }
    }
  }

  lemma StillTracked(log: seq<Txn>, acknowledged: set<nat>, p: Progress, q: Progress, e: nat, l: nat)
    requires Tracks(log, acknowledged, p) && Tracks(log, acknowledged, q)
    requires p.transactions.Keys <= q.transactions.Keys && TrackedAt(p, e, l)
    ensures TrackedAt(q, e, l)
  {
    var t :| t in log && t.end == e;
  }

  lemma AdvanceTracksInFlight(p: Progress)
    requires InFlightTracked(p)
    ensures InFlightTracked(Advanced(p))
  {
    var q := Advanced(p);
    forall l | l in q.delivered
      ensures exists e :: TrackedAt(q, e, l)
    {
      var e :| TrackedAt(p, e, l);
      assert e !in Leading(p);
      assert TrackedAt(q, e, l);
    }
  }

  lemma AcksAnswer(p: Progress, q: Progress, lsns: seq<nat>)
    requires InFlightTracked(p) && OnlyAcked(p, q, lsns) && forall l :: l in p.delivered ==> l in lsns
    ensures Answered(q)
  {
    forall l | l in q.delivered
      ensures exists e :: AckedAt(q, e, l)
    {
      var e :| TrackedAt(p, e, l);
      assert AckedAt(q, e, l);
    }
  }

  // ---------------------------------------------------------------------
  // A receive that takes nothing in hand confirms the first transaction
  // ---------------------------------------------------------------------

  /** All in flight and answered for, a transaction is tracked with every change acknowledged. */
  lemma AnsweredTxn(start: nat, log: seq<Txn>, acknowledged: set<nat>, p: Progress, t: Txn)
    requires LogOk(start, log) && Tracks(log, acknowledged, p) && Answered(p)
    requires t in log && Lsns(t.changes) <= p.delivered && t.changes != []
    ensures t.end in p.transactions && Lsns(t.changes) <= p.transactions[t.end].acked
  {
    forall l | l in Lsns(t.changes)
      ensures t.end in p.transactions && l in p.transactions[t.end].acked
    {
      var e :| AckedAt(p, e, l);
      var u :| u in log && u.end == e;
      assert l in Lsns(u.changes);
    }
    assert t.changes[0].lsn in Lsns(t.changes);
  }

  /** A peek that puts nothing more in flight finds all it reads in flight already. */
  lemma AlreadyInFlight(s: State, txns: seq<Txn>, max: nat, t: Txn)
    requires LogOk(s.start, s.log) && Ordered(s.log) && EndOrZero(s.log, s.progress.consumed)
    requires Tracks(s.log, s.acknowledged, s.progress) && Owns(s.progress)
    requires AllChanges(txns) && (forall u :: u in txns ==> u in s.log) && max >= 1
    requires t in txns && t.end > s.progress.consumed
    requires PeekAll(s.progress, txns, [], max).0.delivered == s.progress.delivered
    ensures Lsns(t.changes) <= s.progress.delivered
    ensures t.end in PeekAll(s.progress, txns, [], max).0.transactions
  {
    NothingTaken(s.progress, txns, max);
    PeekPutsInFlight(s, txns, max, t);
    PeekHandsOut(s.progress, txns, [], max);
  }

  /** All acknowledged, a transaction stays so through a peek. */
  lemma StaysAcked(s: State, txns: seq<Txn>, max: nat, t: Txn)
    requires LogOk(s.start, s.log) && Tracks(s.log, s.acknowledged, s.progress) && Answered(s.progress)
    requires AllChanges(txns) && t in s.log && t.changes != [] && Lsns(t.changes) <= s.progress.delivered
    ensures var q := PeekAll(s.progress, txns, [], max).0;
            t.end in q.transactions && Lsns(t.changes) <= q.transactions[t.end].acked
  {
    AnsweredTxn(s.start, s.log, s.acknowledged, s.progress, t);
    PeekKeepsAcks(s.progress, txns, [], max, t.end);
  }

  lemma AckedIsSettled(log: seq<Txn>, acknowledged: set<nat>, q: Progress, t: Txn)
    requires Tracks(log, acknowledged, q) && t in log && t.end in q.transactions
    requires t.changes != [] ==> Lsns(t.changes) <= q.transactions[t.end].acked
    ensures Settled(q.transactions[t.end])
  {
    SettledMeansAcked(q.transactions[t.end]);
  }

  lemma ReadIsSettled(s: State, txns: seq<Txn>, max: nat, t: Txn)
    requires LogOk(s.start, s.log) && Ordered(s.log) && EndOrZero(s.log, s.progress.consumed)
    requires Tracks(s.log, s.acknowledged, s.progress) && Owns(s.progress) && Answered(s.progress)
    requires AllChanges(txns) && (forall u :: u in txns ==> u in s.log) && max >= 1
    requires t in txns && t.end > s.progress.consumed
    requires PeekAll(s.progress, txns, [], max).0.delivered == s.progress.delivered
    ensures var q := PeekAll(s.progress, txns, [], max).0;
            t.end in q.transactions && Settled(q.transactions[t.end])
  {
    var q := PeekAll(s.progress, txns, [], max).0;
    AlreadyInFlight(s, txns, max, t);
    if t.changes != [] {
      StaysAcked(s, txns, max, t);
    }
    assert Tracks(s.log, s.acknowledged, q) by { PeekTracks(s, txns, max); }
    AckedIsSettled(s.log, s.acknowledged, q, t);
  }

  lemma FirstLeads(log: seq<Txn>, confirmed: nat, acknowledged: set<nat>, q: Progress)
    requires Sorted(log) && Unread(log, confirmed) != [] && Tracks(log, acknowledged, q)
    requires forall e :: e in q.transactions.Keys ==> e > confirmed
    requires var e := Unread(log, confirmed)[0].end; e in q.transactions && Settled(q.transactions[e])
    ensures Unread(log, confirmed)[0].end in Leading(q)
  {
    var first := Unread(log, confirmed)[0].end;
    forall f | f in q.transactions && f <= first
      ensures f == first
    {
      var t :| t in log && t.end == f;
      assert f in q.transactions.Keys;
      NotBeforeFirst(log, confirmed, t);
    }
    assert Leads(q, first);
  }

  // ---------------------------------------------------------------------
  // Cycles
  // ---------------------------------------------------------------------

  /** How many transactions each peek reads and events it may hand out, and what is then acknowledged. */
  datatype Schedule = Schedule(count: State -> nat, max: State -> nat, acks: State -> seq<nat>)

  /** A peek reads a transaction if there is one, may hand out an event, and the gateway answers for all in flight. */
  ghost predicate Fair(sch: Schedule) {
    && (forall s: State :: Unread(s.log, s.confirmed) != [] ==> 1 <= sch.count(s) <= |Unread(s.log, s.confirmed)|)
    && (forall s: State :: sch.max(s) >= 1)
    && (forall s: State, l :: l in s.progress.delivered ==> l in sch.acks(s))
  }

  ghost function Listed(lsns: set<nat>): (all: seq<nat>)
    ensures forall l :: l in all <==> l in lsns
  {
    if lsns == {} then []
    else
      var l :| l in lsns;
      Listed(lsns - {l}) + [l]
  }

  /** The slowest: one transaction and one event at a time. */
  ghost function OneByOne(): Schedule {
    Schedule((s: State) => 1, (s: State) => 1, (s: State) => Listed(s.progress.delivered))
  }

  lemma OneByOneIsFair()
    ensures Fair(OneByOne())
  {
  }

  /** A receive, and the acknowledgement of all in flight after it. */
  ghost function Cycle(sch: Schedule, s: State): State {
    var received := Receive(s, sch.count(s), sch.max(s));
    AckAll(received, sch.acks(received))
  }

  /** No advance pending or left over, all in flight answered, and a log with ordered LSNs that ends at `tip`. */
  ghost predicate Steady(tip: nat, s: State) {
    && Inv(s) && s.pending.None? && s.unadvanced.None? && Ordered(s.log) && Tip(s) == tip
    && Answered(s.progress)
  }

  ghost function Left(s: State): nat {
    |Waiting(s)| + |Unread(s.log, s.confirmed)|
  }

  /** What stays as it was through a cycle. */
  ghost predicate Continues(s: State, u: State) {
    && Inv(u) && u.log == s.log && u.start == s.start && u.pending == s.pending
    && u.confirmed >= s.confirmed && (s.unadvanced.None? ==> u.unadvanced.None?)
  }

  lemma PeekContinues(s: State, n: nat, max: nat)
    requires Inv(s)
    ensures Continues(s, Do(s, Peeks(n, max)))
  {
    StepKeeps(s, Peeks(n, max));
  }

  lemma SettleContinues(s: State)
    requires Inv(s)
    ensures Continues(s, Do(s, Settles(Taken)))
  {
    StepKeeps(s, Settles(Taken));
    NewPositions(s, Taken);
  }

  lemma AcksContinue(s: State, lsns: seq<nat>)
    requires Inv(s)
    ensures Continues(s, AckAll(s, lsns)) && AckAll(s, lsns).confirmed == s.confirmed
  {
    AckAllOnlyAcks(s, lsns);
  }

  lemma CycleContinues(s: State, n: nat, max: nat, lsns: seq<nat>)
    requires Inv(s)
    ensures Continues(s, AckAll(Receive(s, n, max), lsns)) && Inv(Do(s, Peeks(n, max))) && Inv(Receive(s, n, max))
  {
    PeekContinues(s, n, max);
    SettleContinues(Do(s, Peeks(n, max)));
    AcksContinue(Receive(s, n, max), lsns);
  }

  lemma CycleLeavesWaiting(s: State, n: nat, max: nat, lsns: seq<nat>)
    requires Inv(s) && n <= |Unread(s.log, s.confirmed)|
    ensures Waiting(AckAll(Receive(s, n, max), lsns)) <= Waiting(s)
    ensures Do(s, Peeks(n, max)).progress.delivered != s.progress.delivered ==>
              Waiting(AckAll(Receive(s, n, max), lsns)) < Waiting(s)
  {
    var peeked := Do(s, Peeks(n, max));
    CycleContinues(s, n, max, lsns);
    assert Waiting(peeked) <= Waiting(s)
           && (peeked.progress.delivered != s.progress.delivered ==> Waiting(peeked) < Waiting(s)) by {
      ReadsPastSlot(s, n);
      PeekLeavesWaiting(s, Unread(s.log, s.confirmed)[..n], max, peeked);
    }
    SettleLeavesWaiting(peeked);
    AcksLeaveWaiting(Receive(s, n, max), lsns);
  }

  lemma ReceiveTracksInFlight(s: State, n: nat, max: nat)
    requires Inv(s) && Answered(s.progress)
    ensures InFlightTracked(Receive(s, n, max).progress)
  {
    var peeked := Do(s, Peeks(n, max));
    AnsweredIsTracked(s.progress);
    assert InFlightTracked(peeked.progress) by {
      if Enabled(s, Peeks(n, max)) {
        ReadsPastSlot(s, n);
        PeekTracksInFlight(s, Unread(s.log, s.confirmed)[..n], max);
      }
    }
    AdvanceTracksInFlight(peeked.progress);
  }

  /** A cycle keeps a session steady. */
  lemma CycleStaysSteady(tip: nat, s: State, sch: Schedule)
    requires Steady(tip, s) && Fair(sch)
    ensures Steady(tip, Cycle(sch, s)) && Cycle(sch, s).confirmed >= s.confirmed
  {
    var received := Receive(s, sch.count(s), sch.max(s));
    var lsns := sch.acks(received);
    assert Continues(s, Cycle(sch, s)) && Inv(received) by {
      CycleContinues(s, sch.count(s), sch.max(s), lsns);
    }
    assert Answered(Cycle(sch, s).progress) by {
      ReceiveTracksInFlight(s, sch.count(s), sch.max(s));
      AckAllOnlyAcks(received, lsns);
      AcksAnswer(received.progress, Cycle(sch, s).progress, lsns);
    }
  }

  lemma FewerUnread(log: seq<Txn>, a: nat, b: nat)
    requires Sorted(log) && a <= b
    ensures |Unread(log, b)| <= |Unread(log, a)|
    ensures Unread(log, a) != [] && b >= Unread(log, a)[0].end ==> |Unread(log, b)| < |Unread(log, a)|
  {
    var j := UnreadIsSuffix(log, a);
    var k := UnreadIsSuffix(log, b);
    if k < |log| {
      assert log[k].end > b;
    }
    if j < |log| {
      assert log[j..][0] == log[j];
    }
  }

  lemma NoneUnread(s: State)
    requires Inv(s) && Unread(s.log, s.confirmed) == []
    ensures s.confirmed >= Tip(s)
  {
    var k := UnreadIsSuffix(s.log, s.confirmed);
    if s.log != [] {
      assert s.log[|s.log| - 1].end <= s.confirmed;
    }
  }

  lemma FirstIsSettled(s: State, n: nat, max: nat)
    requires Inv(s) && s.unadvanced.None? && Ordered(s.log) && Answered(s.progress)
    requires 1 <= n <= |Unread(s.log, s.confirmed)| && max >= 1
    requires Do(s, Peeks(n, max)).progress.delivered == s.progress.delivered
    ensures var q, e := Do(s, Peeks(n, max)).progress, Unread(s.log, s.confirmed)[0].end;
            e in q.transactions && Settled(q.transactions[e])
  {
    var txns, first := Unread(s.log, s.confirmed)[..n], Unread(s.log, s.confirmed)[0];
    ReadsPastSlot(s, n);
    assert txns[0] == first && first in txns;
    assert s.progress.consumed <= s.confirmed;
    ReadIsSettled(s, txns, max, first);
  }

  /** A receive that puts nothing more in flight confirms the first transaction past the slot. */
  lemma ReceiveConfirmsFirst(s: State, n: nat, max: nat)
    requires Inv(s) && s.pending.None? && s.unadvanced.None? && Ordered(s.log) && Answered(s.progress)
    requires 1 <= n <= |Unread(s.log, s.confirmed)| && max >= 1
    requires Do(s, Peeks(n, max)).progress.delivered == s.progress.delivered
    ensures Receive(s, n, max).confirmed >= Unread(s.log, s.confirmed)[0].end
  {
    var peeked := Do(s, Peeks(n, max));
    assert Continues(s, peeked) && peeked.confirmed == s.confirmed && peeked.acknowledged == s.acknowledged by {
      PeekContinues(s, n, max);
    }
    FirstIsSettled(s, n, max);
    NothingTrackedBehind(peeked);
    FirstLeads(s.log, s.confirmed, s.acknowledged, peeked.progress);
    LeaderIsConfirmed(peeked, Unread(s.log, s.confirmed)[0].end);
  }

  /** A cycle brings the slot to the tip, or leaves less to do. */
  lemma CycleGetsOn(tip: nat, s: State, sch: Schedule)
    requires Steady(tip, s) && Fair(sch)
    ensures Cycle(sch, s).confirmed >= tip || Left(Cycle(sch, s)) < Left(s)
  {
    var n, max, after := sch.count(s), sch.max(s), Cycle(sch, s);
    var lsns := sch.acks(Receive(s, n, max));
    CycleStaysSteady(tip, s, sch);
    if Unread(s.log, s.confirmed) == [] {
      NoneUnread(s);
    } else {
      CycleContinues(s, n, max, lsns);
      CycleLeavesWaiting(s, n, max, lsns);
      FewerUnread(s.log, s.confirmed, after.confirmed);
      SizeGrows(Waiting(after), Waiting(s));
      if Do(s, Peeks(n, max)).progress.delivered != s.progress.delivered {
        SmallerSet(Waiting(after), Waiting(s));
      } else {
        ReceiveConfirmsFirst(s, n, max);
        AcksContinue(Receive(s, n, max), lsns);
      }
    }
  }

  // ---------------------------------------------------------------------
  // Every run of cycles
  // ---------------------------------------------------------------------

  /** `k` times `next`. */
  ghost function Iterate<T>(next: T -> T, s: T, k: nat): T
    decreases k
  {
    if k == 0 then s else Iterate(next, next(s), k - 1)
  }

  /** One step keeps what is good, and is done and stays so or leaves less to do. */
  ghost predicate GetsOn<T(!new)>(next: T -> T, good: T -> bool, done: T -> bool, left: T -> nat) {
    forall s {:trigger next(s)} :: good(s) ==>
      good(next(s)) && (done(s) ==> done(next(s))) && (done(next(s)) || left(next(s)) < left(s))
  }

  /** Then it gets done. */
  lemma {:induction false} GetsDone<T(!new)>(
    next: T -> T, good: T -> bool, done: T -> bool, left: T -> nat, s: T, k: nat)
    requires GetsOn(next, good, done, left) && good(s) && (k > left(s) || done(s))
    ensures done(Iterate(next, s, k))
    decreases k
  {
    if k > 0 {
      GetsDone(next, good, done, left, next(s), k - 1);
    }
  }

  ghost function SteadyAt(tip: nat): State -> bool {
    (s: State) => Steady(tip, s)
  }

  ghost function IsAt(tip: nat): State -> bool {
    (s: State) => s.confirmed >= tip
  }

  ghost function HowMuchIsLeft(): State -> nat {
    (s: State) => Left(s)
  }

  ghost function Cycles(sch: Schedule): State -> State {
    (s: State) => Cycle(sch, s)
  }

  /** A cycle's part in this. */
  ghost predicate CycleIsOn(tip: nat, s: State, u: State) {
    Steady(tip, u) && u.confirmed >= s.confirmed && (u.confirmed >= tip || Left(u) < Left(s))
  }

  lemma SteadyCycle(tip: nat, s: State, sch: Schedule)
    requires Steady(tip, s) && Fair(sch)
    ensures CycleIsOn(tip, s, Cycle(sch, s))
  {
    CycleStaysSteady(tip, s, sch);
    CycleGetsOn(tip, s, sch);
  }

  lemma CyclesGetOn(tip: nat, sch: Schedule)
    requires Fair(sch)
    ensures GetsOn(Cycles(sch), SteadyAt(tip), IsAt(tip), HowMuchIsLeft())
  {
    forall s | SteadyAt(tip)(s)
      ensures CycleIsOn(tip, s, Cycles(sch)(s))
    {
      SteadyCycle(tip, s, sch);
    }
  }

  /**
   With ordered LSNs, in a session begun with no advance pending or left over: however few
   transactions a peek reads and events it may hand out, more cycles than there are changes
   waiting and transactions not confirmed bring the slot to the tip.
   */
  lemma CyclesCatchUp(s: State, k: nat, sch: Schedule)
    requires Inv(s) && s.pending.None? && s.unadvanced.None? && Ordered(s.log) && Answered(s.progress)
    requires Fair(sch) && k > Left(s)
    ensures Iterate(Cycles(sch), s, k).confirmed >= Tip(s)
  {
    var tip := Tip(s);
    CyclesGetOn(tip, sch);
    GetsDone(Cycles(sch), SteadyAt(tip), IsAt(tip), HowMuchIsLeft(), s, k);
  }

  lemma ReachableConnects(start: nat, steps: seq<Step>)
    ensures Inv(Do(Run(Init(start), steps), Connects))
  {
    InitHolds(start);
    RunKeeps(Init(start), steps);
    StepKeeps(Run(Init(start), steps), Connects);
  }

  /** So does a session just begun, in any run, unless an advance is left over. */
  lemma SessionCatchesUp(start: nat, steps: seq<Step>, k: nat, sch: Schedule)
    requires var s := Run(Init(start), steps);
             s.unadvanced.None? && Ordered(s.log) && Fair(sch) && k > Left(Do(s, Connects))
    ensures var s := Run(Init(start), steps);
            Iterate(Cycles(sch), Do(s, Connects), k).confirmed >= Tip(s)
  {
    ReachableConnects(start, steps);
    assert Answered(EMPTY);
    CyclesCatchUp(Do(Run(Init(start), steps), Connects), k, sch);
  }
}
