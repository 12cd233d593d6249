/** Two runs that reach a state the watch cannot leave without reconnecting, and one that loses a change. */
module WatchPgCdcStalls {
  import opened Wrappers
  import opened PgOutput
  import opened WatchPgCdc
  import opened WatchPgCdcPeek
  import opened WatchPgCdcRuns
  import opened WatchPgCdcReach
  import opened WatchPgCdcDelivery

  function InsertAt(lsn: nat): Row {
    Row(lsn, Insert(1, []))
  }

  /** A transaction of one insert. */
  function One(lsn: nat, end: nat): Txn {
    Txn(end, [InsertAt(lsn)])
  }

  function Tracking(lsn: nat, end: nat, acked: set<nat>): map<nat, Transaction> {
    map[end := Transaction({lsn}, true, acked)]
  }

  /** One step more. */
  lemma Continue(s: State, steps: seq<Step>, step: Step) returns (more: seq<Step>)
    ensures more == steps + [step] && Run(s, more) == Do(Run(s, steps), step)
    ensures GivenSoFar(s, more) == GivenSoFar(s, steps) + StepGives(Run(s, steps), step)
    ensures Honest(s, more) <==>
            Honest(s, steps) && (step.Acks? && step.receipt.Some? ==>
              Receipted(Run(s, steps).log, GivenSoFar(s, steps), step.receipt.value))
  {
    more := steps + [step];
    assert more[..|more| - 1] == steps && more[|more| - 1] == step;
  }

  lemma PeekOne(p: Progress, lsn: nat, end: nat)
    requires p.transactions == map[] && p.owner == map[] && end > p.consumed
    ensures IsChange(InsertAt(lsn)) && AllChanges([One(lsn, end)])
    ensures var (q, ds) := PeekAll(p, [One(lsn, end)], [], 1);
            && q == Progress(if Fresh(p, lsn) then p.delivered + {lsn} else p.delivered,
                             Tracking(lsn, end, {}), map[lsn := end], p.consumed)
  {
    var t, c := One(lsn, end), InsertAt(lsn);
    PeekMore(p, [t], [], 1);
    assert [t][..0] == [] && [c][..0] == [];
    HandOutMore(p, [c], [], 1);
    assert HandOut(p, [], [], 1) == (p, []);
    assert Lsns(t.changes) == {lsn};
  }

  lemma AdvanceOne(p: Progress, lsn: nat, end: nat, acked: set<nat>)
    requires p.transactions == Tracking(lsn, end, acked) && p.owner == map[lsn := end] && p.consumed < end
    ensures acked == {} ==> Advanced(p) == p && AdvancedTo(p) == None
    ensures acked == {lsn} ==>
              Advanced(p) == Progress(p.delivered - {lsn}, map[], map[], end) && AdvancedTo(p) == Some(end)
  {
    if acked == {} {
      assert Leading(p) == {};
      DropNone(p);
    } else if acked == {lsn} {
      assert Leading(p) == {end};
      assert MaxOf({end}) == end;
      assert ChangesUnder(p, {end}) == {lsn};
    }
  }

  lemma DoCommit(s: State, lsn: nat, end: nat)
    requires s.log == [] && s.start < end && lsn < end
    ensures Do(s, Commits(One(lsn, end))) == s.(log := [One(lsn, end)])
  {
    assert [] + [One(lsn, end)] == [One(lsn, end)];
  }

  lemma DoPeek(s: State, lsn: nat, end: nat)
    requires s.progress.transactions == map[] && s.progress.owner == map[] && end > s.progress.consumed
    requires Unread(s.log, s.confirmed) == [One(lsn, end)]
    ensures var u, p := Do(s, Peeks(1, 1)), s.progress;
            u == s.(progress := Progress(if Fresh(p, lsn) then p.delivered + {lsn} else p.delivered,
                                         Tracking(lsn, end, {}), map[lsn := end], p.consumed),
                    handed := u.handed)
  {
    PeekOne(s.progress, lsn, end);
    assert [One(lsn, end)][..1] == [One(lsn, end)];
  }

  lemma DoAck(s: State, lsn: nat, end: nat)
    requires s.progress.transactions == Tracking(lsn, end, {}) && s.progress.owner == map[lsn := end]
    ensures Do(s, Acks(Some(lsn))) ==
            s.(progress := s.progress.(transactions := Tracking(lsn, end, {lsn})),
               acknowledged := s.acknowledged + {lsn})
  {
    assert {} + {lsn} == {lsn};
    assert s.progress.transactions[end := Transaction({lsn}, true, {lsn})] == Tracking(lsn, end, {lsn});
  }

  /** A settle that consumes the one transaction tracked. */
  lemma DoSettle(s: State, lsn: nat, end: nat, outcome: Outcome)
    requires s.progress == Progress({lsn}, Tracking(lsn, end, {lsn}), map[lsn := end], 0)
    requires s.unadvanced.None? && s.confirmed < end && outcome != ReplyLost
    ensures Do(s, Settles(outcome)) ==
            s.(progress := Progress({}, map[], map[], end),
               unadvanced := if outcome == Taken then None else Some(end),
               confirmed := if outcome == Taken then end else s.confirmed)
  {
    AdvanceOne(s.progress, lsn, end, {lsn});
  }

  /** A settle with only an old position to advance to. */
  lemma DoRetry(s: State, lsn: nat, end: nat)
    requires s.progress == Progress({lsn}, Tracking(lsn, end, {}), map[lsn := end], 0)
    requires s.unadvanced == Some(end) && s.confirmed < end
    ensures Do(s, Settles(Taken)) == s.(unadvanced := None, confirmed := end)
  {
    AdvanceOne(s.progress, lsn, end, {});
  }

  /**
   A failed advance, a reconnect, and the advance taken at last: what was acknowledged
   before is delivered again, and if the gateway gives it back the slot is already past
   it, so it can never be read, acknowledged or consumed.
   */
  lemma RetriedAdvanceStalls() returns (steps: seq<Step>)
    ensures Stuck(Run(Init(0), steps), 10, 5, 10)
  {
    var t := One(5, 10);
    var s0 := Init(0);
    DoCommit(s0, 5, 10);
    var s1 := Do(s0, Commits(t));
    DoPeek(s1, 5, 10);
    var s2 := Do(s1, Peeks(1, 1));
    DoAck(s2, 5, 10);
    var s3 := Do(s2, Acks(Some(5)));
    DoSettle(s3, 5, 10, Refused);
    var s4 := Do(s3, Settles(Refused));
    var s5 := Do(s4, Connects);
    assert s5.progress == EMPTY && s5.log == [t] && s5.confirmed == 0 && s5.unadvanced == Some(10);
    DoPeek(s5, 5, 10);
    var s6 := Do(s5, Peeks(1, 1));
    DoRetry(s6, 5, 10);
    var s7 := Do(s6, Settles(Taken));
    var s8 := Do(s7, Releases(Some(5)));
    assert Stuck(s8, 10, 5, 10);
    steps := [];
    assert Run(s0, steps) == s0;
    steps := Continue(s0, steps, Commits(t));
    steps := Continue(s0, steps, Peeks(1, 1));
    steps := Continue(s0, steps, Acks(Some(5)));
    steps := Continue(s0, steps, Settles(Refused));
    steps := Continue(s0, steps, Connects);
    steps := Continue(s0, steps, Peeks(1, 1));
    steps := Continue(s0, steps, Settles(Taken));
    steps := Continue(s0, steps, Releases(Some(5)));
  }

  lemma DoOverlap(s: State, b: Txn, a: Txn)
    requires b == One(20, 30) && a == One(10, 40) && s.start == 0 && s.log == [b] && s.confirmed == 30
    ensures var u := Do(s, Commits(a)); u == s.(log := u.log) && Unread(u.log, 30) == [a]
  {
    assert [b] + [a] == [b, a] && [b, a][1..] == [a];
    assert Lsns(a.changes) == {10} && Lsns(b.changes) == {20};
    assert LogOk(0, [b, a]);
  }

  /**
   Two transactions that overlap: one starts first and commits last. Once the other is
   consumed, the early change lies before the consumed position and is never handed out.
   */
  lemma OverlapStalls() returns (steps: seq<Step>)
    ensures Stuck(Run(Init(0), steps), 40, 10, 39)
  {
    var b, a := One(20, 30), One(10, 40);
    var s0 := Init(0);
    DoCommit(s0, 20, 30);
    var s1 := Do(s0, Commits(b));
    DoPeek(s1, 20, 30);
    var s2 := Do(s1, Peeks(1, 1));
    DoAck(s2, 20, 30);
    var s3 := Do(s2, Acks(Some(20)));
    DoSettle(s3, 20, 30, Taken);
    var s4 := Do(s3, Settles(Taken));
    var s5 := Do(s4, Commits(a));
    DoOverlap(s4, b, a);
    DoPeek(s5, 10, 40);
    var s6 := Do(s5, Peeks(1, 1));
    assert Stuck(s6, 40, 10, 39);
    steps := [];
    assert Run(s0, steps) == s0;
    steps := Continue(s0, steps, Commits(b));
    steps := Continue(s0, steps, Peeks(1, 1));
    steps := Continue(s0, steps, Acks(Some(20)));
    steps := Continue(s0, steps, Settles(Taken));
    steps := Continue(s0, steps, Commits(a));
    steps := Continue(s0, steps, Peeks(1, 1));
  }

  // ---------------------------------------------------------------------
  // Two changes with one LSN
  // ---------------------------------------------------------------------

  /** A transaction of two inserts at one LSN. */
  function Twice(): Txn {
    Txn(10, [Row(5, Insert(1, [])), Row(5, Insert(2, []))])
  }

  lemma TwiceGives(max: nat)
    requires max >= 1
    ensures AllChanges([Twice()])
    ensures PeekAll(EMPTY, [Twice()], [], max).0 == Progress({5}, Tracking(5, 10, {}), map[5 := 10], 0)
    ensures Place(10, 0) in GivenBy(EMPTY, [Twice()], [], max)
  {
    var t := Twice();
    var a, b := t.changes[0], t.changes[1];
    assert t.changes[..1] == [a] && [a][..0] == [] && [t][..0] == [];
    assert HandOut(EMPTY, [], [], max) == (EMPTY, []);
    HandOutMore(EMPTY, [a], [], max);
    HandOutMore(EMPTY, t.changes, [], max);
    PeekMore(EMPTY, [t], [], max);
    assert Lsns(t.changes) == {5};
    assert Given(EMPTY, [a], [], max) == [0];
    assert 0 in Given(EMPTY, t.changes, [], max);
  }

  lemma TwiceCommits()
    ensures Do(Init(0), Commits(Twice())) == Init(0).(log := [Twice()])
  {
    assert [] + [Twice()] == [Twice()];
  }

  lemma TwicePeeked(s: State, max: nat)
    requires s == Init(0).(log := [Twice()]) && max >= 1
    ensures var u := Do(s, Peeks(1, max));
            u == s.(progress := Progress({5}, Tracking(5, 10, {}), map[5 := 10], 0), handed := u.handed)
    ensures Place(10, 0) in StepGives(s, Peeks(1, max))
  {
    TwiceGives(max);
    assert Unread(s.log, s.confirmed) == [Twice()] && [Twice()][..1] == [Twice()];
  }

  /**
   The gateway acknowledges only what it was given, and the slot passes the transaction:
   its second change was never handed out.
   */
  lemma SharedLsnRun(max: nat) returns (steps: seq<Step>)
    requires max >= 1
    ensures Honest(Init(0), steps)
    ensures var s := Run(Init(0), steps); Twice() in s.log && s.confirmed == Twice().end
    ensures Place(Twice().end, 1) !in GivenSoFar(Init(0), steps)
  {
    var s0, t := Init(0), Twice();
    TwiceCommits();
    var s1 := Do(s0, Commits(t));
    TwicePeeked(s1, max);
    var s2 := Do(s1, Peeks(1, max));
    DoAck(s2, 5, 10);
    var s3 := Do(s2, Acks(Some(5)));
    DoSettle(s3, 5, 10, Taken);
    steps := [];
    assert Run(s0, steps) == s0;
    steps := Continue(s0, steps, Commits(t));
    steps := Continue(s0, steps, Peeks(1, max));
    assert Receipted(s2.log, GivenSoFar(s0, steps), 5) by {
      assert t in s2.log && HasReceipt(t, 0, GivenSoFar(s0, steps), 5);
    }
    steps := Continue(s0, steps, Acks(Some(5)));
    steps := Continue(s0, steps, Settles(Taken));
    SecondIsNeverHandedOut(0, steps, t, 0, 1);
  }
}
