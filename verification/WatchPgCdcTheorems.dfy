/** What holds of the watch over every run, and where it stalls. */
module WatchPgCdcTheorems {
  import opened Wrappers
  import opened WatchPgCdc
  import opened WatchPgCdcPeek
  import opened WatchPgCdcRuns

  // ---------------------------------------------------------------------
  // What every run keeps
  // ---------------------------------------------------------------------

  /**
   The slot never passes a change the gateway has not acknowledged: not across failed
   or half-failed advances, not across reconnects, not when transactions interleave.
   */
  lemma NeverPassesUnacknowledged(start: nat, steps: seq<Step>, t: Txn, c: Row)
    requires var s := Run(Init(start), steps); t in s.log && c in t.changes && t.end <= s.confirmed
    ensures c.lsn in Run(Init(start), steps).acknowledged
  {
    InitHolds(start);
    RunKeeps(Init(start), steps);
    assert c.lsn in Lsns(t.changes);
  }

  /** Within a session no change is handed out more than once more than it was released. */
  lemma HandedOutOncePerRelease(start: nat, steps: seq<Step>, lsn: nat)
    ensures var s := Run(Init(start), steps); s.handed[lsn] <= s.released[lsn] + 1
  {
    InitHolds(start);
    RunKeeps(Init(start), steps);
  }

  /**
   Every reachable `Progress`: each tracked transaction is one of the log with its own
   changes, its acks are among them, `owner` names it for exactly those, and the length
   test of `advance` holds exactly when every change of it is acknowledged.
   */
  lemma ReachableProgress(start: nat, steps: seq<Step>, t: Txn)
    requires var s := Run(Init(start), steps); t in s.log && t.end in s.progress.transactions
    ensures var s := Run(Init(start), steps); TracksRightly(s.acknowledged, s.progress, t)
  {
    InitHolds(start);
    RunKeeps(Init(start), steps);
    var s := Run(Init(start), steps);
    RightlyTracked(s.log, s.acknowledged, s.progress, t);
  }

  ghost predicate TracksRightly(acknowledged: set<nat>, p: Progress, t: Txn)
    requires t.end in p.transactions
  {
    var tx := p.transactions[t.end];
    && tx.changes == Lsns(t.changes) && tx.acked <= tx.changes && tx.acked <= acknowledged
    && (Settled(tx) <==> tx.acked == Lsns(t.changes))
    && (forall l :: l in tx.changes <==> l in p.owner && p.owner[l] == t.end)
  }

  lemma RightlyTracked(log: seq<Txn>, acknowledged: set<nat>, p: Progress, t: Txn)
    requires Tracks(log, acknowledged, p) && Owns(p) && t in log && t.end in p.transactions
    ensures TracksRightly(acknowledged, p, t)
  {
    SettledMeansAcked(p.transactions[t.end]);
  }

  /** The tracked transactions are the slot's unconsumed ones, from the first to some last. */
  ghost predicate GapFreePrefix(s: State) {
    exists high :: PrefixTo(s, high)
  }

  ghost predicate PrefixTo(s: State, high: nat) {
    forall t :: t in s.log ==>
      (t.end in s.progress.transactions.Keys <==> Max(s.confirmed, s.progress.consumed) < t.end <= high)
  }

  /**
   Tracking is a gap-free prefix exactly while nothing at or before the confirmed
   position is tracked.
   */
  lemma GapFreeExactly(s: State)
    requires Inv(s)
    ensures GapFreePrefix(s) <==> forall e :: e in s.progress.transactions.Keys ==> e > s.confirmed
  {
    var tracked := s.progress.transactions.Keys;
    if forall e :: e in tracked ==> e > s.confirmed {
      assert PrefixTo(s, if tracked == {} then 0 else MaxOf(tracked));
    } else {
      var e :| e in tracked && e <= s.confirmed;
      var t :| t in s.log && t.end == e;
    }
  }

  /** A session that began with no advance pending keeps it so, and never asks the slot to go back. */
  lemma GapFreeWithoutPending(start: nat, steps: seq<Step>)
    requires Run(Init(start), steps).pending.None?
    ensures GapFreePrefix(Run(Init(start), steps))
    ensures var s := Run(Init(start), steps);
            AdvancedTo(s.progress).Some? ==> AdvancedTo(s.progress).value > s.confirmed
  {
    InitHolds(start);
    RunKeeps(Init(start), steps);
    GapFreeExactly(Run(Init(start), steps));
  }

  /**
   The settle that breaks it: one that takes the slot to a position left over from
   before the session, at or past a transaction the session tracks anew.
   */
  lemma GapOpensExactly(s: State)
    requires Inv(s) && forall e :: e in s.progress.transactions.Keys ==> e > s.confirmed
    ensures GapFreePrefix(Do(s, Settles(Taken))) <==>
            !(s.unadvanced.Some? && exists e :: e in Advanced(s.progress).transactions.Keys && e <= s.unadvanced.value)
  {
    var s' := Do(s, Settles(Taken));
    StepKeeps(s, Settles(Taken));
    GapFreeExactly(s');
    TakenTo(s);
    PastAll(s'.progress.transactions.Keys, s.confirmed, s'.progress.consumed, s.unadvanced, s'.confirmed);
  }

  lemma PastAll(tracked: set<nat>, confirmed: nat, consumed: nat, unadvanced: Option<nat>, further: nat)
    requires forall e :: e in tracked ==> e > confirmed && e > consumed
    requires OrZero(unadvanced) <= further <= Max(confirmed, Max(consumed, OrZero(unadvanced)))
    ensures (forall e :: e in tracked ==> e > further) <==>
            !(unadvanced.Some? && exists e :: e in tracked && e <= unadvanced.value)
  {
  }

  lemma TakenTo(s: State)
    ensures var s' := Do(s, Settles(Taken));
            s'.confirmed <= Max(s.confirmed, Max(s'.progress.consumed, OrZero(s.unadvanced)))
            && OrZero(s.unadvanced) <= s'.confirmed && s'.progress == Advanced(s.progress)
  {
  }

  /** After an advance the first transaction still tracked has a change not acknowledged. */
  lemma AdvanceStopsAtUnacked(log: seq<Txn>, acknowledged: set<nat>, p: Progress, e: nat)
    requires Tracks(log, acknowledged, p) && e in Advanced(p).transactions
    requires forall f :: f in Advanced(p).transactions ==> e <= f
    ensures !(p.transactions[e].changes <= p.transactions[e].acked)
  {
    var t :| t in log && t.end == e;
    SettledMeansAcked(p.transactions[e]);
    forall f | f in p.transactions && f < e
      ensures Settled(p.transactions[f])
    {
      assert f !in Advanced(p).transactions;
      assert f in Leading(p) && Leads(p, f);
    }
    assert Settled(p.transactions[e]) ==> Leads(p, e);
  }

  /** A peek that still reads consumed transactions, after a failed advance, does nothing with them. */
  lemma {:induction false} StalePeek(p: Progress, txns: seq<Txn>, out: seq<Delivery>, max: nat)
    requires AllChanges(txns)
    requires forall t :: t in txns ==> t.end <= p.consumed && forall c :: c in t.changes ==> c.lsn < t.end
    ensures PeekAll(p, txns, out, max) == (p, out)
    decreases |txns|
  {
    if txns != [] {
      var n := |txns| - 1;
      assert txns[n] in txns;
      StalePeek(p, txns[..n], out, max);
      PeekMore(p, txns, out, max);
      StaleChanges(p, txns[n].changes, out, max);
    }
  }

  lemma {:induction false} StaleChanges(p: Progress, changes: seq<Row>, out: seq<Delivery>, max: nat)
    requires forall c :: c in changes ==> IsChange(c) && c.lsn < p.consumed
    ensures HandOut(p, changes, out, max) == (p, out)
    decreases |changes|
  {
    if changes != [] {
      StaleChanges(p, changes[..|changes| - 1], out, max);
      HandOutMore(p, changes, out, max);
      assert changes[|changes| - 1] in changes;
    }
  }

  // ---------------------------------------------------------------------
  // Progress, when transactions do not interleave
  // ---------------------------------------------------------------------

  /** A change comes after the end of every earlier transaction. */
  ghost predicate Ordered(log: seq<Txn>) {
    forall t, u, c :: t in log && u in log && t.end < u.end && c in u.changes ==> c.lsn >= t.end
  }

  /** With ordered LSNs, a peek that reads an unconsumed change not in flight hands something out. */
  lemma OrderedPeekDelivers(log: seq<Txn>, p: Progress, txns: seq<Txn>, max: nat, t: Txn, c: Row)
    requires Ordered(log) && EndOrZero(log, p.consumed) && AllChanges(txns) && HasEvents(ChangesOf(txns))
    requires t in txns && t in log && c in t.changes && t.end > p.consumed && c.lsn !in p.delivered && max >= 1
    ensures PeekAll(p, txns, [], max).1 != []
  {
    PastConsumed(log, p.consumed, t, c);
    ChangesOfAreChanges(txns);
    assert c in ChangesOf(txns) && Fresh(p, c.lsn);
    PeekFills(p, txns, max);
  }

  /** A change of an unconsumed transaction lies past what is consumed, if LSNs are ordered. */
  lemma PastConsumed(log: seq<Txn>, consumed: nat, t: Txn, c: Row)
    requires EndOrZero(log, consumed) && Ordered(log) && t in log && c in t.changes && t.end > consumed
    ensures c.lsn >= consumed
  {
    if consumed != 0 {
      var u :| u in log && u.end == consumed;
    }
  }

  // ---------------------------------------------------------------------
  // What a peek reads
  // ---------------------------------------------------------------------

  /** A transaction behind the slot, and its changes, are not read. */
  lemma NotRead(start: nat, log: seq<Txn>, confirmed: nat, n: nat, t: Txn, l: nat)
    requires LogOk(start, log) && n <= |Unread(log, confirmed)| && AllChanges(Unread(log, confirmed))
    requires t in log && t.end <= confirmed && l in Lsns(t.changes)
    ensures l !in Lsns(ChangesOf(Unread(log, confirmed)[..n]))
  {
    var txns := Unread(log, confirmed)[..n];
    assert AllChanges(txns);
    ChangesOfAreChanges(txns);
    forall c | c in ChangesOf(txns)
      ensures c.lsn != l
    {
      var u :| u in txns && c in u.changes;
      UnreadAhead(log, confirmed, u);
      assert c.lsn in Lsns(u.changes);
    }
  }

  lemma UnreadAhead(log: seq<Txn>, confirmed: nat, u: Txn)
    requires Sorted(log) && u in Unread(log, confirmed)
    ensures u in log && u.end > confirmed
  {
    var k := UnreadIsSuffix(log, confirmed);
    var i :| 0 <= i < |log| - k && log[k..][i] == u;
    assert log[k + i] == u;
  }
}
