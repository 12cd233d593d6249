/**
 What a receive and the acknowledgements after it do to what is in flight, and when the first
 receive of a session confirms nothing.
 */
module WatchPgCdcProgress {
  import opened Wrappers
  import opened WatchPgCdc
  import opened WatchPgCdcPeek
  import opened WatchPgCdcRuns
  import opened WatchPgCdcTheorems
  import opened WatchPgCdcReach

  /** The acknowledgements of `lsns`, one by one. */
  ghost function AckAll(s: State, lsns: seq<nat>): State {
    if lsns == [] then s else Do(AckAll(s, lsns[..|lsns| - 1]), Acks(Some(lsns[|lsns| - 1])))
  }

  /** Acknowledgements change nothing but what is acknowledged. */
  ghost predicate OnlyAcked(p: Progress, q: Progress, lsns: seq<nat>) {
    && q == p.(transactions := q.transactions) && q.transactions.Keys == p.transactions.Keys
    && forall e :: e in p.transactions ==>
         var tx, now := p.transactions[e], q.transactions[e];
         now == tx.(acked := now.acked) && tx.acked <= now.acked
         && forall l :: l in lsns && l in tx.changes ==> l in now.acked
  }

  lemma AckOne(p: Progress, q: Progress, lsns: seq<nat>, l: nat)
    requires Owns(p) && OnlyAcked(p, q, lsns)
    ensures OnlyAcked(p, Acked(q, Some(l)), lsns + [l])
  {
  }

  /** What acknowledgements leave alone. */
  ghost predicate OnlyAcks(s: State, t: State, lsns: seq<nat>) {
    && OnlyAcked(s.progress, t.progress, lsns)
    && t.start == s.start && t.log == s.log && t.confirmed == s.confirmed && t.unadvanced == s.unadvanced
    && t.pending == s.pending
  }

  lemma OneMoreAck(s: State, t: State, lsns: seq<nat>, l: nat)
    requires Owns(s.progress) && OnlyAcks(s, t, lsns)
    ensures OnlyAcks(s, Do(t, Acks(Some(l))), lsns + [l])
  {
    AckOne(s.progress, t.progress, lsns, l);
  }

  lemma {:induction false} AckAllOnlyAcks(s: State, lsns: seq<nat>)
    requires Inv(s)
    ensures Inv(AckAll(s, lsns)) && OnlyAcks(s, AckAll(s, lsns), lsns)
    decreases |lsns|
  {
    if lsns != [] {
      var front, l := lsns[..|lsns| - 1], lsns[|lsns| - 1];
      var mid := AckAll(s, front);
      assert Inv(mid) && OnlyAcks(s, mid, front) by { AckAllOnlyAcks(s, front); }
      assert AckAll(s, lsns) == Do(mid, Acks(Some(l))) && front + [l] == lsns;
      assert Inv(Do(mid, Acks(Some(l)))) by { StepKeeps(mid, Acks(Some(l))); }
      assert OnlyAcks(s, Do(mid, Acks(Some(l))), front + [l]) by { OneMoreAck(s, mid, front, l); }
    }
  }

  /** Every change of `t` is in flight, if `t` is not consumed. */
  ghost predicate InFlight(p: Progress, t: Txn) {
    t.end > p.consumed ==> t.end in p.transactions && Lsns(t.changes) <= p.delivered
  }

  /** A peek with room to spare puts everything it reads in flight. */
  lemma PeekPutsInFlight(s: State, txns: seq<Txn>, max: nat, t: Txn)
    requires LogOk(s.start, s.log) && Ordered(s.log) && EndOrZero(s.log, s.progress.consumed)
    requires Tracks(s.log, s.acknowledged, s.progress) && Owns(s.progress)
    requires AllChanges(txns) && (forall u :: u in txns ==> u in s.log) && t in txns
    requires |PeekAll(s.progress, txns, [], max).1| < max
    ensures InFlight(PeekAll(s.progress, txns, [], max).0, t)
  {
    var q := PeekAll(s.progress, txns, [], max).0;
    PeekTracks(s, txns, max);
    if t.end > s.progress.consumed {
      assert t.end in Registered(txns, s.progress.consumed);
      ChangesOfAreChanges(txns);
      PeekFills(s.progress, txns, max);
      forall c | c in t.changes
        ensures c.lsn in q.delivered
      {
        PastConsumed(s.log, s.progress.consumed, t, c);
        assert c in ChangesOf(txns);
      }
    }
  }

  lemma NothingTrackedBehind(s: State)
    requires Inv(s) && s.pending.None?
    ensures forall e :: e in s.progress.transactions.Keys ==> e > s.confirmed
  {
  }

  // ---------------------------------------------------------------------
  // One receive
  // ---------------------------------------------------------------------

  /** `receive`: a peek, and a settle before its deliveries are returned. */
  ghost function Receive(s: State, n: nat, max: nat): State {
    Do(Do(s, Peeks(n, max)), Settles(Taken))
  }

  /** Nothing tracked has an acknowledgement. */
  ghost predicate NoneAcked(p: Progress) {
    forall e :: e in p.transactions ==> p.transactions[e].acked == {}
  }

  lemma {:induction false} PeekAcksNothing(p: Progress, txns: seq<Txn>, out: seq<Delivery>, max: nat)
    requires AllChanges(txns) && NoneAcked(p)
    ensures NoneAcked(PeekAll(p, txns, out, max).0)
    decreases |txns|
  {
    if txns != [] {
      var n := |txns| - 1;
      PeekAcksNothing(p, txns[..n], out, max);
      PeekMore(p, txns, out, max);
      var (q, mid) := PeekAll(p, txns[..n], out, max);
      HandOutFills(q, txns[n].changes, mid, max);
    }
  }

  /** Nothing leads, so a settle with nothing left over moves nothing. */
  lemma NothingLeads(s: State)
    requires Leading(s.progress) == {} && s.unadvanced.None?
    ensures Do(s, Settles(Taken)).confirmed == s.confirmed
  {
    NewPositions(s, Taken);
  }

  /** A taken settle confirms what leads. */
  lemma LeaderIsConfirmed(s: State, e: nat)
    requires e in Leading(s.progress)
    ensures Do(s, Settles(Taken)).confirmed >= e
  {
    NewPositions(s, Taken);
  }

  lemma NotBeforeFirst(log: seq<Txn>, confirmed: nat, t: Txn)
    requires Sorted(log) && t in log && t.end > confirmed
    ensures Unread(log, confirmed) != [] && Unread(log, confirmed)[0].end <= t.end
  {
    var k := UnreadIsSuffix(log, confirmed);
    var i :| 0 <= i < |log| && log[i] == t;
    assert k <= i && log[k..][0] == log[k];
  }

  /** What a peek reads lies past the slot. */
  lemma ReadsPastSlot(s: State, n: nat)
    requires Inv(s) && n <= |Unread(s.log, s.confirmed)|
    ensures AllChanges(Unread(s.log, s.confirmed)) && AllChanges(Unread(s.log, s.confirmed)[..n])
    ensures forall t :: t in Unread(s.log, s.confirmed)[..n] ==> t in s.log && t.end > s.confirmed
  {
    AllUnread(s);
    FrontChanges(Unread(s.log, s.confirmed), n);
    forall t | t in Unread(s.log, s.confirmed)[..n]
      ensures t in s.log && t.end > s.confirmed
    {
      UnreadAhead(s.log, s.confirmed, t);
    }
  }

  /** Before any acknowledgement the first transaction decides whether anything leads. */
  lemma FirstDecides(log: seq<Txn>, acknowledged: set<nat>, p: Progress, first: Txn)
    requires Tracks(log, acknowledged, p) && NoneAcked(p) && first in log && first.end in p.transactions
    requires forall e :: e in p.transactions.Keys ==> first.end <= e
    ensures if first.changes == [] then first.end in Leading(p) else Leading(p) == {}
  {
    if first.changes == [] {
      SettledMeansAcked(p.transactions[first.end]);
      assert Leads(p, first.end);
    } else {
      assert first.changes[0].lsn in p.transactions[first.end].changes;
      assert forall e :: e in p.transactions ==> !Leads(p, e);
    }
  }

  lemma FirstPeekOf(s: State, txns: seq<Txn>, max: nat, first: Txn)
    requires LogOk(s.start, s.log) && s.progress == EMPTY && AllChanges(txns) && first in txns
    requires forall t :: t in txns ==> t in s.log && first.end <= t.end
    ensures var p := PeekAll(s.progress, txns, [], max).0;
            if first.changes == [] then first.end in Leading(p) else Leading(p) == {}
  {
    var p := PeekAll(s.progress, txns, [], max).0;
    assert NoneAcked(p) by { PeekAcksNothing(s.progress, txns, [], max); }
    assert Tracks(s.log, s.acknowledged, p) && p.transactions.Keys == Registered(txns, 0) by {
      PeekTracks(s, txns, max);
    }
    FirstDecides(s.log, s.acknowledged, p, first);
  }

  lemma FirstPeek(s: State, n: nat, max: nat)
    requires Inv(s) && s.progress == EMPTY && 1 <= n <= |Unread(s.log, s.confirmed)|
    ensures var first, p := Unread(s.log, s.confirmed)[0], Do(s, Peeks(n, max)).progress;
            if first.changes == [] then first.end in Leading(p) else Leading(p) == {}
  {
    var txns, first := Unread(s.log, s.confirmed)[..n], Unread(s.log, s.confirmed)[0];
    ReadsPastSlot(s, n);
    assert txns[0] == first && first in txns;
    forall t | t in txns
      ensures first.end <= t.end
    {
      NotBeforeFirst(s.log, s.confirmed, t);
    }
    FirstPeekOf(s, txns, max, first);
  }

  /**
   An acknowledgement takes effect after the next peek: the first receive of a session
   confirms nothing, exactly when the first transaction past the slot has a change.
   */
  lemma FirstReceiveConfirmsNothing(s: State, n: nat, max: nat)
    requires Inv(s) && s.progress == EMPTY && s.unadvanced.None? && 1 <= n <= |Unread(s.log, s.confirmed)|
    ensures Receive(s, n, max).confirmed == s.confirmed <==> Unread(s.log, s.confirmed)[0].changes != []
  {
    var peeked, first := Do(s, Peeks(n, max)), Unread(s.log, s.confirmed)[0];
    FirstPeek(s, n, max);
    if first.changes == [] {
      LeaderIsConfirmed(peeked, first.end);
      UnreadAhead(s.log, s.confirmed, first);
    } else {
      NothingLeads(peeked);
    }
  }
}
