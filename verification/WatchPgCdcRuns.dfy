/**
 The watch and its slot as a state machine, over every run of commits on the
 server, connects, peeks that succeed or fail, acknowledgements, releases and
 settles that succeed, fail, or succeed with their reply lost.

 The history fields record what the gateway acknowledged, and what was handed out
 and released in this session.
 */
module WatchPgCdcRuns {
  import opened Wrappers
  import opened WatchPgCdc
  import opened WatchPgCdcPeek

  datatype State = State(
    start: nat,
    log: seq<Txn>,
    confirmed: nat,
    progress: Progress,
    unadvanced: Option<nat>,
    acknowledged: set<nat>,
    handed: multiset<nat>,
    released: multiset<nat>,
    floor: nat,
    pending: Option<nat>)

  datatype Outcome = Taken | Refused | ReplyLost

  datatype Step =
    | Commits(t: Txn)
    | Connects
    | Peeks(n: nat, max: nat)
    | PeekFails(k: nat, j: nat, max: nat)
    | Acks(receipt: Option<nat>)
    | Releases(receipt: Option<nat>)
    | Settles(outcome: Outcome)

  /** The slot just created at `start`. */
  function Init(start: nat): State {
    State(start, [], start, EMPTY, None, {}, multiset{}, multiset{}, start, None)
  }

  /** Where the server has committed to. */
  function Tip(s: State): nat {
    if s.log == [] then s.start else s.log[|s.log| - 1].end
  }

  ghost predicate Sorted(log: seq<Txn>) {
    forall i, j :: 0 <= i < j < |log| ==> log[i].end < log[j].end
  }

  /** End LSNs grow, a change lies before its transaction's end, and no two transactions share an LSN. */
  ghost predicate LogOk(start: nat, log: seq<Txn>) {
    && Sorted(log)
    && (forall t :: t in log ==> t.end > start)
    && (forall t, c :: t in log && c in t.changes ==> IsChange(c) && c.lsn < t.end)
    && (forall t, u :: t in log && u in log && t.end != u.end ==> Lsns(t.changes) !! Lsns(u.changes))
  }

  /** The transactions a peek reads: those that end past the confirmed position. */
  function Unread(log: seq<Txn>, confirmed: nat): (txns: seq<Txn>)
    ensures forall t :: t in txns ==> t in log
  {
    if log == [] then []
    else if log[0].end <= confirmed then Unread(log[1..], confirmed) else log
  }

  function ReceiptsOf(ds: seq<Delivery>): multiset<nat> {
    if ds == [] then multiset{}
    else
      var last := ds[|ds| - 1].receipt;
      ReceiptsOf(ds[..|ds| - 1]) + if last.Some? then multiset{last.value} else multiset{}
  }

  /** `pg_replication_slot_advance` never moves a slot back. */
  function SlotAfter(confirmed: nat, to: nat): nat {
    Max(confirmed, to)
  }

  ghost predicate Enabled(s: State, step: Step) {
    match step
    case Commits(t) => t.end > Tip(s) && LogOk(s.start, s.log + [t])
    case Peeks(n, _) => n <= |Unread(s.log, s.confirmed)| && AllChanges(Unread(s.log, s.confirmed))
    case PeekFails(k, j, _) => IsPart(Unread(s.log, s.confirmed), k, j)
    case _ => true
  }

  /** A step that is not enabled does nothing. */
  ghost function Do(s: State, step: Step): State {
    if !Enabled(s, step) then s
    else
      match step
      case Commits(t) => s.(log := s.log + [t])
      case Connects =>
        s.(progress := EMPTY, handed := multiset{}, released := multiset{}, floor := s.confirmed,
           pending := s.unadvanced)
      case Peeks(n, max) =>
        var (p, ds) := PeekAll(s.progress, Unread(s.log, s.confirmed)[..n], [], max);
        s.(progress := p, handed := s.handed + ReceiptsOf(ds))
      case PeekFails(k, j, max) =>
        s.(progress := PartPeek(s.progress, Unread(s.log, s.confirmed), k, j, max))
      case Acks(receipt) =>
        s.(progress := Acked(s.progress, receipt),
           acknowledged := s.acknowledged + if receipt.Some? then {receipt.value} else {})
      case Releases(receipt) =>
        s.(progress := Released(s.progress, receipt),
           released := s.released + if receipt.Some? then multiset{receipt.value} else multiset{})
      case Settles(outcome) => SettledState(s, outcome)
  }

  /** A settle: what is consumed stays consumed, and the slot moves unless the advance is refused. */
  ghost function SettledState(s: State, outcome: Outcome): State {
    var s' := s.(progress := Advanced(s.progress));
    var to := Later(AdvancedTo(s.progress), s.unadvanced);
    if to.None? then s'
    else
      match outcome
      case Taken => s'.(unadvanced := None, confirmed := SlotAfter(s.confirmed, to.value))
      case Refused => s'.(unadvanced := to)
      case ReplyLost => s'.(unadvanced := to, confirmed := SlotAfter(s.confirmed, to.value))
  }

  ghost function Run(s: State, steps: seq<Step>): State {
    if steps == [] then s else Do(Run(s, steps[..|steps| - 1]), steps[|steps| - 1])
  }

  // ---------------------------------------------------------------------
  // The invariant
  // ---------------------------------------------------------------------

  /** Every change of every transaction that ends at or before `bound` is acknowledged. */
  ghost predicate AckedUpTo(log: seq<Txn>, acknowledged: set<nat>, bound: nat) {
    forall t :: t in log && t.end <= bound ==> Lsns(t.changes) <= acknowledged
  }

  /** What is tracked is a transaction of the log, with its changes and only acknowledged acks. */
  ghost predicate Tracks(log: seq<Txn>, acknowledged: set<nat>, p: Progress) {
    && (forall e :: e in p.transactions ==> exists t :: t in log && t.end == e)
    && (forall t :: t in log && t.end in p.transactions ==>
          var tx := p.transactions[t.end];
          tx.complete && tx.changes == Lsns(t.changes) && tx.acked <= tx.changes && tx.acked <= acknowledged)
  }

  /** `owner` and the tracked transactions say the same. */
  ghost predicate Owns(p: Progress) {
    && (forall l :: l in p.owner ==>
          p.owner[l] in p.transactions && l in p.transactions[p.owner[l]].changes)
    && (forall e, l :: e in p.transactions && l in p.transactions[e].changes ==>
          l in p.owner && p.owner[l] == e)
  }

  /** Before a tracked transaction there is none that is neither tracked, consumed nor confirmed. */
  ghost predicate NoGap(log: seq<Txn>, confirmed: nat, tracked: set<nat>, consumed: nat) {
    forall t, e :: t in log && e in tracked && t.end < e ==>
      t.end in tracked || t.end <= consumed || t.end <= confirmed
  }

  /** Tracked transactions lie past what is consumed and past where the session began to read. */
  ghost predicate Ahead(floor: nat, tracked: set<nat>, consumed: nat) {
    forall e :: e in tracked ==> e > consumed && e > floor
  }

  /** A change is handed out at most once more than it was released. */
  ghost predicate AtMostOnce(handed: multiset<nat>, released: multiset<nat>, delivered: set<nat>, consumed: nat) {
    forall l: nat :: handed[l] <= released[l] + if l in delivered || l < consumed then 1 else 0
  }

  function OrZero(o: Option<nat>): nat {
    if o.Some? then o.value else 0
  }

  ghost predicate Inv(s: State) {
    var p := s.progress;
    && LogOk(s.start, s.log)
    && Tracks(s.log, s.acknowledged, p)
    && Owns(p)
    && NoGap(s.log, s.confirmed, p.transactions.Keys, p.consumed)
    && Ahead(s.floor, p.transactions.Keys, p.consumed)
    && AtMostOnce(s.handed, s.released, p.delivered, p.consumed)
    && AckedUpTo(s.log, s.acknowledged, s.confirmed)
    && AckedUpTo(s.log, s.acknowledged, p.consumed)
    && AckedUpTo(s.log, s.acknowledged, OrZero(s.unadvanced))
    && EndOrZero(s.log, p.consumed)
    && Bounded(s)
  }

  ghost predicate EndOrZero(log: seq<Txn>, consumed: nat) {
    consumed == 0 || exists t :: t in log && t.end == consumed
  }

  /** How far the positions may run ahead of each other. */
  predicate Bounded(s: State) {
    var consumed := s.progress.consumed;
    && s.start <= s.confirmed && s.floor <= s.confirmed <= Tip(s)
    && consumed <= Tip(s) && OrZero(s.unadvanced) <= Tip(s)
    && s.confirmed <= Max(s.floor, Max(consumed, OrZero(s.pending)))
    && OrZero(s.unadvanced) <= Max(consumed, OrZero(s.pending))
    && consumed <= Max(s.confirmed, OrZero(s.unadvanced))
  }

  // ---------------------------------------------------------------------
  // Peek keeps it
  // ---------------------------------------------------------------------

  lemma {:induction false} UnreadIsSuffix(log: seq<Txn>, confirmed: nat) returns (k: nat)
    requires Sorted(log)
    ensures k <= |log| && Unread(log, confirmed) == log[k..] && SplitAt(log, confirmed, k)
  {
    if log == [] {
      k := 0;
    } else if log[0].end <= confirmed {
      var rest := UnreadIsSuffix(log[1..], confirmed);
      k := rest + 1;
      forall i | 0 <= i < |log| ensures i < k <==> log[i].end <= confirmed {
        if i > 0 {
          assert log[i] == log[1..][i - 1];
        }
      }
    } else {
      k := 0;
    }
  }

  /** The first `k` transactions are confirmed, and no other. */
  ghost predicate SplitAt(log: seq<Txn>, confirmed: nat, k: nat) {
    forall i :: 0 <= i < |log| ==> (i < k <==> log[i].end <= confirmed)
  }

  lemma {:induction false} ReceiptsSplit(a: seq<Delivery>, b: seq<Delivery>)
    ensures ReceiptsOf(a + b) == ReceiptsOf(a) + ReceiptsOf(b)
    decreases |b|
  {
    if b == [] {
      assert a + b == a;
    } else {
      var n := |b| - 1;
      assert (a + b)[..|a + b| - 1] == a + b[..n];
      ReceiptsSplit(a, b[..n]);
    }
  }

  lemma {:induction false} NoReceipts(ds: seq<Delivery>)
    requires forall d :: d in ds ==> d.receipt.None?
    ensures ReceiptsOf(ds) == multiset{}
    decreases |ds|
  {
    if ds != [] {
      NoReceipts(ds[..|ds| - 1]);
      assert ds[|ds| - 1] in ds;
    }
  }

  /** A change carries one receipt, its own LSN, if it has any event. */
  lemma ReceiptOfChange(c: Row)
    requires IsChange(c)
    ensures ReceiptsOf(DeliveriesOf(c)) == if Oids(c) == [] then multiset{} else multiset{c.lsn}
  {
    var ds := DeliveriesOf(c);
    if ds != [] {
      NoReceipts(ds[..|ds| - 1]);
    }
  }

  lemma OneMore(handed: multiset<nat>, released: multiset<nat>, delivered: set<nat>, consumed: nat, c: Row)
    requires AtMostOnce(handed, released, delivered, consumed)
    requires IsChange(c) && c.lsn !in delivered && c.lsn >= consumed
    ensures AtMostOnce(handed + ReceiptsOf(DeliveriesOf(c)), released, delivered + {c.lsn}, consumed)
  {
    ReceiptOfChange(c);
  }

  lemma {:induction false} HandOutCounts(
    p: Progress, changes: seq<Row>, out: seq<Delivery>, max: nat, handed: multiset<nat>, released: multiset<nat>)
    requires forall c :: c in changes ==> IsChange(c)
    requires AtMostOnce(handed + ReceiptsOf(out), released, p.delivered, p.consumed)
    ensures var (q, ds) := HandOut(p, changes, out, max);
            AtMostOnce(handed + ReceiptsOf(ds), released, q.delivered, q.consumed)
    decreases |changes|
  {
    if changes != [] {
      var n := |changes| - 1;
      HandOutCounts(p, changes[..n], out, max, handed, released);
      HandOutMore(p, changes, out, max);
      var (q, ds) := HandOut(p, changes[..n], out, max);
      if Fresh(q, changes[n].lsn) && |ds| < max {
        var more := DeliveriesOf(changes[n]);
        OneMore(handed + ReceiptsOf(ds), released, q.delivered, q.consumed, changes[n]);
        ReceiptsSplit(ds, more);
        assert handed + ReceiptsOf(ds + more) == handed + ReceiptsOf(ds) + ReceiptsOf(more);
      }
    }
  }

  /** A receipt is handed out only for a change put in flight. */
  lemma {:induction false} HandOutReceipts(p: Progress, changes: seq<Row>, out: seq<Delivery>, max: nat, l: nat)
    requires forall c :: c in changes ==> IsChange(c)
    ensures var (q, ds) := HandOut(p, changes, out, max);
            p.delivered <= q.delivered && (l !in q.delivered ==> ReceiptsOf(ds)[l] == ReceiptsOf(out)[l])
    decreases |changes|
  {
    if changes != [] {
      var n := |changes| - 1;
      HandOutReceipts(p, changes[..n], out, max, l);
      HandOutMore(p, changes, out, max);
      var (q, ds) := HandOut(p, changes[..n], out, max);
      ReceiptsSplit(ds, DeliveriesOf(changes[n]));
      ReceiptOfChange(changes[n]);
    }
  }

  lemma PeekReceipts(p: Progress, txns: seq<Txn>, max: nat, l: nat)
    requires AllChanges(txns) && l !in PeekAll(p, txns, [], max).0.delivered
    ensures ReceiptsOf(PeekAll(p, txns, [], max).1)[l] == 0
  {
    PeekHandsOut(p, txns, [], max);
    HandOutReceipts(p, ChangesOf(txns), [], max, l);
  }

  lemma PeekCounts(s: State, txns: seq<Txn>, max: nat)
    requires AllChanges(txns) && AtMostOnce(s.handed, s.released, s.progress.delivered, s.progress.consumed)
    ensures var (q, ds) := PeekAll(s.progress, txns, [], max);
            AtMostOnce(s.handed + ReceiptsOf(ds), s.released, q.delivered, q.consumed)
  {
    PeekHandsOut(s.progress, txns, [], max);
    assert s.handed + ReceiptsOf([]) == s.handed;
    HandOutCounts(s.progress, ChangesOf(txns), [], max, s.handed, s.released);
    HandOutFills(s.progress, ChangesOf(txns), [], max);
  }

  lemma OneTxnPerEnd(start: nat, log: seq<Txn>, t: Txn, u: Txn)
    requires LogOk(start, log) && t in log && u in log && t.end == u.end
    ensures t == u
  {
    var i :| 0 <= i < |log| && log[i] == t;
    var j :| 0 <= j < |log| && log[j] == u;
  }

  /** Registering a transaction of the log keeps what is tracked right. */
  lemma RegisterKeeps(start: nat, log: seq<Txn>, acknowledged: set<nat>, p: Progress, t: Txn)
    requires LogOk(start, log) && t in log && t.end > p.consumed
    requires Tracks(log, acknowledged, p) && Owns(p)
    ensures Tracks(log, acknowledged, Register(p, t.end, Lsns(t.changes)))
    ensures Owns(Register(p, t.end, Lsns(t.changes)))
  {
    var q := Register(p, t.end, Lsns(t.changes));
    forall u | u in log && u.end == t.end ensures u == t {
      OneTxnPerEnd(start, log, t, u);
    }
    assert Tracks(log, acknowledged, q);
    forall e, l | e in p.transactions && e != t.end && l in p.transactions[e].changes
      ensures l !in Lsns(t.changes)
    {
      var u :| u in log && u.end == e;
    }
    OwnersKept(p, t.end, Lsns(t.changes));
  }

  lemma OwnersKept(p: Progress, end: nat, lsns: set<nat>)
    requires Owns(p) && end > p.consumed
    requires end in p.transactions ==> p.transactions[end].changes == lsns
    requires forall e, l :: e in p.transactions && e != end && l in p.transactions[e].changes ==> l !in lsns
    ensures Owns(Register(p, end, lsns))
  {
  }

  /** What is in flight does not matter to what is tracked. */
  lemma InFlightAside(log: seq<Txn>, acknowledged: set<nat>, p: Progress, delivered: set<nat>)
    requires Tracks(log, acknowledged, p) && Owns(p)
    ensures Tracks(log, acknowledged, p.(delivered := delivered)) && Owns(p.(delivered := delivered))
  {
  }

  /** Reading one more transaction keeps what is tracked right, and tracks it unless it is consumed. */
  lemma TrackOne(start: nat, log: seq<Txn>, acknowledged: set<nat>, p: Progress, h: Progress, t: Txn)
    requires LogOk(start, log) && t in log
    requires Tracks(log, acknowledged, p) && Owns(p)
    requires h == p.(delivered := h.delivered)
    ensures var q := Register(h, t.end, Lsns(t.changes));
            && Tracks(log, acknowledged, q) && Owns(q) && q.consumed == p.consumed
            && q.transactions.Keys == p.transactions.Keys + if t.end > p.consumed then {t.end} else {}
  {
    InFlightAside(log, acknowledged, p, h.delivered);
    RegisterKeys(h, t.end, Lsns(t.changes));
    if t.end > p.consumed {
      RegisterKeeps(start, log, acknowledged, h, t);
    }
  }

  lemma RegisterKeys(p: Progress, end: nat, lsns: set<nat>)
    ensures var q := Register(p, end, lsns);
            && q.consumed == p.consumed && (end <= p.consumed ==> q == p)
            && q.transactions.Keys == p.transactions.Keys + if end > p.consumed then {end} else {}
  {
  }

  lemma {:induction false} PeekTracks(s: State, txns: seq<Txn>, max: nat)
    requires LogOk(s.start, s.log) && AllChanges(txns) && (forall t :: t in txns ==> t in s.log)
    requires Tracks(s.log, s.acknowledged, s.progress) && Owns(s.progress)
    ensures var q := PeekAll(s.progress, txns, [], max).0;
            && Tracks(s.log, s.acknowledged, q) && Owns(q) && q.consumed == s.progress.consumed
            && q.transactions.Keys == s.progress.transactions.Keys + Registered(txns, s.progress.consumed)
    decreases |txns|
  {
    if txns != [] {
      var n := |txns| - 1;
      PeekTracks(s, txns[..n], max);
      PeekMore(s.progress, txns, [], max);
      var (p, out) := PeekAll(s.progress, txns[..n], [], max);
      HandOutFills(p, txns[n].changes, out, max);
      TrackOne(s.start, s.log, s.acknowledged, p, HandOut(p, txns[n].changes, out, max).0, txns[n]);
      RegisteredMore(txns, s.progress.consumed);
    }
  }

  function Registered(txns: seq<Txn>, consumed: nat): set<nat> {
    set t | t in txns && t.end > consumed :: t.end
  }

  lemma RegisteredMore(txns: seq<Txn>, consumed: nat)
    requires txns != []
    ensures var n := |txns| - 1;
            Registered(txns, consumed) ==
            Registered(txns[..n], consumed) + if txns[n].end > consumed then {txns[n].end} else {}
  {
    var n := |txns| - 1;
    assert txns == txns[..n] + [txns[n]];
  }

  lemma PeekKeepsNoGap(log: seq<Txn>, confirmed: nat, k: nat, n: nat, tracked: set<nat>, consumed: nat)
    requires Sorted(log) && k + n <= |log| && SplitAt(log, confirmed, k)
    requires NoGap(log, confirmed, tracked, consumed)
    ensures NoGap(log, confirmed, tracked + Registered(log[k..k + n], consumed), consumed)
  {
    var txns := log[k..k + n];
    var all := tracked + Registered(txns, consumed);
    forall t, e | t in log && e in all && t.end < e
      ensures t.end in all || t.end <= consumed || t.end <= confirmed
    {
      if e !in tracked && t.end > confirmed {
        var u :| u in txns && u.end == e;
        var j :| 0 <= j < n && txns[j] == u;
        ReadBefore(log, confirmed, k, n, t, j);
      }
    }
  }

  lemma PeekKeepsAhead(
    log: seq<Txn>, confirmed: nat, k: nat, n: nat, floor: nat, tracked: set<nat>, consumed: nat)
    requires k + n <= |log| && SplitAt(log, confirmed, k) && floor <= confirmed
    requires Ahead(floor, tracked, consumed)
    ensures Ahead(floor, tracked + Registered(log[k..k + n], consumed), consumed)
  {
    forall u | u in log[k..k + n] ensures u.end > confirmed {
      var j :| 0 <= j < n && log[k..k + n][j] == u;
      assert log[k + j] == u;
    }
  }

  /** An unconfirmed transaction before one that was read was read too. */
  lemma ReadBefore(log: seq<Txn>, confirmed: nat, k: nat, n: nat, t: Txn, j: nat)
    requires Sorted(log)
    requires k + n <= |log| && SplitAt(log, confirmed, k) && j < n
    requires t in log && confirmed < t.end < log[k + j].end
    ensures t in log[k..k + n]
  {
    var i :| 0 <= i < |log| && log[i] == t;
    assert k <= i < k + j;
    assert log[k..k + n][i - k] == t;
  }

  lemma SliceOf(log: seq<Txn>, k: nat, n: nat)
    requires k + n <= |log| && AllChanges(log[k..])
    ensures log[k..][..n] == log[k..k + n] && (forall t :: t in log[k..k + n] ==> t in log)
    ensures AllChanges(log[k..k + n])
  {
    assert forall t :: t in log[k..k + n] ==> t in log[k..];
  }

  /** What a peek keeps, part by part. */
  lemma PeekKeeps(s: State, n: nat, max: nat)
    requires Inv(s) && Enabled(s, Peeks(n, max))
    ensures var txns := Unread(s.log, s.confirmed)[..n];
            && AllChanges(txns)
            && var (q, ds) := PeekAll(s.progress, txns, [], max);
               && Tracks(s.log, s.acknowledged, q) && Owns(q) && q.consumed == s.progress.consumed
               && AtMostOnce(s.handed + ReceiptsOf(ds), s.released, q.delivered, q.consumed)
               && NoGap(s.log, s.confirmed, q.transactions.Keys, q.consumed)
               && Ahead(s.floor, q.transactions.Keys, q.consumed)
  {
    var k := UnreadIsSuffix(s.log, s.confirmed);
    SliceOf(s.log, k, n);
    var txns, p := s.log[k..k + n], s.progress;
    var (q, ds) := PeekAll(p, txns, [], max);
    assert Tracks(s.log, s.acknowledged, q) && Owns(q) && q.consumed == p.consumed
           && q.transactions.Keys == p.transactions.Keys + Registered(txns, p.consumed) by {
      PeekTracks(s, txns, max);
    }
    assert AtMostOnce(s.handed + ReceiptsOf(ds), s.released, q.delivered, q.consumed) by {
      PeekCounts(s, txns, max);
    }
    assert NoGap(s.log, s.confirmed, q.transactions.Keys, q.consumed) by {
      PeekKeepsNoGap(s.log, s.confirmed, k, n, p.transactions.Keys, p.consumed);
    }
    assert Ahead(s.floor, q.transactions.Keys, q.consumed) by {
      PeekKeepsAhead(s.log, s.confirmed, k, n, s.floor, p.transactions.Keys, p.consumed);
    }
  }

  lemma PeekStep(s: State, n: nat, max: nat)
    requires Inv(s)
    ensures Inv(Do(s, Peeks(n, max)))
  {
    if Enabled(s, Peeks(n, max)) {
      PeekKeeps(s, n, max);
    }
  }

  /** A failed peek is one of its whole transactions, with more in flight and nothing handed out. */
  lemma PartIsMoreInFlight(p: Progress, txns: seq<Txn>, k: nat, j: nat, max: nat)
    requires IsPart(txns, k, j)
    ensures var (q, ds), r := PeekAll(p, txns[..k], [], max), PartPeek(p, txns, k, j, max);
            && r == q.(delivered := r.delivered)
            && q.delivered <= r.delivered <= q.delivered + Lsns(txns[k].changes[..j])
            && (forall l :: l in r.delivered ==> l in q.delivered || l >= q.consumed)
  {
    var (q, ds) := PeekAll(p, txns[..k], [], max);
    HandOutFills(q, txns[k].changes[..j], ds, max);
  }

  lemma FewerHanded(
    handed: multiset<nat>, more: multiset<nat>, released: multiset<nat>, a: set<nat>, b: set<nat>, consumed: nat)
    requires AtMostOnce(handed + more, released, a, consumed) && a <= b
    ensures AtMostOnce(handed, released, b, consumed)
  {
  }

  /** What a failed peek keeps, part by part. */
  lemma PeekFailsKeeps(s: State, k: nat, j: nat, max: nat)
    requires Inv(s) && Enabled(s, PeekFails(k, j, max))
    ensures var r := PartPeek(s.progress, Unread(s.log, s.confirmed), k, j, max);
            && Tracks(s.log, s.acknowledged, r) && Owns(r) && r.consumed == s.progress.consumed
            && AtMostOnce(s.handed, s.released, r.delivered, r.consumed)
            && NoGap(s.log, s.confirmed, r.transactions.Keys, r.consumed)
            && Ahead(s.floor, r.transactions.Keys, r.consumed)
  {
    var txns := Unread(s.log, s.confirmed);
    var (q, ds) := PeekAll(s.progress, txns[..k], [], max);
    var r := PartPeek(s.progress, txns, k, j, max);
    PeekKeeps(s, k, max);
    assert r == q.(delivered := r.delivered) && q.delivered <= r.delivered by {
      PartIsMoreInFlight(s.progress, txns, k, j, max);
    }
    assert Tracks(s.log, s.acknowledged, r) && Owns(r) by {
      InFlightAside(s.log, s.acknowledged, q, r.delivered);
    }
    FewerHanded(s.handed, ReceiptsOf(ds), s.released, q.delivered, r.delivered, q.consumed);
  }

  lemma PeekFailsStep(s: State, k: nat, j: nat, max: nat)
    requires Inv(s)
    ensures Inv(Do(s, PeekFails(k, j, max)))
  {
    if Enabled(s, PeekFails(k, j, max)) {
      PeekFailsKeeps(s, k, j, max);
    }
  }

  // ---------------------------------------------------------------------
  // Settle keeps it
  // ---------------------------------------------------------------------

  lemma SizeGrows(a: set<nat>, b: set<nat>)
    requires a <= b
    ensures |a| <= |b|
  {
    if a != {} {
      var x :| x in a;
      SizeGrows(a - {x}, b - {x});
    }
  }

  /** The count `advance` compares means what it should: every change is acknowledged. */
  lemma SettledMeansAcked(tx: Transaction)
    requires tx.complete && tx.acked <= tx.changes
    ensures Settled(tx) <==> tx.acked == tx.changes
  {
    if x :| x in tx.changes && x !in tx.acked {
      SizeGrows(tx.acked, tx.changes - {x});
    }
  }

  lemma AdvanceAcks(s: State)
    requires Inv(s) && Leading(s.progress) != {}
    ensures AckedUpTo(s.log, s.acknowledged, MaxOf(Leading(s.progress)))
    ensures MaxOf(Leading(s.progress)) <= Tip(s)
  {
    var p := s.progress;
    var top := MaxOf(Leading(p));
    TrackedAtTip(s);
    assert top in p.transactions.Keys && Leads(p, top);
    LeadingAreAcked(s.log, s.acknowledged, s.confirmed, p, top);
  }

  /** Up to a transaction with no unsettled one at or before it, everything is acknowledged. */
  lemma LeadingAreAcked(log: seq<Txn>, acknowledged: set<nat>, confirmed: nat, p: Progress, top: nat)
    requires Tracks(log, acknowledged, p) && NoGap(log, confirmed, p.transactions.Keys, p.consumed)
    requires AckedUpTo(log, acknowledged, confirmed) && AckedUpTo(log, acknowledged, p.consumed)
    requires top in p.transactions && Leads(p, top)
    ensures AckedUpTo(log, acknowledged, top)
  {
    forall t | t in log && t.end <= top
      ensures Lsns(t.changes) <= acknowledged
    {
      if t.end in p.transactions {
        SettledMeansAcked(p.transactions[t.end]);
      }
    }
  }

  lemma AdvanceKeepsEnd(s: State)
    requires Inv(s)
    ensures EndOrZero(s.log, Advanced(s.progress).consumed)
  {
    if Leading(s.progress) != {} {
      var t :| t in s.log && t.end == MaxOf(Leading(s.progress));
    }
  }

  lemma AdvanceKeepsOrder(log: seq<Txn>, confirmed: nat, floor: nat, p: Progress)
    requires NoGap(log, confirmed, p.transactions.Keys, p.consumed)
    requires Ahead(floor, p.transactions.Keys, p.consumed)
    ensures var q := Advanced(p);
            NoGap(log, confirmed, q.transactions.Keys, q.consumed) && Ahead(floor, q.transactions.Keys, q.consumed)
  {
    var q := Advanced(p);
    if Leading(p) != {} {
      var top := MaxOf(Leading(p));
      assert Leads(p, top);
      forall e | e in q.transactions.Keys
        ensures e > top
      {
        assert e <= top ==> Leads(p, e);
      }
    }
  }

  /** A change in flight is dropped only with its transaction, which ends after it. */
  lemma DroppedIsConsumed(start: nat, log: seq<Txn>, acknowledged: set<nat>, p: Progress, l: nat)
    requires LogOk(start, log) && Tracks(log, acknowledged, p)
    requires l in p.delivered && l !in Advanced(p).delivered
    ensures l < Advanced(p).consumed
  {
    var e :| e in Leading(p) && l in p.transactions[e].changes;
    var t :| t in log && t.end == e;
    assert l in Lsns(t.changes);
  }

  lemma AdvanceKeepsCounts(s: State)
    requires Inv(s)
    ensures AtMostOnce(s.handed, s.released, Advanced(s.progress).delivered, Advanced(s.progress).consumed)
  {
    var p, q := s.progress, Advanced(s.progress);
    forall l | l in p.delivered && l !in q.delivered
      ensures l < q.consumed
    {
      DroppedIsConsumed(s.start, s.log, s.acknowledged, p, l);
    }
  }

  lemma AdvanceKeepsOwners(p: Progress)
    requires Owns(p)
    ensures Owns(Advanced(p))
  {
    var q, gone := Advanced(p), ChangesUnder(p, Leading(p));
    forall e, l | e in q.transactions && l in q.transactions[e].changes
      ensures l in q.owner && q.owner[l] == e
    {
      assert l in p.owner && p.owner[l] == e;
      assert l !in gone;
    }
    forall l | l in q.owner
      ensures q.owner[l] in q.transactions && l in q.transactions[q.owner[l]].changes
    {
      assert p.owner[l] in p.transactions && l in p.transactions[p.owner[l]].changes;
    }
  }

  lemma AdvanceKeepsTracks(log: seq<Txn>, acknowledged: set<nat>, p: Progress)
    requires Tracks(log, acknowledged, p)
    ensures Tracks(log, acknowledged, Advanced(p))
  {
  }

  lemma ConfirmMore(log: seq<Txn>, confirmed: nat, further: nat, tracked: set<nat>, consumed: nat)
    requires NoGap(log, confirmed, tracked, consumed) && confirmed <= further
    ensures NoGap(log, further, tracked, consumed)
  {
  }

  /** What a settle keeps, part by part. */
  lemma SettleKeeps(s: State, outcome: Outcome)
    requires Inv(s)
    ensures var s', q := SettledState(s, outcome), Advanced(s.progress);
            && s' == s.(progress := q, unadvanced := s'.unadvanced, confirmed := s'.confirmed)
            && AckedUpTo(s.log, s.acknowledged, s'.confirmed) && AckedUpTo(s.log, s.acknowledged, q.consumed)
            && AckedUpTo(s.log, s.acknowledged, OrZero(s'.unadvanced)) && Bounded(s')
            && NoGap(s.log, s'.confirmed, q.transactions.Keys, q.consumed)
            && Ahead(s.floor, q.transactions.Keys, q.consumed)
            && AtMostOnce(s.handed, s.released, q.delivered, q.consumed)
            && Owns(q) && EndOrZero(s.log, q.consumed) && Tracks(s.log, s.acknowledged, q)
  {
    var s', p, q := SettledState(s, outcome), s.progress, Advanced(s.progress);
    NewPositions(s, outcome);
    assert AckedUpTo(s.log, s.acknowledged, Top(p)) && Top(p) <= Tip(s) by {
      AckedToMax(s.log, s.acknowledged, s.confirmed, 0);
      if Leading(p) != {} {
        AdvanceAcks(s);
      }
    }
    SettlePositions(s, outcome);
    assert NoGap(s.log, s'.confirmed, q.transactions.Keys, q.consumed)
           && Ahead(s.floor, q.transactions.Keys, q.consumed) by {
      AdvanceKeepsOrder(s.log, s.confirmed, s.floor, p);
      ConfirmMore(s.log, s.confirmed, s'.confirmed, q.transactions.Keys, q.consumed);
    }
    assert AtMostOnce(s.handed, s.released, q.delivered, q.consumed) by { AdvanceKeepsCounts(s); }
    assert Owns(q) by { AdvanceKeepsOwners(p); }
    assert EndOrZero(s.log, q.consumed) by { AdvanceKeepsEnd(s); }
    assert Tracks(s.log, s.acknowledged, q) by { AdvanceKeepsTracks(s.log, s.acknowledged, p); }
  }

  lemma SettleStep(s: State, outcome: Outcome)
    requires Inv(s)
    ensures Inv(Do(s, Settles(outcome)))
  {
    SettleKeeps(s, outcome);
  }

  lemma SettlePositions(s: State, outcome: Outcome)
    requires Bounded(s)
    requires AckedUpTo(s.log, s.acknowledged, s.confirmed)
    requires AckedUpTo(s.log, s.acknowledged, s.progress.consumed)
    requires AckedUpTo(s.log, s.acknowledged, OrZero(s.unadvanced))
    requires AckedUpTo(s.log, s.acknowledged, Top(s.progress)) && Top(s.progress) <= Tip(s)
    ensures var s' := SettledState(s, outcome);
            && AckedUpTo(s.log, s.acknowledged, s'.confirmed)
            && AckedUpTo(s.log, s.acknowledged, s'.progress.consumed)
            && AckedUpTo(s.log, s.acknowledged, OrZero(s'.unadvanced))
            && Bounded(s') && s'.confirmed >= s.confirmed
  {
    var top := Top(s.progress);
    NewPositions(s, outcome);
    AckedToMax(s.log, s.acknowledged, s.progress.consumed, top);
    AckedToMax(s.log, s.acknowledged, top, OrZero(s.unadvanced));
    AckedToMax(s.log, s.acknowledged, s.confirmed, Max(top, OrZero(s.unadvanced)));
  }

  /** The end of the last leading transaction, or 0. */
  function Top(p: Progress): nat {
    if Leading(p) == {} then 0 else MaxOf(Leading(p))
  }

  /** Where a settle leaves the three positions. */
  lemma NewPositions(s: State, outcome: Outcome)
    ensures var s', to := SettledState(s, outcome), Max(Top(s.progress), OrZero(s.unadvanced));
            && s'.progress.consumed == Max(s.progress.consumed, Top(s.progress))
            && s'.confirmed == (if outcome == Refused then s.confirmed else Max(s.confirmed, to))
            && OrZero(s'.unadvanced) == (if outcome == Taken then 0 else to)
            && s' == s.(progress := s'.progress, confirmed := s'.confirmed, unadvanced := s'.unadvanced)
  {
  }

  lemma AckedToMax(log: seq<Txn>, acknowledged: set<nat>, a: nat, b: nat)
    requires AckedUpTo(log, acknowledged, a)
    ensures AckedUpTo(log, acknowledged, 0)
    ensures AckedUpTo(log, acknowledged, b) ==> AckedUpTo(log, acknowledged, Max(a, b))
  {
  }

  // ---------------------------------------------------------------------
  // The other steps, and every run
  // ---------------------------------------------------------------------

  lemma CommitStep(s: State, t: Txn)
    requires Inv(s)
    ensures Inv(Do(s, Commits(t)))
  {
    if Enabled(s, Commits(t)) {
      var s', p := Do(s, Commits(t)), s.progress;
      assert s' == s.(log := s.log + [t]) && Tip(s') == t.end;
      assert Tracks(s'.log, s.acknowledged, p) && NoGap(s'.log, s.confirmed, p.transactions.Keys, p.consumed) by {
        TrackedAtTip(s);
        MoreTracks(s.log, t, s.acknowledged, p);
        MoreNoGap(s.log, t, s.confirmed, p.transactions.Keys, p.consumed);
      }
      MoreAcked(s.log, t, s.acknowledged, s.confirmed);
      MoreAcked(s.log, t, s.acknowledged, p.consumed);
      MoreAcked(s.log, t, s.acknowledged, OrZero(s.unadvanced));
      assert EndOrZero(s'.log, p.consumed);
    }
  }

  lemma MoreTracks(log: seq<Txn>, t: Txn, acknowledged: set<nat>, p: Progress)
    requires Tracks(log, acknowledged, p) && t.end !in p.transactions
    ensures Tracks(log + [t], acknowledged, p)
  {
    forall e | e in p.transactions
      ensures exists u :: u in log + [t] && u.end == e
    {
      var u :| u in log && u.end == e;
      assert u in log + [t];
    }
  }

  lemma MoreNoGap(log: seq<Txn>, t: Txn, confirmed: nat, tracked: set<nat>, consumed: nat)
    requires NoGap(log, confirmed, tracked, consumed) && forall e :: e in tracked ==> e < t.end
    ensures NoGap(log + [t], confirmed, tracked, consumed)
  {
  }

  lemma MoreAcked(log: seq<Txn>, t: Txn, acknowledged: set<nat>, bound: nat)
    requires AckedUpTo(log, acknowledged, bound) && bound < t.end
    ensures AckedUpTo(log + [t], acknowledged, bound)
  {
  }

  lemma TrackedAtTip(s: State)
    requires Sorted(s.log) && Tracks(s.log, s.acknowledged, s.progress)
    ensures forall e :: e in s.progress.transactions.Keys ==> e <= Tip(s)
  {
    forall e | e in s.progress.transactions.Keys ensures e <= Tip(s) {
      var u :| u in s.log && u.end == e;
      var i :| 0 <= i < |s.log| && s.log[i] == u;
    }
  }

  lemma AckStep(s: State, receipt: Option<nat>)
    requires Inv(s)
    ensures Inv(Do(s, Acks(receipt)))
  {
    var s' := Do(s, Acks(receipt));
    AckKeeps(s.log, s.acknowledged, s'.acknowledged, s.progress, receipt);
  }

  lemma AckKeeps(log: seq<Txn>, before: set<nat>, after: set<nat>, p: Progress, receipt: Option<nat>)
    requires Tracks(log, before, p) && Owns(p)
    requires after == before + if receipt.Some? then {receipt.value} else {}
    ensures var q := Acked(p, receipt);
            && Tracks(log, after, q) && Owns(q)
            && q.transactions.Keys == p.transactions.Keys && q.consumed == p.consumed && q.delivered == p.delivered
  {
    var q := Acked(p, receipt);
    assert Owns(q) && q.transactions.Keys == p.transactions.Keys by { AckKeepsOwners(p, receipt); }
    assert Tracks(log, after, q) by { AckKeepsTracks(log, before, after, p, receipt); }
  }

  lemma AckKeepsOwners(p: Progress, receipt: Option<nat>)
    requires Owns(p)
    ensures Owns(Acked(p, receipt)) && Acked(p, receipt).transactions.Keys == p.transactions.Keys
    ensures forall e :: e in p.transactions ==>
              Acked(p, receipt).transactions[e].changes == p.transactions[e].changes
  {
  }

  lemma AckKeepsTracks(log: seq<Txn>, before: set<nat>, after: set<nat>, p: Progress, receipt: Option<nat>)
    requires Tracks(log, before, p) && Owns(p)
    requires after == before + if receipt.Some? then {receipt.value} else {}
    ensures Tracks(log, after, Acked(p, receipt))
  {
    AckKeepsOwners(p, receipt);
  }

  lemma ReleaseStep(s: State, receipt: Option<nat>)
    requires Inv(s)
    ensures Inv(Do(s, Releases(receipt)))
  {
    if receipt.Some? {
      var p, l := s.progress, receipt.value;
      InFlightAside(s.log, s.acknowledged, p, p.delivered - {l});
      ReleaseCounts(s.handed, s.released, p.delivered, p.consumed, l);
    }
  }

  lemma ReleaseCounts(handed: multiset<nat>, released: multiset<nat>, delivered: set<nat>, consumed: nat, l: nat)
    requires AtMostOnce(handed, released, delivered, consumed)
    ensures AtMostOnce(handed, released + multiset{l}, delivered - {l}, consumed)
  {
  }

  lemma ConnectStep(s: State)
    requires Inv(s)
    ensures Inv(Do(s, Connects))
  {
  }

  lemma StepKeeps(s: State, step: Step)
    requires Inv(s)
    ensures Inv(Do(s, step))
  {
    match step
    case Commits(t) => CommitStep(s, t);
    case Connects => ConnectStep(s);
    case Peeks(n, max) => PeekStep(s, n, max);
    case PeekFails(k, j, max) => PeekFailsStep(s, k, j, max);
    case Acks(receipt) => AckStep(s, receipt);
    case Releases(receipt) => ReleaseStep(s, receipt);
    case Settles(outcome) => SettleStep(s, outcome);
  }

  lemma {:induction false} RunKeeps(s: State, steps: seq<Step>)
    requires Inv(s)
    ensures Inv(Run(s, steps))
    decreases |steps|
  {
    if steps != [] {
      RunKeeps(s, steps[..|steps| - 1]);
      StepKeeps(Run(s, steps[..|steps| - 1]), steps[|steps| - 1]);
    }
  }

  lemma InitHolds(start: nat)
    ensures Inv(Init(start))
  {
  }
}
