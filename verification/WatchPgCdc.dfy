/**
 The `postgres_cdc` watch: it peeks a logical replication slot without consuming
 it, hands changes out, records what the gateway acknowledges and releases, and
 advances the slot past the leading transactions acknowledged in full.

 The slot is the transactions behind it. What one peek returns is a list of rows
 that renders some of them in commit order.
 */
module WatchPgCdc {
  import opened Wrappers
  import opened PgOutput

  // ---------------------------------------------------------------------
  // The slot's output
  // ---------------------------------------------------------------------

  datatype Row = Row(lsn: nat, message: Message)

  predicate IsChange(r: Row) {
    r.message.Insert? || r.message.Update? || r.message.Delete? || r.message.Truncate?
  }

  /** A committed transaction: where it ends, and its changes in order. */
  datatype Txn = Txn(end: nat, changes: seq<Row>)

  function Lsns(changes: seq<Row>): set<nat> {
    set c | c in changes :: c.lsn
  }

  function ChangesIn(rows: seq<Row>): (changes: seq<Row>)
    ensures forall c :: c in changes ==> IsChange(c)
  {
    if rows == [] then []
    else ChangesIn(rows[..|rows| - 1]) + (if IsChange(rows[|rows| - 1]) then [rows[|rows| - 1]] else [])
  }

  /** The rows of one transaction: a Begin, its changes among other rows, and its Commit. */
  ghost predicate RendersOne(rows: seq<Row>, t: Txn) {
    && |rows| >= 2
    && rows[0].message.Begin?
    && rows[|rows| - 1].message == Commit(t.end)
    && (forall i :: 0 < i < |rows| - 1 ==> !rows[i].message.Begin? && !rows[i].message.Commit?)
    && ChangesIn(rows) == t.changes
  }

  ghost predicate Renders(rows: seq<Row>, txns: seq<Txn>)
    decreases |txns|
  {
    if txns == [] then rows == []
    else
      var last := |txns| - 1;
      exists n :: 0 <= n < |rows| && Renders(rows[..n], txns[..last]) && RendersOne(rows[n..], txns[last])
  }

  /**
   What a peek of `limit` rows may return when `txns` are not yet confirmed: whole
   transactions from the first on, and all of them if it returns fewer rows.
   */
  ghost predicate ReadsSlot(rows: seq<Row>, limit: nat, txns: seq<Txn>, n: nat) {
    n <= |txns| && Renders(rows, txns[..n]) && (|rows| < limit ==> n == |txns|)
  }

  // ---------------------------------------------------------------------
  // Events
  // ---------------------------------------------------------------------

  datatype Op = OpInsert | OpUpdate | OpDelete

  datatype Event =
    | RowChanged(lsn: nat, op: Op, oid: nat)
    | Truncated(lsn: nat, oid: nat, cascade: bool, restartIdentity: bool)

  /** An event, and the LSN whose acknowledgement settles its change. */
  datatype Delivery = Delivery(event: Event, receipt: Option<nat>)

  function Oids(r: Row): seq<nat>
    requires IsChange(r)
  {
    if r.message.Truncate? then r.message.oids else [r.message.oid]
  }

  /** A change is one event, a TRUNCATE one per table. */
  function EventsOf(r: Row): (events: seq<Event>)
    requires IsChange(r)
    ensures |events| == |Oids(r)|
  {
    match r.message
    case Insert(oid, _) => [RowChanged(r.lsn, OpInsert, oid)]
    case Update(oid, _, _) => [RowChanged(r.lsn, OpUpdate, oid)]
    case Delete(oid, _, _) => [RowChanged(r.lsn, OpDelete, oid)]
    case Truncate(oids, cascade, restart) =>
      seq(|oids|, i requires 0 <= i < |oids| => Truncated(r.lsn, oids[i], cascade, restart))
  }

  /** The deliveries of one change: its last event settles it. */
  function DeliveriesOf(r: Row): (ds: seq<Delivery>)
    requires IsChange(r)
    ensures |ds| == |Oids(r)|
  {
    var events := EventsOf(r);
    seq(|events|, i requires 0 <= i < |events| =>
      Delivery(events[i], if i + 1 == |events| then Some(r.lsn) else None))
  }

  /** How many events a change has: one per table of a TRUNCATE. */
  function EventCount(m: Message): nat {
    if m.Truncate? then |m.oids| else 1
  }

  /** The kind of an event is that of its message, with the options of a TRUNCATE. */
  predicate SameKind(m: Message, e: Event) {
    && (m.Insert? <==> e.RowChanged? && e.op == OpInsert)
    && (m.Update? <==> e.RowChanged? && e.op == OpUpdate)
    && (m.Delete? <==> e.RowChanged? && e.op == OpDelete)
    && (m.Truncate? <==> e.Truncated?)
    && (m.Truncate? ==> e.cascade == m.cascade && e.restartIdentity == m.restartIdentity)
  }

  /** `d` is the `i`-th report of `r`: its kind, its table, its LSN, and its receipt if it is the last. */
  predicate Reports(r: Row, i: nat, d: Delivery) {
    && IsChange(r) && i < EventCount(r.message)
    && SameKind(r.message, d.event) && d.event.lsn == r.lsn
    && d.event.oid == (if r.message.Truncate? then r.message.oids[i] else r.message.oid)
    && d.receipt == (if i + 1 == EventCount(r.message) then Some(r.lsn) else None)
  }

  /** What is delivered of a change: a report of each of its events, in order. */
  lemma DeliveriesReport(r: Row, i: nat)
    requires IsChange(r)
    ensures |DeliveriesOf(r)| == EventCount(r.message)
    ensures i < |DeliveriesOf(r)| ==> Reports(r, i, DeliveriesOf(r)[i])
  {
  }

  // ---------------------------------------------------------------------
  // Progress
  // ---------------------------------------------------------------------

  datatype Transaction = Transaction(changes: set<nat>, complete: bool, acked: set<nat>)

  datatype Progress = Progress(
    delivered: set<nat>, transactions: map<nat, Transaction>, owner: map<nat, nat>, consumed: nat)

  const EMPTY := Progress({}, map[], map[], 0)

  /** The test `advance` makes: it counts. */
  predicate Settled(tx: Transaction) {
    tx.complete && |tx.acked| >= |tx.changes|
  }

  function MaxOf(s: set<nat>): (m: nat)
    requires s != {}
    ensures m in s && forall x :: x in s ==> x <= m
  {
    MaxExists(s);
    var m :| m in s && forall x :: x in s ==> x <= m;
    m
  }

  lemma MaxExists(s: set<nat>)
    requires s != {}
    ensures exists m :: m in s && forall x :: x in s ==> x <= m
  {
    var x :| x in s;
    if s - {x} == {} {
      assert s == {x};
    } else {
      MaxExists(s - {x});
      var m :| m in s - {x} && forall y :: y in s - {x} ==> y <= m;
      var top := if x <= m then m else x;
      assert top in s && forall y :: y in s ==> y <= top by {
        forall y | y in s ensures y <= top {
          assert y == x || y in s - {x};
        }
      }
    }
  }

  lemma MinExists(s: set<nat>)
    requires s != {}
    ensures exists m :: m in s && forall x :: x in s ==> m <= x
  {
    var x :| x in s;
    if s - {x} == {} {
      assert s == {x};
    } else {
      MinExists(s - {x});
      var m :| m in s - {x} && forall y :: y in s - {x} ==> m <= y;
      var low := if m <= x then m else x;
      assert low in s && forall y :: y in s ==> low <= y by {
        forall y | y in s ensures low <= y {
          assert y == x || y in s - {x};
        }
      }
    }
  }

  /** The leading transactions: those with no unsettled one at or before them. */
  function Leading(p: Progress): set<nat> {
    set e | e in p.transactions && Leads(p, e)
  }

  predicate Leads(p: Progress, e: nat) {
    forall f :: f in p.transactions && f <= e ==> Settled(p.transactions[f])
  }

  function ChangesUnder(p: Progress, ends: set<nat>): set<nat> {
    set e, l | e in ends && e in p.transactions && l in p.transactions[e].changes :: l
  }

  /** `p` once the transactions ending at `ends` are consumed: nothing of them is kept. */
  function Without(p: Progress, ends: set<nat>): Progress {
    var gone := ChangesUnder(p, ends);
    Progress(
      p.delivered - gone,
      p.transactions - ends,
      p.owner - gone,
      if ends == {} then p.consumed else Max(p.consumed, MaxOf(ends)))
  }

  function Max(a: nat, b: nat): nat {
    if a < b then b else a
  }

  function Advanced(p: Progress): Progress {
    Without(p, Leading(p))
  }

  function AdvancedTo(p: Progress): Option<nat> {
    if Leading(p) == {} then None else Some(MaxOf(Leading(p)))
  }

  /** The later of two positions, either of which may be missing. */
  function Later(a: Option<nat>, b: Option<nat>): Option<nat> {
    if a.None? then b else if b.None? then a else Some(Max(a.value, b.value))
  }

  // ---------------------------------------------------------------------
  // One peek, by transactions
  // ---------------------------------------------------------------------

  predicate Fresh(p: Progress, lsn: nat) {
    lsn >= p.consumed && lsn !in p.delivered
  }

  /** The changes handed out among `changes`: the fresh ones until `max` events are out. */
  function HandOut(p: Progress, changes: seq<Row>, out: seq<Delivery>, max: nat): (Progress, seq<Delivery>)
    requires forall c :: c in changes ==> IsChange(c)
  {
    if changes == [] then (p, out)
    else
      var (p, out) := HandOut(p, changes[..|changes| - 1], out, max);
      var c := changes[|changes| - 1];
      if Fresh(p, c.lsn) && |out| < max
      then (p.(delivered := p.delivered + {c.lsn}), out + DeliveriesOf(c)) else (p, out)
  }

  function SetOf(xs: seq<nat>): set<nat> {
    set x | x in xs
  }

  function OwnedBy(lsns: set<nat>, end: nat): map<nat, nat> {
    map l | l in lsns :: end
  }

  /** A transaction whose Commit was read is tracked, unless it is consumed already. */
  function Register(p: Progress, end: nat, lsns: set<nat>): Progress {
    if end <= p.consumed then p
    else
      var acked := if end in p.transactions then p.transactions[end].acked else {};
      p.(owner := p.owner + OwnedBy(lsns, end),
         transactions := p.transactions[end := Transaction(lsns, true, acked)])
  }

  predicate AllChanges(txns: seq<Txn>) {
    forall t :: t in txns ==> forall c :: c in t.changes ==> IsChange(c)
  }

  function PeekAll(p: Progress, txns: seq<Txn>, out: seq<Delivery>, max: nat): (Progress, seq<Delivery>)
    requires AllChanges(txns)
  {
    if txns == [] then (p, out)
    else
      var (p, out) := PeekAll(p, txns[..|txns| - 1], out, max);
      var t := txns[|txns| - 1];
      var (p, out) := HandOut(p, t.changes, out, max);
      (Register(p, t.end, Lsns(t.changes)), out)
  }

  // ---------------------------------------------------------------------
  // One peek, by rows
  // ---------------------------------------------------------------------

  datatype Scan = Scan(progress: Progress, relations: set<nat>, transaction: seq<nat>, out: seq<Delivery>)

  /** What `change_events` rejects: a change of a table not described before. */
  predicate Described(relations: set<nat>, r: Row)
    requires IsChange(r)
  {
    forall oid :: oid in Oids(r) ==> oid in relations
  }

  /** One row of the peek loop. */
  function ScanRow(s: Scan, r: Row, max: nat): Scan {
    match r.message
    case Begin(_, _, _) => s.(transaction := [])
    case Commit(end) =>
      s.(transaction := [], progress := Register(s.progress, end, SetOf(s.transaction)))
    case RelationOf(oid, _) => s.(relations := s.relations + {oid})
    case Other => s
    case _ =>
      var s := s.(transaction := s.transaction + [r.lsn]);
      if Fresh(s.progress, r.lsn) && |s.out| < max
      then s.(progress := s.progress.(delivered := s.progress.delivered + {r.lsn}), out := s.out + DeliveriesOf(r))
      else s
  }

  function ScanRows(s: Scan, rows: seq<Row>, max: nat): Scan {
    if rows == [] then s else ScanRow(ScanRows(s, rows[..|rows| - 1], max), rows[|rows| - 1], max)
  }

  /** Every change of `rows` follows the description of its tables. */
  ghost predicate AllDescribed(rows: seq<Row>) {
    forall i :: 0 <= i < |rows| && IsChange(rows[i]) ==> Described(DescribedBy(rows[..i]), rows[i])
  }

  function DescribedBy(rows: seq<Row>): set<nat> {
    set r | r in rows && r.message.RelationOf? :: r.message.oid
  }

  /** The changes of `rows` a peek would deliver. */
  function NewChanges(p: Progress, rows: seq<Row>): nat {
    if rows == [] then 0
    else
      NewChanges(p, rows[..|rows| - 1])
      + (if IsChange(rows[|rows| - 1]) && Fresh(p, rows[|rows| - 1].lsn) then 1 else 0)
  }

  // ---------------------------------------------------------------------
  // The watch
  // ---------------------------------------------------------------------

  const MAX_PEEK_ROWS: nat := 65_536

  datatype WatchError = Undescribed(oid: nat) | AdvanceFailed

  class PostgresCdc {
    var progress: Progress
    var unadvanced: Option<nat>

    constructor ()
      ensures progress == EMPTY && unadvanced == None
    {
      progress := EMPTY;
      unadvanced := None;
    }

    /** A new session forgets its progress, never the position still to advance to. */
    method Connect()
      modifies this`progress
      ensures progress == EMPTY
    {
      progress := EMPTY;
    }

    /** The inner loop of `Progress::advance`. */
    method Forget(changes: set<nat>)
      modifies this`progress
      ensures progress == old(progress).(owner := old(progress).owner - changes,
                                         delivered := old(progress).delivered - changes)
    {
      var todo := changes;
      while todo != {}
        invariant todo <= changes
        invariant progress == old(progress).(owner := old(progress).owner - (changes - todo),
                                             delivered := old(progress).delivered - (changes - todo))
        decreases todo
      {
        var change :| change in todo;
        progress := progress.(owner := progress.owner - {change}, delivered := progress.delivered - {change});
        todo := todo - {change};
      }
    }

    /** `Progress::advance`: drops the leading transactions, one at a time. */
    method Advance() returns (to: Option<nat>)
      modifies this`progress
      ensures progress == Advanced(old(progress)) && to == AdvancedTo(old(progress))
    {
      to := None;
      ghost var p := progress;
      ghost var gone: set<nat> := {};
      DropNone(p);
      while progress.transactions != map[]
        invariant DroppedSoFar(p, gone, to) && progress == Without(p, gone)
        decreases p.transactions.Keys - gone
      {
        var end := First(progress.transactions);
        var tx := progress.transactions[end];
        if !tx.complete || |tx.acked| < |tx.changes| {
          DropsAll(p, gone, to, Some(end));
          return;
        }
        Forget(tx.changes);
        progress := progress.(transactions := progress.transactions - {end});
        progress := progress.(consumed := Max(progress.consumed, end));
        to := Some(end);
        DropFirst(p, gone, end);
        gone := gone + {end};
      }
      DropsAll(p, gone, to, None);
    }

    /** `new_changes`. */
    method CountNew(messages: seq<Row>) returns (n: nat)
      ensures n == NewChanges(progress, messages)
    {
      n := 0;
      for i := 0 to |messages|
        invariant n == NewChanges(progress, messages[..i])
      {
        assert messages[..i + 1][..i] == messages[..i];
        if IsChange(messages[i]) && messages[i].lsn >= progress.consumed && messages[i].lsn !in progress.delivered {
          n := n + 1;
        }
      }
      assert messages[..|messages|] == messages;
    }

    /**
     The growing read of `peek`. `slot(limit)` is what the database returns for a
     limit. The rows returned hold `max` new changes, or end the output, or answer the
     largest limit.
     */
    method Read(slot: nat -> seq<Row>, max: nat) returns (messages: seq<Row>, limit: nat)
      ensures 1 <= limit <= MAX_PEEK_ROWS && messages == slot(limit)
      ensures |messages| < limit || limit == MAX_PEEK_ROWS || NewChanges(progress, messages) >= max
    {
      var inFlight := |progress.delivered|;
      limit :=
        if inFlight + max < 1 then 1
        else if inFlight + max > MAX_PEEK_ROWS then MAX_PEEK_ROWS
        else inFlight + max;
      while true
        invariant 1 <= limit <= MAX_PEEK_ROWS
        decreases MAX_PEEK_ROWS - limit
      {
        messages := slot(limit);
        var found := CountNew(messages);
        if |messages| < limit || limit == MAX_PEEK_ROWS || found >= max {
          return;
        }
        limit := if limit * 4 < MAX_PEEK_ROWS then limit * 4 else MAX_PEEK_ROWS;
      }
    }

    /** A Commit row: the transaction's changes are owned by it, and it is complete. */
    method Commit(endLsn: nat, transaction: seq<nat>)
      modifies this`progress
      ensures progress == Register(old(progress), endLsn, SetOf(transaction))
    {
      if endLsn <= progress.consumed {
        return;
      }
      for i := 0 to |transaction|
        invariant progress == old(progress).(owner := progress.owner)
        invariant progress.owner == old(progress.owner) + OwnedBy(SetOf(transaction[..i]), endLsn)
      {
        assert SetOf(transaction[..i + 1]) == SetOf(transaction[..i]) + {transaction[i]};
        progress := progress.(owner := progress.owner[transaction[i] := endLsn]);
      }
      assert transaction[..|transaction|] == transaction;
      var tx := if endLsn in progress.transactions then progress.transactions[endLsn] else Transaction({}, false, {});
      tx := tx.(changes := SetOf(transaction), complete := true);
      progress := progress.(transactions := progress.transactions[endLsn := tx]);
    }

    /** The row loop of `peek`. An undescribed change ends it with what was done so far kept. */
    method Apply(messages: seq<Row>, max: nat) returns (r: Result<seq<Delivery>, WatchError>)
      modifies this`progress
      ensures AllDescribed(messages) ==> r.Ok?
      ensures r.Ok? ==> var s := ScanRows(Scan(old(progress), {}, [], []), messages, max);
                        progress == s.progress && r.value == s.out
      ensures r.Err? ==> exists i :: 0 <= i < |messages| && Stops(old(progress), messages, max, i, progress)
    {
      var relations: set<nat> := {};
      var deliveries: seq<Delivery> := [];
      var transaction: seq<nat> := [];
      ghost var start := Scan(progress, {}, [], []);
      for i := 0 to |messages|
        invariant Scan(progress, relations, transaction, deliveries) == ScanRows(start, messages[..i], max)
        invariant relations == DescribedBy(messages[..i])
      {
        var Row(lsn, message) := messages[i];
        assert messages[..i + 1][..i] == messages[..i];
        assert DescribedBy(messages[..i + 1]) ==
               DescribedBy(messages[..i]) + if message.RelationOf? then {message.oid} else {};
        match message {
          case Begin(_, _, _) =>
            transaction := [];
          case Commit(endLsn) =>
            Commit(endLsn, transaction);
            transaction := [];
          case RelationOf(oid, _) =>
            relations := relations + {oid};
          case Other =>
          case _ =>
            transaction := transaction + [lsn];
            if lsn >= progress.consumed && lsn !in progress.delivered && |deliveries| < max {
              var events := ChangeEvents(messages[i], relations);
              if events.Err? {
                assert Stops(old(progress), messages, max, i, progress);
                return Err(events.error);
              }
              progress := progress.(delivered := progress.delivered + {lsn});
              var out := Deliver(messages[i], events.value);
              deliveries := deliveries + out;
            }
        }
      }
      assert messages[..|messages|] == messages;
      r := Ok(deliveries);
    }

    /** `ack`: counted towards its transaction, if that is still tracked. */
    method Ack(receipt: Option<nat>)
      modifies this`progress
      ensures progress == Acked(old(progress), receipt)
    {
      if receipt.Some? && receipt.value in progress.owner {
        var end := progress.owner[receipt.value];
        if end in progress.transactions {
          var tx := progress.transactions[end];
          tx := tx.(acked := tx.acked + {receipt.value});
          progress := progress.(transactions := progress.transactions[end := tx]);
        }
      }
    }

    /** `release`: no longer in flight, so a peek may hand it out once more. */
    method Release(receipt: Option<nat>)
      modifies this`progress
      ensures progress == Released(old(progress), receipt)
    {
      if receipt.Some? {
        progress := progress.(delivered := progress.delivered - {receipt.value});
      }
    }

    /**
     `settle`: `advanced(to)` is whether the database took the advance to `to`. What is
     consumed stays consumed, and a failed advance is kept for the next attempt.
     */
    method Settle(advanced: nat -> bool) returns (r: Result<Option<nat>, WatchError>)
      modifies this
      ensures progress == Advanced(old(progress))
      ensures var to := Later(AdvancedTo(old(progress)), old(unadvanced));
              if to.None? then r == Ok(None) && unadvanced == None
              else if advanced(to.value) then r == Ok(to) && unadvanced == None
              else r == Err(AdvanceFailed) && unadvanced == to
    {
      var own := Advance();
      var to := Later(own, unadvanced);
      if to.None? {
        return Ok(None);
      }
      if advanced(to.value) {
        unadvanced := None;
        r := Ok(to);
      } else {
        unadvanced := to;
        r := Err(AdvanceFailed);
      }
    }
  }

  /** The rows before an undescribed change are applied, and nothing after them. */
  ghost predicate Stops(p: Progress, messages: seq<Row>, max: nat, i: nat, q: Progress)
    requires i < |messages|
  {
    && IsChange(messages[i])
    && !Described(DescribedBy(messages[..i]), messages[i])
    && q == ScanRows(Scan(p, {}, [], []), messages[..i], max).progress
  }

  /** The deliveries of one change: only the last carries its receipt. */
  method Deliver(r: Row, events: seq<Event>) returns (out: seq<Delivery>)
    requires IsChange(r) && events == EventsOf(r)
    ensures out == DeliveriesOf(r)
  {
    out := [];
    for index := 0 to |events|
      invariant out == DeliveriesOf(r)[..index]
    {
      var receipt := if index + 1 == |events| then Some(r.lsn) else None;
      out := out + [Delivery(events[index], receipt)];
    }
    assert DeliveriesOf(r)[..|events|] == DeliveriesOf(r);
  }

  /** `change_events`: the events of a change whose tables are all described. */
  method ChangeEvents(r: Row, relations: set<nat>) returns (events: Result<seq<Event>, WatchError>)
    requires IsChange(r)
    ensures events.Ok? <==> Described(relations, r)
    ensures events.Ok? <==> if r.message.Truncate? then forall oid :: oid in r.message.oids ==> oid in relations
                            else r.message.oid in relations
    ensures events.Ok? ==> events.value == EventsOf(r) && |events.value| == EventCount(r.message)
    ensures events.Ok? ==> forall i :: 0 <= i < |events.value| ==>
              && SameKind(r.message, events.value[i]) && events.value[i].lsn == r.lsn
              && events.value[i].oid == if r.message.Truncate? then r.message.oids[i] else r.message.oid
  {
    var oids := Oids(r);
    for i := 0 to |oids|
      invariant forall j :: 0 <= j < i ==> oids[j] in relations
    {
      if oids[i] !in relations {
        assert oids[i] in oids;
        return Err(Undescribed(oids[i]));
      }
    }
    events := Ok(EventsOf(r));
  }

  function Acked(p: Progress, receipt: Option<nat>): Progress {
    if receipt.Some? && receipt.value in p.owner && p.owner[receipt.value] in p.transactions then
      var end := p.owner[receipt.value];
      var tx := p.transactions[end];
      p.(transactions := p.transactions[end := tx.(acked := tx.acked + {receipt.value})])
    else p
  }

  function Released(p: Progress, receipt: Option<nat>): Progress {
    if receipt.Some? then p.(delivered := p.delivered - {receipt.value}) else p
  }

  /** The least key of a map, as an ordered map gives it. */
  method First(m: map<nat, Transaction>) returns (end: nat)
    requires m != map[]
    ensures end in m && forall e :: e in m ==> end <= e
  {
    assert m.Keys != {};
    MinExists(m.Keys);
    end :| end in m && forall e :: e in m ==> end <= e;
  }

  // ---------------------------------------------------------------------
  // Advance drops exactly the leading transactions
  // ---------------------------------------------------------------------

  /** `gone` are leading transactions, an initial part of them, and `to` is the last. */
  ghost predicate DroppedSoFar(p: Progress, gone: set<nat>, to: Option<nat>) {
    && gone <= Leading(p)
    && (forall e, f :: e in gone && f in p.transactions && f <= e ==> f in gone)
    && to == if gone == {} then None else Some(MaxOf(gone))
  }

  lemma DropNone(p: Progress)
    ensures DroppedSoFar(p, {}, None) && Without(p, {}) == p
  {
    assert ChangesUnder(p, {}) == {};
  }

  lemma DropFirst(p: Progress, gone: set<nat>, end: nat)
    requires exists to :: DroppedSoFar(p, gone, to)
    requires end in p.transactions && end !in gone && Settled(p.transactions[end])
    requires forall e :: e in p.transactions - gone ==> end <= e
    ensures DroppedSoFar(p, gone + {end}, Some(end))
    ensures var q, changes := Without(p, gone), p.transactions[end].changes;
            Without(p, gone + {end}) ==
            Progress(q.delivered - changes, q.transactions - {end}, q.owner - changes, Max(q.consumed, end))
  {
    forall f | f in p.transactions && f <= end
      ensures f in gone + {end} && Settled(p.transactions[f])
    {
      if f != end {
        assert f !in p.transactions - gone;
      }
    }
    forall e | e in gone
      ensures e < end
    {
      assert e in p.transactions;
    }
    assert MaxOf(gone + {end}) == end;
    assert ChangesUnder(p, gone + {end}) == ChangesUnder(p, gone) + p.transactions[end].changes;
    DropOne(p, gone, end);
  }

  lemma DropOne(p: Progress, gone: set<nat>, end: nat)
    requires end in p.transactions && (forall e :: e in gone ==> e < end)
    requires ChangesUnder(p, gone + {end}) == ChangesUnder(p, gone) + p.transactions[end].changes
    ensures var q, changes := Without(p, gone), p.transactions[end].changes;
            Without(p, gone + {end}) ==
            Progress(q.delivered - changes, q.transactions - {end}, q.owner - changes, Max(q.consumed, end))
  {
    assert MaxOf(gone + {end}) == end;
  }

  /** Nothing is left, or what is left starts with an unsettled transaction. */
  lemma DropsAll(p: Progress, gone: set<nat>, to: Option<nat>, first: Option<nat>)
    requires DroppedSoFar(p, gone, to)
    requires match first
             case None => p.transactions - gone == map[]
             case Some(end) =>
               && end in p.transactions - gone && !Settled(p.transactions[end])
               && forall e :: e in p.transactions - gone ==> end <= e
    ensures gone == Leading(p) && to == AdvancedTo(p)
  {
    forall e | e in Leading(p)
      ensures e in gone
    {
      assert e in p.transactions - gone || e in gone;
    }
  }
}
