/**
 The pgoutput decoder: messages of "Logical Replication Message Formats"
 (section 55.9 of the PostgreSQL 16 documentation), protocol version 1.

 `Encode` is the format, written forwards. `GetWire` reads it backwards over an
 immutable byte sequence, and `Reader` is the same reading done by moving an
 index. Text is kept as its bytes.
 */
module PgOutput {
  import opened Wrappers

  type byte = x: int | 0 <= x < 256

  type Bytes = seq<byte>

  datatype Error =
    | EndsEarly
    | Unterminated
    | NegativeLength
    | BadValueKind(kind: byte)
    | BadTuple(kind: byte)

  datatype Datum = Null | Unchanged | Text(text: Bytes)

  datatype Column = Column(name: Bytes, typeOid: nat, key: bool)

  datatype Relation = Relation(schema: Bytes, name: Bytes, columns: seq<Column>)

  /** One decoded message, as the watch sees it. */
  datatype Message =
    | Begin(finalLsn: nat, commitTimeMicros: int, xid: nat)
    | Commit(endLsn: nat)
    | RelationOf(oid: nat, relation: Relation)
    | Insert(oid: nat, new_: seq<Datum>)
    | Update(oid: nat, oldRow: Option<(seq<Datum>, bool)>, new_: seq<Datum>)
    | Delete(oid: nat, old_: seq<Datum>, full: bool)
    | Truncate(oids: seq<nat>, cascade: bool, restartIdentity: bool)
    | Other

  // ---------------------------------------------------------------------
  // The wire format
  // ---------------------------------------------------------------------

  datatype WireColumn = WireColumn(flags: byte, name: Bytes, typeOid: nat, modifier: int)

  /** A message with every field the decoder reads, kept or not. */
  datatype Wire =
    | WBegin(finalLsn: nat, time: int, xid: nat)
    | WCommit(flags: byte, commitLsn: nat, endLsn: nat)
    | WRelation(oid: nat, schema: Bytes, name: Bytes, identity: byte, columns: seq<WireColumn>)
    | WInsert(oid: nat, row: seq<Datum>)
    | WUpdate(oid: nat, prior: Option<(seq<Datum>, bool)>, row: seq<Datum>)
    | WDelete(oid: nat, row: seq<Datum>, full: bool)
    | WTruncate(oids: seq<nat>, options: byte)

  function Pow256(n: nat): (p: nat)
    ensures p > 0
  {
    if n == 0 then 1 else 256 * Pow256(n - 1)
  }

  predicate FitsUnsigned(v: int, width: nat) {
    0 <= v < Pow256(width)
  }

  predicate FitsSigned(v: int, width: nat) {
    -2 * v <= Pow256(width) && 2 * v < Pow256(width)
  }

  /** `v` in `width` bytes, most significant first. */
  function BigEndian(v: nat, width: nat): (bs: Bytes)
    ensures |bs| == width
  {
    if width == 0 then [] else BigEndian(v / 256, width - 1) + [v % 256]
  }

  function FromBigEndian(bs: Bytes): (v: nat)
  {
    if bs == [] then 0 else 256 * FromBigEndian(bs[..|bs| - 1]) + bs[|bs| - 1]
  }

  /** Two's complement. */
  function ToUnsigned(v: int, width: nat): nat
    requires FitsSigned(v, width)
  {
    if v < 0 then v + Pow256(width) else v
  }

  function ToSigned(v: nat, width: nat): int {
    if 2 * v < Pow256(width) then v else v - Pow256(width)
  }

  function SignedBytes(v: int, width: nat): Bytes {
    if FitsSigned(v, width) then BigEndian(ToUnsigned(v, width), width) else []
  }

  function CString(text: Bytes): Bytes {
    text + [0]
  }

  predicate ValidText(text: Bytes) {
    0 !in text
  }

  predicate ValidDatum(d: Datum) {
    d.Text? ==> FitsSigned(|d.text|, 4)
  }

  predicate ValidTuple(row: seq<Datum>) {
    FitsUnsigned(|row|, 2) && forall d :: d in row ==> ValidDatum(d)
  }

  predicate ValidColumn(c: WireColumn) {
    ValidText(c.name) && FitsUnsigned(c.typeOid, 4) && FitsSigned(c.modifier, 4)
  }

  predicate ValidOid(oid: nat) {
    FitsUnsigned(oid, 4)
  }

  predicate Valid(w: Wire) {
    match w
    case WBegin(finalLsn, time, xid) =>
      FitsUnsigned(finalLsn, 8) && FitsSigned(time, 8) && FitsUnsigned(xid, 4)
    case WCommit(_, commitLsn, endLsn) =>
      FitsUnsigned(commitLsn, 8) && FitsUnsigned(endLsn, 8)
    case WRelation(oid, schema, name, _, columns) =>
      && ValidOid(oid) && ValidText(schema) && ValidText(name) && FitsUnsigned(|columns|, 2)
      && forall c :: c in columns ==> ValidColumn(c)
    case WInsert(oid, row) => ValidOid(oid) && ValidTuple(row)
    case WUpdate(oid, prior, row) =>
      ValidOid(oid) && (prior.Some? ==> ValidTuple(prior.value.0)) && ValidTuple(row)
    case WDelete(oid, row, _) => ValidOid(oid) && ValidTuple(row)
    case WTruncate(oids, _) =>
      FitsUnsigned(|oids|, 4) && forall oid :: oid in oids ==> ValidOid(oid)
  }

  function Tag(c: char): byte {
    if c as int < 256 then c as int else 0
  }

  function EncodeDatum(d: Datum): Bytes {
    match d
    case Null => [Tag('n')]
    case Unchanged => [Tag('u')]
    case Text(text) => [Tag('t')] + SignedBytes(|text|, 4) + text
  }

  function EncodeColumn(c: WireColumn): Bytes {
    [c.flags] + CString(c.name) + BigEndian(c.typeOid, 4) + SignedBytes(c.modifier, 4)
  }

  function EncodeOid(oid: nat): Bytes {
    BigEndian(oid, 4)
  }

  function EncodeAll<T>(encode: T -> Bytes, xs: seq<T>): Bytes {
    if xs == [] then [] else encode(xs[0]) + EncodeAll(encode, xs[1..])
  }

  function EncodeTuple(row: seq<Datum>): Bytes {
    BigEndian(|row|, 2) + EncodeAll(EncodeDatum, row)
  }

  function RowKind(full: bool): byte {
    if full then Tag('O') else Tag('K')
  }

  function EncodePrior(prior: Option<(seq<Datum>, bool)>): Bytes {
    if prior.Some? then [RowKind(prior.value.1)] + EncodeTuple(prior.value.0) else []
  }

  function TagOf(w: Wire): byte {
    match w
    case WBegin(_, _, _) => Tag('B')
    case WCommit(_, _, _) => Tag('C')
    case WRelation(_, _, _, _, _) => Tag('R')
    case WInsert(_, _) => Tag('I')
    case WUpdate(_, _, _) => Tag('U')
    case WDelete(_, _, _) => Tag('D')
    case WTruncate(_, _) => Tag('T')
  }

  function EncodeBody(w: Wire): Bytes {
    match w
    case WBegin(finalLsn, time, xid) => BigEndian(finalLsn, 8) + SignedBytes(time, 8) + BigEndian(xid, 4)
    case WCommit(flags, commitLsn, endLsn) => [flags] + BigEndian(commitLsn, 8) + BigEndian(endLsn, 8)
    case WRelation(oid, schema, name, identity, columns) =>
      EncodeOid(oid) + CString(schema) + CString(name) + [identity]
      + BigEndian(|columns|, 2) + EncodeAll(EncodeColumn, columns)
    case WInsert(oid, row) => EncodeOid(oid) + [Tag('N')] + EncodeTuple(row)
    case WUpdate(oid, prior, row) =>
      EncodeOid(oid) + EncodePrior(prior) + [Tag('N')] + EncodeTuple(row)
    case WDelete(oid, row, full) => EncodeOid(oid) + [RowKind(full)] + EncodeTuple(row)
    case WTruncate(oids, options) => BigEndian(|oids|, 4) + [options] + EncodeAll(EncodeOid, oids)
  }

  /** The message as it is sent, up to the last field the decoder reads. */
  function Encode(w: Wire): Bytes {
    [TagOf(w)] + EncodeBody(w)
  }

  /** What the watch keeps of a message. */
  function Meaning(w: Wire): Message {
    match w
    case WBegin(finalLsn, time, xid) => Begin(finalLsn, time, xid)
    case WCommit(_, _, endLsn) => Commit(endLsn)
    case WRelation(oid, schema, name, _, columns) =>
      RelationOf(oid, Relation(if schema == [] then PG_CATALOG else schema, name, KeptColumns(columns)))
    case WInsert(oid, row) => Insert(oid, row)
    case WUpdate(oid, prior, row) => Update(oid, prior, row)
    case WDelete(oid, row, full) => Delete(oid, row, full)
    case WTruncate(oids, options) => Truncate(oids, options % 2 == 1, options / 2 % 2 == 1)
  }

  const PG_CATALOG: Bytes :=
    [Tag('p'), Tag('g'), Tag('_'), Tag('c'), Tag('a'), Tag('t'), Tag('a'), Tag('l'), Tag('o'), Tag('g')]

  function Kept(c: WireColumn): Column {
    Column(c.name, c.typeOid, c.flags % 2 == 1)
  }

  function KeptColumns(columns: seq<WireColumn>): (kept: seq<Column>) {
    seq(|columns|, i requires 0 <= i < |columns| => Kept(columns[i]))
  }

  // ---------------------------------------------------------------------
  // Reading the format back
  // ---------------------------------------------------------------------

  datatype Parsed<+T> = Fail(error: Error) | Got(value: T, rest: Bytes) {
    predicate IsFailure() { Fail? }

    function PropagateFailure<U>(): Parsed<U>
      requires Fail?
    {
      Fail(error)
    }

    function Extract(): (T, Bytes)
      requires Got?
    {
      (value, rest)
    }
  }

  function Take(s: Bytes, n: nat): Parsed<Bytes> {
    if n <= |s| then Got(s[..n], s[n..]) else Fail(EndsEarly)
  }

  function GetByte(s: Bytes): Parsed<byte> {
    var (bs, s) :- Take(s, 1);
    Got(bs[0], s)
  }

  function GetUnsigned(s: Bytes, width: nat): Parsed<nat> {
    var (bs, s) :- Take(s, width);
    Got(FromBigEndian(bs), s)
  }

  function GetSigned(s: Bytes, width: nat): Parsed<int> {
    var (v, s) :- GetUnsigned(s, width);
    Got(ToSigned(v, width), s)
  }

  function GetOid(s: Bytes): Parsed<nat> {
    GetUnsigned(s, 4)
  }

  /** Up to the first zero byte, which is passed over. */
  function GetString(s: Bytes): Parsed<Bytes> {
    if s == [] then Fail(Unterminated)
    else if s[0] == 0 then Got([], s[1..])
    else
      var (text, rest) :- GetString(s[1..]);
      Got([s[0]] + text, rest)
  }

  function GetDatum(s: Bytes): Parsed<Datum> {
    var (kind, s) :- GetByte(s);
    if kind == Tag('n') then Got(Null, s)
    else if kind == Tag('u') then Got(Unchanged, s)
    else if kind == Tag('t') then
      var (len, s) :- GetSigned(s, 4);
      if len < 0 then Fail(NegativeLength)
      else
        var (text, s) :- Take(s, len);
        Got(Text(text), s)
    else Fail(BadValueKind(kind))
  }

  function GetColumn(s: Bytes): Parsed<WireColumn> {
    var (flags, s) :- GetByte(s);
    var (name, s) :- GetString(s);
    var (typeOid, s) :- GetUnsigned(s, 4);
    var (modifier, s) :- GetSigned(s, 4);
    Got(WireColumn(flags, name, typeOid, modifier), s)
  }

  /** `n` more items after those of `acc`. */
  function GetAll<T>(get: Bytes -> Parsed<T>, n: nat, acc: seq<T>, s: Bytes): Parsed<seq<T>>
    decreases n
  {
    if n == 0 then Got(acc, s)
    else
      var (x, s) :- get(s);
      GetAll(get, n - 1, acc + [x], s)
  }

  function GetTuple(s: Bytes): Parsed<seq<Datum>> {
    var (n, s) :- GetUnsigned(s, 2);
    GetAll(GetDatum, n, [], s)
  }

  predicate IsRowKind(kind: byte) {
    kind == Tag('K') || kind == Tag('O')
  }

  /** The row an Update had, if it is sent, and the marker after it. */
  function GetPrior(s: Bytes): Parsed<(Option<(seq<Datum>, bool)>, byte)> {
    var (kind, s) :- GetByte(s);
    if IsRowKind(kind) then
      var (prior, s) :- GetTuple(s);
      var (next, s) :- GetByte(s);
      Got((Some((prior, kind == Tag('O'))), next), s)
    else Got((None, kind), s)
  }

  function GetUpdate(s: Bytes): Parsed<Wire> {
    var (oid, s) :- GetOid(s);
    var (prior, s) :- GetPrior(s);
    if prior.1 != Tag('N') then Fail(BadTuple(prior.1))
    else
      var (row, s) :- GetTuple(s);
      Got(WUpdate(oid, prior.0, row), s)
  }

  function GetRelation(s: Bytes): Parsed<Wire> {
    var (oid, s) :- GetOid(s);
    var (schema, s) :- GetString(s);
    var (name, s) :- GetString(s);
    GetRelationColumns(oid, schema, name, s)
  }

  function GetRelationColumns(oid: nat, schema: Bytes, name: Bytes, s: Bytes): Parsed<Wire> {
    var (identity, s) :- GetByte(s);
    var (count, s) :- GetUnsigned(s, 2);
    var (columns, s) :- GetAll(GetColumn, count, [], s);
    Got(WRelation(oid, schema, name, identity, columns), s)
  }

  function GetBegin(s: Bytes): Parsed<Wire> {
    var (finalLsn, s) :- GetUnsigned(s, 8);
    var (time, s) :- GetSigned(s, 8);
    var (xid, s) :- GetUnsigned(s, 4);
    Got(WBegin(finalLsn, time, xid), s)
  }

  function GetCommit(s: Bytes): Parsed<Wire> {
    var (flags, s) :- GetByte(s);
    var (commitLsn, s) :- GetUnsigned(s, 8);
    var (endLsn, s) :- GetUnsigned(s, 8);
    Got(WCommit(flags, commitLsn, endLsn), s)
  }

  function GetInsert(s: Bytes): Parsed<Wire> {
    var (oid, s) :- GetOid(s);
    var (kind, s) :- GetByte(s);
    if kind != Tag('N') then Fail(BadTuple(kind))
    else
      var (row, s) :- GetTuple(s);
      Got(WInsert(oid, row), s)
  }

  function GetDelete(s: Bytes): Parsed<Wire> {
    var (oid, s) :- GetOid(s);
    var (kind, s) :- GetByte(s);
    if !IsRowKind(kind) then Fail(BadTuple(kind))
    else
      var (row, s) :- GetTuple(s);
      Got(WDelete(oid, row, kind == Tag('O')), s)
  }

  function GetTruncate(s: Bytes): Parsed<Wire> {
    var (count, s) :- GetUnsigned(s, 4);
    var (options, s) :- GetByte(s);
    var (oids, s) :- GetAll(GetOid, count, [], s);
    Got(WTruncate(oids, options), s)
  }

  predicate KnownTag(tag: byte) {
    tag in {Tag('B'), Tag('C'), Tag('R'), Tag('I'), Tag('U'), Tag('D'), Tag('T')}
  }

  function GetBody(tag: byte, s: Bytes): Parsed<Wire>
    requires KnownTag(tag)
  {
    if tag == Tag('B') then GetBegin(s)
    else if tag == Tag('C') then GetCommit(s)
    else if tag == Tag('R') then GetRelation(s)
    else if tag == Tag('I') then GetInsert(s)
    else if tag == Tag('U') then GetUpdate(s)
    else if tag == Tag('D') then GetDelete(s)
    else GetTruncate(s)
  }

  /** The decoder's answer on any bytes. */
  function Decoded(bytes: Bytes): Result<Message, Error> {
    if bytes == [] then Err(EndsEarly)
    else if !KnownTag(bytes[0]) then Ok(Other)
    else
      match GetBody(bytes[0], bytes[1..])
      case Fail(e) => Err(e)
      case Got(w, _) => Ok(Meaning(w))
  }
}
