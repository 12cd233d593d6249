/**
 What the decoder makes of bytes, said from the kept message: each message is written out
 field by field, with the fields the decoder reads and does not keep, and the decoder gives a
 message exactly for the bytes that start with a writing of it.
 */
module PgOutputBytes {
  import opened Wrappers
  import opened PgOutput
  import opened PgOutputFormat

  const TWO_16: int := 0x1_0000
  const TWO_32: int := 0x1_0000_0000
  const TWO_64: int := 0x1_0000_0000_0000_0000

  // ---------------------------------------------------------------------
  // Writing a message
  // ---------------------------------------------------------------------

  /** The low 16, 32 and 64 bits of a number, most significant byte first. */
  function U16(v: nat): Bytes {
    [v / 0x100 % 0x100, v % 0x100]
  }

  function U32(v: nat): Bytes {
    [v / 0x100_0000 % 0x100, v / 0x1_0000 % 0x100, v / 0x100 % 0x100, v % 0x100]
  }

  function U64(v: nat): Bytes {
    U32(v / TWO_32) + U32(v)
  }

  /** Two's complement. */
  function I32(v: int): Bytes {
    U32(if v >= 0 then v else if v >= -TWO_32 then v + TWO_32 else 0)
  }

  function I64(v: int): Bytes {
    U64(if v >= 0 then v else if v >= -TWO_64 then v + TWO_64 else 0)
  }

  function Code(c: char): byte {
    if c as int < 256 then c as int else 0
  }

  function Letter(c: char): Bytes {
    [Code(c)]
  }

  function Letters(text: string): Bytes {
    seq(|text|, i requires 0 <= i < |text| => Code(text[i]))
  }

  function Each<T>(write: T -> Bytes, xs: seq<T>): Bytes {
    if xs == [] then [] else write(xs[0]) + Each(write, xs[1..])
  }

  function WriteDatum(d: Datum): Bytes {
    match d
    case Null => Letter('n')
    case Unchanged => Letter('u')
    case Text(text) => Letter('t') + I32(|text|) + text
  }

  function WriteRow(row: seq<Datum>): Bytes {
    U16(|row|) + Each(WriteDatum, row)
  }

  /** A whole row, or its key alone. */
  function RowLetter(full: bool): Bytes {
    if full then Letter('O') else Letter('K')
  }

  /** A column, the seven flag bits beside its key flag, and its type modifier. */
  type SentColumn = (Column, nat, int)

  /** The key flag is the low bit. */
  function FlagByte(spare: nat, key: bool): byte {
    if spare < 128 then 2 * spare + (if key then 1 else 0) else 0
  }

  function WriteColumn(c: SentColumn): Bytes {
    [FlagByte(c.1, c.0.key)] + (c.0.name + [0]) + U32(c.0.typeOid) + I32(c.2)
  }

  /** What is sent and not kept. A `bare` schema is sent empty, and stands for `pg_catalog`. */
  datatype Unkept =
    | Nothing
    | OfCommit(commitFlags: byte, commitLsn: nat)
    | OfRelation(bare: bool, identity: byte, flags: seq<nat>, modifiers: seq<int>)
    | OfTruncate(spare: nat)

  function Sent(columns: seq<Column>, flags: seq<nat>, modifiers: seq<int>): seq<SentColumn>
    requires |flags| == |modifiers| == |columns|
  {
    seq(|columns|, i requires 0 <= i < |columns| => (columns[i], flags[i], modifiers[i]))
  }

  predicate FitsRow(row: seq<Datum>) {
    |row| < TWO_16 && forall d :: d in row && d.Text? ==> |d.text| < TWO_32 / 2
  }

  predicate FitsColumn(c: SentColumn) {
    0 !in c.0.name && c.0.typeOid < TWO_32 && c.1 < 128 && -TWO_32 <= 2 * c.2 < TWO_32
  }

  /** `m` can be sent, with `x` beside it. */
  predicate Fits(m: Message, x: Unkept) {
    match m
    case Begin(finalLsn, time, xid) =>
      x == Nothing && finalLsn < TWO_64 && -TWO_64 <= 2 * time < TWO_64 && xid < TWO_32
    case Commit(endLsn) => x.OfCommit? && x.commitLsn < TWO_64 && endLsn < TWO_64
    case RelationOf(oid, relation) =>
      && x.OfRelation? && oid < TWO_32
      && (if x.bare then relation.schema == Letters("pg_catalog") else relation.schema != [])
      && 0 !in relation.schema && 0 !in relation.name
      && |x.flags| == |x.modifiers| == |relation.columns| < TWO_16
      && forall c :: c in Sent(relation.columns, x.flags, x.modifiers) ==> FitsColumn(c)
    case Insert(oid, row) => x == Nothing && oid < TWO_32 && FitsRow(row)
    case Update(oid, prior, row) =>
      x == Nothing && oid < TWO_32 && (prior.Some? ==> FitsRow(prior.value.0)) && FitsRow(row)
    case Delete(oid, row, _) => x == Nothing && oid < TWO_32 && FitsRow(row)
    case Truncate(oids, _, _) =>
      x.OfTruncate? && x.spare < 64 && |oids| < TWO_32 && forall oid :: oid in oids ==> oid < TWO_32
    case Other => false
  }

  /** The two low bits of a TRUNCATE's options. */
  function Options(spare: nat, cascade: bool, restart: bool): Bytes {
    [if spare < 64 then 4 * spare + (if restart then 2 else 0) + (if cascade then 1 else 0) else 0]
  }

  function WriteRelation(oid: nat, r: Relation, x: Unkept): Bytes
    requires x.OfRelation? && |x.flags| == |x.modifiers| == |r.columns|
  {
    U32(oid) + ((if x.bare then [] else r.schema) + [0]) + (r.name + [0]) + [x.identity]
    + U16(|r.columns|) + Each(WriteColumn, Sent(r.columns, x.flags, x.modifiers))
  }

  /** The bytes of `m`, with `x`. */
  function Write(m: Message, x: Unkept): Bytes
    requires Fits(m, x)
  {
    match m
    case Begin(finalLsn, time, xid) => Letter('B') + (U64(finalLsn) + I64(time) + U32(xid))
    case Commit(endLsn) => Letter('C') + ([x.commitFlags] + U64(x.commitLsn) + U64(endLsn))
    case RelationOf(oid, relation) => Letter('R') + WriteRelation(oid, relation, x)
    case Insert(oid, row) => Letter('I') + (U32(oid) + Letter('N') + WriteRow(row))
    case Update(oid, prior, row) =>
      var before := if prior.Some? then RowLetter(prior.value.1) + WriteRow(prior.value.0) else [];
      Letter('U') + (U32(oid) + before + Letter('N') + WriteRow(row))
    case Delete(oid, row, full) => Letter('D') + (U32(oid) + RowLetter(full) + WriteRow(row))
    case Truncate(oids, cascade, restart) =>
      Letter('T') + (U32(|oids|) + Options(x.spare, cascade, restart) + Each(U32, oids))
  }

  // ---------------------------------------------------------------------
  // It is the format
  // ---------------------------------------------------------------------

  lemma Powers()
    ensures Pow256(2) == TWO_16 && Pow256(4) == TWO_32 && Pow256(8) == TWO_64
  {
    assert Pow256(1) == 256 * Pow256(0);
    assert Pow256(3) == 256 * Pow256(2) && Pow256(4) == 256 * Pow256(3);
    assert Pow256(5) == 256 * Pow256(4) && Pow256(6) == 256 * Pow256(5);
    assert Pow256(7) == 256 * Pow256(6) && Pow256(8) == 256 * Pow256(7);
  }

  lemma Bytes2(v: nat)
    ensures BigEndian(v, 2) == U16(v)
  {
    assert BigEndian(v / 256, 1) == BigEndian(v / 256 / 256, 0) + [v / 256 % 256];
  }

  lemma Bytes4(v: nat)
    ensures BigEndian(v, 4) == U32(v)
  {
    Bytes2(v / 0x1_0000);
    assert v / 256 / 256 == v / 0x1_0000 && v / 0x1_0000 / 256 == v / 0x100_0000;
    assert BigEndian(v / 256, 3) == BigEndian(v / 0x1_0000, 2) + [v / 256 % 256];
  }

  lemma Bytes8(v: nat)
    ensures BigEndian(v, 8) == U64(v)
  {
    Bytes4(v / TWO_32);
    assert v / 256 / 256 == v / 0x1_0000 && v / 0x1_0000 / 256 == v / 0x100_0000 && v / 0x100_0000 / 256 == v / TWO_32;
    assert BigEndian(v / 0x100_0000, 5) == BigEndian(v / TWO_32, 4) + [v / 0x100_0000 % 256];
    assert BigEndian(v / 0x1_0000, 6) == BigEndian(v / 0x100_0000, 5) + [v / 0x1_0000 % 256];
    assert BigEndian(v / 256, 7) == BigEndian(v / 0x1_0000, 6) + [v / 256 % 256];
  }

  lemma Signed4(v: int)
    requires -TWO_32 <= 2 * v < TWO_32
    ensures FitsSigned(v, 4) && SignedBytes(v, 4) == I32(v)
  {
    Powers();
    Bytes4(ToUnsigned(v, 4));
  }

  lemma Signed8(v: int)
    requires -TWO_64 <= 2 * v < TWO_64
    ensures FitsSigned(v, 8) && SignedBytes(v, 8) == I64(v)
  {
    Powers();
    Bytes8(ToUnsigned(v, 8));
  }

  lemma {:induction false} SameEach<T, U>(write: T -> Bytes, xs: seq<T>, encode: U -> Bytes, ys: seq<U>)
    requires |xs| == |ys| && forall i :: 0 <= i < |xs| ==> write(xs[i]) == encode(ys[i])
    ensures Each(write, xs) == EncodeAll(encode, ys)
    decreases |xs|
  {
    if xs != [] {
      SameEach(write, xs[1..], encode, ys[1..]);
    }
  }

  lemma DatumIsFormat(d: Datum)
    requires d.Text? ==> |d.text| < TWO_32 / 2
    ensures ValidDatum(d) && WriteDatum(d) == EncodeDatum(d)
  {
    if d.Text? {
      Signed4(|d.text|);
    }
  }

  lemma RowIsFormat(row: seq<Datum>)
    requires FitsRow(row)
    ensures ValidTuple(row) && WriteRow(row) == EncodeTuple(row)
  {
    Powers();
    Bytes2(|row|);
    forall d | d in row
      ensures ValidDatum(d) && WriteDatum(d) == EncodeDatum(d)
    {
      DatumIsFormat(d);
    }
    SameEach(WriteDatum, row, EncodeDatum, row);
  }

  lemma RowFits(row: seq<Datum>)
    requires ValidTuple(row)
    ensures FitsRow(row)
  {
    Powers();
    forall d | d in row && d.Text?
      ensures |d.text| < TWO_32 / 2
    {
      assert ValidDatum(d);
    }
  }

  function WireColumnOf(c: SentColumn): WireColumn {
    WireColumn(FlagByte(c.1, c.0.key), c.0.name, c.0.typeOid, c.2)
  }

  lemma ColumnIsFormat(c: SentColumn)
    requires FitsColumn(c)
    ensures ValidColumn(WireColumnOf(c)) && Kept(WireColumnOf(c)) == c.0
    ensures WriteColumn(c) == EncodeColumn(WireColumnOf(c))
  {
    Powers();
    Bytes4(c.0.typeOid);
    Signed4(c.2);
  }

  function WireColumnsOf(cs: seq<SentColumn>): seq<WireColumn> {
    seq(|cs|, i requires 0 <= i < |cs| => WireColumnOf(cs[i]))
  }

  lemma ColumnsAreFormat(columns: seq<Column>, flags: seq<nat>, modifiers: seq<int>)
    requires |flags| == |modifiers| == |columns|
    requires forall c :: c in Sent(columns, flags, modifiers) ==> FitsColumn(c)
    ensures var wires := WireColumnsOf(Sent(columns, flags, modifiers));
            && (forall c :: c in wires ==> ValidColumn(c)) && KeptColumns(wires) == columns
            && Each(WriteColumn, Sent(columns, flags, modifiers)) == EncodeAll(EncodeColumn, wires)
  {
    var cs := Sent(columns, flags, modifiers);
    var wires := WireColumnsOf(cs);
    forall i | 0 <= i < |cs|
      ensures ValidColumn(wires[i]) && Kept(wires[i]) == columns[i] && WriteColumn(cs[i]) == EncodeColumn(wires[i])
    {
      assert cs[i] in cs;
      ColumnIsFormat(cs[i]);
    }
    SameEach(WriteColumn, cs, EncodeColumn, wires);
  }

  /** The message of the format that `m` and `x` make. */
  function WireOf(m: Message, x: Unkept): Wire
    requires Fits(m, x)
  {
    match m
    case Begin(finalLsn, time, xid) => WBegin(finalLsn, time, xid)
    case Commit(endLsn) => WCommit(x.commitFlags, x.commitLsn, endLsn)
    case RelationOf(oid, relation) =>
      WRelation(oid, if x.bare then [] else relation.schema, relation.name, x.identity,
                WireColumnsOf(Sent(relation.columns, x.flags, x.modifiers)))
    case Insert(oid, row) => WInsert(oid, row)
    case Update(oid, prior, row) => WUpdate(oid, prior, row)
    case Delete(oid, row, full) => WDelete(oid, row, full)
    case Truncate(oids, cascade, restart) => WTruncate(oids, Options(x.spare, cascade, restart)[0])
  }

  /** The one is written as the other, and kept as `m`. */
  ghost predicate SameBytes(m: Message, x: Unkept) {
    Fits(m, x) && var w := WireOf(m, x); Valid(w) && Meaning(w) == m && Encode(w) == Write(m, x)
  }

  lemma BeginIsFormat(m: Message, x: Unkept)
    requires Fits(m, x) && m.Begin?
    ensures SameBytes(m, x)
  {
    Powers();
    Bytes8(m.finalLsn);
    Signed8(m.commitTimeMicros);
    Bytes4(m.xid);
  }

  lemma CommitIsFormat(m: Message, x: Unkept)
    requires Fits(m, x) && m.Commit?
    ensures SameBytes(m, x)
  {
    Powers();
    Bytes8(x.commitLsn);
    Bytes8(m.endLsn);
  }

  lemma CatalogLetters()
    ensures Letters("pg_catalog") == PG_CATALOG
  {
  }

  lemma RelationBytes(oid: nat, r: Relation, x: Unkept, w: Wire)
    requires x.OfRelation? && w.WRelation? && |x.flags| == |x.modifiers| == |r.columns| == |w.columns|
    requires w == WRelation(oid, if x.bare then [] else r.schema, r.name, x.identity, w.columns)
    requires Each(WriteColumn, Sent(r.columns, x.flags, x.modifiers)) == EncodeAll(EncodeColumn, w.columns)
    ensures WriteRelation(oid, r, x) == EncodeBody(w)
  {
    Bytes4(oid);
    Bytes2(|r.columns|);
  }

  lemma RelationIsFormat(m: Message, x: Unkept)
    requires Fits(m, x) && m.RelationOf?
    ensures SameBytes(m, x)
  {
    var w := WireOf(m, x);
    ColumnsAreFormat(m.relation.columns, x.flags, x.modifiers);
    assert Valid(w) by { Powers(); }
    assert Meaning(w) == m by { CatalogLetters(); }
    RelationBytes(m.oid, m.relation, x, w);
  }

  lemma RowsAreFormat(m: Message, x: Unkept)
    requires Fits(m, x) && (m.Insert? || m.Delete?)
    ensures SameBytes(m, x)
  {
    Powers();
    Bytes4(m.oid);
    RowIsFormat(if m.Insert? then m.new_ else m.old_);
  }

  lemma UpdateIsFormat(m: Message, x: Unkept)
    requires Fits(m, x) && m.Update?
    ensures SameBytes(m, x)
  {
    Powers();
    Bytes4(m.oid);
    RowIsFormat(m.new_);
    if m.oldRow.Some? {
      RowIsFormat(m.oldRow.value.0);
    }
  }

  lemma TruncateIsFormat(m: Message, x: Unkept)
    requires Fits(m, x) && m.Truncate?
    ensures SameBytes(m, x)
  {
    Powers();
    Bytes4(|m.oids|);
    forall i | 0 <= i < |m.oids|
      ensures U32(m.oids[i]) == EncodeOid(m.oids[i])
    {
      Bytes4(m.oids[i]);
    }
    SameEach(U32, m.oids, EncodeOid, m.oids);
  }

  lemma WriteIsFormat(m: Message, x: Unkept)
    requires Fits(m, x)
    ensures SameBytes(m, x)
  {
    match m
    case Begin(_, _, _) => BeginIsFormat(m, x);
    case Commit(_) => CommitIsFormat(m, x);
    case RelationOf(_, _) => RelationIsFormat(m, x);
    case Insert(_, _) => RowsAreFormat(m, x);
    case Update(_, _, _) => UpdateIsFormat(m, x);
    case Delete(_, _, _) => RowsAreFormat(m, x);
    case Truncate(_, _, _) => TruncateIsFormat(m, x);
  }

  // ---------------------------------------------------------------------
  // And the format is no more
  // ---------------------------------------------------------------------

  function FlagsOf(columns: seq<WireColumn>): seq<nat> {
    seq(|columns|, i requires 0 <= i < |columns| => columns[i].flags / 2)
  }

  function ModifiersOf(columns: seq<WireColumn>): seq<int> {
    seq(|columns|, i requires 0 <= i < |columns| => columns[i].modifier)
  }

  function UnkeptOf(w: Wire): Unkept {
    match w
    case WCommit(flags, commitLsn, _) => OfCommit(flags, commitLsn)
    case WRelation(_, schema, _, identity, columns) =>
      OfRelation(schema == [], identity, FlagsOf(columns), ModifiersOf(columns))
    case WTruncate(_, options) => OfTruncate(options / 4)
    case _ => Nothing
  }

  /** `w` is written from what is kept of it and what is not. */
  ghost predicate WrittenFrom(w: Wire) {
    Fits(Meaning(w), UnkeptOf(w)) && WireOf(Meaning(w), UnkeptOf(w)) == w
  }

  lemma ColumnsSent(columns: seq<WireColumn>)
    requires forall c :: c in columns ==> ValidColumn(c)
    ensures var cs := Sent(KeptColumns(columns), FlagsOf(columns), ModifiersOf(columns));
            (forall c :: c in cs ==> FitsColumn(c)) && WireColumnsOf(cs) == columns
  {
    Powers();
    var cs := Sent(KeptColumns(columns), FlagsOf(columns), ModifiersOf(columns));
    forall i | 0 <= i < |cs|
      ensures FitsColumn(cs[i]) && WireColumnOf(cs[i]) == columns[i]
    {
      assert columns[i] in columns;
    }
  }

  lemma RelationWritten(w: Wire)
    requires Valid(w) && w.WRelation?
    ensures WrittenFrom(w)
  {
    Powers();
    CatalogLetters();
    ColumnsSent(w.columns);
  }

  lemma FormatIsWritten(w: Wire)
    requires Valid(w)
    ensures WrittenFrom(w)
  {
    Powers();
    match w
    case WRelation(_, _, _, _, _) => RelationWritten(w);
    case WInsert(_, row) => RowFits(row);
    case WDelete(_, row, _) => RowFits(row);
    case WUpdate(_, prior, row) =>
      RowFits(row);
      if prior.Some? {
        RowFits(prior.value.0);
      }
    case _ =>
  }

  // ---------------------------------------------------------------------
  // The decoder
  // ---------------------------------------------------------------------

  /** A message written is read back as it was, whatever follows. */
  lemma ReadsWhatIsWritten(m: Message, x: Unkept, tail: Bytes)
    requires Fits(m, x)
    ensures Decoded(Write(m, x) + tail) == Ok(m)
  {
    WriteIsFormat(m, x);
    DecodeInvertsEncode(WireOf(m, x), tail);
  }

  /** The bytes start with a writing of `m`. */
  ghost predicate StartsWith(bytes: Bytes, m: Message) {
    exists x :: Fits(m, x) && Write(m, x) <= bytes
  }

  lemma DecodedIsWritten(bytes: Bytes, m: Message)
    requires bytes != [] && KnownTag(bytes[0]) && Decoded(bytes) == Ok(m)
    ensures StartsWith(bytes, m)
  {
    DecodesExactlyTheFormat(bytes, m);
    var w :| Starts(bytes, w, m);
    FormatIsWritten(w);
    WriteIsFormat(m, UnkeptOf(w));
    assert Write(m, UnkeptOf(w)) <= bytes;
  }

  lemma WrittenIsDecoded(bytes: Bytes, m: Message)
    requires StartsWith(bytes, m)
    ensures Decoded(bytes) == Ok(m)
  {
    var x :| Fits(m, x) && Write(m, x) <= bytes;
    RestAfter(Write(m, x), bytes);
    ReadsWhatIsWritten(m, x, bytes[|Write(m, x)|..]);
  }

  lemma RestAfter(front: Bytes, bytes: Bytes)
    requires front <= bytes
    ensures bytes == front + bytes[|front|..]
  {
  }

  /**
   On all bytes: a message is decoded exactly if the bytes start with a writing of it, and
   `Other` exactly for a first byte that starts none.
   */
  lemma DecodesExactlyWritten(bytes: Bytes, m: Message)
    ensures Decoded(bytes) == Ok(m) <==>
            if m.Other? then bytes != [] && bytes[0] !in Letters("BCRIUDT") else StartsWith(bytes, m)
  {
    TagLetters();
    if StartsWith(bytes, m) {
      WrittenIsDecoded(bytes, m);
    }
    if bytes != [] && KnownTag(bytes[0]) && Decoded(bytes) == Ok(m) {
      DecodedIsWritten(bytes, m);
    }
  }

  lemma TagLetters()
    ensures forall b :: b in Letters("BCRIUDT") <==> KnownTag(b)
  {
    var tags := Letters("BCRIUDT");
    assert tags == [tags[0], tags[1], tags[2], tags[3], tags[4], tags[5], tags[6]];
  }
}
