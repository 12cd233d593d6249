/**
 Reading inverts the format, both ways: everything the format can write is read
 back exactly, and nothing else is read at all.
 */
module PgOutputFormat {
  import opened Wrappers
  import opened Sequences
  import opened PgOutput

  // ---------------------------------------------------------------------
  // Integers
  // ---------------------------------------------------------------------

  lemma {:induction false} BigEndianReads(v: nat, width: nat)
    requires FitsUnsigned(v, width)
    ensures FromBigEndian(BigEndian(v, width)) == v
  {
    if width > 0 {
      BigEndianReads(v / 256, width - 1);
      assert BigEndian(v, width)[..width - 1] == BigEndian(v / 256, width - 1);
    }
  }

  lemma {:induction false} BigEndianWrites(bs: Bytes)
    ensures FitsUnsigned(FromBigEndian(bs), |bs|)
    ensures BigEndian(FromBigEndian(bs), |bs|) == bs
  {
    if bs != [] {
      var front, last := bs[..|bs| - 1], bs[|bs| - 1];
      BigEndianWrites(front);
      assert FromBigEndian(bs) / 256 == FromBigEndian(front) && FromBigEndian(bs) % 256 == last;
      assert bs == front + [last];
    }
  }

  lemma SplitOff(a: Bytes, tail: Bytes)
    ensures (a + tail)[..|a|] == a && (a + tail)[|a|..] == tail
  {
  }

  lemma UnsignedComplete(v: nat, width: nat, tail: Bytes)
    requires FitsUnsigned(v, width)
    ensures GetUnsigned(BigEndian(v, width) + tail, width) == Got(v, tail)
  {
    BigEndianReads(v, width);
    SplitOff(BigEndian(v, width), tail);
  }

  lemma UnsignedSound(s: Bytes, width: nat)
    requires GetUnsigned(s, width).Got?
    ensures var p := GetUnsigned(s, width);
            FitsUnsigned(p.value, width) && s == BigEndian(p.value, width) + p.rest
  {
    BigEndianWrites(s[..width]);
    assert s == s[..width] + s[width..];
  }

  lemma SignedComplete(v: int, width: nat, tail: Bytes)
    requires FitsSigned(v, width)
    ensures GetSigned(SignedBytes(v, width) + tail, width) == Got(v, tail)
  {
    UnsignedComplete(ToUnsigned(v, width), width, tail);
  }

  lemma SignedSound(s: Bytes, width: nat)
    requires GetSigned(s, width).Got?
    ensures var p := GetSigned(s, width);
            FitsSigned(p.value, width) && s == SignedBytes(p.value, width) + p.rest
  {
    UnsignedSound(s, width);
    var v := GetUnsigned(s, width).value;
    EvenPow(width, v);
    assert ToUnsigned(ToSigned(v, width), width) == v;
  }

  /** Two's complement splits an even range in half. */
  lemma EvenPow(width: nat, v: nat)
    requires FitsUnsigned(v, width)
    ensures FitsSigned(ToSigned(v, width), width)
  {
    if width > 0 {
      assert Pow256(width) == 2 * (128 * Pow256(width - 1));
    }
  }

  // ---------------------------------------------------------------------
  // Strings and values
  // ---------------------------------------------------------------------

  lemma {:induction false} StringComplete(text: Bytes, tail: Bytes)
    requires ValidText(text)
    ensures GetString(CString(text) + tail) == Got(text, tail)
  {
    var s := CString(text) + tail;
    if text == [] {
      assert s[1..] == tail;
    } else {
      StringComplete(text[1..], tail);
      assert s[1..] == CString(text[1..]) + tail;
      assert [text[0]] + text[1..] == text;
    }
  }

  lemma {:induction false} StringSound(s: Bytes)
    requires GetString(s).Got?
    ensures var p := GetString(s); ValidText(p.value) && s == CString(p.value) + p.rest
  {
    if s[0] == 0 {
      assert s == CString([]) + s[1..];
    } else {
      StringSound(s[1..]);
      assert s == [s[0]] + s[1..];
    }
  }

  lemma DatumComplete(d: Datum, tail: Bytes)
    requires ValidDatum(d)
    ensures GetDatum(EncodeDatum(d) + tail) == Got(d, tail)
  {
    var s := EncodeDatum(d) + tail;
    if d.Text? {
      assert s[1..] == SignedBytes(|d.text|, 4) + (d.text + tail);
      SignedComplete(|d.text|, 4, d.text + tail);
      SplitOff(d.text, tail);
    } else {
      assert s[1..] == tail;
    }
  }

  lemma DatumSound(s: Bytes)
    requires GetDatum(s).Got?
    ensures var p := GetDatum(s); ValidDatum(p.value) && s == EncodeDatum(p.value) + p.rest
  {
    assert s == [s[0]] + s[1..];
    if s[0] == Tag('t') {
      SignedSound(s[1..], 4);
      var len := GetSigned(s[1..], 4);
      var text, rest := len.rest[..len.value], len.rest[len.value..];
      assert len.rest == text + rest;
      var size := SignedBytes(len.value, 4);
      Associative([s[0]], size, text + rest);
      Associative([s[0]] + size, text, rest);
    }
  }

  lemma ColumnComplete(c: WireColumn, tail: Bytes)
    requires ValidColumn(c)
    ensures GetColumn(EncodeColumn(c) + tail) == Got(c, tail)
  {
    var afterType := SignedBytes(c.modifier, 4) + tail;
    var afterName := BigEndian(c.typeOid, 4) + afterType;
    var afterFlags := CString(c.name) + afterName;
    assert (EncodeColumn(c) + tail)[1..] == afterFlags;
    StringComplete(c.name, afterName);
    UnsignedComplete(c.typeOid, 4, afterType);
    SignedComplete(c.modifier, 4, tail);
  }

  lemma ColumnSound(s: Bytes)
    requires GetColumn(s).Got?
    ensures var p := GetColumn(s); ValidColumn(p.value) && s == EncodeColumn(p.value) + p.rest
  {
    var s1 := s[1..];
    assert s == [s[0]] + s1;
    StringSound(s1);
    var name := GetString(s1);
    UnsignedSound(name.rest, 4);
    var typeOid := GetUnsigned(name.rest, 4);
    SignedSound(typeOid.rest, 4);
    var modifier := GetSigned(typeOid.rest, 4);
    var e := [s[0]];
    Associative(e, CString(name.value), name.rest);
    e := e + CString(name.value);
    Associative(e, BigEndian(typeOid.value, 4), typeOid.rest);
    e := e + BigEndian(typeOid.value, 4);
    Associative(e, SignedBytes(modifier.value, 4), modifier.rest);
  }

  lemma OidComplete(oid: nat, tail: Bytes)
    requires ValidOid(oid)
    ensures GetOid(EncodeOid(oid) + tail) == Got(oid, tail)
  {
    UnsignedComplete(oid, 4, tail);
  }

  lemma OidSound(s: Bytes)
    requires GetOid(s).Got?
    ensures var p := GetOid(s); ValidOid(p.value) && s == EncodeOid(p.value) + p.rest
  {
    UnsignedSound(s, 4);
  }

  // ---------------------------------------------------------------------
  // Repetition, once for values, columns and table oids
  // ---------------------------------------------------------------------

  ghost predicate ReadsBack<T(!new)>(get: Bytes -> Parsed<T>, encode: T -> Bytes, valid: T -> bool) {
    forall x: T, tail: Bytes :: valid(x) ==> get(encode(x) + tail) == Got(x, tail)
  }

  ghost predicate ReadsOnly<T(!new)>(get: Bytes -> Parsed<T>, encode: T -> Bytes, valid: T -> bool) {
    forall s: Bytes :: get(s).Got? ==>
      valid(get(s).value) && s == encode(get(s).value) + get(s).rest
  }

  lemma {:induction false} AllComplete<T(!new)>(
    get: Bytes -> Parsed<T>, encode: T -> Bytes, valid: T -> bool, acc: seq<T>, xs: seq<T>, tail: Bytes)
    requires ReadsBack(get, encode, valid)
    requires forall x :: x in xs ==> valid(x)
    ensures GetAll(get, |xs|, acc, EncodeAll(encode, xs) + tail) == Got(acc + xs, tail)
    decreases |xs|
  {
    if xs == [] {
      assert EncodeAll(encode, xs) + tail == tail && acc + xs == acc;
    } else {
      var rest := EncodeAll(encode, xs[1..]) + tail;
      assert EncodeAll(encode, xs) + tail == encode(xs[0]) + rest;
      assert xs[0] in xs;
      assert get(encode(xs[0]) + rest) == Got(xs[0], rest);
      AllComplete(get, encode, valid, acc + [xs[0]], xs[1..], tail);
      assert acc + [xs[0]] + xs[1..] == acc + xs;
    }
  }

  /** What `GetAll` reads after `acc` is `n` valid items and their encoding. */
  lemma {:induction false} AllSound<T(!new)>(
    get: Bytes -> Parsed<T>, encode: T -> Bytes, valid: T -> bool, n: nat, acc: seq<T>, s: Bytes)
    returns (xs: seq<T>)
    requires ReadsOnly(get, encode, valid)
    requires GetAll(get, n, acc, s).Got?
    ensures |xs| == n && (forall x :: x in xs ==> valid(x))
    ensures var p := GetAll(get, n, acc, s);
            p.value == acc + xs && s == EncodeAll(encode, xs) + p.rest
    decreases n
  {
    if n == 0 {
      xs := [];
    } else {
      var first := get(s);
      var more := AllSound(get, encode, valid, n - 1, acc + [first.value], first.rest);
      xs := [first.value] + more;
      assert xs[1..] == more;
      assert acc + [first.value] + more == acc + xs;
    }
  }

  lemma DatumsComplete(row: seq<Datum>, tail: Bytes)
    requires forall d :: d in row ==> ValidDatum(d)
    ensures GetAll(GetDatum, |row|, [], EncodeAll(EncodeDatum, row) + tail) == Got(row, tail)
  {
    forall d: Datum, t: Bytes | ValidDatum(d)
      ensures GetDatum(EncodeDatum(d) + t) == Got(d, t)
    {
      DatumComplete(d, t);
    }
    AllComplete(GetDatum, EncodeDatum, ValidDatum, [], row, tail);
    assert [] + row == row;
  }

  lemma DatumsSound(n: nat, s: Bytes)
    requires GetAll(GetDatum, n, [], s).Got?
    ensures var p := GetAll(GetDatum, n, [], s);
            |p.value| == n && (forall d :: d in p.value ==> ValidDatum(d))
            && s == EncodeAll(EncodeDatum, p.value) + p.rest
  {
    forall t: Bytes | GetDatum(t).Got?
      ensures ValidDatum(GetDatum(t).value) && t == EncodeDatum(GetDatum(t).value) + GetDatum(t).rest
    {
      DatumSound(t);
    }
    var xs := AllSound(GetDatum, EncodeDatum, ValidDatum, n, [], s);
    assert [] + xs == xs;
  }

  lemma ColumnsComplete(columns: seq<WireColumn>, tail: Bytes)
    requires forall c :: c in columns ==> ValidColumn(c)
    ensures GetAll(GetColumn, |columns|, [], EncodeAll(EncodeColumn, columns) + tail) == Got(columns, tail)
  {
    forall c: WireColumn, t: Bytes | ValidColumn(c)
      ensures GetColumn(EncodeColumn(c) + t) == Got(c, t)
    {
      ColumnComplete(c, t);
    }
    AllComplete(GetColumn, EncodeColumn, ValidColumn, [], columns, tail);
    assert [] + columns == columns;
  }

  lemma ColumnsSound(n: nat, s: Bytes)
    requires GetAll(GetColumn, n, [], s).Got?
    ensures var p := GetAll(GetColumn, n, [], s);
            |p.value| == n && (forall c :: c in p.value ==> ValidColumn(c))
            && s == EncodeAll(EncodeColumn, p.value) + p.rest
  {
    forall t: Bytes | GetColumn(t).Got?
      ensures ValidColumn(GetColumn(t).value) && t == EncodeColumn(GetColumn(t).value) + GetColumn(t).rest
    {
      ColumnSound(t);
    }
    var xs := AllSound(GetColumn, EncodeColumn, ValidColumn, n, [], s);
    assert [] + xs == xs;
  }

  lemma OidsComplete(oids: seq<nat>, tail: Bytes)
    requires forall oid :: oid in oids ==> ValidOid(oid)
    ensures GetAll(GetOid, |oids|, [], EncodeAll(EncodeOid, oids) + tail) == Got(oids, tail)
  {
    forall oid: nat, t: Bytes | ValidOid(oid)
      ensures GetOid(EncodeOid(oid) + t) == Got(oid, t)
    {
      OidComplete(oid, t);
    }
    AllComplete(GetOid, EncodeOid, ValidOid, [], oids, tail);
    assert [] + oids == oids;
  }

  lemma OidsSound(n: nat, s: Bytes)
    requires GetAll(GetOid, n, [], s).Got?
    ensures var p := GetAll(GetOid, n, [], s);
            |p.value| == n && (forall oid :: oid in p.value ==> ValidOid(oid))
            && s == EncodeAll(EncodeOid, p.value) + p.rest
  {
    forall t: Bytes | GetOid(t).Got?
      ensures ValidOid(GetOid(t).value) && t == EncodeOid(GetOid(t).value) + GetOid(t).rest
    {
      OidSound(t);
    }
    var xs := AllSound(GetOid, EncodeOid, ValidOid, n, [], s);
    assert [] + xs == xs;
  }

  lemma TupleComplete(row: seq<Datum>, tail: Bytes)
    requires ValidTuple(row)
    ensures GetTuple(EncodeTuple(row) + tail) == Got(row, tail)
  {
    var rest := EncodeAll(EncodeDatum, row) + tail;
    assert EncodeTuple(row) + tail == BigEndian(|row|, 2) + rest;
    UnsignedComplete(|row|, 2, rest);
    DatumsComplete(row, tail);
  }

  lemma TupleSound(s: Bytes)
    requires GetTuple(s).Got?
    ensures var p := GetTuple(s); ValidTuple(p.value) && s == EncodeTuple(p.value) + p.rest
  {
    UnsignedSound(s, 2);
    var n := GetUnsigned(s, 2);
    DatumsSound(n.value, n.rest);
  }

  // ---------------------------------------------------------------------
  // Messages
  // ---------------------------------------------------------------------

  lemma RelationComplete(w: Wire, tail: Bytes)
    requires w.WRelation? && Valid(w)
    ensures GetRelation(EncodeBody(w) + tail) == Got(w, tail)
  {
    var items := EncodeAll(EncodeColumn, w.columns) + tail;
    var counted := BigEndian(|w.columns|, 2) + items;
    var identified := [w.identity] + counted;
    var named := CString(w.name) + identified;
    var schemed := CString(w.schema) + named;
    assert EncodeBody(w) + tail == EncodeOid(w.oid) + schemed;
    OidComplete(w.oid, schemed);
    StringComplete(w.schema, named);
    StringComplete(w.name, identified);
    assert identified[1..] == counted;
    UnsignedComplete(|w.columns|, 2, items);
    ColumnsComplete(w.columns, tail);
  }

  lemma RelationColumnsSound(oid: nat, schema: Bytes, name: Bytes, s: Bytes)
    requires GetRelationColumns(oid, schema, name, s).Got?
    ensures var p := GetRelationColumns(oid, schema, name, s);
            && p.value == WRelation(oid, schema, name, p.value.identity, p.value.columns)
            && FitsUnsigned(|p.value.columns|, 2) && (forall c :: c in p.value.columns ==> ValidColumn(c))
            && s == [p.value.identity] + (BigEndian(|p.value.columns|, 2)
                                          + (EncodeAll(EncodeColumn, p.value.columns) + p.rest))
  {
    assert s == [s[0]] + s[1..];
    UnsignedSound(s[1..], 2);
    var n := GetUnsigned(s[1..], 2);
    ColumnsSound(n.value, n.rest);
  }

  lemma RelationSound(s: Bytes)
    requires GetRelation(s).Got?
    ensures var p := GetRelation(s); Valid(p.value) && s == EncodeBody(p.value) + p.rest
  {
    OidSound(s);
    var oid := GetOid(s);
    StringSound(oid.rest);
    var schema := GetString(oid.rest);
    StringSound(schema.rest);
    var name := GetString(schema.rest);
    RelationColumnsSound(oid.value, schema.value, name.value, name.rest);
    var p := GetRelation(s);
    JoinSix(
      EncodeOid(oid.value), CString(schema.value), CString(name.value), [p.value.identity],
      BigEndian(|p.value.columns|, 2), EncodeAll(EncodeColumn, p.value.columns), p.rest);
  }

  lemma JoinSix(a: Bytes, b: Bytes, c: Bytes, d: Bytes, e: Bytes, f: Bytes, rest: Bytes)
    ensures a + (b + (c + (d + (e + (f + rest))))) == a + b + c + d + e + f + rest
  {
    Associative(a, b, c + (d + (e + (f + rest))));
    Associative(a + b, c, d + (e + (f + rest)));
    Associative(a + b + c, d, e + (f + rest));
    Associative(a + b + c + d, e, f + rest);
    Associative(a + b + c + d + e, f, rest);
  }

  lemma UpdateComplete(w: Wire, tail: Bytes)
    requires w.WUpdate? && Valid(w)
    ensures GetUpdate(EncodeBody(w) + tail) == Got(w, tail)
  {
    var row := EncodeTuple(w.row) + tail;
    var marked := [Tag('N')] + row;
    var afterOid := EncodePrior(w.prior) + marked;
    assert EncodeBody(w) + tail == EncodeOid(w.oid) + afterOid by {
      Associative(EncodeOid(w.oid), EncodePrior(w.prior), marked);
      Associative(EncodeOid(w.oid) + EncodePrior(w.prior), [Tag('N')], row);
      Associative(EncodeOid(w.oid) + EncodePrior(w.prior) + [Tag('N')], EncodeTuple(w.row), tail);
    }
    OidComplete(w.oid, afterOid);
    TupleComplete(w.row, tail);
    assert marked[0] == Tag('N') && marked[1..] == row;
    if w.prior.Some? {
      var prior := EncodeTuple(w.prior.value.0);
      Associative([RowKind(w.prior.value.1)], prior, marked);
      SplitOff([RowKind(w.prior.value.1)], prior + marked);
      TupleComplete(w.prior.value.0, marked);
    } else {
      assert afterOid == marked;
    }
  }

  lemma UpdateSound(s: Bytes)
    requires GetUpdate(s).Got?
    ensures var p := GetUpdate(s); Valid(p.value) && s == EncodeBody(p.value) + p.rest
  {
    OidSound(s);
    var oid := GetOid(s);
    var e := EncodeOid(oid.value);
    var s1 := oid.rest;
    assert s1 == [s1[0]] + s1[1..];
    if IsRowKind(s1[0]) {
      TupleSound(s1[1..]);
      var prior := GetTuple(s1[1..]);
      Associative([s1[0]], EncodeTuple(prior.value), prior.rest);
      Associative(e, [s1[0]] + EncodeTuple(prior.value), prior.rest);
      UpdateRowSound(e + ([s1[0]] + EncodeTuple(prior.value)), prior.rest);
    } else {
      assert e + [] == e;
      UpdateRowSound(e, s1);
    }
  }

  /** The marker and new row that end an Update, after the bytes `e`. */
  lemma UpdateRowSound(e: Bytes, s: Bytes)
    requires s != [] && s[0] == Tag('N') && GetTuple(s[1..]).Got?
    ensures var p := GetTuple(s[1..]);
            ValidTuple(p.value) && e + s == e + [Tag('N')] + EncodeTuple(p.value) + p.rest
  {
    TupleSound(s[1..]);
    var p := GetTuple(s[1..]);
    assert s == [s[0]] + s[1..];
    Associative(e, [s[0]], s[1..]);
    Associative(e + [s[0]], EncodeTuple(p.value), p.rest);
  }

  lemma TruncateComplete(w: Wire, tail: Bytes)
    requires w.WTruncate? && Valid(w)
    ensures GetTruncate(EncodeBody(w) + tail) == Got(w, tail)
  {
    var items := EncodeAll(EncodeOid, w.oids) + tail;
    var opted := [w.options] + items;
    assert EncodeBody(w) + tail == BigEndian(|w.oids|, 4) + opted;
    UnsignedComplete(|w.oids|, 4, opted);
    assert opted[1..] == items;
    OidsComplete(w.oids, tail);
  }

  lemma TruncateSound(s: Bytes)
    requires GetTruncate(s).Got?
    ensures var p := GetTruncate(s); Valid(p.value) && s == EncodeBody(p.value) + p.rest
  {
    UnsignedSound(s, 4);
    var n := GetUnsigned(s, 4);
    var options := n.rest[0];
    assert n.rest == [options] + n.rest[1..];
    OidsSound(n.value, n.rest[1..]);
    var oids := GetAll(GetOid, n.value, [], n.rest[1..]);
    var e := BigEndian(n.value, 4);
    Associative(e, [options], n.rest[1..]);
    Associative(e + [options], EncodeAll(EncodeOid, oids.value), oids.rest);
  }

  lemma BeginComplete(w: Wire, tail: Bytes)
    requires w.WBegin? && Valid(w)
    ensures GetBegin(EncodeBody(w) + tail) == Got(w, tail)
  {
    var s2 := BigEndian(w.xid, 4) + tail;
    var s1 := SignedBytes(w.time, 8) + s2;
    Associative(BigEndian(w.finalLsn, 8), SignedBytes(w.time, 8), s2);
    Associative(BigEndian(w.finalLsn, 8) + SignedBytes(w.time, 8), BigEndian(w.xid, 4), tail);
    assert EncodeBody(w) + tail == BigEndian(w.finalLsn, 8) + s1;
    UnsignedComplete(w.finalLsn, 8, s1);
    SignedComplete(w.time, 8, s2);
    UnsignedComplete(w.xid, 4, tail);
  }

  lemma CommitComplete(w: Wire, tail: Bytes)
    requires w.WCommit? && Valid(w)
    ensures GetCommit(EncodeBody(w) + tail) == Got(w, tail)
  {
    var s2 := BigEndian(w.endLsn, 8) + tail;
    var s1 := BigEndian(w.commitLsn, 8) + s2;
    Associative([w.flags], BigEndian(w.commitLsn, 8), s2);
    Associative([w.flags] + BigEndian(w.commitLsn, 8), BigEndian(w.endLsn, 8), tail);
    SplitOff([w.flags], s1);
    UnsignedComplete(w.commitLsn, 8, s2);
    UnsignedComplete(w.endLsn, 8, tail);
  }

  lemma BeginSound(s: Bytes)
    requires GetBegin(s).Got?
    ensures var p := GetBegin(s); Valid(p.value) && s == EncodeBody(p.value) + p.rest
  {
    UnsignedSound(s, 8);
    var lsn := GetUnsigned(s, 8);
    SignedSound(lsn.rest, 8);
    var time := GetSigned(lsn.rest, 8);
    UnsignedSound(time.rest, 4);
    var xid := GetUnsigned(time.rest, 4);
    var e := BigEndian(lsn.value, 8);
    Associative(e, SignedBytes(time.value, 8), time.rest);
    Associative(e + SignedBytes(time.value, 8), BigEndian(xid.value, 4), xid.rest);
  }

  lemma CommitSound(s: Bytes)
    requires GetCommit(s).Got?
    ensures var p := GetCommit(s); Valid(p.value) && s == EncodeBody(p.value) + p.rest
  {
    assert s == [s[0]] + s[1..];
    UnsignedSound(s[1..], 8);
    UnsignedSound(GetUnsigned(s[1..], 8).rest, 8);
  }

  lemma RowsComplete(w: Wire, tail: Bytes)
    requires (w.WInsert? || w.WDelete?) && Valid(w)
    ensures w.WInsert? ==> GetInsert(EncodeBody(w) + tail) == Got(w, tail)
    ensures w.WDelete? ==> GetDelete(EncodeBody(w) + tail) == Got(w, tail)
  {
    var kind := if w.WInsert? then Tag('N') else RowKind(w.full);
    var rest := EncodeTuple(w.row) + tail;
    assert EncodeBody(w) + tail == EncodeOid(w.oid) + ([kind] + rest);
    OidComplete(w.oid, [kind] + rest);
    assert ([kind] + rest)[1..] == rest;
    TupleComplete(w.row, tail);
  }

  lemma InsertSound(s: Bytes)
    requires GetInsert(s).Got?
    ensures var p := GetInsert(s); Valid(p.value) && s == EncodeBody(p.value) + p.rest
  {
    OidSound(s);
    UpdateRowSound(EncodeOid(GetOid(s).value), GetOid(s).rest);
  }

  lemma DeleteSound(s: Bytes)
    requires GetDelete(s).Got?
    ensures var p := GetDelete(s); Valid(p.value) && s == EncodeBody(p.value) + p.rest
  {
    OidSound(s);
    var oid := GetOid(s);
    var s1 := oid.rest;
    assert s1 == [s1[0]] + s1[1..];
    TupleSound(s1[1..]);
    var row := GetTuple(s1[1..]);
    Associative(EncodeOid(oid.value), [s1[0]], s1[1..]);
    Associative(EncodeOid(oid.value) + [s1[0]], EncodeTuple(row.value), row.rest);
  }

  /** Every message the format can write is read back whole, whatever follows it. */
  lemma WireComplete(w: Wire, tail: Bytes)
    requires Valid(w)
    ensures KnownTag(TagOf(w)) && GetBody(TagOf(w), EncodeBody(w) + tail) == Got(w, tail)
  {
    match w
    case WBegin(_, _, _) => BeginComplete(w, tail);
    case WCommit(_, _, _) => CommitComplete(w, tail);
    case WRelation(_, _, _, _, _) => RelationComplete(w, tail);
    case WInsert(_, _) => RowsComplete(w, tail);
    case WUpdate(_, _, _) => UpdateComplete(w, tail);
    case WDelete(_, _, _) => RowsComplete(w, tail);
    case WTruncate(_, _) => TruncateComplete(w, tail);
  }

  /** Whatever is read is a message of the format, followed by what was left unread. */
  lemma WireSound(tag: byte, s: Bytes)
    requires KnownTag(tag) && GetBody(tag, s).Got?
    ensures var p := GetBody(tag, s);
            Valid(p.value) && TagOf(p.value) == tag && s == EncodeBody(p.value) + p.rest
  {
    if tag == Tag('B') {
      BeginSound(s);
    } else if tag == Tag('C') {
      CommitSound(s);
    } else if tag == Tag('R') {
      RelationSound(s);
    } else if tag == Tag('I') {
      InsertSound(s);
    } else if tag == Tag('D') {
      DeleteSound(s);
    } else if tag == Tag('U') {
      UpdateSound(s);
    } else {
      TruncateSound(s);
    }
  }

  // ---------------------------------------------------------------------
  // Any format that reads back what it writes, and nothing else
  // ---------------------------------------------------------------------

  ghost predicate IsFormat<T(!new)>(get: Bytes -> Parsed<T>, encode: T -> Bytes, valid: T -> bool) {
    ReadsBack(get, encode, valid) && ReadsOnly(get, encode, valid)
  }

  /** It reads exactly the bytes that start with an encoding. */
  lemma ReadsExactly<T(!new)>(
    get: Bytes -> Parsed<T>, encode: T -> Bytes, valid: T -> bool, bytes: Bytes, w: T)
    requires IsFormat(get, encode, valid)
    ensures get(bytes).Got? && get(bytes).value == w <==> valid(w) && encode(w) <= bytes
  {
    if valid(w) && encode(w) <= bytes {
      assert bytes == encode(w) + bytes[|encode(w)|..];
    }
  }

  /** It reads no strict prefix of an encoding. */
  lemma CutFails<T(!new)>(
    get: Bytes -> Parsed<T>, encode: T -> Bytes, valid: T -> bool, w: T, n: nat)
    requires IsFormat(get, encode, valid) && valid(w) && n < |encode(w)|
    ensures get(encode(w)[..n]).Fail?
  {
    var cut := encode(w)[..n];
    if get(cut).Got? {
      NoEncodingIsPrefix(get, encode, valid, get(cut).value, w);
    }
  }

  /** No encoding is a prefix of another. */
  lemma NoEncodingIsPrefix<T(!new)>(
    get: Bytes -> Parsed<T>, encode: T -> Bytes, valid: T -> bool, v: T, w: T)
    requires IsFormat(get, encode, valid) && valid(v) && valid(w) && encode(v) <= encode(w)
    ensures v == w
  {
    assert encode(w) + [] == encode(v) + encode(w)[|encode(v)|..];
  }

  // ---------------------------------------------------------------------
  // The decoder
  // ---------------------------------------------------------------------

  function GetWire(s: Bytes): Parsed<Wire> {
    if s == [] || !KnownTag(s[0]) then Fail(EndsEarly) else GetBody(s[0], s[1..])
  }

  lemma GetWireComplete(w: Wire, tail: Bytes)
    requires Valid(w)
    ensures GetWire(Encode(w) + tail) == Got(w, tail)
  {
    WireComplete(w, tail);
    TaggedBody(Encode(w) + tail, TagOf(w), EncodeBody(w), tail);
  }

  lemma TaggedBody(s: Bytes, tag: byte, body: Bytes, tail: Bytes)
    requires s == [tag] + body + tail
    ensures s != [] && s[0] == tag && s[1..] == body + tail
  {
  }

  lemma GetWireSound(s: Bytes)
    requires GetWire(s).Got?
    ensures var p := GetWire(s); Valid(p.value) && s == Encode(p.value) + p.rest
  {
    WireSound(s[0], s[1..]);
    var p := GetBody(s[0], s[1..]);
    assert s == [s[0]] + s[1..];
    Associative([s[0]], EncodeBody(p.value), p.rest);
  }

  /** The messages of the protocol are a format. */
  lemma MessagesAreAFormat()
    ensures IsFormat(GetWire, Encode, Valid)
  {
    forall w, tail | Valid(w)
      ensures GetWire(Encode(w) + tail) == Got(w, tail)
    {
      GetWireComplete(w, tail);
    }
    forall s | GetWire(s).Got?
      ensures Valid(GetWire(s).value) && s == Encode(GetWire(s).value) + GetWire(s).rest
    {
      GetWireSound(s);
    }
  }

  lemma DecodedByGet(bytes: Bytes)
    requires bytes != [] && KnownTag(bytes[0])
    ensures Decoded(bytes).Ok? <==> GetWire(bytes).Got?
    ensures GetWire(bytes).Got? ==> Decoded(bytes) == Ok(Meaning(GetWire(bytes).value))
  {
  }

  /** `decode` inverts the encoding, and bytes after the message change nothing. */
  lemma DecodeInvertsEncode(w: Wire, tail: Bytes)
    requires Valid(w)
    ensures Decoded(Encode(w) + tail) == Ok(Meaning(w))
  {
    GetWireComplete(w, tail);
    DecodedByGet(Encode(w) + tail);
  }

  /** Which message is decoded: that of an encoding the bytes start with. */
  ghost predicate Starts(bytes: Bytes, w: Wire, m: Message) {
    Valid(w) && Encode(w) <= bytes && Meaning(w) == m
  }

  /**
   Exactly which bytes decode to a known message, and to which: those that start
   with the encoding of one.
   */
  lemma DecodesExactlyTheFormat(bytes: Bytes, m: Message)
    requires bytes != [] && KnownTag(bytes[0])
    ensures Decoded(bytes) == Ok(m) <==> exists w :: Starts(bytes, w, m)
  {
    MessagesAreAFormat();
    DecodedByGet(bytes);
    if w :| Starts(bytes, w, m) {
      ReadsExactly(GetWire, Encode, Valid, bytes, w);
    } else if Decoded(bytes) == Ok(m) {
      var w := GetWire(bytes).value;
      ReadsExactly(GetWire, Encode, Valid, bytes, w);
      assert Starts(bytes, w, m);
    }
  }

  /** No message is cut short unnoticed: a strict prefix of one never decodes. */
  lemma StrictPrefixFails(w: Wire, n: nat)
    requires Valid(w) && n < |Encode(w)|
    ensures Decoded(Encode(w)[..n]).Err?
  {
    MessagesAreAFormat();
    CutFails(GetWire, Encode, Valid, w, n);
    if n > 0 {
      assert Encode(w)[..n][0] == TagOf(w);
      DecodedByGet(Encode(w)[..n]);
    }
  }

  /**
   A Commit ends with a timestamp the decoder does not read, so it alone may be
   cut: it decodes exactly when the eighteen bytes up to the end LSN are there.
   */
  lemma CommitPrefix(w: Wire, timestamp: int, n: nat)
    requires Valid(w) && w.WCommit? && FitsSigned(timestamp, 8)
    requires n <= |Encode(w) + SignedBytes(timestamp, 8)|
    ensures Decoded((Encode(w) + SignedBytes(timestamp, 8))[..n]) ==
            if n >= 18 then Ok(Commit(w.endLsn)) else Err(EndsEarly)
  {
    var full := Encode(w) + SignedBytes(timestamp, 8);
    assert |Encode(w)| == 18;
    if n >= 18 {
      assert full[..n] == Encode(w) + full[18..n];
      DecodeInvertsEncode(w, full[18..n]);
    } else if n > 0 {
      assert full[..n] == Encode(w)[..n];
      StrictPrefixFails(w, n);
    }
  }

  /** Two messages are never confused: no encoding is a prefix of another. */
  lemma PrefixFree(v: Wire, w: Wire)
    requires Valid(v) && Valid(w) && Encode(v) <= Encode(w)
    ensures v == w
  {
    MessagesAreAFormat();
    NoEncodingIsPrefix(GetWire, Encode, Valid, v, w);
  }
}
