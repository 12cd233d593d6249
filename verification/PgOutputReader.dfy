/**
 The decoder as it runs: a reader that moves an index over the message and
 loops that push what they read. Each step is proved to read what the format's
 inverse reads from the same place, so `Decode` is `Decoded` on every input and
 no step reads past the end.
 */
module PgOutputReader {
  import opened Wrappers
  import opened PgOutput

  /** `r` and the bytes left are what `p` says. */
  ghost predicate Follows<T>(r: Result<T, Error>, left: Bytes, p: Parsed<T>) {
    match p
    case Fail(e) => r == Err(e)
    case Got(v, rest) => r == Ok(v) && left == rest
  }

  class Reader {
    const bytes: Bytes
    var at: nat

    ghost predicate Valid()
      reads this
    {
      at <= |bytes|
    }

    ghost function Left(): Bytes
      requires Valid()
      reads this
    {
      bytes[at..]
    }

    constructor (bytes: Bytes)
      ensures Valid() && Left() == bytes && this.bytes == bytes
    {
      this.bytes := bytes;
      at := 0;
    }

    method Take(n: nat) returns (r: Result<Bytes, Error>)
      requires Valid()
      modifies this`at
      ensures Valid() && Follows(r, Left(), PgOutput.Take(old(Left()), n))
    {
      var end := at + n;
      if end > |bytes| {
        return Err(EndsEarly);
      }
      assert bytes[at..end] == Left()[..n] && bytes[end..] == Left()[n..];
      r := Ok(bytes[at..end]);
      at := end;
    }

    method U8() returns (r: Result<byte, Error>)
      requires Valid()
      modifies this`at
      ensures Valid() && Follows(r, Left(), GetByte(old(Left())))
    {
      var bs := Take(1);
      match bs
      case Err(e) => r := Err(e);
      case Ok(bs) => r := Ok(bs[0]);
    }

    method Unsigned(width: nat) returns (r: Result<nat, Error>)
      requires Valid()
      modifies this`at
      ensures Valid() && Follows(r, Left(), GetUnsigned(old(Left()), width))
    {
      var bs := Take(width);
      match bs
      case Err(e) => r := Err(e);
      case Ok(bs) => r := Ok(FromBigEndian(bs));
    }

    method Signed(width: nat) returns (r: Result<int, Error>)
      requires Valid()
      modifies this`at
      ensures Valid() && Follows(r, Left(), GetSigned(old(Left()), width))
    {
      var v := Unsigned(width);
      match v
      case Err(e) => r := Err(e);
      case Ok(v) => r := Ok(ToSigned(v, width));
    }

    method String() returns (r: Result<Bytes, Error>)
      requires Valid()
      modifies this`at
      ensures Valid() && Follows(r, Left(), GetString(old(Left())))
    {
      ghost var rest := Left();
      var end := at;
      while end < |bytes| && bytes[end] != 0
        invariant at <= end <= |bytes| && at == old(at)
        invariant forall i :: at <= i < end ==> bytes[i] != 0
      {
        end := end + 1;
      }
      StringUpTo(rest, end - at);
      if end == |bytes| {
        return Err(Unterminated);
      }
      assert bytes[at..end] == rest[..end - at] && bytes[end + 1..] == rest[end - at + 1..];
      r := Ok(bytes[at..end]);
      at := end + 1;
    }

    method ReadDatum() returns (r: Result<Datum, Error>)
      requires Valid()
      modifies this`at
      ensures Valid() && Follows(r, Left(), GetDatum(old(Left())))
    {
      var kind := U8();
      if kind.Err? {
        return Err(kind.error);
      }
      if kind.value == Tag('n') {
        return Ok(Null);
      } else if kind.value == Tag('u') {
        return Ok(Unchanged);
      } else if kind.value == Tag('t') {
        var len := Signed(4);
        if len.Err? {
          return Err(len.error);
        }
        if len.value < 0 {
          return Err(NegativeLength);
        }
        var text := Take(len.value);
        match text
        case Err(e) => r := Err(e);
        case Ok(text) => r := Ok(Text(text));
      } else {
        return Err(BadValueKind(kind.value));
      }
    }

    method Tuple() returns (r: Result<seq<Datum>, Error>)
      requires Valid()
      modifies this`at
      ensures Valid() && Follows(r, Left(), GetTuple(old(Left())))
    {
      var columns := Unsigned(2);
      if columns.Err? {
        return Err(columns.error);
      }
      r := ReadDatums(columns.value);
    }

    method ReadDatums(count: nat) returns (r: Result<seq<Datum>, Error>)
      requires Valid()
      modifies this`at
      ensures Valid() && Follows(r, Left(), GetAll(GetDatum, count, [], old(Left())))
    {
      var datums := [];
      ghost var whole := GetAll(GetDatum, count, [], Left());
      for i := 0 to count
        invariant Valid() && ToCome(count - i, datums, whole)
      {
        var d := NextDatum(count - i, datums, whole);
        if d.Err? {
          return Err(d.error);
        }
        datums := datums + [d.value];
      }
      NoneToCome(datums, whole);
      r := Ok(datums);
    }

    /** Reading `count` more values after `datums` gives `whole`. */
    ghost predicate ToCome(count: nat, datums: seq<Datum>, whole: Parsed<seq<Datum>>)
      requires Valid()
      reads this
    {
      GetAll(GetDatum, count, datums, Left()) == whole
    }

    lemma NoneToCome(datums: seq<Datum>, whole: Parsed<seq<Datum>>)
      requires Valid() && ToCome(0, datums, whole)
      ensures whole == Got(datums, Left())
    {
    }

    /** One of the `count` values still to come, after `datums`. */
    method NextDatum(ghost count: nat, ghost datums: seq<Datum>, ghost whole: Parsed<seq<Datum>>)
      returns (r: Result<Datum, Error>)
      requires Valid() && count > 0 && ToCome(count, datums, whole)
      modifies this`at
      ensures Valid()
      ensures if r.Err? then whole == Fail(r.error) else ToCome(count - 1, datums + [r.value], whole)
    {
      ReadNext(GetDatum, count, datums, Left());
      r := ReadDatum();
    }

    method ReadWireColumn() returns (r: Result<WireColumn, Error>)
      requires Valid()
      modifies this`at
      ensures Valid() && Follows(r, Left(), GetColumn(old(Left())))
    {
      var flags := U8();
      if flags.Err? {
        return Err(flags.error);
      }
      var name := String();
      if name.Err? {
        return Err(name.error);
      }
      var typeOid := Unsigned(4);
      if typeOid.Err? {
        return Err(typeOid.error);
      }
      var modifier := Signed(4);
      match modifier
      case Err(e) => r := Err(e);
      case Ok(m) => r := Ok(WireColumn(flags.value, name.value, typeOid.value, m));
    }

    /** The columns of a Relation, kept as they are read; `wires` is what was read. */
    method ReadColumns(count: nat) returns (r: Result<seq<Column>, Error>, ghost wires: seq<WireColumn>)
      requires Valid()
      modifies this`at
      ensures Valid()
      ensures match GetAll(GetColumn, count, [], old(Left()))
              case Fail(e) => r == Err(e)
              case Got(cs, rest) => r == Ok(KeptColumns(cs)) && wires == cs && Left() == rest
    {
      var columns := [];
      wires := [];
      for i := 0 to count
        invariant Valid()
        invariant GetAll(GetColumn, count - i, wires, Left()) == GetAll(GetColumn, count, [], old(Left()))
        invariant columns == KeptColumns(wires)
      {
        var c := ReadWireColumn();
        if c.Err? {
          return Err(c.error), [];
        }
        columns := columns + [Column(c.value.name, c.value.typeOid, c.value.flags % 2 == 1)];
        wires := wires + [c.value];
      }
      r := Ok(columns);
    }

    method ReadRelation() returns (r: Result<Message, Error>)
      requires Valid()
      modifies this`at
      ensures Valid() && r == DecodedAs(GetRelation(old(Left())))
    {
      var oid := Unsigned(4);
      if oid.Err? {
        return Err(oid.error);
      }
      var schema := String();
      if schema.Err? {
        return Err(schema.error);
      }
      var name := String();
      if name.Err? {
        return Err(name.error);
      }
      r := ReadRelationColumns(oid.value, schema.value, name.value);
    }

    method ReadRelationColumns(oid: nat, schema: Bytes, name: Bytes) returns (r: Result<Message, Error>)
      requires Valid()
      modifies this`at
      ensures Valid() && r == DecodedAs(GetRelationColumns(oid, schema, name, old(Left())))
    {
      var identity := U8();
      if identity.Err? {
        return Err(identity.error);
      }
      var count := Unsigned(2);
      if count.Err? {
        return Err(count.error);
      }
      var columns, wires := ReadColumns(count.value);
      if columns.Err? {
        return Err(columns.error);
      }
      r := Ok(RelationOf(oid, Relation(if schema == [] then PG_CATALOG else schema, name, columns.value)));
    }

    method ReadBegin() returns (r: Result<Message, Error>)
      requires Valid()
      modifies this`at
      ensures Valid() && r == DecodedAs(GetBegin(old(Left())))
    {
      var finalLsn := Unsigned(8);
      if finalLsn.Err? {
        return Err(finalLsn.error);
      }
      var time := Signed(8);
      if time.Err? {
        return Err(time.error);
      }
      var xid := Unsigned(4);
      match xid
      case Err(e) => r := Err(e);
      case Ok(xid) => r := Ok(Begin(finalLsn.value, time.value, xid));
    }

    method ReadCommit() returns (r: Result<Message, Error>)
      requires Valid()
      modifies this`at
      ensures Valid() && r == DecodedAs(GetCommit(old(Left())))
    {
      var flags := U8();
      if flags.Err? {
        return Err(flags.error);
      }
      var commitLsn := Unsigned(8);
      if commitLsn.Err? {
        return Err(commitLsn.error);
      }
      var endLsn := Unsigned(8);
      match endLsn
      case Err(e) => r := Err(e);
      case Ok(endLsn) => r := Ok(Commit(endLsn));
    }

    /** An Insert or a Delete: an oid, a row marker and a row. */
    method ReadRow(delete: bool) returns (r: Result<Message, Error>)
      requires Valid()
      modifies this`at
      ensures r == DecodedAs(if delete then GetDelete(old(Left())) else GetInsert(old(Left())))
    {
      var oid := Unsigned(4);
      if oid.Err? {
        return Err(oid.error);
      }
      var kind := U8();
      if kind.Err? {
        return Err(kind.error);
      }
      if delete && (kind.value == Tag('K') || kind.value == Tag('O')) {
        var row := Tuple();
        match row
        case Err(e) => r := Err(e);
        case Ok(row) => r := Ok(Delete(oid.value, row, kind.value == Tag('O')));
      } else if !delete && kind.value == Tag('N') {
        var row := Tuple();
        match row
        case Err(e) => r := Err(e);
        case Ok(row) => r := Ok(Insert(oid.value, row));
      } else {
        r := Err(BadTuple(kind.value));
      }
    }

    method ReadUpdate() returns (r: Result<Message, Error>)
      requires Valid()
      modifies this`at
      ensures Valid() && r == DecodedAs(GetUpdate(old(Left())))
    {
      var oid := Unsigned(4);
      if oid.Err? {
        return Err(oid.error);
      }
      var prior, kind := ReadPrior();
      if prior.Err? {
        return Err(prior.error);
      }
      if kind != Tag('N') {
        return Err(BadTuple(kind));
      }
      var row := Tuple();
      match row
      case Err(e) => r := Err(e);
      case Ok(row) => r := Ok(Update(oid.value, prior.value, row));
    }

    /** The row an Update had, if it is sent, and the marker after it. */
    method ReadPrior() returns (r: Result<Option<(seq<Datum>, bool)>, Error>, kind: byte)
      requires Valid()
      modifies this`at
      ensures Valid()
      ensures match GetPrior(old(Left()))
              case Fail(e) => r == Err(e)
              case Got(v, rest) => r == Ok(v.0) && kind == v.1 && Left() == rest
    {
      var first := U8();
      if first.Err? {
        return Err(first.error), 0;
      }
      if !(first.value == Tag('K') || first.value == Tag('O')) {
        return Ok(None), first.value;
      }
      var row := Tuple();
      if row.Err? {
        return Err(row.error), 0;
      }
      var next := U8();
      if next.Err? {
        return Err(next.error), 0;
      }
      r, kind := Ok(Some((row.value, first.value == Tag('O')))), next.value;
    }

    method ReadTruncate() returns (r: Result<Message, Error>)
      requires Valid()
      modifies this`at
      ensures Valid() && r == DecodedAs(GetTruncate(old(Left())))
    {
      var count := Unsigned(4);
      if count.Err? {
        return Err(count.error);
      }
      var options := U8();
      if options.Err? {
        return Err(options.error);
      }
      ghost var afterOptions := Left();
      var oids := [];
      for i := 0 to count.value
        invariant Valid()
        invariant GetAll(GetOid, count.value - i, oids, Left()) == GetAll(GetOid, count.value, [], afterOptions)
      {
        var oid := Unsigned(4);
        if oid.Err? {
          return Err(oid.error);
        }
        oids := oids + [oid.value];
      }
      r := Ok(Truncate(oids, options.value % 2 == 1, options.value / 2 % 2 == 1));
    }
  }

  ghost function DecodedAs(p: Parsed<Wire>): Result<Message, Error> {
    match p
    case Fail(e) => Err(e)
    case Got(w, _) => Ok(Meaning(w))
  }

  /** Reading one of `n` items, then the others. */
  lemma ReadNext<T>(get: Bytes -> Parsed<T>, n: nat, acc: seq<T>, s: Bytes)
    requires n > 0
    ensures GetAll(get, n, acc, s) ==
            match get(s)
            case Fail(e) => Fail(e)
            case Got(x, rest) => GetAll(get, n - 1, acc + [x], rest)
  {
  }

  /** The first zero byte ends a string; without one it is not terminated. */
  lemma {:induction false} StringUpTo(s: Bytes, n: nat)
    requires n <= |s| && (forall i :: 0 <= i < n ==> s[i] != 0) && (n < |s| ==> s[n] == 0)
    ensures GetString(s) == if n == |s| then Fail(Unterminated) else Got(s[..n], s[n + 1..])
  {
    if n > 0 {
      StringUpTo(s[1..], n - 1);
      assert n < |s| ==> [s[0]] + s[1..][..n - 1] == s[..n];
    }
  }

  method Decode(bytes: Bytes) returns (r: Result<Message, Error>)
    ensures r == Decoded(bytes)
  {
    var reader := new Reader(bytes);
    var tag := reader.U8();
    if tag.Err? {
      return Err(tag.error);
    }
    if KnownTag(tag.value) {
      r := ReadBody(reader, tag.value);
    } else {
      r := Ok(Other);
    }
  }

  method ReadBody(reader: Reader, tag: byte) returns (r: Result<Message, Error>)
    requires reader.Valid() && KnownTag(tag)
    modifies reader`at
    ensures r == DecodedAs(GetBody(tag, old(reader.Left())))
  {
    if tag == Tag('B') {
      r := reader.ReadBegin();
    } else if tag == Tag('C') {
      r := reader.ReadCommit();
    } else if tag == Tag('R') {
      r := reader.ReadRelation();
    } else if tag == Tag('I') {
      r := reader.ReadRow(false);
    } else if tag == Tag('U') {
      r := reader.ReadUpdate();
    } else if tag == Tag('D') {
      r := reader.ReadRow(true);
    } else {
      r := reader.ReadTruncate();
    }
  }
}
