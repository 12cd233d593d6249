/**
 `row_mode: stream`: pages of a keyset query, continued by a signed cursor that carries
 the last row's key.
 */
module Stream {
  import opened Wrappers
  import opened Keyset
  import Params

  type Bytes = seq<bv8>

  // ---------------------------------------------------------------------
  // Cursor tokens
  // ---------------------------------------------------------------------

  datatype Payload = Payload(version: nat, binding: string, profile: string, keyset: Key)

  /** JSON, base64 and the keyed hash, each taken as given. */
  datatype Codec = Codec(
    json: Payload -> Bytes,
    unjson: Bytes -> Option<Payload>,
    b64: Bytes -> string,
    unb64: string -> Option<Bytes>,
    mac: string -> Bytes)

  /** JSON and base64 invert their encoders, and base64 text has no dot. */
  ghost predicate CodecOk(c: Codec) {
    && (forall p :: c.unjson(c.json(p)) == Some(p))
    && (forall b :: c.unb64(c.b64(b)) == Some(b) && '.' !in c.b64(b))
  }

  /** `encode_cursor`. */
  function EncodeCursor(c: Codec, p: Payload): string {
    var payload := c.b64(c.json(p));
    "s." + payload + "." + c.b64(c.mac(payload))
  }

  function IndexOf(text: string, ch: char): (r: Option<nat>)
    ensures r.None? <==> ch !in text
    ensures r.Some? ==> r.value < |text| && text[r.value] == ch && ch !in text[..r.value]
  {
    if text == [] then None
    else if text[0] == ch then Some(0)
    else
      var r := IndexOf(text[1..], ch);
      if r.None? then None else Some(r.value + 1)
  }

  /** `constant_time_eq`: the accumulated difference is zero exactly for equal bytes. */
  method ConstantTimeEq(a: Bytes, b: Bytes) returns (eq: bool)
    ensures eq <==> a == b
  {
    if |a| != |b| {
      return false;
    }
    var diff: bv8 := 0;
    for i := 0 to |a|
      invariant diff == 0 <==> a[..i] == b[..i]
    {
      OrIsZero(diff, a[i], b[i]);
      diff := diff | (a[i] ^ b[i]);
      assert a[..i + 1] == a[..i] + [a[i]] && b[..i + 1] == b[..i] + [b[i]];
    }
    assert a[..|a|] == a && b[..|b|] == b;
    eq := diff == 0;
  }

  lemma OrIsZero(diff: bv8, x: bv8, y: bv8)
    ensures diff | (x ^ y) == 0 <==> diff == 0 && x == y
  {
  }

  /** `decode_cursor`. */
  method DecodeCursor(c: Codec, token: string) returns (r: Option<Payload>)
    ensures r == Decoded(c, token)
  {
    if !("s." <= token) {
      return None;
    }
    var body := token[2..];
    var dot := IndexOf(body, '.');
    if dot.None? {
      return None;
    }
    var payload, mac := body[..dot.value], body[dot.value + 1..];
    var actual := c.unb64(mac);
    if actual.None? {
      return None;
    }
    var same := ConstantTimeEq(c.mac(payload), actual.value);
    if !same {
      return None;
    }
    r := DecodedPayload(c, payload);
  }

  function DecodedPayload(c: Codec, payload: string): Option<Payload> {
    var json := c.unb64(payload);
    if json.None? then None
    else
      var p := c.unjson(json.value);
      if p.Some? && p.value.version == 1 then p else None
  }

  function Decoded(c: Codec, token: string): Option<Payload> {
    var dot := if "s." <= token then IndexOf(token[2..], '.') else None;
    if dot.None? then None
    else
      var payload, mac := token[2..][..dot.value], token[2..][dot.value + 1..];
      if c.unb64(mac) == Some(c.mac(payload)) then DecodedPayload(c, payload) else None
  }

  /** A token of the payload's text and a signature of that text. */
  ghost predicate Signed(c: Codec, token: string, payload: string, mac: string) {
    '.' !in payload && token == "s." + payload + "." + mac && c.unb64(mac) == Some(c.mac(payload))
  }

  lemma SplitToken(payload: string, mac: string)
    requires '.' !in payload
    ensures var token := "s." + payload + "." + mac;
            && "s." <= token && IndexOf(token[2..], '.') == Some(|payload|)
            && token[2..][..|payload|] == payload && token[2..][|payload| + 1..] == mac
  {
    var body := ("s." + payload + "." + mac)[2..];
    assert body == payload + "." + mac;
    assert body[|payload|] == '.';
  }

  lemma SignedDecodes(c: Codec, token: string, payload: string, mac: string)
    requires Signed(c, token, payload, mac)
    ensures Decoded(c, token) == DecodedPayload(c, payload)
  {
    SplitToken(payload, mac);
  }

  lemma TokenJoins(token: string, dot: nat)
    requires "s." <= token && dot < |token[2..]| && token[2..][dot] == '.'
    ensures token == "s." + token[2..][..dot] + "." + token[2..][dot + 1..]
  {
  }

  lemma DecodedIsSigned(c: Codec, token: string) returns (payload: string, mac: string)
    requires Decoded(c, token).Some?
    ensures Signed(c, token, payload, mac)
  {
    var body := token[2..];
    var dot := IndexOf(body, '.').value;
    payload, mac := body[..dot], body[dot + 1..];
    TokenJoins(token, dot);
  }

  /** The payload's text is base64 of JSON of `p`, of version 1. */
  ghost predicate Holds(c: Codec, payload: string, p: Payload) {
    p.version == 1 && exists json :: c.unb64(payload) == Some(json) && c.unjson(json) == Some(p)
  }

  lemma HoldsExactly(c: Codec, payload: string, p: Payload)
    ensures DecodedPayload(c, payload) == Some(p) <==> Holds(c, payload, p)
  {
  }

  /** A token is accepted exactly when it is a signed text that holds a version 1 payload. */
  lemma AcceptsExactlySigned(c: Codec, token: string, p: Payload)
    ensures Decoded(c, token) == Some(p) <==>
            exists payload, mac :: Signed(c, token, payload, mac) && Holds(c, payload, p)
  {
    if payload, mac :| Signed(c, token, payload, mac) && Holds(c, payload, p) {
      SignedDecodes(c, token, payload, mac);
      HoldsExactly(c, payload, p);
    } else if Decoded(c, token) == Some(p) {
      var payload, mac := DecodedIsSigned(c, token);
      SignedDecodes(c, token, payload, mac);
      HoldsExactly(c, payload, p);
    }
  }

  /** A minted token decodes to the payload it was minted from, if that has version 1. */
  lemma CursorRoundTrip(c: Codec, p: Payload)
    requires CodecOk(c)
    ensures Decoded(c, EncodeCursor(c, p)) == if p.version == 1 then Some(p) else None
  {
    var payload := c.b64(c.json(p));
    SplitToken(payload, c.b64(c.mac(payload)));
  }

  // ---------------------------------------------------------------------
  // The arguments of a page
  // ---------------------------------------------------------------------

  datatype Runtime = Runtime(columns: seq<string>, initial: map<string, Value>, codec: Codec, binding: string)

  datatype StreamError = NotAnObject | BadToken | OtherBinding(name: string) | ColumnDrift(n: nat) | NotAToken

  type Args = Params.Args<Value>

  /** The key of the first page: null where `initial` says nothing. */
  function InitialKey(rt: Runtime): (key: Key)
    ensures |key| == |rt.columns|
  {
    seq(|rt.columns|, i requires 0 <= i < |rt.columns| =>
      if rt.columns[i] in rt.initial then rt.initial[rt.columns[i]] else Null)
  }

  /** The key a `_cursor` argument stands for. */
  function KeysetFor(rt: Runtime, cursor: Option<Value>): (r: Result<Key, StreamError>)
    ensures r.Ok? ==> |r.value| == |rt.columns|
  {
    match cursor
    case None => Ok(InitialKey(rt))
    case Some(Null) => Ok(InitialKey(rt))
    case Some(Str(token)) =>
      if token == "" then Err(NotAToken)
      else
        var p := Decoded(rt.codec, token);
        if p.None? then Err(BadToken)
        else if p.value.binding != rt.binding then Err(OtherBinding(p.value.binding))
        else if |p.value.keyset| != |rt.columns| then Err(ColumnDrift(|p.value.keyset|))
        else Ok(p.value.keyset)
    case Some(_) => Err(NotAToken)
  }

  /** `key` is what a `_cursor` argument stands for: the initial key without one, or that of an accepted token. */
  ghost predicate StandsFor(rt: Runtime, cursor: Option<Value>, key: Key) {
    && |key| == |rt.columns|
    && if cursor.None? || cursor == Some(Null) then
         forall i :: 0 <= i < |key| ==>
           key[i] == if rt.columns[i] in rt.initial then rt.initial[rt.columns[i]] else Null
       else
         cursor.value.Str? && cursor.value.s != "" &&
         exists p :: Decoded(rt.codec, cursor.value.s) == Some(p) && p.binding == rt.binding && p.keyset == key
  }

  /** Exactly the cursors of this binding, with a value for each column, are taken, and for their own key. */
  lemma StandsForExactly(rt: Runtime, cursor: Option<Value>, key: Key)
    ensures KeysetFor(rt, cursor) == Ok(key) <==> StandsFor(rt, cursor, key)
  {
    if cursor.None? || cursor == Some(Null) {
      assert StandsFor(rt, cursor, key) ==> key == InitialKey(rt);
    }
  }

  /** The fields with every key column's placeholder set, whatever the caller sent for it. */
  function Bind(columns: seq<string>, key: Key, fields: Row): Row
    requires |key| == |columns|
  {
    if columns == [] then fields
    else
      var n := |columns| - 1;
      Bind(columns[..n], key[..n], fields)[AFTER_PREFIX + columns[n] := key[n]]
  }

  function CursorIn(fields: Row): Option<Value> {
    if "_cursor" in fields then Some(fields["_cursor"]) else None
  }

  function Applied(rt: Runtime, args: Args): Result<Row, StreamError> {
    if args.OtherJson? then Err(NotAnObject)
    else
      var fields := if args.Null? then map[] else args.fields;
      var key := KeysetFor(rt, CursorIn(fields));
      if key.Err? then Err(key.error) else Ok(Bind(rt.columns, key.value, fields - {"_cursor"}))
  }

  /** `apply_stream_cursor`: `out` is the argument value it leaves, on an error too. */
  method ApplyStreamCursor(rt: Runtime, args: Args) returns (out: Args, r: Result<(), StreamError>)
    ensures r.Ok? <==> Applied(rt, args).Ok?
    ensures r.Ok? ==> out == Params.Object(Applied(rt, args).value)
    ensures r.Err? ==> r.error == Applied(rt, args).error
    ensures r.Err? && args.Object? ==> out == Params.Object(args.fields - {"_cursor"})
  {
    if args.OtherJson? {
      return args, Err(NotAnObject);
    }
    var fields: Row := if args.Null? then map[] else args.fields;
    var cursor := CursorIn(fields);
    fields := fields - {"_cursor"};
    out := Params.Object(fields);
    var key;
    if cursor.Some? && cursor.value.Str? && cursor.value.s != "" {
      var p := DecodeCursor(rt.codec, cursor.value.s);
      if p.None? {
        return out, Err(BadToken);
      }
      if p.value.binding != rt.binding {
        return out, Err(OtherBinding(p.value.binding));
      }
      if |p.value.keyset| != |rt.columns| {
        return out, Err(ColumnDrift(|p.value.keyset|));
      }
      key := p.value.keyset;
    } else if cursor == Some(Value.Null) || cursor.None? {
      key := InitialKey(rt);
    } else {
      return out, Err(NotAToken);
    }
    var bound := BindAll(rt.columns, key, fields);
    return Params.Object(bound), Ok(());
  }

  method BindAll(columns: seq<string>, key: Key, fields: Row) returns (out: Row)
    requires |key| == |columns|
    ensures out == Bind(columns, key, fields)
  {
    out := fields;
    for i := 0 to |columns|
      invariant out == Bind(columns[..i], key[..i], fields)
    {
      out := out[AFTER_PREFIX + columns[i] := key[i]];
      assert columns[..i + 1][..i] == columns[..i] && key[..i + 1][..i] == key[..i];
    }
    assert columns[..|columns|] == columns && key[..|key|] == key;
  }

  /** Columns named twice have one value. */
  ghost predicate Consistent(columns: seq<string>, key: Key) {
    && |key| == |columns|
    && forall i, j :: 0 <= i < |columns| && 0 <= j < |columns| && columns[i] == columns[j] ==> key[i] == key[j]
  }

  ghost predicate BindsAll(columns: seq<string>, fields: Row) {
    forall i :: 0 <= i < |columns| ==> AFTER_PREFIX + columns[i] in fields
  }

  /** The key the query sees. */
  function KeyIn(columns: seq<string>, fields: Row): (key: Key)
    requires forall i :: 0 <= i < |columns| ==> AFTER_PREFIX + columns[i] in fields
    ensures |key| == |columns|
  {
    seq(|columns|, i requires 0 <= i < |columns| => fields[AFTER_PREFIX + columns[i]])
  }

  lemma SameColumn(a: string, b: string)
    requires AFTER_PREFIX + a == AFTER_PREFIX + b
    ensures a == b
  {
    assert (AFTER_PREFIX + a)[|AFTER_PREFIX|..] == a;
    assert (AFTER_PREFIX + b)[|AFTER_PREFIX|..] == b;
  }

  lemma {:induction false} BindSets(columns: seq<string>, key: Key, fields: Row, i: nat)
    requires Consistent(columns, key) && i < |columns|
    ensures var out := Bind(columns, key, fields);
            AFTER_PREFIX + columns[i] in out && out[AFTER_PREFIX + columns[i]] == key[i]
    decreases |columns|
  {
    var n := |columns| - 1;
    if AFTER_PREFIX + columns[i] == AFTER_PREFIX + columns[n] {
      SameColumn(columns[i], columns[n]);
    } else {
      BindSets(columns[..n], key[..n], fields, i);
    }
  }

  /** Nothing but the placeholders is touched. */
  lemma {:induction false} BindKeepsOthers(columns: seq<string>, key: Key, fields: Row, name: string)
    requires |key| == |columns| && name !in AfterNames(columns)
    ensures var out := Bind(columns, key, fields);
            (name in out <==> name in fields) && (name in fields ==> out[name] == fields[name])
    decreases |columns|
  {
    if columns != [] {
      var n := |columns| - 1;
      assert AfterNames(columns)[n] == AFTER_PREFIX + columns[n];
      assert name !in AfterNames(columns[..n]) by {
        assert forall i :: 0 <= i < n ==> AfterNames(columns[..n])[i] == AfterNames(columns)[i];
      }
      BindKeepsOthers(columns[..n], key[..n], fields, name);
    }
  }

  /** The query sees exactly the bound key, whatever `_after_` values the caller sent. */
  lemma QuerySeesKeyset(columns: seq<string>, key: Key, fields: Row)
    requires Consistent(columns, key)
    ensures BindsAll(columns, Bind(columns, key, fields))
    ensures KeyIn(columns, Bind(columns, key, fields)) == key
  {
    var out := Bind(columns, key, fields);
    forall i | 0 <= i < |columns|
      ensures AFTER_PREFIX + columns[i] in out && out[AFTER_PREFIX + columns[i]] == key[i]
    {
      BindSets(columns, key, fields, i);
    }
  }

  lemma NotACursor(columns: seq<string>)
    ensures "_cursor" !in AfterNames(columns)
  {
    forall i | 0 <= i < |columns|
      ensures AfterNames(columns)[i] != "_cursor"
    {
      assert AfterNames(columns)[i][1] == 'a';
    }
  }

  /** The arguments given to the query: the key in its placeholders, no `_cursor`, and the others as they were. */
  lemma AppliedExactly(rt: Runtime, args: Args, key: Key, name: string)
    requires !args.OtherJson?
    requires var fields := if args.Null? then map[] else args.fields; KeysetFor(rt, CursorIn(fields)) == Ok(key)
    ensures Applied(rt, args).Ok?
    ensures Consistent(rt.columns, key) ==>
              BindsAll(rt.columns, Applied(rt, args).value) && KeyIn(rt.columns, Applied(rt, args).value) == key
    ensures var fields, out := if args.Null? then map[] else args.fields, Applied(rt, args).value;
            && "_cursor" !in out
            && (name !in AfterNames(rt.columns) && name != "_cursor" ==>
                  (name in out <==> name in fields) && (name in fields ==> out[name] == fields[name]))
  {
    var fields: Row := if args.Null? then map[] else args.fields;
    NotACursor(rt.columns);
    BindKeepsOthers(rt.columns, key, fields - {"_cursor"}, "_cursor");
    if name !in AfterNames(rt.columns) {
      BindKeepsOthers(rt.columns, key, fields - {"_cursor"}, name);
    }
    if Consistent(rt.columns, key) {
      QuerySeesKeyset(rt.columns, key, fields - {"_cursor"});
    }
  }

  // ---------------------------------------------------------------------
  // One call
  // ---------------------------------------------------------------------

  function RowKeyset(columns: seq<string>, row: Row): (r: Option<Key>)
    ensures r.Some? <==> forall i :: 0 <= i < |columns| ==> columns[i] in row
    ensures r.Some? ==> |r.value| == |columns| && forall i :: 0 <= i < |columns| ==> r.value[i] == row[columns[i]]
  {
    if forall i :: 0 <= i < |columns| ==> columns[i] in row
    then Some(seq(|columns|, i requires 0 <= i < |columns| => row[columns[i]]))
    else None
  }

  function Token(rt: Runtime, key: Key): string {
    EncodeCursor(rt.codec, Payload(1, rt.binding, "", key))
  }

  /** The cursor of a page: its last row's key, or null. */
  function Minted(rt: Runtime, rows: seq<Row>): Value {
    if rows == [] then Null
    else
      var key := RowKeyset(rt.columns, rows[|rows| - 1]);
      if key.None? then Null else Str(Token(rt, key.value))
  }

  /** `mint_next_cursor`. */
  method MintNextCursor(rt: Runtime, rows: seq<Row>) returns (cursor: Value)
    ensures cursor == Minted(rt, rows)
    ensures cursor == Null <==> rows == [] || exists c :: c in rt.columns && c !in rows[|rows| - 1]
  {
    if rows == [] {
      return Null;
    }
    var last := rows[|rows| - 1];
    var keyset: Key := [];
    for i := 0 to |rt.columns|
      invariant |keyset| == i
      invariant forall j :: 0 <= j < i ==> rt.columns[j] in last && keyset[j] == last[rt.columns[j]]
    {
      if rt.columns[i] !in last {
        assert rt.columns[i] in rt.columns;
        return Null;
      }
      keyset := keyset + [last[rt.columns[i]]];
    }
    assert keyset == RowKeyset(rt.columns, last).value;
    cursor := Str(Token(rt, keyset));
  }

  datatype Response = Response(rows: seq<Row>, truncated: bool, next: Value)

  function Cut(rows: seq<Row>, maxRows: nat): seq<Row> {
    if |rows| > maxRows then rows[..maxRows] else rows
  }

  function Respond(rt: Runtime, query: Row -> seq<Row>, maxRows: nat, args: Args): Result<Response, StreamError> {
    var fields := Applied(rt, args);
    if fields.Err? then Err(fields.error)
    else
      var rows := query(fields.value);
      Ok(Response(Cut(rows, maxRows), |rows| > maxRows, Minted(rt, Cut(rows, maxRows))))
  }

  /** One stream call: the cursor is applied, the rows are cut to `max_rows`, then the next cursor minted. */
  method Execute(rt: Runtime, query: Row -> seq<Row>, maxRows: nat, args: Args)
    returns (r: Result<Response, StreamError>)
    ensures r == Respond(rt, query, maxRows, args)
    ensures r.Ok? ==> Applied(rt, args).Ok?
    ensures r.Ok? ==>
              var rows := query(Applied(rt, args).value);
              && r.value.rows <= rows && |r.value.rows| == (if |rows| < maxRows then |rows| else maxRows)
              && (r.value.truncated <==> r.value.rows != rows) && r.value.next == Minted(rt, r.value.rows)
  {
    var bound, ok := ApplyStreamCursor(rt, args);
    if ok.Err? {
      return Err(ok.error);
    }
    var rows := query(bound.fields);
    var truncated := |rows| > maxRows;
    if truncated {
      rows := rows[..maxRows];
    }
    var next := MintNextCursor(rt, rows);
    r := Ok(Response(rows, truncated, next));
  }

  // ---------------------------------------------------------------------
  // Following the cursors
  // ---------------------------------------------------------------------

  function RowsOf(table: Table): (rows: seq<Row>)
    ensures |rows| == |table| && forall i :: 0 <= i < |table| ==> rows[i] == table[i].row
  {
    seq(|table|, i requires 0 <= i < |table| => table[i].row)
  }

  /** Some of the first rows after the key, and at least one if there is any. */
  ghost predicate Pages(before: Order, table: Table, key: Key, rows: seq<Row>) {
    var rest := After(before, table, key);
    |rows| <= |rest| && rows == RowsOf(rest[..|rows|]) && (rows == [] ==> rest == [])
  }

  /** A correct keyset query: it pages, whatever its other arguments. */
  ghost predicate KeysetQuery(rt: Runtime, before: Order, table: Table, query: Row -> seq<Row>) {
    forall fields :: BindsAll(rt.columns, fields) ==> Pages(before, table, KeyIn(rt.columns, fields), query(fields))
  }

  ghost predicate TableOk(rt: Runtime, before: Order, table: Table) {
    && Ordered(before) && Sorted(before, table)
    && forall i :: 0 <= i < |table| ==> RowKeyset(rt.columns, table[i].row) == Some(table[i].pos)
  }

  datatype Follow = Following(rows: seq<Row>, cursor: Value) | Ended(rows: seq<Row>) | Failed

  /** The caller's `k`-th arguments, with the cursor it was given. */
  function CallArgs(fields: Row, cursor: Value): Args {
    Params.Object(fields["_cursor" := cursor])
  }

  /** What a call's response adds. */
  function Next(f: Follow, r: Result<Response, StreamError>): Follow
    requires f.Following?
  {
    if r.Err? then Failed
    else if r.value.next == Null then Ended(f.rows + r.value.rows)
    else Following(f.rows + r.value.rows, r.value.next)
  }

  /** `n` calls, each with the cursor of the one before and any other arguments, until a null cursor. */
  function Followed(rt: Runtime, query: Row -> seq<Row>, maxRows: nat, calls: nat -> Row, n: nat): Follow {
    if n == 0 then Following([], Null)
    else
      var f := Followed(rt, query, maxRows, calls, n - 1);
      if !f.Following? then f
      else Next(f, Respond(rt, query, maxRows, CallArgs(calls(n - 1), f.cursor)))
  }

  /** A minted cursor stands for the key of the row it was minted from. */
  lemma MintedKeyset(rt: Runtime, row: Row, key: Key)
    requires CodecOk(rt.codec) && RowKeyset(rt.columns, row) == Some(key)
    ensures KeysetFor(rt, Some(Str(Token(rt, key)))) == Ok(key)
  {
    CursorRoundTrip(rt.codec, Payload(1, rt.binding, "", key));
    assert Token(rt, key)[0] == 's';
  }

  /** The cursor of a page that ends with a full row decodes to that row's key, for this binding. */
  lemma MintedHoldsKey(rt: Runtime, rows: seq<Row>) returns (token: string, key: Key)
    requires CodecOk(rt.codec) && rows != [] && forall c :: c in rt.columns ==> c in rows[|rows| - 1]
    ensures Minted(rt, rows) == Str(token) && |key| == |rt.columns|
    ensures Decoded(rt.codec, token) == Some(Payload(1, rt.binding, "", key))
    ensures forall i :: 0 <= i < |key| ==>
              rt.columns[i] in rows[|rows| - 1] && key[i] == rows[|rows| - 1][rt.columns[i]]
  {
    var last := rows[|rows| - 1];
    assert forall i :: 0 <= i < |rt.columns| ==> rt.columns[i] in rt.columns;
    key := RowKeyset(rt.columns, last).value;
    token := Token(rt, key);
    CursorRoundTrip(rt.codec, Payload(1, rt.binding, "", key));
  }

  /** A call with the cursor of `key` gives the next rows, at least one if there is any. */
  lemma CallPages(
    rt: Runtime, before: Order, table: Table, query: Row -> seq<Row>, maxRows: nat, fields: Row, cursor: Value,
    key: Key)
    requires KeysetQuery(rt, before, table, query) && maxRows >= 1
    requires KeysetFor(rt, Some(cursor)) == Ok(key) && Consistent(rt.columns, key)
    ensures var r := Respond(rt, query, maxRows, CallArgs(fields, cursor));
            && r.Ok? && |r.value.rows| <= maxRows && Pages(before, table, key, r.value.rows)
            && r.value.next == Minted(rt, r.value.rows)
  {
    var sent := fields["_cursor" := cursor];
    var bound := Bind(rt.columns, key, sent - {"_cursor"});
    QuerySeesKeyset(rt.columns, key, sent - {"_cursor"});
    var rest := After(before, table, key);
    var rows := query(bound);
    assert Pages(before, table, key, rows);
    assert Pages(before, table, key, Cut(rows, maxRows));
  }

  /** After `m` of the rows owed: the cursor stands for the key of the last of them. */
  ghost predicate At(rt: Runtime, all: Table, m: nat, f: Follow) {
    && m <= |all| && f.Following? && f.rows == RowsOf(all[..m])
    && KeysetFor(rt, Some(f.cursor)) == Ok(KeyPast(all[..m], InitialKey(rt)))
  }

  lemma KeyPastIsConsistent(rt: Runtime, before: Order, table: Table, m: nat)
    requires TableOk(rt, before, table) && m <= |After(before, table, InitialKey(rt))|
    ensures Consistent(rt.columns, KeyPast(After(before, table, InitialKey(rt))[..m], InitialKey(rt)))
  {
    var all := After(before, table, InitialKey(rt));
    if m > 0 {
      RestCarriesKeys(rt, before, table, InitialKey(rt));
      KeyOfLast(all, m, InitialKey(rt));
      RowKeyIsConsistent(rt.columns, all[m - 1].row, all[m - 1].pos);
    }
  }

  lemma RowKeyIsConsistent(columns: seq<string>, row: Row, key: Key)
    requires RowKeyset(columns, row) == Some(key)
    ensures Consistent(columns, key)
  {
  }

  lemma RowsJoin(all: Table, m: nat, rows: seq<Row>)
    requires m + |rows| <= |all| && rows == RowsOf(all[m..][..|rows|])
    ensures RowsOf(all[..m]) + rows == RowsOf(all[..m + |rows|])
    ensures rows != [] ==> rows[|rows| - 1] == all[m + |rows| - 1].row
  {
  }

  lemma RestCarriesKeys(rt: Runtime, before: Order, table: Table, key: Key)
    requires TableOk(rt, before, table)
    ensures var all := After(before, table, key);
            forall i :: 0 <= i < |all| ==> RowKeyset(rt.columns, all[i].row) == Some(all[i].pos)
  {
    var from := AfterIsRest(before, table, key);
  }

  /** The cursor after a page stands for the key of the last row so far. */
  ghost predicate Stands(rt: Runtime, next: Value, key: Key) {
    next != Null && KeysetFor(rt, Some(next)) == Ok(key)
  }

  lemma MintedStands(rt: Runtime, rows: seq<Row>, next: Value, key: Key)
    requires CodecOk(rt.codec) && rows != [] && next == Minted(rt, rows)
    requires RowKeyset(rt.columns, rows[|rows| - 1]) == Some(key)
    ensures Stands(rt, next, key)
  {
    MintedKeyset(rt, rows[|rows| - 1], key);
  }

  /** The rows of a page from the `m`-th row owed, and the cursor of the last. */
  ghost predicate NextPage(rt: Runtime, all: Table, m: nat, r: Response) {
    && m + |r.rows| <= |all| && r.rows == RowsOf(all[m..][..|r.rows|])
    && if r.rows == [] then m == |all| && r.next == Null else Stands(rt, r.next, all[m + |r.rows| - 1].pos)
  }

  lemma PageStands(rt: Runtime, all: Table, m: nat, r: Response)
    requires CodecOk(rt.codec) && r.next == Minted(rt, r.rows)
    requires forall i :: 0 <= i < |all| ==> RowKeyset(rt.columns, all[i].row) == Some(all[i].pos)
    requires m + |r.rows| <= |all| && r.rows == RowsOf(all[m..][..|r.rows|]) && (r.rows == [] ==> m == |all|)
    ensures NextPage(rt, all, m, r)
  {
    if r.rows != [] {
      RowsJoin(all, m, r.rows);
      MintedStands(rt, r.rows, r.next, all[m + |r.rows| - 1].pos);
    }
  }

  lemma OneCall(
    rt: Runtime, before: Order, table: Table, query: Row -> seq<Row>, maxRows: nat, fields: Row, cursor: Value,
    m: nat) returns (r: Response)
    requires CodecOk(rt.codec) && TableOk(rt, before, table) && KeysetQuery(rt, before, table, query)
    requires maxRows >= 1
    requires var all := After(before, table, InitialKey(rt));
             m <= |all| && KeysetFor(rt, Some(cursor)) == Ok(KeyPast(all[..m], InitialKey(rt)))
    ensures Respond(rt, query, maxRows, CallArgs(fields, cursor)) == Ok(r)
    ensures NextPage(rt, After(before, table, InitialKey(rt)), m, r)
  {
    var all := After(before, table, InitialKey(rt));
    KeyPastIsConsistent(rt, before, table, m);
    CallPages(rt, before, table, query, maxRows, fields, cursor, KeyPast(all[..m], InitialKey(rt)));
    AfterMoves(before, table, InitialKey(rt), m);
    RestCarriesKeys(rt, before, table, InitialKey(rt));
    r := Respond(rt, query, maxRows, CallArgs(fields, cursor)).value;
    PageStands(rt, all, m, r);
  }

  /** What a page that continues from the `m`-th row leads to. */
  lemma NextIsAt(rt: Runtime, all: Table, m: nat, f: Follow, r: Response)
    requires At(rt, all, m, f) && NextPage(rt, all, m, r)
    ensures Next(f, Ok(r)) == Ended(RowsOf(all)) || (At(rt, all, m + |r.rows|, Next(f, Ok(r))) && r.rows != [])
  {
    RowsJoin(all, m, r.rows);
    if r.rows == [] {
      assert all[..m] == all;
    } else {
      StandsAt(rt, all, m + |r.rows|, f.rows + r.rows, r.next);
    }
  }

  lemma StandsAt(rt: Runtime, all: Table, n: nat, rows: seq<Row>, next: Value)
    requires 0 < n <= |all| && rows == RowsOf(all[..n]) && Stands(rt, next, all[n - 1].pos)
    ensures At(rt, all, n, Following(rows, next))
  {
    KeyOfLast(all, n, InitialKey(rt));
  }

  lemma KeyOfLast(rows: Table, n: nat, key: Key)
    requires 0 < n <= |rows|
    ensures KeyPast(rows[..n], key) == rows[n - 1].pos
  {
  }


  /** Every call whose cursor stands for the `m`-th row owed gives the next page. */
  ghost predicate PagesOn(rt: Runtime, query: Row -> seq<Row>, maxRows: nat, all: Table) {
    forall m: nat, fields, cursor {:trigger PageFor(rt, query, maxRows, all, m, fields, cursor)} ::
      m <= |all| && KeysetFor(rt, Some(cursor)) == Ok(KeyPast(all[..m], InitialKey(rt))) ==>
        PageFor(rt, query, maxRows, all, m, fields, cursor)
  }

  ghost predicate PageFor(
    rt: Runtime, query: Row -> seq<Row>, maxRows: nat, all: Table, m: nat, fields: Row, cursor: Value)
  {
    var r := Respond(rt, query, maxRows, CallArgs(fields, cursor));
    r.Ok? && NextPage(rt, all, m, r.value)
  }

  lemma CallsPageOn(rt: Runtime, before: Order, table: Table, query: Row -> seq<Row>, maxRows: nat)
    requires CodecOk(rt.codec) && TableOk(rt, before, table) && KeysetQuery(rt, before, table, query)
    requires maxRows >= 1
    ensures PagesOn(rt, query, maxRows, After(before, table, InitialKey(rt)))
  {
    var all := After(before, table, InitialKey(rt));
    forall m: nat, fields, cursor |
      m <= |all| && KeysetFor(rt, Some(cursor)) == Ok(KeyPast(all[..m], InitialKey(rt)))
      ensures PageFor(rt, query, maxRows, all, m, fields, cursor)
    {
      var r := OneCall(rt, before, table, query, maxRows, fields, cursor, m);
    }
  }

  /**
   After any number of calls the rows given are a prefix of those owed, at least one more
   per call, and the following ends only with all of them.
   */
  lemma {:induction false} FollowedIsPrefix(
    rt: Runtime, query: Row -> seq<Row>, maxRows: nat, all: Table, calls: nat -> Row, n: nat) returns (m: nat)
    requires PagesOn(rt, query, maxRows, all)
    ensures var f := Followed(rt, query, maxRows, calls, n);
            (At(rt, all, m, f) && n <= m) || f == Ended(RowsOf(all))
  {
    m := 0;
    if n > 0 {
      m := FollowedIsPrefix(rt, query, maxRows, all, calls, n - 1);
      var f := Followed(rt, query, maxRows, calls, n - 1);
      if f.Following? {
        m := StepOn(rt, query, maxRows, all, m, calls(n - 1), f);
      }
    }
  }

  lemma StepOn(rt: Runtime, query: Row -> seq<Row>, maxRows: nat, all: Table, m: nat, fields: Row, f: Follow)
    returns (n: nat)
    requires PagesOn(rt, query, maxRows, all) && At(rt, all, m, f)
    ensures var g := Next(f, Respond(rt, query, maxRows, CallArgs(fields, f.cursor)));
            (At(rt, all, n, g) && m < n) || g == Ended(RowsOf(all))
  {
    var r := Respond(rt, query, maxRows, CallArgs(fields, f.cursor));
    assert PageFor(rt, query, maxRows, all, m, fields, f.cursor);
    NextIsAt(rt, all, m, f, r.value);
    n := m + |r.value.rows|;
  }

  /** With `max_rows` 0 the first page is cut to nothing, and so is the following. */
  lemma {:induction false} NoRowsAtAll(
    rt: Runtime, before: Order, table: Table, query: Row -> seq<Row>, calls: nat -> Row, n: nat)
    requires KeysetQuery(rt, before, table, query) && n > 0
    ensures Followed(rt, query, 0, calls, n) == Ended([])
  {
    if n > 1 {
      NoRowsAtAll(rt, before, table, query, calls, n - 1);
    } else {
      var start := Followed(rt, query, 0, calls, 0);
      assert start == Following([], Null);
    }
  }

  /**
   Following the cursors until null gives every row after the initial key exactly once and
   in order, whatever `max_rows` cuts and whatever else the caller sends, within one call
   more than there are rows: exactly when `max_rows` lets a row through.
   */
  lemma FollowingVisitsEveryRow(
    rt: Runtime, before: Order, table: Table, query: Row -> seq<Row>, maxRows: nat, calls: nat -> Row, n: nat)
    requires CodecOk(rt.codec) && TableOk(rt, before, table) && KeysetQuery(rt, before, table, query)
    requires n > |After(before, table, InitialKey(rt))|
    ensures Followed(rt, query, maxRows, calls, n) == Ended(RowsOf(After(before, table, InitialKey(rt)))) <==>
            maxRows >= 1 || After(before, table, InitialKey(rt)) == []
  {
    if maxRows >= 1 {
      CallsPageOn(rt, before, table, query, maxRows);
      var m := FollowedIsPrefix(rt, query, maxRows, After(before, table, InitialKey(rt)), calls, n);
    } else {
      NoRowsAtAll(rt, before, table, query, calls, n);
    }
  }

  // ---------------------------------------------------------------------
  // A stream that ends before its first row
  // ---------------------------------------------------------------------

  /** The query that gives every row after the key at once. */
  ghost function WholeQuery(rt: Runtime, before: Order, table: Table): Row -> seq<Row> {
    (fields: Row) =>
      if BindsAll(rt.columns, fields) then RowsOf(After(before, table, KeyIn(rt.columns, fields))) else []
  }

  lemma WholeQueryPages(rt: Runtime, before: Order, table: Table)
    ensures KeysetQuery(rt, before, table, WholeQuery(rt, before, table))
  {
    forall fields | BindsAll(rt.columns, fields)
      ensures Pages(before, table, KeyIn(rt.columns, fields), WholeQuery(rt, before, table)(fields))
    {
      var rest := After(before, table, KeyIn(rt.columns, fields));
      assert rest[..|rest|] == rest;
    }
  }

  /** A stream of one row, whose key is 1. */
  function OneRow(codec: Codec): Runtime {
    Runtime(["id"], map["id" := Int(0)], codec, "rows")
  }

  function RowOne(): Table {
    [Entry([Int(1)], map["id" := Int(1)])]
  }

  lemma OneRowIsOwed(codec: Codec)
    ensures TableOk(OneRow(codec), Numbers(), RowOne())
    ensures After(Numbers(), RowOne(), InitialKey(OneRow(codec))) == RowOne()
  {
    assert RowKeyset(OneRow(codec).columns, RowOne()[0].row).value == [Int(1)];
    assert InitialKey(OneRow(codec)) == [Int(0)];
    assert After(Numbers(), RowOne()[..0], [Int(0)]) == [];
  }

  /** With `max_rows` 0 and one row to give, the first call gives none and a null cursor. */
  lemma ZeroRowsEndTheStream(codec: Codec, calls: nat -> Row)
    ensures var rt, query := OneRow(codec), WholeQuery(OneRow(codec), Numbers(), RowOne());
            && TableOk(rt, Numbers(), RowOne()) && KeysetQuery(rt, Numbers(), RowOne(), query)
            && After(Numbers(), RowOne(), InitialKey(rt)) != []
            && Followed(rt, query, 0, calls, 1) == Ended([])
  {
    OneRowIsOwed(codec);
    WholeQueryPages(OneRow(codec), Numbers(), RowOne());
    NoRowsAtAll(
      OneRow(codec), Numbers(), RowOne(), WholeQuery(OneRow(codec), Numbers(), RowOne()), calls, 1);
  }
}
