/**
 Placeholder rewriting: `:name` outside quotes becomes the driver's own
 placeholder. Each `char` here is one byte of the SQL text.
 */
module Params {
  import opened Wrappers
  import opened Sequences
  import Decimal

  datatype Driver = Postgres | Mysql | Mariadb | Sqlite

  // ---------------------------------------------------------------------
  // Quoting, which the placeholder rewriter and the statement scanner share
  // ---------------------------------------------------------------------

  datatype Quote = Outside | Single | Double

  /** The quoting after byte `c`. */
  function After(q: Quote, c: char): Quote {
    if c == '\'' && q != Double then (if q == Single then Outside else Single)
    else if c == '"' && q != Single then (if q == Double then Outside else Double)
    else q
  }

  /** The quoting at the end of `text`. */
  function QuoteAfter(text: string): Quote {
    if text == [] then Outside else After(QuoteAfter(text[..|text| - 1]), text[|text| - 1])
  }

  predicate IsIdent(c: char) {
    'a' <= c <= 'z' || 'A' <= c <= 'Z' || '0' <= c <= '9' || c == '_'
  }

  /** Where the name that may start at `j` ends. */
  function IdentEnd(sql: string, j: nat): (e: nat)
    requires j <= |sql|
    ensures j <= e <= |sql|
    decreases |sql| - j
  {
    if j < |sql| && IsIdent(sql[j]) then IdentEnd(sql, j + 1) else j
  }

  // ---------------------------------------------------------------------
  // Tokens
  // ---------------------------------------------------------------------

  datatype Token = Lit(c: char) | Cast | Name(name: string)

  /** The token at `i`. */
  function TokenAt(sql: string, i: nat, q: Quote): (t: Token)
    requires i < |sql|
    ensures 0 < Width(t) <= |sql| - i
  {
    if sql[i] == ':' && q == Outside then
      if i + 1 < |sql| && sql[i + 1] == ':' then Cast
      else
        var e := IdentEnd(sql, i + 1);
        if e == i + 1 then Lit(':') else Name(sql[i + 1..e])
    else Lit(sql[i])
  }

  /** How many bytes a token takes. */
  function Width(t: Token): nat {
    match t
    case Lit(_) => 1
    case Cast => 2
    case Name(name) => 1 + |name|
  }

  function Next(q: Quote, t: Token): Quote {
    if t.Lit? then After(q, t.c) else q
  }

  function Lex(sql: string, i: nat, q: Quote): seq<Token>
    requires i <= |sql|
    decreases |sql| - i
  {
    if i == |sql| then []
    else
      var t := TokenAt(sql, i, q);
      [t] + Lex(sql, i + Width(t), Next(q, t))
  }

  function Names(tokens: seq<Token>): seq<string> {
    if tokens == [] then []
    else (if tokens[0].Name? then [tokens[0].name] else []) + Names(tokens[1..])
  }

  predicate Ascii(text: string) {
    forall c :: c in text ==> c as int < 128
  }

  /** A byte pushed as a `char`: past ASCII it is written back as two bytes. */
  function Push(c: char): (bytes: string)
    ensures c as int < 128 ==> bytes == [c]
    ensures c as int >= 128 ==> |bytes| == 2
    ensures 128 <= c as int < 256 ==>
              && 0xC0 <= bytes[0] as int < 0xE0 && 0x80 <= bytes[1] as int < 0xC0
              && 64 * (bytes[0] as int - 0xC0) + (bytes[1] as int - 0x80) == c as int
  {
    var code := c as int;
    if code < 128 then [c] else [(0xC0 + code % 256 / 64) as char, (0x80 + code % 64) as char]
  }

  /** What a token leaves in the output, with `fill` for a name. */
  function Piece(t: Token, fill: string): string {
    match t
    case Lit(c) => Push(c)
    case Cast => "::"
    case Name(_) => fill
  }

  /** The text of `tokens` with `fills` where the names stood. */
  function Weave(tokens: seq<Token>, fills: seq<string>): string
    requires |fills| == |Names(tokens)|
    decreases |tokens|
  {
    if tokens == [] then []
    else if tokens[0].Name? then fills[0] + Weave(tokens[1..], fills[1..])
    else Piece(tokens[0], "") + Weave(tokens[1..], fills)
  }

  function Placeholder(driver: Driver, k: nat): string {
    if driver == Postgres then "$" + Decimal.Text(k) else "?"
  }

  /** The placeholders numbered 1 to `n`. */
  function Placeholders(driver: Driver, n: nat): (fills: seq<string>)
    ensures |fills| == n
  {
    seq(n, i requires 0 <= i < n => Placeholder(driver, i + 1))
  }

  function Written(order: seq<string>): (fills: seq<string>)
    ensures |fills| == |order|
  {
    seq(|order|, i requires 0 <= i < |order| => ":" + order[i])
  }

  function Tokens(sql: string): seq<Token> {
    Lex(sql, 0, Outside)
  }

  /** The rewritten text. */
  function Rewritten(sql: string, driver: Driver): string {
    Weave(Tokens(sql), Placeholders(driver, |OrderOf(sql)|))
  }

  function OrderOf(sql: string): seq<string> {
    Names(Tokens(sql))
  }

  // ---------------------------------------------------------------------
  // One token more, at either end
  // ---------------------------------------------------------------------

  lemma NamesStep(t: Token, tokens: seq<Token>)
    ensures Names([t] + tokens) == (if t.Name? then [t.name] else []) + Names(tokens)
  {
    assert ([t] + tokens)[1..] == tokens;
  }

  lemma WeaveStep(t: Token, tokens: seq<Token>, fills: seq<string>)
    requires |fills| == |Names([t] + tokens)|
    ensures |Names([t] + tokens)| == |Names(tokens)| + if t.Name? then 1 else 0
    ensures Weave([t] + tokens, fills) ==
            if t.Name? then fills[0] + Weave(tokens, fills[1..]) else Piece(t, "") + Weave(tokens, fills)
  {
    assert ([t] + tokens)[1..] == tokens;
  }

  lemma LexStep(sql: string, i: nat, q: Quote)
    requires i < |sql|
    ensures var t := TokenAt(sql, i, q); Lex(sql, i, q) == [t] + Lex(sql, i + Width(t), Next(q, t))
  {
  }

  lemma {:induction false} NamesMore(tokens: seq<Token>, t: Token)
    ensures Names(tokens + [t]) == Names(tokens) + if t.Name? then [t.name] else []
    decreases |tokens|
  {
    if tokens == [] {
      assert tokens + [t] == [t] && [t][1..] == [];
    } else {
      var first, rest := tokens[0], tokens[1..];
      NamesMore(rest, t);
      assert tokens == [first] + rest && tokens + [t] == [first] + (rest + [t]);
      NamesStep(first, rest);
      NamesStep(first, rest + [t]);
      Associative(
        if first.Name? then [first.name] else [], Names(rest), if t.Name? then [t.name] else []);
    }
  }

  lemma {:induction false} WeaveMore(tokens: seq<Token>, fills: seq<string>, t: Token)
    requires |fills| == |Names(tokens)| && !t.Name?
    ensures Names(tokens + [t]) == Names(tokens)
    ensures Weave(tokens + [t], fills) == Weave(tokens, fills) + Piece(t, "")
    decreases |tokens|
  {
    NamesMore(tokens, t);
    if tokens == [] {
      assert tokens + [t] == [t] && [t][1..] == [];
    } else {
      var first, rest := tokens[0], tokens[1..];
      assert tokens == [first] + rest && tokens + [t] == [first] + (rest + [t]);
      WeaveStep(first, rest, fills);
      WeaveStep(first, rest + [t], fills);
      var fill, more := if first.Name? then fills[0] else Piece(first, ""), if first.Name? then fills[1..] else fills;
      WeaveMore(rest, more, t);
      Associative(fill, Weave(rest, more), Piece(t, ""));
    }
  }

  lemma {:induction false} WeaveName(tokens: seq<Token>, fills: seq<string>, t: Token, fill: string)
    requires |fills| == |Names(tokens)| && t.Name?
    ensures Names(tokens + [t]) == Names(tokens) + [t.name]
    ensures Weave(tokens + [t], fills + [fill]) == Weave(tokens, fills) + fill
    decreases |tokens|
  {
    NamesMore(tokens, t);
    if tokens == [] {
      assert tokens + [t] == [t] && [t][1..] == [] && fills + [fill] == [fill];
    } else {
      assert (tokens + [t])[1..] == tokens[1..] + [t];
      if tokens[0].Name? {
        assert (fills + [fill])[1..] == fills[1..] + [fill];
        WeaveName(tokens[1..], fills[1..], t, fill);
      } else {
        WeaveName(tokens[1..], fills, t, fill);
      }
    }
  }

  // ---------------------------------------------------------------------
  // The loop
  // ---------------------------------------------------------------------

  /** The loop has read `sql[..i]` into the tokens `seen`. */
  ghost predicate Read(sql: string, i: nat, q: Quote, seen: seq<Token>) {
    i <= |sql| && Tokens(sql) == seen + Lex(sql, i, q)
  }

  /** And has written this for them. */
  ghost predicate Wrote(driver: Driver, seen: seq<Token>, out: string, order: seq<string>) {
    order == Names(seen) && out == Weave(seen, Placeholders(driver, |order|))
  }

  lemma ReadOne(sql: string, i: nat, q: Quote, seen: seq<Token>, t: Token)
    requires Read(sql, i, q, seen) && i < |sql| && t == TokenAt(sql, i, q)
    ensures Read(sql, i + Width(t), Next(q, t), seen + [t])
  {
    Regroup(seen, t, Lex(sql, i + Width(t), Next(q, t)));
  }

  lemma Regroup(seen: seq<Token>, t: Token, rest: seq<Token>)
    ensures seen + ([t] + rest) == seen + [t] + rest
  {
  }

  lemma WroteOne(driver: Driver, seen: seq<Token>, out: string, order: seq<string>, t: Token)
    requires Wrote(driver, seen, out, order)
    ensures Wrote(driver, seen + [t], out + Piece(t, Placeholder(driver, |order| + 1)),
                  if t.Name? then order + [t.name] else order)
  {
    var n := |order|;
    var fills, fill := Placeholders(driver, n), Placeholder(driver, n + 1);
    if t.Name? {
      WeaveName(seen, fills, t, fill);
      assert fills + [fill] == Placeholders(driver, n + 1);
    } else {
      WeaveMore(seen, fills, t);
    }
  }

  /** What the loop has done when it stands at `i`. */
  ghost predicate SoFar(
    sql: string, driver: Driver, i: nat, q: Quote, seen: seq<Token>, out: string, order: seq<string>)
  {
    Read(sql, i, q, seen) && Wrote(driver, seen, out, order)
  }

  lemma Starts(sql: string, driver: Driver)
    ensures SoFar(sql, driver, 0, Outside, [], [], [])
  {
    assert [] + Tokens(sql) == Tokens(sql);
  }

  /** One token: from position `i` to position `j`. */
  lemma OneToken(
    sql: string, driver: Driver, i: nat, q: Quote, seen: seq<Token>, out: string, order: seq<string>, t: Token,
    j: nat, q': Quote, out': string, order': seq<string>)
    requires SoFar(sql, driver, i, q, seen, out, order) && i < |sql| && t == TokenAt(sql, i, q)
    requires j == i + Width(t) && q' == Next(q, t)
    requires out' == out + Piece(t, Placeholder(driver, |order| + 1))
    requires order' == if t.Name? then order + [t.name] else order
    ensures SoFar(sql, driver, j, q', seen + [t], out', order')
  {
    assert Read(sql, j, q', seen + [t]) by { ReadOne(sql, i, q, seen, t); }
    assert Wrote(driver, seen + [t], out', order') by { WroteOne(driver, seen, out, order, t); }
  }

  lemma Ends(sql: string, driver: Driver, q: Quote, seen: seq<Token>, out: string, order: seq<string>)
    requires SoFar(sql, driver, |sql|, q, seen, out, order)
    ensures out == Rewritten(sql, driver) && order == OrderOf(sql)
  {
    assert seen + [] == seen;
  }

  function QuoteOf(single: bool, double: bool): Quote {
    if single then Single else if double then Double else Outside
  }

  /** The identifier loop of `rewrite_placeholders`. */
  method EndOfName(sql: string, start: nat) returns (j: nat)
    requires start <= |sql|
    ensures j == IdentEnd(sql, start)
  {
    j := start;
    while j < |sql| && IsIdent(sql[j])
      invariant start <= j <= |sql| && IdentEnd(sql, start) == IdentEnd(sql, j)
    {
      j := j + 1;
    }
  }

  /** `rewrite_placeholders`. */
  method RewritePlaceholders(sql: string, driver: Driver) returns (out: string, order: seq<string>)
    ensures out == Rewritten(sql, driver) && order == OrderOf(sql)
  {
    out, order := [], [];
    var i := 0;
    var inSingle, inDouble := false, false;
    ghost var seen: seq<Token> := [];
    Starts(sql, driver);
    while i < |sql|
      invariant i <= |sql| && !(inSingle && inDouble)
      invariant SoFar(sql, driver, i, QuoteOf(inSingle, inDouble), seen, out, order)
    {
      var c := sql[i];
      ghost var at, before, bound := i, out, order;
      ghost var q := QuoteOf(inSingle, inDouble);
      if c == '\'' && !inDouble {
        inSingle := !inSingle;
        out := out + Push(c);
        i := i + 1;
      } else if c == '"' && !inSingle {
        inDouble := !inDouble;
        out := out + Push(c);
        i := i + 1;
      } else if c == ':' && !inSingle && !inDouble {
        out, order, i := RewriteColon(sql, driver, i, out, order);
      } else {
        out := out + Push(c);
        i := i + 1;
      }
      ghost var t := TokenAt(sql, at, q);
      OneToken(sql, driver, at, q, seen, before, bound, t, i, QuoteOf(inSingle, inDouble), out, order);
      seen := seen + [t];
    }
    Ends(sql, driver, QuoteOf(inSingle, inDouble), seen, out, order);
  }

  /** An unquoted colon: a cast, a name, or a lone colon. */
  method RewriteColon(sql: string, driver: Driver, i: nat, out: string, order: seq<string>)
    returns (out': string, order': seq<string>, j: nat)
    requires i < |sql| && sql[i] == ':'
    ensures var t := TokenAt(sql, i, Outside);
            && j == i + Width(t) && out' == out + Piece(t, Placeholder(driver, |order| + 1))
            && order' == if t.Name? then order + [t.name] else order
  {
    if i + 1 < |sql| && sql[i + 1] == ':' {
      return out + "::", order, i + 2;
    }
    var end := EndOfName(sql, i + 1);
    if end == i + 1 {
      return out + ":", order, i + 1;
    }
    order' := order + [sql[i + 1..end]];
    out', j := out + Placeholder(driver, |order'|), end;
  }

  // ---------------------------------------------------------------------
  // Exactly the unquoted, non-cast names are taken, left to right
  // ---------------------------------------------------------------------

  /** The colons that end `text`. */
  function ColonRun(text: string): nat {
    if text == [] || text[|text| - 1] != ':' then 0 else 1 + ColonRun(text[..|text| - 1])
  }

  /** A placeholder starts at `i`: an unquoted colon, not half of a `::`, before a name. */
  predicate PlaceholderAt(sql: string, i: nat)
    requires i < |sql|
  {
    && sql[i] == ':' && QuoteAfter(sql[..i]) == Outside
    && ColonRun(sql[..i]) % 2 == 0
    && i + 1 < |sql| && IsIdent(sql[i + 1])
  }

  /** The names after the placeholders of `sql` from `i` on. */
  function NamesFrom(sql: string, i: nat): seq<string>
    requires i <= |sql|
    decreases |sql| - i
  {
    if i == |sql| then []
    else
      (if PlaceholderAt(sql, i) then [sql[i + 1..IdentEnd(sql, i + 1)]] else []) + NamesFrom(sql, i + 1)
  }

  lemma QuoteMore(sql: string, i: nat)
    requires i < |sql|
    ensures QuoteAfter(sql[..i + 1]) == After(QuoteAfter(sql[..i]), sql[i])
    ensures ColonRun(sql[..i + 1]) == if sql[i] == ':' then 1 + ColonRun(sql[..i]) else 0
  {
    assert sql[..i + 1][..i] == sql[..i];
  }

  /** Inside a name nothing starts and nothing is quoted. */
  lemma {:induction false} SkipName(sql: string, i: nat)
    requires i <= |sql|
    ensures var e := IdentEnd(sql, i);
            && NamesFrom(sql, i) == NamesFrom(sql, e) && QuoteAfter(sql[..e]) == QuoteAfter(sql[..i])
            && (i < e ==> ColonRun(sql[..e]) == 0)
    decreases |sql| - i
  {
    if i < |sql| && IsIdent(sql[i]) {
      QuoteMore(sql, i);
      SkipName(sql, i + 1);
    }
  }

  /** Between tokens an unquoted colon is never the second of a pair. */
  predicate Boundary(sql: string, i: nat)
    requires i <= |sql|
  {
    i < |sql| && sql[i] == ':' && QuoteAfter(sql[..i]) == Outside ==> ColonRun(sql[..i]) % 2 == 0
  }

  /** Token `t` at `i` moves to the next boundary, and starts a placeholder exactly if it is a name. */
  ghost predicate StepsOver(sql: string, i: nat, t: Token)
    requires i + Width(t) <= |sql|
  {
    var j := i + Width(t);
    && Boundary(sql, j) && QuoteAfter(sql[..j]) == Next(QuoteAfter(sql[..i]), t)
    && NamesFrom(sql, i) == (if t.Name? then [t.name] else []) + NamesFrom(sql, j)
  }

  lemma TokenStep(sql: string, i: nat)
    requires i < |sql| && Boundary(sql, i)
    ensures StepsOver(sql, i, TokenAt(sql, i, QuoteAfter(sql[..i])))
  {
    var t := TokenAt(sql, i, QuoteAfter(sql[..i]));
    if t.Lit? {
      LitStep(sql, i);
      assert [] + NamesFrom(sql, i + 1) == NamesFrom(sql, i + 1);
    } else if t.Cast? {
      CastStepsOver(sql, i);
    } else {
      NameStepsOver(sql, i);
    }
  }

  lemma CastStepsOver(sql: string, i: nat)
    requires i < |sql| && Boundary(sql, i) && TokenAt(sql, i, QuoteAfter(sql[..i])).Cast?
    ensures StepsOver(sql, i, TokenAt(sql, i, QuoteAfter(sql[..i])))
  {
    assert QuoteAfter(sql[..i]) == Outside && i + 1 < |sql|;
    CastStep(sql, i);
    StepsTo(sql, i, Cast);
  }

  lemma NameStepsOver(sql: string, i: nat)
    requires i < |sql| && Boundary(sql, i) && TokenAt(sql, i, QuoteAfter(sql[..i])).Name?
    ensures StepsOver(sql, i, TokenAt(sql, i, QuoteAfter(sql[..i])))
  {
    var e := IdentEnd(sql, i + 1);
    NameToken(sql, i, QuoteAfter(sql[..i]));
    NameStep(sql, i);
    StepsTo(sql, i, Name(sql[i + 1..e]));
  }

  lemma NameToken(sql: string, i: nat, q: Quote)
    requires i < |sql| && TokenAt(sql, i, q).Name?
    ensures q == Outside && sql[i] == ':' && i + 1 < |sql| && IsIdent(sql[i + 1])
    ensures i + 1 < IdentEnd(sql, i + 1) && TokenAt(sql, i, q) == Name(sql[i + 1..IdentEnd(sql, i + 1)])
  {
  }

  lemma StepsTo(sql: string, i: nat, t: Token)
    requires i + Width(t) <= |sql| && !t.Lit?
    requires Boundary(sql, i + Width(t)) && QuoteAfter(sql[..i + Width(t)]) == QuoteAfter(sql[..i])
    requires var rest := NamesFrom(sql, i + Width(t));
             NamesFrom(sql, i) == if t.Name? then [t.name] + rest else rest
    ensures StepsOver(sql, i, t)
  {
    assert [] + NamesFrom(sql, i + Width(t)) == NamesFrom(sql, i + Width(t));
  }

  /** The token is one byte: no placeholder starts here. */
  lemma LitStep(sql: string, i: nat)
    requires i < |sql| && Boundary(sql, i) && TokenAt(sql, i, QuoteAfter(sql[..i])).Lit?
    ensures Boundary(sql, i + 1) && QuoteAfter(sql[..i + 1]) == After(QuoteAfter(sql[..i]), sql[i])
    ensures TokenAt(sql, i, QuoteAfter(sql[..i])) == Lit(sql[i]) && !PlaceholderAt(sql, i)
    ensures NamesFrom(sql, i) == NamesFrom(sql, i + 1)
  {
    QuoteMore(sql, i);
    assert !PlaceholderAt(sql, i);
    NoNameAt(sql, i);
  }

  lemma NoNameAt(sql: string, i: nat)
    requires i < |sql| && !PlaceholderAt(sql, i)
    ensures NamesFrom(sql, i) == NamesFrom(sql, i + 1)
  {
    assert [] + NamesFrom(sql, i + 1) == NamesFrom(sql, i + 1);
  }

  /** The token is a `::`: no placeholder starts at either colon. */
  lemma CastStep(sql: string, i: nat)
    requires i + 1 < |sql| && Boundary(sql, i) && TokenAt(sql, i, QuoteAfter(sql[..i])).Cast?
    ensures Boundary(sql, i + 2) && QuoteAfter(sql[..i + 2]) == Outside
    ensures !PlaceholderAt(sql, i) && !PlaceholderAt(sql, i + 1)
    ensures NamesFrom(sql, i) == NamesFrom(sql, i + 2)
  {
    QuoteMore(sql, i);
    QuoteMore(sql, i + 1);
    assert !PlaceholderAt(sql, i) && !PlaceholderAt(sql, i + 1);
    NoNameAt(sql, i);
    NoNameAt(sql, i + 1);
  }

  /** The token is a name: a placeholder starts here, and the next boundary is where the name ends. */
  lemma NameStep(sql: string, i: nat)
    requires i + 1 < |sql| && PlaceholderAt(sql, i)
    ensures var e := IdentEnd(sql, i + 1);
            && Boundary(sql, e) && QuoteAfter(sql[..e]) == Outside
            && NamesFrom(sql, i) == [sql[i + 1..e]] + NamesFrom(sql, e)
  {
    QuoteMore(sql, i);
    SkipName(sql, i + 1);
  }

  lemma {:induction false} LexFindsNames(sql: string, i: nat)
    requires i <= |sql| && Boundary(sql, i)
    ensures Names(Lex(sql, i, QuoteAfter(sql[..i]))) == NamesFrom(sql, i)
    decreases |sql| - i
  {
    if i < |sql| {
      var q := QuoteAfter(sql[..i]);
      var t := TokenAt(sql, i, q);
      TokenStep(sql, i);
      var rest := Lex(sql, i + Width(t), Next(q, t));
      assert Names(rest) == NamesFrom(sql, i + Width(t)) by { LexFindsNames(sql, i + Width(t)); }
      LexStep(sql, i, q);
      NamesStep(t, rest);
    }
  }

  /** The order bound is the names of the placeholders, by their positions. */
  lemma OrderIsExact(sql: string)
    ensures OrderOf(sql) == NamesFrom(sql, 0)
  {
    assert sql[..0] == [];
    LexFindsNames(sql, 0);
  }

  // ---------------------------------------------------------------------
  // Putting the names back
  // ---------------------------------------------------------------------

  function PushAll(text: string): string {
    if text == [] then [] else Push(text[0]) + PushAll(text[1..])
  }

  lemma {:induction false} PushAllSplits(a: string, b: string)
    ensures PushAll(a + b) == PushAll(a) + PushAll(b)
    decreases |a|
  {
    if a == [] {
      assert a + b == b;
    } else {
      PushAllSplits(a[1..], b);
      assert (a + b)[0] == a[0] && (a + b)[1..] == a[1..] + b;
      Associative(Push(a[0]), PushAll(a[1..]), PushAll(b));
    }
  }

  lemma AsciiRest(text: string, k: nat)
    requires Ascii(text) && k <= |text|
    ensures Ascii(text[k..])
  {
    forall c | c in text[k..] ensures c as int < 128 { assert c in text; }
  }

  lemma {:induction false} PushAllAscii(text: string)
    ensures |PushAll(text)| >= |text|
    ensures Ascii(text) ==> PushAll(text) == text
    ensures !Ascii(text) ==> |PushAll(text)| > |text|
    decreases |text|
  {
    if text != [] {
      PushAllAscii(text[1..]);
      assert text == [text[0]] + text[1..];
      if Ascii(text) {
        AsciiRest(text, 1);
        assert text[0] in text;
      } else {
        var c :| c in text && c as int >= 128;
        assert c == text[0] || c in text[1..];
      }
    }
  }

  lemma {:induction false} IdentChars(sql: string, j: nat, k: nat)
    requires j <= |sql| && j <= k < IdentEnd(sql, j)
    ensures IsIdent(sql[k])
    decreases k - j
  {
    if j < k {
      IdentChars(sql, j + 1, k);
    }
  }

  /** A name ends where its characters do. */
  lemma {:induction false} NameEnds(sql: string, j: nat, e: nat)
    requires j <= e <= |sql| && (forall k :: j <= k < e ==> IsIdent(sql[k])) && (e < |sql| ==> !IsIdent(sql[e]))
    ensures IdentEnd(sql, j) == e
    decreases e - j
  {
    if j < e {
      NameEnds(sql, j + 1, e);
    }
  }

  /** A token is the bytes it takes, and only a literal can be other than ASCII. */
  lemma TokenText(sql: string, i: nat, q: Quote)
    requires i < |sql|
    ensures var t := TokenAt(sql, i, q);
            var text := sql[i..i + Width(t)];
            && text == (match t case Lit(c) => [c] case Cast => "::" case Name(name) => ":" + name)
            && (!t.Lit? ==> Ascii(text))
  {
    var t := TokenAt(sql, i, q);
    if t.Name? {
      var text := sql[i..i + Width(t)];
      forall k | i < k < i + Width(t) ensures sql[k] as int < 128 {
        IdentChars(sql, i + 1, k);
      }
      assert forall k :: 0 <= k < |text| ==> text[k] == sql[i + k];
    }
  }

  /** A token written back is its bytes pushed one by one. */
  lemma PiecePushed(t: Token, text: string)
    requires text == (match t case Lit(c) => [c] case Cast => "::" case Name(name) => ":" + name)
    requires !t.Lit? ==> Ascii(text)
    ensures PushAll(text) == Piece(t, if t.Name? then ":" + t.name else "")
  {
    if t.Lit? {
      assert text[1..] == [];
    } else {
      PushAllAscii(text);
    }
  }

  lemma PushedFrom(sql: string, i: nat, j: nat)
    requires i <= j <= |sql|
    ensures PushAll(sql[i..]) == PushAll(sql[i..j]) + PushAll(sql[j..])
  {
    assert sql[i..] == sql[i..j] + sql[j..];
    PushAllSplits(sql[i..j], sql[j..]);
  }

  lemma TokenPushed(sql: string, i: nat, q: Quote)
    requires i < |sql|
    ensures var t := TokenAt(sql, i, q);
            PushAll(sql[i..]) == Piece(t, if t.Name? then ":" + t.name else "") + PushAll(sql[i + Width(t)..])
  {
    var t := TokenAt(sql, i, q);
    var text := sql[i..i + Width(t)];
    assert PushAll(text) == Piece(t, if t.Name? then ":" + t.name else "") by {
      TokenText(sql, i, q);
      PiecePushed(t, text);
    }
    PushedFrom(sql, i, i + Width(t));
  }

  /** The names of one token and the rest, written back. */
  lemma WeaveWritten(t: Token, tokens: seq<Token>)
    ensures Weave([t] + tokens, Written(Names([t] + tokens))) ==
            Piece(t, if t.Name? then ":" + t.name else "") + Weave(tokens, Written(Names(tokens)))
  {
    NamesStep(t, tokens);
    var fills := Written(Names([t] + tokens));
    WeaveStep(t, tokens, fills);
    if t.Name? {
      assert fills[0] == ":" + t.name && fills[1..] == Written(Names(tokens));
    } else {
      assert [] + Names(tokens) == Names(tokens);
    }
  }

  lemma {:induction false} WeaveBack(sql: string, i: nat, q: Quote)
    requires i <= |sql|
    ensures var tokens := Lex(sql, i, q); Weave(tokens, Written(Names(tokens))) == PushAll(sql[i..])
    decreases |sql| - i
  {
    if i == |sql| {
      assert sql[i..] == [];
    } else {
      var t := TokenAt(sql, i, q);
      var j := i + Width(t);
      var rest := Lex(sql, j, Next(q, t));
      var back := Weave(rest, Written(Names(rest)));
      assert back == PushAll(sql[j..]) by { WeaveBack(sql, j, Next(q, t)); }
      assert PushAll(sql[i..]) == Piece(t, if t.Name? then ":" + t.name else "") + back by {
        TokenPushed(sql, i, q);
      }
      assert Lex(sql, i, q) == [t] + rest by { LexStep(sql, i, q); }
      WeaveWritten(t, rest);
    }
  }

  /**
   The rewrite touches nothing but its placeholders: putting `:order[k]` where the k-th
   one stands gives the original text. This holds exactly for ASCII text; any other byte
   is pushed as a character of its own and comes out as two.
   */
  lemma NamesPutBack(sql: string)
    ensures Weave(Tokens(sql), Written(OrderOf(sql))) == sql <==> Ascii(sql)
  {
    WeaveBack(sql, 0, Outside);
    assert sql[0..] == sql;
    PushAllAscii(sql);
  }

  /** The two bytes of a Latin e acute come out as four. */
  lemma AccentIsDoubled(driver: Driver)
    ensures var text := [0xC3 as char, 0xA9 as char];
            Rewritten(text, driver) == [0xC3 as char, 0x83 as char, 0xC2 as char, 0xA9 as char]
  {
    var text := [0xC3 as char, 0xA9 as char];
    var first, second := Lit(text[0]), Lit(text[1]);
    LexStep(text, 0, Outside);
    LexStep(text, 1, Outside);
    assert Tokens(text) == [first] + ([second] + []);
    NamesStep(second, []);
    NamesStep(first, [second] + []);
    WeaveStep(first, [second] + [], []);
    WeaveStep(second, [], []);
    assert Placeholders(driver, 0) == [];
  }

  // ---------------------------------------------------------------------
  // Rewriting twice
  // ---------------------------------------------------------------------

  /** Text no scan stops at: no colon, no quote. */
  predicate Plain(text: string) {
    forall c :: c in text ==> c != ':' && c != '\'' && c != '"'
  }

  /** `all` ends with `b`, which starts at `k`. */
  ghost predicate EndsWith(all: string, k: nat, b: string) {
    |all| == k + |b| && forall j :: 0 <= j < |b| ==> all[k + j] == b[j]
  }

  lemma {:induction false} IdentShift(all: string, k: nat, b: string, j: nat)
    requires EndsWith(all, k, b) && j <= |b|
    ensures IdentEnd(all, k + j) == k + IdentEnd(b, j)
    decreases |b| - j
  {
    if j < |b| && IsIdent(b[j]) {
      IdentShift(all, k, b, j + 1);
    }
  }

  lemma TokenShift(all: string, k: nat, b: string, i: nat, q: Quote)
    requires EndsWith(all, k, b) && i < |b|
    ensures TokenAt(all, k + i, q) == TokenAt(b, i, q)
  {
    assert i + 1 < |b| ==> all[k + (i + 1)] == b[i + 1];
    IdentShift(all, k, b, i + 1);
    var e := IdentEnd(b, i + 1);
    assert all[k + i + 1..k + e] == b[i + 1..e];
  }

  lemma {:induction false} LexShiftBy(all: string, k: nat, b: string, i: nat, q: Quote)
    requires EndsWith(all, k, b) && i <= |b|
    ensures Lex(all, k + i, q) == Lex(b, i, q)
    decreases |b| - i
  {
    if i < |b| {
      var t := TokenAt(b, i, q);
      assert TokenAt(all, k + i, q) == t by { TokenShift(all, k, b, i, q); }
      LexShiftBy(all, k, b, i + Width(t), Next(q, t));
    }
  }

  /** What stands before does not change how the rest is read. */
  lemma LexShift(a: string, b: string, i: nat, q: Quote)
    requires i <= |b|
    ensures Lex(a + b, |a| + i, q) == Lex(b, i, q)
  {
    LexShiftBy(a + b, |a|, b, i, q);
  }

  lemma {:induction false} LexPlain(text: string, rest: string, i: nat, q: Quote)
    requires Plain(text) && i <= |text|
    ensures Names(Lex(text + rest, i, q)) == Names(Lex(rest, 0, q))
    decreases |text| - i
  {
    if i == |text| {
      LexShift(text, rest, 0, q);
    } else {
      assert (text + rest)[i] == text[i] && text[i] in text;
      LexPlain(text, rest, i + 1, q);
      NamesStep(Lit(text[i]), Lex(text + rest, i + 1, q));
    }
  }

  /** One token of rewritten text: what stood after a lone colon still does, so no name appears. */
  lemma PieceHasNoName(sql: string, i: nat, q: Quote, fill: string, out: string)
    requires i < |sql| && Ascii(sql) && Plain(fill)
    requires var j := i + Width(TokenAt(sql, i, q));
             if j == |sql| then out == [] else out != [] && (sql[j] != ':' ==> out[0] == sql[j])
    ensures var t := TokenAt(sql, i, q); Names(Lex(Piece(t, fill) + out, 0, q)) == Names(Lex(out, 0, Next(q, t)))
  {
    var t := TokenAt(sql, i, q);
    var piece := Piece(t, fill);
    var text := piece + out;
    assert sql[i] in sql;
    if t.Name? {
      LexPlain(fill, out, 0, q);
    } else {
      assert TokenAt(text, 0, q) == t by {
        if t == Lit(':') && q == Outside {
          assert text[0] == ':' && (out != [] ==> text[1] == out[0]);
          assert i + 1 < |sql| ==> sql[i + 1] != ':' && !IsIdent(sql[i + 1]);
        }
      }
      LexShift(piece, out, 0, Next(q, t));
      NamesStep(t, Lex(out, 0, Next(q, t)));
    }
  }

  ghost predicate Fills(fills: seq<string>) {
    forall f :: f in fills ==> f != [] && Plain(f) && Ascii(f)
  }

  lemma FillsRest(fills: seq<string>)
    requires Fills(fills)
    ensures fills != [] ==> Fills(fills[1..]) && fills[0] != [] && Plain(fills[0]) && Ascii(fills[0])
    ensures Plain("?") && Ascii("?")
  {
    if fills != [] {
      assert fills[0] in fills && forall f :: f in fills[1..] ==> f in fills;
    }
  }

  /** What `out` must be when it stands for `sql[i..]`, read from quoting `q`. */
  ghost predicate Nameless(sql: string, i: nat, q: Quote, out: string)
    requires i <= |sql|
  {
    && Names(Lex(out, 0, q)) == [] && Ascii(out)
    && if i == |sql| then out == [] else out != [] && (sql[i] != ':' ==> out[0] == sql[i])
  }

  lemma NamelessStep(sql: string, i: nat, q: Quote, fill: string, out: string)
    requires i < |sql| && Ascii(sql) && fill != [] && Plain(fill) && Ascii(fill)
    requires var t := TokenAt(sql, i, q); Nameless(sql, i + Width(t), Next(q, t), out)
    ensures Nameless(sql, i, q, Piece(TokenAt(sql, i, q), fill) + out)
  {
    var t := TokenAt(sql, i, q);
    PieceHasNoName(sql, i, q, fill, out);
    assert sql[i] in sql;
    assert Ascii(Piece(t, fill));
  }

  /** What stands for `sql[i..]` is what stands for its first token, and the rest. */
  lemma WeaveFrom(sql: string, i: nat, q: Quote, fills: seq<string>)
    requires i < |sql| && |fills| == |Names(Lex(sql, i, q))|
    ensures var t := TokenAt(sql, i, q);
            var rest := Lex(sql, i + Width(t), Next(q, t));
            var more := if t.Name? && fills != [] then fills[1..] else fills;
            && (t.Name? ==> fills != []) && |more| == |Names(rest)|
            && Weave(Lex(sql, i, q), fills) == Piece(t, if t.Name? then fills[0] else "?") + Weave(rest, more)
  {
    var t := TokenAt(sql, i, q);
    LexStep(sql, i, q);
    WeaveStep(t, Lex(sql, i + Width(t), Next(q, t)), fills);
  }

  /** What a rewrite leaves holds no name, and starts as the text did unless that was a colon. */
  lemma {:induction false} NoNamesLeft(sql: string, i: nat, q: Quote, fills: seq<string>)
    requires i <= |sql| && Ascii(sql) && |fills| == |Names(Lex(sql, i, q))| && Fills(fills)
    ensures Nameless(sql, i, q, Weave(Lex(sql, i, q), fills))
    decreases |sql| - i
  {
    if i < |sql| {
      var t := TokenAt(sql, i, q);
      var j, tokens := i + Width(t), Lex(sql, i + Width(t), Next(q, t));
      WeaveFrom(sql, i, q, fills);
      FillsRest(fills);
      var fill, more := if t.Name? then fills[0] else "?", if t.Name? then fills[1..] else fills;
      var out := Weave(tokens, more);
      assert Nameless(sql, j, Next(q, t), out) by { NoNamesLeft(sql, j, Next(q, t), more); }
      assert Nameless(sql, i, q, Piece(t, fill) + out) by { NamelessStep(sql, i, q, fill, out); }
    }
  }

  lemma PlaceholdersArePlain(driver: Driver, n: nat)
    ensures Fills(Placeholders(driver, n))
  {
    forall k: nat
      ensures Placeholder(driver, k) != [] && Plain(Placeholder(driver, k)) && Ascii(Placeholder(driver, k))
    {
      Decimal.TextIsDigits(k);
      assert forall c :: c in Placeholder(driver, k) ==> c == '$' || c == '?' || Decimal.IsDigit(c);
    }
  }

  /** A second rewrite, for any driver, finds no name and changes nothing. */
  lemma RewriteIsIdempotent(sql: string, driver: Driver, again: Driver)
    requires Ascii(sql)
    ensures var out := Rewritten(sql, driver);
            OrderOf(out) == [] && Rewritten(out, again) == out
  {
    var n := |OrderOf(sql)|;
    PlaceholdersArePlain(driver, n);
    NoNamesLeft(sql, 0, Outside, Placeholders(driver, n));
    var out := Rewritten(sql, driver);
    NamesPutBack(out);
    assert Written(OrderOf(out)) == [] == Placeholders(again, 0);
  }

  /** A rewritten statement and the names it binds, in order. */
  datatype PreparedStmt = PreparedStmt(sql: string, order: seq<string>)

  // ---------------------------------------------------------------------
  // Binding
  // ---------------------------------------------------------------------

  datatype Args<V> = Null | Object(fields: map<string, V>) | OtherJson

  datatype BindError = NotAnObject(missing: Option<string>) | Missing(name: string)

  /**
   `collect_bound_params`: the k-th value bound is that of the k-th name, and the first
   name without one is the error.
   */
  method CollectBoundParams<V>(args: Args<V>, order: seq<string>) returns (r: Result<seq<(string, V)>, BindError>)
    ensures r.Ok? <==> (args.Null? && order == []) ||
                       (args.Object? && forall k :: 0 <= k < |order| ==> order[k] in args.fields)
    ensures r.Ok? ==> |r.value| == |order| &&
                      forall k :: 0 <= k < |order| ==>
                        args.Object? && order[k] in args.fields && r.value[k] == (order[k], args.fields[order[k]])
    ensures r.Err? && args.Object? ==>
              exists k :: 0 <= k < |order| && order[k] !in args.fields && r.error == Missing(order[k])
                          && forall j :: 0 <= j < k ==> order[j] in args.fields
  {
    match args
    case Null =>
      if order == [] {
        return Ok([]);
      }
      return Err(NotAnObject(Some(order[0])));
    case OtherJson =>
      return Err(NotAnObject(None));
    case Object(fields) =>
      var out := [];
      for i := 0 to |order|
        invariant |out| == i
        invariant forall k :: 0 <= k < i ==> order[k] in fields && out[k] == (order[k], fields[order[k]])
      {
        if order[i] !in fields {
          return Err(Missing(order[i]));
        }
        out := out + [(order[i], fields[order[i]])];
      }
      r := Ok(out);
  }
}
