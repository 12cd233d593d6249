/**
 What a rewritten statement says, read beside the original: each placeholder is replaced by
 its number or by a question mark, everything else is as it was, and nothing quoted is touched.
 */
module ParamsText {
  import opened Params
  import Decimal

  // ---------------------------------------------------------------------
  // Quotes
  // ---------------------------------------------------------------------

  predicate IsQuote(c: char) {
    c == '\'' || c == '"'
  }

  function Within(c: char): Quote {
    if c == '\'' then Single else Double
  }

  lemma QuoteOne(text: string, c: char)
    ensures QuoteAfter(text + [c]) == After(QuoteAfter(text), c)
  {
    assert (text + [c])[..|text|] == text;
  }

  lemma LastApart(a: string, body: string)
    requires body != []
    ensures a + body == a + body[..|body| - 1] + [body[|body| - 1]]
  {
  }

  lemma {:induction false} OpenStaysOpen(a: string, mark: char, body: string)
    requires QuoteAfter(a) == Outside && IsQuote(mark) && mark !in body
    ensures QuoteAfter(a + [mark] + body) == Within(mark)
    decreases |body|
  {
    if body == [] {
      assert a + [mark] + body == a + [mark];
      QuoteOne(a, mark);
    } else {
      var n := |body| - 1;
      assert body[n] in body && forall c :: c in body[..n] ==> c in body;
      OpenStaysOpen(a, mark, body[..n]);
      QuoteOne(a + [mark] + body[..n], body[n]);
      LastApart(a + [mark], body);
    }
  }

  /** A quote mark opens what lies before the next one of its kind, which closes it. */
  lemma QuotesClose(a: string, mark: char, body: string)
    requires QuoteAfter(a) == Outside && IsQuote(mark) && mark !in body
    ensures QuoteAfter(a + [mark] + body) == Within(mark)
    ensures QuoteAfter(a + [mark] + body + [mark]) == Outside
  {
    OpenStaysOpen(a, mark, body);
    QuoteOne(a + [mark] + body, mark);
  }

  /** And without quote marks nothing is quoted. */
  lemma {:induction false} Unquoted(a: string, body: string)
    requires QuoteAfter(a) == Outside && forall c :: c in body ==> !IsQuote(c)
    ensures QuoteAfter(a + body) == Outside
    decreases |body|
  {
    if body == [] {
      assert a + body == a;
    } else {
      var n := |body| - 1;
      assert body[n] in body && forall c :: c in body[..n] ==> c in body;
      Unquoted(a, body[..n]);
      QuoteOne(a + body[..n], body[n]);
      LastApart(a, body);
    }
  }

  /** Nothing quoted is a placeholder. */
  lemma QuotedBindsNothing(a: string, mark: char, body: string, rest: string, i: nat)
    requires QuoteAfter(a) == Outside && IsQuote(mark) && mark !in body && i < |body|
    ensures !PlaceholderAt(a + [mark] + body + rest, |a| + 1 + i)
  {
    var sql := a + [mark] + body + rest;
    assert sql[..|a| + 1 + i] == a + [mark] + body[..i];
    OpenStaysOpen(a, mark, body[..i]);
  }

  /** A name is made of ASCII digits, letters and underscores, by their codes. */
  lemma NameCharacters(c: char)
    ensures IsIdent(c) <==>
            var n := c as int; 0x30 <= n <= 0x39 || 0x41 <= n <= 0x5A || n == 0x5F || 0x61 <= n <= 0x7A
  {
  }

  // ---------------------------------------------------------------------
  // The rewritten text
  // ---------------------------------------------------------------------

  /** How the `k`-th placeholder is written: `$k`, or a question mark. */
  ghost predicate IsMark(driver: Driver, k: nat, mark: string) {
    if driver == Postgres then
      && |mark| >= 2 && mark[0] == '$' && mark[1] != '0'
      && Decimal.AllDigits(mark[1..]) && Decimal.Value(mark[1..]) == k
    else mark == "?"
  }

  /**
   `out` is `sql` from `i` on with each placeholder replaced: the next one is the name
   `order[k]`, and stands as the `k + 1`-th.
   */
  ghost predicate Rewrites(sql: string, i: nat, k: nat, order: seq<string>, driver: Driver, out: string)
    requires i <= |sql|
    decreases |sql| - i
  {
    if i == |sql| then out == [] && k == |order|
    else if PlaceholderAt(sql, i) then
      var e := IdentEnd(sql, i + 1);
      && k < |order| && order[k] == sql[i + 1..e]
      && exists m :: 0 < m <= |out| && IsMark(driver, k + 1, out[..m]) &&
                     Rewrites(sql, e, k + 1, order, driver, out[m..])
    else out != [] && out[0] == sql[i] && Rewrites(sql, i + 1, k, order, driver, out[1..])
  }

  lemma RewritesLit(sql: string, i: nat, k: nat, order: seq<string>, driver: Driver, out: string)
    requires i < |sql| && !PlaceholderAt(sql, i) && Rewrites(sql, i + 1, k, order, driver, out)
    ensures Rewrites(sql, i, k, order, driver, [sql[i]] + out)
  {
    assert ([sql[i]] + out)[1..] == out;
  }

  lemma RewritesName(sql: string, i: nat, k: nat, order: seq<string>, driver: Driver, mark: string, out: string)
    requires i < |sql| && PlaceholderAt(sql, i) && k < |order| && order[k] == sql[i + 1..IdentEnd(sql, i + 1)]
    requires mark != [] && IsMark(driver, k + 1, mark)
    requires Rewrites(sql, IdentEnd(sql, i + 1), k + 1, order, driver, out)
    ensures Rewrites(sql, i, k, order, driver, mark + out)
  {
    var all, m := mark + out, |mark|;
    assert all[..m] == mark && all[m..] == out;
  }

  lemma PlaceholderIsMark(driver: Driver, k: nat)
    requires k > 0
    ensures IsMark(driver, k, Placeholder(driver, k)) && Placeholder(driver, k) != []
  {
    if driver == Postgres {
      var mark := Placeholder(driver, k);
      assert mark[1..] == Decimal.Text(k) && mark[1] == Decimal.Text(k)[0];
      Decimal.TextIsDigits(k);
      Decimal.ValueOfText(k);
      Decimal.NoZeroInFront(k);
    }
  }

  /** Where the weaving of the tokens from `i` on stands. */
  ghost predicate At(sql: string, i: nat, q: Quote, k: nat, order: seq<string>) {
    i <= |sql| && Boundary(sql, i) && q == QuoteAfter(sql[..i]) && k <= |order| && order[k..] == Names(Lex(sql, i, q))
  }

  ghost function Woven(sql: string, i: nat, q: Quote, k: nat, order: seq<string>, driver: Driver): string
    requires At(sql, i, q, k, order)
  {
    Weave(Lex(sql, i, q), Placeholders(driver, |order|)[k..])
  }

  /** One token. */
  lemma TokenMoves(sql: string, i: nat, q: Quote, k: nat, order: seq<string>)
    requires At(sql, i, q, k, order) && i < |sql|
    ensures var t := TokenAt(sql, i, q);
            && (t.Name? ==> k < |order| && order[k] == t.name)
            && At(sql, i + Width(t), Next(q, t), if t.Name? then k + 1 else k, order)
  {
    var t := TokenAt(sql, i, q);
    var rest := Lex(sql, i + Width(t), Next(q, t));
    TokenStep(sql, i);
    LexStep(sql, i, q);
    NamesStep(t, rest);
    if t.Name? {
      assert order[k..][0] == t.name;
      assert order[k + 1..] == order[k..][1..] == Names(rest);
    } else {
      assert [] + Names(rest) == Names(rest);
    }
  }

  lemma WovenMoves(sql: string, i: nat, q: Quote, k: nat, order: seq<string>, driver: Driver)
    requires At(sql, i, q, k, order) && i < |sql|
    requires var t := TokenAt(sql, i, q);
             (t.Name? ==> k < |order|) && At(sql, i + Width(t), Next(q, t), if t.Name? then k + 1 else k, order)
    ensures var t := TokenAt(sql, i, q);
            Woven(sql, i, q, k, order, driver) ==
            Piece(t, Placeholder(driver, k + 1)) +
            Woven(sql, i + Width(t), Next(q, t), if t.Name? then k + 1 else k, order, driver)
  {
    var t := TokenAt(sql, i, q);
    var fills := Placeholders(driver, |order|)[k..];
    LexStep(sql, i, q);
    WeaveStep(t, Lex(sql, i + Width(t), Next(q, t)), fills);
    if t.Name? {
      assert fills[0] == Placeholder(driver, k + 1) && fills[1..] == Placeholders(driver, |order|)[k + 1..];
    }
  }

  lemma {:induction false} WovenRewrites(sql: string, i: nat, q: Quote, k: nat, order: seq<string>, driver: Driver)
    requires Ascii(sql) && At(sql, i, q, k, order)
    ensures Rewrites(sql, i, k, order, driver, Woven(sql, i, q, k, order, driver))
    decreases |sql| - i
  {
    if i < |sql| {
      var t := TokenAt(sql, i, q);
      var j, next := i + Width(t), if t.Name? then k + 1 else k;
      TokenMoves(sql, i, q, k, order);
      WovenMoves(sql, i, q, k, order, driver);
      WovenRewrites(sql, j, Next(q, t), next, order, driver);
      TokenRewrites(sql, i, q, k, order, driver, Woven(sql, j, Next(q, t), next, order, driver));
    }
  }

  lemma TokenRewrites(sql: string, i: nat, q: Quote, k: nat, order: seq<string>, driver: Driver, out: string)
    requires Ascii(sql) && At(sql, i, q, k, order) && i < |sql|
    requires var t := TokenAt(sql, i, q);
             && (t.Name? ==> k < |order| && order[k] == t.name)
             && Rewrites(sql, i + Width(t), if t.Name? then k + 1 else k, order, driver, out)
    ensures Rewrites(sql, i, k, order, driver, Piece(TokenAt(sql, i, q), Placeholder(driver, k + 1)) + out)
  {
    var t := TokenAt(sql, i, q);
    if t.Lit? {
      LitStep(sql, i);
      assert sql[i] in sql;
      RewritesLit(sql, i, k, order, driver, out);
    } else if t.Cast? {
      CastRewrites(sql, i, q, k, order, driver, out);
    } else {
      NameToken(sql, i, q);
      PlaceholderIsMark(driver, k + 1);
      RewritesName(sql, i, k, order, driver, Placeholder(driver, k + 1), out);
    }
  }

  lemma CastRewrites(sql: string, i: nat, q: Quote, k: nat, order: seq<string>, driver: Driver, out: string)
    requires At(sql, i, q, k, order) && i < |sql| && TokenAt(sql, i, q).Cast?
    requires Rewrites(sql, i + 2, k, order, driver, out)
    ensures Rewrites(sql, i, k, order, driver, "::" + out)
  {
    CastStep(sql, i);
    RewritesLit(sql, i + 1, k, order, driver, out);
    RewritesLit(sql, i, k, order, driver, [':'] + out);
    assert [':'] + ([':'] + out) == "::" + out;
  }

  /**
   The rewritten text is the original with the `k`-th placeholder, that of `order[k - 1]`,
   replaced by `$k` for PostgreSQL and by `?` otherwise, and every other character kept.
   */
  lemma RewritesExactly(sql: string, driver: Driver)
    requires Ascii(sql)
    ensures Rewrites(sql, 0, 0, OrderOf(sql), driver, Rewritten(sql, driver))
  {
    var order := OrderOf(sql);
    assert sql[..0] == [] && order[0..] == order;
    var fills := Placeholders(driver, |order|);
    assert fills[0..] == fills;
    WovenRewrites(sql, 0, Outside, 0, order, driver);
  }
}
