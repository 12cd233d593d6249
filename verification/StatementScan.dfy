/**
 The statement scanner of the configuration: one statement per body, and nothing
 privileged behind leading comments. It reads quotes as the placeholder rewriter
 does, so a body and its rewritten form get the same verdict.
 */
module StatementScan {
  import opened Wrappers
  import opened Params

  /** ASCII white space, as `char::is_whitespace` has it. */
  predicate IsSpace(c: char) {
    c as int == 32 || 9 <= c as int <= 13
  }

  /** A space, a tab, a line feed, a carriage return, and the vertical tab and form feed. */
  lemma SpaceCharacters(c: char)
    ensures IsSpace(c) <==> c in {' ', '\t', '\n', '\r', 0x0B as char, 0x0C as char}
  {
  }

  predicate Blank(text: string) {
    forall c :: c in text ==> IsSpace(c)
  }

  /** One statement: nothing but white space follows an unquoted semicolon. */
  ghost predicate SingleStatement(sql: string) {
    forall i :: 0 <= i < |sql| && sql[i] == ';' && QuoteAfter(sql[..i]) == Outside ==> Blank(sql[i + 1..])
  }

  datatype ScanError = Multiple(at: nat) | ContentAfter(at: nat)

  /** `reject_multi_statement`. */
  method RejectMultiStatement(sql: string) returns (r: Result<(), ScanError>)
    ensures r.Ok? <==> SingleStatement(sql)
    ensures r.Err? ==> r.error.at < |sql| && sql[r.error.at] == ';' && QuoteAfter(sql[..r.error.at]) == Outside
    ensures r.Err? && r.error.Multiple? ==>
              exists j :: 0 <= j < r.error.at && sql[j] == ';' && QuoteAfter(sql[..j]) == Outside
    ensures r.Err? && r.error.ContentAfter? ==> !Blank(sql[r.error.at + 1..])
  {
    var inSingle, inDouble := false, false;
    var lastSemi: Option<nat> := None;
    for i := 0 to |sql|
      invariant !(inSingle && inDouble) && QuoteOf(inSingle, inDouble) == QuoteAfter(sql[..i])
      invariant lastSemi.Some? ==>
                  lastSemi.value < i && sql[lastSemi.value] == ';' && QuoteAfter(sql[..lastSemi.value]) == Outside
      invariant forall j :: 0 <= j < i && sql[j] == ';' && QuoteAfter(sql[..j]) == Outside ==> lastSemi == Some(j)
    {
      var c := sql[i];
      QuoteMore(sql, i);
      if c == '\'' && !inDouble {
        inSingle := !inSingle;
      } else if c == '"' && !inSingle {
        inDouble := !inDouble;
      } else if c == ';' && !inSingle && !inDouble {
        if lastSemi.Some? {
          assert sql[lastSemi.value + 1..][i - lastSemi.value - 1] == ';';
          assert ';' in sql[lastSemi.value + 1..] && !IsSpace(';');
          return Err(Multiple(i));
        }
        lastSemi := Some(i);
      }
    }
    if lastSemi.Some? {
      var blank := IsBlank(sql[lastSemi.value + 1..]);
      if !blank {
        return Err(ContentAfter(lastSemi.value));
      }
    }
    r := Ok(());
  }

  method IsBlank(text: string) returns (blank: bool)
    ensures blank <==> Blank(text)
  {
    for i := 0 to |text|
      invariant forall j :: 0 <= j < i ==> IsSpace(text[j])
    {
      if !IsSpace(text[i]) {
        return false;
      }
    }
    blank := true;
  }

  // ---------------------------------------------------------------------
  // The verdict survives the rewrite
  // ---------------------------------------------------------------------

  /** The scan, a byte at a time from quoting `q`. */
  predicate SingleFrom(sql: string, i: nat, q: Quote)
    requires i <= |sql|
    decreases |sql| - i
  {
    if i == |sql| then true
    else if sql[i] == ';' && q == Outside then Blank(sql[i + 1..])
    else SingleFrom(sql, i + 1, After(q, sql[i]))
  }

  lemma BlankRest(text: string, k: nat)
    requires Blank(text) && k <= |text|
    ensures Blank(text[k..])
  {
    forall c | c in text[k..] ensures IsSpace(c) { assert c in text; }
  }

  lemma {:induction false} ScanIsExact(sql: string, i: nat)
    requires i <= |sql|
    ensures SingleFrom(sql, i, QuoteAfter(sql[..i])) <==>
            forall j :: i <= j < |sql| && sql[j] == ';' && QuoteAfter(sql[..j]) == Outside ==> Blank(sql[j + 1..])
    decreases |sql| - i
  {
    if i < |sql| {
      QuoteMore(sql, i);
      ScanIsExact(sql, i + 1);
      if sql[i] == ';' && QuoteAfter(sql[..i]) == Outside && Blank(sql[i + 1..]) {
        forall j | i < j < |sql| && sql[j] == ';' ensures Blank(sql[j + 1..]) {
          BlankRest(sql[i + 1..], j - i);
          assert sql[i + 1..][j - i..] == sql[j + 1..];
        }
      }
    }
  }

  /** Bytes the scan passes over: no quote, no semicolon. */
  predicate Inert(text: string) {
    forall c :: c in text ==> c != '\'' && c != '"' && c != ';'
  }

  lemma {:induction false} ScanShift(a: string, b: string, i: nat, q: Quote)
    requires i <= |b|
    ensures SingleFrom(a + b, |a| + i, q) == SingleFrom(b, i, q)
    decreases |b| - i
  {
    if i < |b| {
      assert (a + b)[|a| + i + 1..] == b[i + 1..];
      ScanShift(a, b, i + 1, After(q, b[i]));
    }
  }

  lemma {:induction false} ScanInert(a: string, b: string, i: nat, q: Quote)
    requires Inert(a) && i <= |a|
    ensures SingleFrom(a + b, i, q) == SingleFrom(b, 0, q)
    decreases |a| - i
  {
    if i == |a| {
      ScanShift(a, b, 0, q);
    } else {
      assert (a + b)[i] == a[i] && a[i] in a;
      ScanInert(a, b, i + 1, q);
    }
  }

  lemma BlankSplits(a: string, b: string)
    ensures Blank(a + b) <==> Blank(a) && Blank(b)
  {
    if Blank(a + b) {
      forall c | c in a || c in b ensures IsSpace(c) { assert c in a + b; }
    }
  }

  /** A text that keeps a piece's place: no space, quote or semicolon, and not empty. */
  predicate Solid(text: string) {
    text != [] && Inert(text) && !IsSpace(text[0])
  }

  /** The bytes of a token and what stands for them are alike to the scan. */
  lemma TokensAlike(sql: string, i: nat, q: Quote, fill: string)
    requires i < |sql| && Ascii(sql) && Solid(fill)
    ensures var t := TokenAt(sql, i, q);
            var text := sql[i..i + Width(t)];
            if t.Lit? then Piece(t, fill) == text == [sql[i]] else Solid(text) && Solid(Piece(t, fill))
  {
    TokenText(sql, i, q);
    assert sql[i] in sql;
    var t := TokenAt(sql, i, q);
    if t.Name? {
      forall k | 0 <= k < |t.name|
        ensures IsIdent(t.name[k])
      {
        IdentChars(sql, i + 1, i + 1 + k);
      }
      NameIsSolid(t.name);
    }
  }

  lemma NameIsSolid(name: string)
    requires forall k :: 0 <= k < |name| ==> IsIdent(name[k])
    ensures Solid(":" + name)
  {
  }

  ghost predicate AllSolid(fills: seq<string>) {
    forall f :: f in fills ==> Solid(f)
  }

  lemma SolidRest(fills: seq<string>)
    requires AllSolid(fills)
    ensures fills != [] ==> AllSolid(fills[1..]) && Solid(fills[0])
    ensures Solid("?")
  {
    if fills != [] {
      assert fills[0] in fills && forall f :: f in fills[1..] ==> f in fills;
    }
  }

  /** Two texts the scan judges alike, from quoting `q`. */
  ghost predicate Alike(a: string, b: string, q: Quote) {
    (Blank(a) <==> Blank(b)) && SingleFrom(a, 0, q) == SingleFrom(b, 0, q)
  }

  lemma AlikeStep(sql: string, i: nat, q: Quote, fill: string, out: string)
    requires i < |sql| && Ascii(sql) && Solid(fill)
    requires var t := TokenAt(sql, i, q); Alike(out, sql[i + Width(t)..], Next(q, t))
    ensures Alike(Piece(TokenAt(sql, i, q), fill) + out, sql[i..], q)
  {
    var t := TokenAt(sql, i, q);
    var text, rest := sql[i..i + Width(t)], sql[i + Width(t)..];
    TokensAlike(sql, i, q, fill);
    assert sql[i..] == text + rest;
    PiecesAlike(t, text, Piece(t, fill), rest, out, q);
  }

  lemma {:induction false} WovenAlike(sql: string, i: nat, q: Quote, fills: seq<string>)
    requires i <= |sql| && Ascii(sql) && |fills| == |Names(Lex(sql, i, q))| && AllSolid(fills)
    ensures Alike(Weave(Lex(sql, i, q), fills), sql[i..], q)
    decreases |sql| - i
  {
    if i == |sql| {
      assert sql[i..] == [];
    } else {
      var t := TokenAt(sql, i, q);
      var j, tokens := i + Width(t), Lex(sql, i + Width(t), Next(q, t));
      assert Lex(sql, i, q) == [t] + tokens by { LexStep(sql, i, q); }
      WeaveStep(t, tokens, fills);
      SolidRest(fills);
      var fill, more := if t.Name? then fills[0] else "?", if t.Name? then fills[1..] else fills;
      var out := Weave(tokens, more);
      assert Alike(out, sql[j..], Next(q, t)) by { WovenAlike(sql, j, Next(q, t), more); }
      assert Alike(Piece(t, fill) + out, sql[i..], q) by { AlikeStep(sql, i, q, fill, out); }
    }
  }

  lemma PiecesAlike(t: Token, text: string, piece: string, rest: string, out: string, q: Quote)
    requires if t.Lit? then piece == text == [t.c] else Solid(text) && Solid(piece)
    requires Alike(out, rest, Next(q, t))
    ensures Alike(piece + out, text + rest, q)
  {
    BlankSplits(piece, out);
    BlankSplits(text, rest);
    if t.Lit? {
      ScanShift(piece, out, 0, Next(q, t));
      ScanShift(text, rest, 0, Next(q, t));
      assert (piece + out)[1..] == out && (text + rest)[1..] == rest;
    } else {
      ScanInert(piece, out, 0, q);
      ScanInert(text, rest, 0, q);
      assert piece[0] in piece && text[0] in text;
    }
  }

  lemma PlaceholdersAreSolid(driver: Driver, n: nat)
    ensures AllSolid(Placeholders(driver, n))
  {
    forall k: nat
      ensures Solid(Placeholder(driver, k))
    {
      Decimal.TextIsDigits(k);
      assert forall c :: c in Placeholder(driver, k) ==> c == '$' || c == '?' || Decimal.IsDigit(c);
    }
  }

  /** A body is one statement exactly when its rewritten form is. */
  lemma VerdictSurvivesRewrite(sql: string, driver: Driver)
    requires Ascii(sql)
    ensures SingleStatement(sql) <==> SingleStatement(Rewritten(sql, driver))
  {
    var out := Rewritten(sql, driver);
    PlaceholdersAreSolid(driver, |OrderOf(sql)|);
    WovenAlike(sql, 0, Outside, Placeholders(driver, |OrderOf(sql)|));
    assert sql[0..] == sql && sql[..0] == [] && out[..0] == [];
    ScanIsExact(sql, 0);
    ScanIsExact(out, 0);
  }

  // ---------------------------------------------------------------------
  // Leading white space and comments
  // ---------------------------------------------------------------------

  /** `text` has `needle` at `i`. */
  predicate StartsAt(text: string, i: nat, needle: string) {
    i + |needle| <= |text| && text[i..i + |needle|] == needle
  }

  /** Where `needle` first stands at or after `i`, or the end. */
  function Find(text: string, i: nat, needle: string): (at: nat)
    requires i <= |text| && needle != []
    ensures i <= at <= |text| && (at < |text| ==> at + |needle| <= |text|)
    decreases |text| - i
  {
    if i == |text| || StartsAt(text, i, needle) then i else Find(text, i + 1, needle)
  }

  /** Past the next `close` at or after `i`, or the end. */
  function Past(text: string, i: nat, close: string): (at: nat)
    requires i <= |text| && close != []
    ensures i <= at <= |text|
  {
    var at := Find(text, i, close);
    if at < |text| then at + |close| else |text|
  }

  /** The end of the space, line comment or block comment that starts at `i`; none ends at `i`. */
  function SkipOne(text: string, i: nat): (at: nat)
    requires i < |text|
    ensures i <= at <= |text|
  {
    if IsSpace(text[i]) then i + 1
    else if StartsAt(text, i, "--") then Past(text, i + 2, "\n")
    else if StartsAt(text, i, "/*") then Past(text, i + 2, "*/")
    else i
  }

  /** Where steps forward from `i` lead, up to `end`. */
  function Chain(step: nat -> nat, end: nat, i: nat): (at: nat)
    requires i <= end
    ensures i <= at <= end
    decreases end - i
  {
    if i < step(i) <= end then Chain(step, end, step(i)) else i
  }

  function Skipper(text: string): nat -> nat {
    (i: nat) => if i < |text| then SkipOne(text, i) else i
  }

  /** The end of everything that is skipped from `i` on. */
  function Skipped(text: string, i: nat): (at: nat)
    requires i <= |text|
    ensures i <= at <= |text|
  {
    Chain(Skipper(text), |text|, i)
  }

  /** `strip_leading_whitespace_and_comments`. */
  method StripLeading(text: string) returns (rest: string)
    ensures rest == text[Skipped(text, 0)..]
  {
    var at := 0;
    while true
      invariant at <= |text| && Skipped(text, at) == Skipped(text, 0)
      decreases |text| - at
    {
      var next := TrimStart(text, at);
      var past := SkipComment(text, next);
      if past.None? {
        return text[next..];
      }
      at := past.value;
    }
  }

  /** The end of the comment that starts at `i`, if one does; an unclosed one takes the rest. */
  method SkipComment(text: string, i: nat) returns (past: Option<nat>)
    requires i <= |text| && (i < |text| ==> !IsSpace(text[i]))
    ensures past.None? ==> Skipped(text, i) == i
    ensures past.Some? ==> i < past.value <= |text| && Skipped(text, i) == Skipped(text, past.value)
  {
    past := None;
    if StartsAt(text, i, "--") {
      past := Some(Past(text, i + 2, "\n"));
      SkippedFrom(text, i, past.value);
    } else if StartsAt(text, i, "/*") {
      past := Some(Past(text, i + 2, "*/"));
      SkippedFrom(text, i, past.value);
    }
  }

  method TrimStart(text: string, at: nat) returns (next: nat)
    requires at <= |text|
    ensures at <= next <= |text| && (next < |text| ==> !IsSpace(text[next]))
    ensures Skipped(text, next) == Skipped(text, at)
  {
    next := at;
    while next < |text| && IsSpace(text[next])
      invariant at <= next <= |text| && Skipped(text, next) == Skipped(text, at)
    {
      SkippedFrom(text, next, next + 1);
      next := next + 1;
    }
  }

  /** What is left starts with neither white space nor a comment. */
  lemma {:induction false} NothingHides(text: string, i: nat)
    requires i <= |text|
    ensures var at := Skipped(text, i);
            at < |text| ==> !IsSpace(text[at]) && !StartsAt(text, at, "--") && !StartsAt(text, at, "/*")
    decreases |text| - i
  {
    if i < |text| {
      SkippedFrom(text, i, SkipOne(text, i));
      if SkipOne(text, i) != i {
        NothingHides(text, SkipOne(text, i));
      }
    }
  }

  lemma StartsShift(all: string, k: nat, b: string, i: nat, needle: string)
    requires EndsWith(all, k, b)
    ensures StartsAt(all, k + i, needle) <==> StartsAt(b, i, needle)
  {
    if i + |needle| <= |b| {
      assert all[k + i..k + i + |needle|] == b[i..i + |needle|];
    }
  }

  lemma {:induction false} FindShift(all: string, k: nat, b: string, i: nat, needle: string)
    requires EndsWith(all, k, b) && i <= |b| && needle != []
    ensures Find(all, k + i, needle) == k + Find(b, i, needle)
    decreases |b| - i
  {
    if i < |b| {
      StartsShift(all, k, b, i, needle);
      FindShift(all, k, b, i + 1, needle);
    }
  }

  lemma PastShift(all: string, k: nat, b: string, i: nat, close: string)
    requires EndsWith(all, k, b) && i <= |b| && close != []
    ensures Past(all, k + i, close) == k + Past(b, i, close)
  {
    FindShift(all, k, b, i, close);
  }

  lemma SkipOneShift(all: string, k: nat, b: string, i: nat)
    requires EndsWith(all, k, b) && i < |b|
    ensures SkipOne(all, k + i) == k + SkipOne(b, i)
  {
    StartsShift(all, k, b, i, "--");
    StartsShift(all, k, b, i, "/*");
    if StartsAt(b, i, "--") {
      PastShift(all, k, b, i + 2, "\n");
    } else if StartsAt(b, i, "/*") {
      PastShift(all, k, b, i + 2, "*/");
    }
  }

  lemma SkippedFrom(text: string, i: nat, past: nat)
    requires i < |text| && past == SkipOne(text, i)
    ensures Skipped(text, i) == if past == i then i else Skipped(text, past)
  {
  }

  /** `f` does from `k` on what `g` does from the start. */
  ghost predicate Shifts(f: nat -> nat, k: nat, g: nat -> nat, end: nat) {
    forall h: nat :: h <= end ==> f(k + h) == k + g(h)
  }

  lemma {:induction false} ChainShift(f: nat -> nat, last: nat, k: nat, g: nat -> nat, end: nat, i: nat)
    requires i <= end && last == k + end && Shifts(f, k, g, end)
    ensures Chain(f, last, k + i) == k + Chain(g, end, i)
    decreases end - i
  {
    assert f(k + i) == k + g(i);
    if i < g(i) <= end {
      ChainShift(f, last, k, g, end, g(i));
    }
  }

  lemma SkipperShift(all: string, k: nat, b: string, h: nat)
    requires EndsWith(all, k, b) && h <= |b|
    ensures Skipper(all)(k + h) == k + Skipper(b)(h)
  {
    if h < |b| {
      SkipOneShift(all, k, b, h);
    }
  }

  lemma SkippersShift(all: string, k: nat, b: string)
    requires EndsWith(all, k, b)
    ensures Shifts(Skipper(all), k, Skipper(b), |b|)
  {
    forall h: nat | h <= |b|
      ensures Skipper(all)(k + h) == k + Skipper(b)(h)
    {
      SkipperShift(all, k, b, h);
    }
  }

  /** What stands before does not change what is skipped after it. */
  lemma SkippedShift(all: string, k: nat, b: string, i: nat)
    requires EndsWith(all, k, b) && i <= |b|
    ensures Skipped(all, k + i) == k + Skipped(b, i)
  {
    SkippersShift(all, k, b);
    ChainShift(Skipper(all), |all|, k, Skipper(b), |b|, i);
  }

  // ---------------------------------------------------------------------
  // Exactly the leading white space and comments are skipped
  // ---------------------------------------------------------------------

  ghost predicate NoneIn(text: string, from: nat, to: nat, needle: string) {
    forall k :: from <= k < to ==> !StartsAt(text, k, needle)
  }

  /** What is open from `from` on is closed at `end`, and not before; or never, and `end` is the end. */
  ghost predicate ClosesAt(text: string, from: nat, end: nat, close: string) {
    || (from + |close| <= end && StartsAt(text, end - |close|, close) && NoneIn(text, from, end - |close|, close))
    || (end == |text| && NoneIn(text, from, end, close))
  }

  /** One white space, line comment or block comment from `i` to `j`. */
  ghost predicate IsPiece(text: string, i: nat, j: nat)
    requires i < |text|
  {
    if IsSpace(text[i]) then j == i + 1
    else if StartsAt(text, i, "--") then ClosesAt(text, i + 2, j, "\n")
    else StartsAt(text, i, "/*") && ClosesAt(text, i + 2, j, "*/")
  }

  /** White space and comments from `i` to `j`, one after the other. */
  ghost predicate IsFiller(text: string, i: nat, j: nat)
    decreases |text| - i
  {
    i == j || (i < |text| && exists k :: i < k <= |text| && IsPiece(text, i, k) && IsFiller(text, k, j))
  }

  predicate StartsNone(text: string, i: nat) {
    i < |text| ==> !IsSpace(text[i]) && !StartsAt(text, i, "--") && !StartsAt(text, i, "/*")
  }

  lemma {:induction false} FindIsFirst(text: string, i: nat, needle: string)
    requires i <= |text| && needle != []
    ensures var at := Find(text, i, needle);
            NoneIn(text, i, at, needle) && (at < |text| ==> StartsAt(text, at, needle))
    decreases |text| - i
  {
    if i < |text| && !StartsAt(text, i, needle) {
      FindIsFirst(text, i + 1, needle);
    }
  }

  lemma NotBefore(text: string, from: nat, at: nat, other: nat, needle: string)
    requires NoneIn(text, from, at, needle) && from <= other && StartsAt(text, other, needle)
    ensures at <= other
  {
  }

  /** Where an opened comment closes. */
  lemma PastIsExact(text: string, from: nat, end: nat, close: string)
    requires from <= |text| && close != [] && end <= |text|
    ensures ClosesAt(text, from, end, close) <==> end == Past(text, from, close)
  {
    FindIsFirst(text, from, close);
    var at := Find(text, from, close);
    if ClosesAt(text, from, end, close) {
      if from + |close| <= end && StartsAt(text, end - |close|, close) && NoneIn(text, from, end - |close|, close) {
        NotBefore(text, from, at, end - |close|, close);
        if at < |text| {
          NotBefore(text, from, end - |close|, at, close);
        }
      }
    }
  }

  lemma PieceIsExact(text: string, i: nat, j: nat)
    requires i < |text| && j <= |text|
    ensures IsPiece(text, i, j) <==> j == SkipOne(text, i) != i
  {
    if !IsSpace(text[i]) {
      if StartsAt(text, i, "--") {
        PastIsExact(text, i + 2, j, "\n");
      } else if StartsAt(text, i, "/*") {
        PastIsExact(text, i + 2, j, "*/");
      }
    }
  }

  /** The skipped part ends at `j` exactly when white space and comments fill it, and none starts at `j`. */
  lemma {:induction false} SkipsExactly(text: string, i: nat, j: nat)
    requires i <= |text| && j <= |text|
    ensures j == Skipped(text, i) <==> IsFiller(text, i, j) && StartsNone(text, j)
    decreases |text| - i
  {
    if i < |text| {
      var n := SkipOne(text, i);
      PieceIsExact(text, i, n);
      forall k | i < k <= |text|
        ensures IsPiece(text, i, k) <==> k == n
      {
        PieceIsExact(text, i, k);
      }
      SkippedFrom(text, i, n);
      if n != i {
        SkipsExactly(text, n, j);
        assert IsFiller(text, i, j) <==> i == j || IsFiller(text, n, j);
        assert !StartsNone(text, i);
      } else {
        assert StartsNone(text, i);
      }
    }
  }

  /** A whole comment: one that closes at its end. */
  ghost predicate IsComment(comment: string) {
    || (StartsAt(comment, 0, "--") && Closed(comment, "\n"))
    || (StartsAt(comment, 0, "/*") && Closed(comment, "*/"))
  }

  ghost predicate Closed(comment: string, close: string) {
    var n := |comment| - |close|;
    2 <= n && StartsAt(comment, n, close) && NoneIn(comment, 2, n, close)
  }

  lemma StartsInFront(a: string, b: string, i: nat, needle: string)
    requires i + |needle| <= |a|
    ensures StartsAt(a + b, i, needle) <==> StartsAt(a, i, needle)
  {
    assert (a + b)[i..i + |needle|] == a[i..i + |needle|];
  }

  lemma ClosesInFront(comment: string, text: string, close: string)
    requires Closed(comment, close)
    ensures ClosesAt(comment + text, 2, |comment|, close)
  {
    var n := |comment| - |close|;
    StartsInFront(comment, text, n, close);
    forall k | 2 <= k < n
      ensures !StartsAt(comment + text, k, close)
    {
      StartsInFront(comment, text, k, close);
    }
  }

  lemma OpensWith(text: string)
    ensures StartsAt(text, 0, "--") ==> |text| >= 2 && text[0] == '-'
    ensures StartsAt(text, 0, "/*") ==> |text| >= 2 && text[0] == '/'
  {
    if |text| >= 2 {
      assert text[0..2][0] == text[0];
    }
  }

  lemma CommentIsPiece(comment: string, text: string)
    requires IsComment(comment)
    ensures |comment| > 0 && IsPiece(comment + text, 0, |comment|)
  {
    OpensWith(comment);
    OpensWith(comment + text);
    StartsInFront(comment, text, 0, "--");
    StartsInFront(comment, text, 0, "/*");
    if StartsAt(comment, 0, "--") {
      ClosesInFront(comment, text, "\n");
    } else {
      ClosesInFront(comment, text, "*/");
    }
  }

  /** No keyword hides behind a comment of either kind: one in front changes nothing of what is left. */
  lemma CommentIsSkipped(comment: string, text: string)
    requires IsComment(comment)
    ensures Skipped(comment + text, 0) == |comment| + Skipped(text, 0)
  {
    CommentIsPiece(comment, text);
    assert SkipOne(comment + text, 0) == |comment| by { PieceIsExact(comment + text, 0, |comment|); }
    SkippedFrom(comment + text, 0, |comment|);
    SkippedShift(comment + text, |comment|, text, 0);
  }

  /** And an unclosed one hides everything. */
  lemma UnclosedSkipsAll(text: string)
    requires || (StartsAt(text, 0, "--") && NoneIn(text, 2, |text|, "\n"))
             || (StartsAt(text, 0, "/*") && NoneIn(text, 2, |text|, "*/"))
    ensures Skipped(text, 0) == |text|
  {
    OpensWith(text);
    PieceIsExact(text, 0, |text|);
    SkippedFrom(text, 0, |text|);
  }
}
