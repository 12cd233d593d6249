/**
 The single-statement scan beside a reading that skips comments, as the scanner itself does
 in front of a keyword: for which texts they agree, and how a comment makes them differ.
 */
module StatementComments {
  import opened Params
  import opened StatementScan

  /** A comment starts at `i`: no white space, and yet skipped in front of a keyword. */
  predicate CommentAt(text: string, i: nat)
    requires i < |text|
  {
    !IsSpace(text[i]) && SkipOne(text, i) != i
  }

  /** The end of the comment that starts at `i`, or `i`. */
  function Commenter(text: string): nat -> nat {
    var skip := Skipper(text);
    (i: nat) => if i < |text| && IsSpace(text[i]) then i else skip(i)
  }

  /** The first semicolon outside quotes and what `skip` skips from `i` on, or the end. */
  function SemiBy(text: string, skip: nat -> nat, i: nat, q: Quote): (at: nat)
    requires i <= |text|
    ensures i <= at <= |text|
    decreases |text| - i
  {
    if i == |text| then i
    else if q == Outside && i < skip(i) <= |text| then SemiBy(text, skip, skip(i), q)
    else if q == Outside && text[i] == ';' then i
    else SemiBy(text, skip, i + 1, After(q, text[i]))
  }

  /** The first semicolon outside quotes and comments, or the end. */
  function Semi(text: string): (at: nat)
    ensures at <= |text|
  {
    SemiBy(text, Commenter(text), 0, Outside)
  }

  /** One statement: only white space and comments follow that semicolon. */
  predicate OneStatement(text: string) {
    SkippedAfter(text, Semi(text))
  }

  predicate SkippedAfter(text: string, semi: nat)
    requires semi <= |text|
  {
    semi == |text| || Skipped(text, semi + 1) == |text|
  }

  /** No comment starts at or after `i`. */
  predicate NoCommentFrom(text: string, i: nat) {
    forall k :: i <= k < |text| ==> !CommentAt(text, k)
  }

  /** No quote and no semicolon from `i` to `j`. */
  predicate InertIn(text: string, i: nat, j: nat)
    requires j <= |text|
  {
    forall k :: i <= k < j ==> text[k] != '\'' && text[k] != '"' && text[k] != ';'
  }

  predicate PlainBy(text: string, skip: nat -> nat, i: nat, q: Quote)
    requires i <= |text|
    decreases |text| - i
  {
    if i == |text| then true
    else if q == Outside && i < skip(i) <= |text| then InertIn(text, i, skip(i)) && PlainBy(text, skip, skip(i), q)
    else if q == Outside && text[i] == ';' then true
    else PlainBy(text, skip, i + 1, After(q, text[i]))
  }

  /** The comments before that semicolon hold no quote and no semicolon. */
  predicate PlainComments(text: string) {
    PlainBy(text, Commenter(text), 0, Outside)
  }

  // ---------------------------------------------------------------------
  // Where they agree
  // ---------------------------------------------------------------------

  lemma {:induction false} ScanPassesInert(text: string, i: nat, j: nat, q: Quote)
    requires i <= j <= |text| && InertIn(text, i, j)
    ensures SingleFrom(text, i, q) == SingleFrom(text, j, q)
    decreases j - i
  {
    if i < j {
      assert text[i] != ';' && After(q, text[i]) == q;
      ScanPassesInert(text, i + 1, j, q);
    }
  }

  /** With plain comments both find the same semicolon. */
  lemma {:induction false} SameSemicolon(text: string, skip: nat -> nat, i: nat, q: Quote)
    requires i <= |text| && PlainBy(text, skip, i, q)
    ensures var semi := SemiBy(text, skip, i, q);
            SingleFrom(text, i, q) <==> semi == |text| || Blank(text[semi + 1..])
    decreases |text| - i
  {
    if i < |text| {
      if q == Outside && i < skip(i) <= |text| {
        ScanPassesInert(text, i, skip(i), q);
        SameSemicolon(text, skip, skip(i), q);
      } else if !(q == Outside && text[i] == ';') {
        SameSemicolon(text, skip, i + 1, After(q, text[i]));
      }
    }
  }

  /** White space is skipped whole, and holds no comment. */
  lemma {:induction false} BlankIsSkipped(text: string, i: nat)
    requires i <= |text| && Blank(text[i..])
    ensures Skipped(text, i) == |text| && NoCommentFrom(text, i)
    decreases |text| - i
  {
    if i < |text| {
      assert text[i..][0] == text[i] && text[i] in text[i..];
      assert forall c :: c in text[i + 1..] ==> c in text[i..];
      SkippedFrom(text, i, i + 1);
      BlankIsSkipped(text, i + 1);
    }
  }

  /** What is skipped and holds no comment is white space. */
  lemma {:induction false} SkippedIsBlank(text: string, i: nat)
    requires i <= |text| && Skipped(text, i) == |text| && NoCommentFrom(text, i)
    ensures Blank(text[i..])
    decreases |text| - i
  {
    if i < |text| {
      SkippedFrom(text, i, SkipOne(text, i));
      assert !CommentAt(text, i);
      SkippedIsBlank(text, i + 1);
      assert text[i..] == [text[i]] + text[i + 1..];
    }
  }

  lemma BlankRestExactly(text: string, i: nat)
    requires i <= |text|
    ensures Blank(text[i..]) <==>
            Skipped(text, i) == |text| && NoCommentFrom(text, i)
  {
    if Blank(text[i..]) {
      BlankIsSkipped(text, i);
    } else if Skipped(text, i) == |text| && NoCommentFrom(text, i) {
      SkippedIsBlank(text, i);
    }
  }

  lemma ScanIsSingle(text: string)
    ensures SingleStatement(text) <==> SingleFrom(text, 0, Outside)
  {
    assert text[..0] == [];
    ScanIsExact(text, 0);
  }

  /** Nothing but white space follows that semicolon. */
  predicate BlankAfterSemi(text: string) {
    Semi(text) == |text| || Blank(text[Semi(text) + 1..])
  }

  lemma OneExactly(text: string)
    ensures BlankAfterSemi(text) <==> OneStatement(text) && NoCommentFrom(text, Semi(text) + 1)
  {
    if Semi(text) < |text| {
      BlankRestExactly(text, Semi(text) + 1);
    }
  }

  lemma PlainIsBlankAfter(text: string)
    requires PlainComments(text)
    ensures SingleFrom(text, 0, Outside) <==> BlankAfterSemi(text)
  {
    SameSemicolon(text, Commenter(text), 0, Outside);
  }

  /**
   For texts whose comments hold no quote and no semicolon, the scan accepts exactly the single
   statements, but for those with a comment after the semicolon.
   */
  lemma AgreesOnPlainComments(text: string)
    requires PlainComments(text)
    ensures SingleStatement(text) <==> OneStatement(text) && NoCommentFrom(text, Semi(text) + 1)
  {
    ScanIsSingle(text);
    PlainIsBlankAfter(text);
    OneExactly(text);
  }

  // ---------------------------------------------------------------------
  // How they differ
  // ---------------------------------------------------------------------

  lemma CommenterShift(all: string, k: nat, b: string, h: nat)
    requires EndsWith(all, k, b) && h <= |b| && Skipper(all)(k + h) == k + Skipper(b)(h)
    ensures Commenter(all)(k + h) == k + Commenter(b)(h)
  {
  }

  lemma CommentersShift(all: string, k: nat, b: string)
    requires EndsWith(all, k, b)
    ensures Shifts(Commenter(all), k, Commenter(b), |b|)
  {
    forall h: nat | h <= |b|
      ensures Commenter(all)(k + h) == k + Commenter(b)(h)
    {
      SkipperShift(all, k, b, h);
      CommenterShift(all, k, b, h);
    }
  }

  /** Where the reading goes from `i`, and with which quoting; nowhere at its semicolon. */
  function NextOf(text: string, skip: nat -> nat, i: nat, q: Quote): (nat, Quote)
    requires i < |text|
  {
    if q == Outside && i < skip(i) <= |text| then (skip(i), q)
    else if q == Outside && text[i] == ';' then (i, q)
    else (i + 1, After(q, text[i]))
  }

  lemma SemiNext(text: string, skip: nat -> nat, i: nat, q: Quote)
    requires i < |text|
    ensures var (j, q') := NextOf(text, skip, i, q);
            i <= j <= |text| && SemiBy(text, skip, i, q) == if j == i then i else SemiBy(text, skip, j, q')
  {
  }

  lemma NextShift(all: string, f: nat -> nat, k: nat, b: string, g: nat -> nat, i: nat, q: Quote)
    requires EndsWith(all, k, b) && Shifts(f, k, g, |b|) && i < |b|
    ensures NextOf(all, f, k + i, q) == (k + NextOf(b, g, i, q).0, NextOf(b, g, i, q).1)
  {
    assert all[k + i] == b[i] && f(k + i) == k + g(i);
  }

  lemma {:induction false} SemiShift(
    all: string, f: nat -> nat, k: nat, b: string, g: nat -> nat, i: nat, q: Quote)
    requires EndsWith(all, k, b) && Shifts(f, k, g, |b|) && i <= |b|
    ensures SemiBy(all, f, k + i, q) == k + SemiBy(b, g, i, q)
    decreases |b| - i
  {
    if i < |b| {
      var (j, q') := NextOf(b, g, i, q);
      NextShift(all, f, k, b, g, i, q);
      SemiNext(b, g, i, q);
      SemiNext(all, f, k + i, q);
      if i < j {
        SemiShift(all, f, k, b, g, j, q');
      }
    }
  }

  lemma SemiAfterSkip(all: string, f: nat -> nat, k: nat, text: string, g: nat -> nat)
    requires EndsWith(all, k, text) && Shifts(f, k, g, |text|) && f(0) == k > 0
    ensures SemiBy(all, f, 0, Outside) == k + SemiBy(text, g, 0, Outside)
  {
    SemiShift(all, f, k, text, g, 0, Outside);
  }

  lemma SemiAfterComment(all: string, k: nat, text: string)
    requires EndsWith(all, k, text) && k > 0 && CommentAt(all, 0) && SkipOne(all, 0) == k
    ensures Semi(all) == k + Semi(text)
  {
    CommentersShift(all, k, text);
    SemiAfterSkip(all, Commenter(all), k, text, Commenter(text));
  }

  lemma SkippedAfterShift(all: string, k: nat, text: string, semi: nat)
    requires EndsWith(all, k, text) && semi <= |text|
    ensures SkippedAfter(all, k + semi) <==> SkippedAfter(text, semi)
  {
    if semi < |text| {
      SkippedShift(all, k, text, semi + 1);
      assert k + (semi + 1) == k + semi + 1;
    }
  }

  lemma OneAfter(all: string, k: nat, text: string)
    requires EndsWith(all, k, text) && Semi(all) == k + Semi(text)
    ensures OneStatement(all) <==> OneStatement(text)
  {
    SkippedAfterShift(all, k, text, Semi(text));
  }

  lemma OneAfterComment(all: string, k: nat, text: string)
    requires EndsWith(all, k, text) && k > 0 && CommentAt(all, 0) && SkipOne(all, 0) == k
    ensures OneStatement(all) <==> OneStatement(text)
  {
    SemiAfterComment(all, k, text);
    OneAfter(all, k, text);
  }

  lemma CommentInFront(comment: string, text: string)
    requires IsComment(comment)
    ensures |comment| > 0 && CommentAt(comment + text, 0) && SkipOne(comment + text, 0) == |comment|
  {
    CommentIsPiece(comment, text);
    PieceIsExact(comment + text, 0, |comment|);
  }

  /** A comment in front does not matter to the reading that skips it. */
  lemma CommentDoesNotMatter(comment: string, text: string)
    requires IsComment(comment)
    ensures OneStatement(comment + text) <==> OneStatement(text)
  {
    CommentInFront(comment, text);
    OneAfterComment(comment + text, |comment|, text);
  }

  lemma {:induction false} QuotedToTheEnd(text: string, i: nat)
    requires i <= |text| && '\'' !in text[i..]
    ensures SingleFrom(text, i, Single)
    decreases |text| - i
  {
    if i < |text| {
      assert text[i..][0] == text[i] && text[i] in text[i..];
      assert forall c :: c in text[i + 1..] ==> c in text[i..];
      QuotedToTheEnd(text, i + 1);
    }
  }

  /** The scan after text it passes over and one character more. */
  lemma ScanOneMore(a: string, c: char, rest: string)
    requires Inert(a)
    ensures SingleStatement(a + ([c] + rest)) <==>
            if c == ';' then Blank(rest) else SingleFrom([c] + rest, 1, After(Outside, c))
  {
    ScanIsSingle(a + ([c] + rest));
    ScanInert(a, [c] + rest, 0, Outside);
    assert ([c] + rest)[1..] == rest;
  }

  lemma Regrouped(a: string, c: char, b: string, text: string)
    ensures a + [c] + b + text == a + ([c] + (b + text))
  {
  }

  /**
   An apostrophe in a comment hides all that follows: the scan takes it for one statement,
   whatever it is.
   */
  lemma ApostropheHides(a: string, b: string, text: string)
    requires IsComment(a + ['\''] + b) && Inert(a) && '\'' !in b + text
    ensures SingleStatement(a + ['\''] + b + text)
    ensures OneStatement(a + ['\''] + b + text) <==> OneStatement(text)
  {
    var quote := '\'';
    CommentDoesNotMatter(a + [quote] + b, text);
    Regrouped(a, quote, b, text);
    ScanOneMore(a, quote, b + text);
    assert ([quote] + (b + text))[1..] == b + text;
    QuotedToTheEnd([quote] + (b + text), 1);
  }

  /** And a semicolon in one ends the statement there, if anything but white space follows. */
  lemma SemicolonInComment(a: string, b: string, text: string)
    requires IsComment(a + [';'] + b) && Inert(a)
    ensures SingleStatement(a + [';'] + b + text) <==> Blank(b + text)
    ensures OneStatement(a + [';'] + b + text) <==> OneStatement(text)
  {
    CommentDoesNotMatter(a + [';'] + b, text);
    Regrouped(a, ';', b, text);
    ScanOneMore(a, ';', b + text);
  }

  lemma LineComment(body: string)
    requires '\n' !in body
    ensures IsComment("--" + body + "\n")
  {
    var comment := "--" + body + "\n";
    var n := |comment| - 1;
    assert comment[0..2] == "--" && comment[n..n + 1] == "\n";
    forall k | 2 <= k < n
      ensures !StartsAt(comment, k, "\n")
    {
      assert comment[k..k + 1][0] == comment[k] == body[k - 2];
    }
  }

  lemma StatementAfter(text: string)
    requires |text| >= 2 && text[0] == ';' && StartsNone(text, 1)
    ensures !OneStatement(text)
  {
    assert !CommentAt(text, 0) by { OpensWith(text); }
    assert Commenter(text)(0) == 0;
    SkippedFrom(text, 1, SkipOne(text, 1));
  }

  /** An apostrophe in a line comment, with two statements after it: the scan sees one. */
  lemma TwoStatementsPass(a: string, b: string, text: string)
    requires Inert(a) && '\n' !in a && '\n' !in b && '\'' !in b && '\'' !in text
    requires |text| >= 2 && text[0] == ';' && StartsNone(text, 1)
    ensures var sql := "--" + a + ['\''] + (b + "\n") + text; SingleStatement(sql) && !OneStatement(sql)
  {
    LineComment(a + ['\''] + b);
    assert "--" + a + ['\''] + (b + "\n") == "--" + (a + ['\''] + b) + "\n";
    ApostropheHides("--" + a, b + "\n", text);
    StatementAfter(text);
  }
}
