/** What the splitter keeps, drops and cuts at, stated over Scan, NextStatement and
    Statements, and what execute() does with the statements. */
module ScriptProperties {
  import opened Wrappers
  import opened Text
  import opened SqlScript

  // ---------------------------------------------------------------------
  // Runs of characters in each mode

  /** Code text that neither ends a statement, nor opens a literal, nor holds a '--'. */
  predicate PlainCode(code: string) {
    forall i :: 0 <= i < |code| ==>
      code[i] != Semicolon && code[i] != Quote && (code[i] == Dash && i + 1 < |code| ==> code[i + 1] != Dash)
  }

  /** Plain code is kept as it is, provided the text after it does not turn its last '-'
      into the start of a comment. */
  lemma {:induction false} CodePrefix(code: string, rest: string, acc: string)
    requires PlainCode(code)
    requires code != [] && code[|code| - 1] == Dash ==> rest == [] || rest[0] != Dash
    ensures Scan(code + rest, Code, acc) == Scan(rest, Code, acc + code)
    decreases |code|
  {
    var s := code + rest;
    if code == [] {
      assert s == rest && acc + code == acc;
    } else {
      assert s[0] == code[0] && s[1..] == code[1..] + rest;
      assert Step(s[0], Lookahead(s), Code) == (Code, true) by {
        if |code| > 1 { assert s[1] == code[1]; } else if rest != [] { assert s[1] == rest[0]; }
      }
      assert PlainCode(code[1..]) by {
        forall i | 0 <= i < |code| - 1 ensures code[1..][i] == code[i + 1] { }
      }
      CodePrefix(code[1..], rest, acc + [code[0]]);
      assert acc + [code[0]] + code[1..] == acc + code;
    }
  }

  /** Outside a literal, ';' ends the statement: the code before it is kept as it is, the
      ';' itself is consumed, and scanning stops right after it. */
  lemma CodeRun(code: string, rest: string, acc: string)
    requires PlainCode(code)
    ensures Scan(code + [Semicolon] + rest, Code, acc) == (acc + code, rest)
  {
    CodePrefix(code, [Semicolon] + rest, acc);
    assert code + [Semicolon] + rest == code + ([Semicolon] + rest);
    assert ([Semicolon] + rest)[1..] == rest;
  }

  /** Plain code running to the end of the input is the whole of the last piece. */
  lemma CodeToEnd(code: string, acc: string)
    requires PlainCode(code)
    ensures Scan(code, Code, acc) == (acc + code, [])
  {
    CodePrefix(code, [], acc);
    assert code + [] == code;
  }

  /** Inside a literal every character is kept, ';' and '--' included, up to and with the
      closing quote, after which scanning is back in code. */
  lemma {:induction false} LiteralBody(lit: string, rest: string, acc: string)
    requires Quote !in lit
    ensures Scan(lit + [Quote] + rest, Literal, acc) == Scan(rest, Code, acc + lit + [Quote])
    decreases |lit|
  {
    var s := lit + [Quote] + rest;
    if lit == [] {
      assert s == [Quote] + rest;
      assert s[1..] == rest;
      assert acc + lit == acc;
    } else {
      assert s[0] == lit[0] && s[1..] == lit[1..] + [Quote] + rest;
      LiteralBody(lit[1..], rest, acc + [lit[0]]);
      assert acc + [lit[0]] + lit[1..] == acc + lit;
    }
  }

  /** A quoted literal met in code is kept whole, quotes included. */
  lemma LiteralRun(lit: string, rest: string, acc: string)
    requires Quote !in lit
    ensures Scan([Quote] + lit + [Quote] + rest, Code, acc) == Scan(rest, Code, acc + [Quote] + lit + [Quote])
  {
    var s := [Quote] + lit + [Quote] + rest;
    assert s[0] == Quote && s[1..] == lit + [Quote] + rest;
    LiteralBody(lit, rest, acc + [Quote]);
    assert acc + [Quote] + lit + [Quote] == (acc + [Quote]) + lit + [Quote];
  }

  /** Inside a comment every character is dropped until a newline, which is kept and ends it. */
  lemma {:induction false} CommentBody(body: string, rest: string, acc: string)
    requires Newline !in body
    ensures Scan(body + [Newline] + rest, Comment, acc) == Scan(rest, Code, acc + [Newline])
    decreases |body|
  {
    var s := body + [Newline] + rest;
    if body == [] {
      assert s == [Newline] + rest;
      assert s[1..] == rest;
    } else {
      assert s[0] == body[0] && s[1..] == body[1..] + [Newline] + rest;
      CommentBody(body[1..], rest, acc);
    }
  }

  /** A comment that reaches the end of the input drops everything to the end. */
  lemma {:induction false} CommentToEnd(body: string, acc: string)
    requires Newline !in body
    ensures Scan(body, Comment, acc) == (acc, [])
    decreases |body|
  {
    if body != [] {
      assert body[0] != Newline;
      CommentToEnd(body[1..], acc);
    }
  }

  /** '--' met in code drops the comment up to the newline and keeps the newline. */
  lemma CommentRun(body: string, rest: string, acc: string)
    requires Newline !in body
    ensures Scan([Dash, Dash] + body + [Newline] + rest, Code, acc) == Scan(rest, Code, acc + [Newline])
  {
    var s := [Dash, Dash] + body + [Newline] + rest;
    assert s[0] == Dash && s[1] == Dash && Lookahead(s) == Some(Dash);
    assert s[1..] == [Dash] + body + [Newline] + rest;
    var t := [Dash] + body + [Newline] + rest;
    assert t[0] == Dash && t[1..] == body + [Newline] + rest;
    CommentBody(body, rest, acc);
  }

  // ---------------------------------------------------------------------
  // A ';' inside a statement always lies inside a quoted literal

  function Quotes(s: string): (n: nat)
    ensures n <= |s|
  {
    if s == [] then 0 else (if s[0] == Quote then 1 else 0) + Quotes(s[1..])
  }

  lemma {:induction false} QuotesAppend(a: string, b: string)
    ensures Quotes(a + b) == Quotes(a) + Quotes(b)
    decreases |a|
  {
    if a == [] {
      assert a + b == b;
    } else {
      assert (a + b)[1..] == a[1..] + b;
      QuotesAppend(a[1..], b);
    }
  }

  lemma {:induction false} QuotesBlank(s: string)
    requires AllBlank(s)
    ensures Quotes(s) == 0
    decreases |s|
  {
    if s != [] {
      assert IsBlank(s[0]);
      QuotesBlank(s[1..]);
    }
  }

  /** Every ';' of `s` comes after an odd number of quotes, that is inside a literal. */
  predicate SemicolonsQuoted(s: string) {
    forall i :: 0 <= i < |s| && s[i] == Semicolon ==> Quotes(s[..i]) % 2 == 1
  }

  /** What the scanner keeps track of: the text collected so far has its ';' inside literals,
      and it is inside an unclosed literal exactly when the mode says so. */
  predicate ScanInvariant(acc: string, mode: Mode) {
    SemicolonsQuoted(acc) && (mode == Literal <==> Quotes(acc) % 2 == 1)
  }

  lemma ScanInvariantKeep(acc: string, c: char, mode: Mode, mode': Mode, keep: bool)
    requires ScanInvariant(acc, mode)
    requires mode == Code ==> c != Semicolon
    requires (mode', keep) == Step(c, None, mode) || (mode == Code && c == Dash && (mode', keep) == (Comment, false))
    ensures ScanInvariant(if keep then acc + [c] else acc, mode')
  {
    if keep {
      var a := acc + [c];
      assert a[..|acc|] == acc;
      QuotesAppend(acc, [c]);
      assert Quotes([c]) == if c == Quote then 1 else 0;
      forall i | 0 <= i < |a| && a[i] == Semicolon
        ensures Quotes(a[..i]) % 2 == 1
      {
        if i < |acc| {
          assert a[..i] == acc[..i];
        }
      }
    }
  }

  lemma {:induction false} ScanKeepsSemicolonsQuoted(s: string, mode: Mode, acc: string)
    requires ScanInvariant(acc, mode)
    ensures SemicolonsQuoted(Scan(s, mode, acc).0)
    decreases |s|
  {
    if s != [] && !(mode == Code && s[0] == Semicolon) {
      var (mode', keep) := Step(s[0], Lookahead(s), mode);
      assert (mode', keep) == Step(s[0], None, mode) || (mode == Code && s[0] == Dash && (mode', keep) == (Comment, false));
      ScanInvariantKeep(acc, s[0], mode, mode', keep);
      ScanKeepsSemicolonsQuoted(s[1..], mode', if keep then acc + [s[0]] else acc);
    }
  }

  /** Blanks put in front keep every ';' inside its literal. */
  lemma BlankPrefixKeepsSemicolonsQuoted(b: string, t: string)
    requires AllBlank(b) && SemicolonsQuoted(b + t)
    ensures SemicolonsQuoted(t)
  {
    QuotesBlank(b);
    forall i | 0 <= i < |t| && t[i] == Semicolon
      ensures Quotes(t[..i]) % 2 == 1
    {
      var s := b + t;
      assert s[|b| + i] == t[i];
      assert s[..|b| + i] == b + t[..i];
      QuotesAppend(b, t[..i]);
    }
  }

  /** Blanks cut off at the end cannot take a ';' out of its literal. */
  lemma PrefixKeepsSemicolonsQuoted(t: string, e: string)
    requires SemicolonsQuoted(t + e)
    ensures SemicolonsQuoted(t)
  {
    forall i | 0 <= i < |t| && t[i] == Semicolon
      ensures Quotes(t[..i]) % 2 == 1
    {
      assert (t + e)[i] == t[i] && (t + e)[..i] == t[..i];
    }
  }

  /** Trimming removes blanks only, so it keeps every ';' inside its literal. */
  lemma TrimKeepsSemicolonsQuoted(s: string)
    requires SemicolonsQuoted(s)
    ensures SemicolonsQuoted(Trim(s))
  {
    TrimInfix(s);
    var lo, t := Lead(s), Trim(s);
    var e := s[lo + |t|..];
    assert s == s[..lo] + (t + e);
    BlankPrefixKeepsSemicolonsQuoted(s[..lo], t + e);
    PrefixKeepsSemicolonsQuoted(t, e);
  }

  /** Every statement next() returns is non-empty, trimmed, and has its ';' inside literals. */
  lemma {:induction false} NextStatementClean(s: string)
    ensures NextStatement(s).0.Some? ==> SemicolonsQuoted(NextStatement(s).0.value)
    decreases |s|
  {
    var (piece, rest) := Scan(s, Code, []);
    assert ScanInvariant([], Code);
    ScanKeepsSemicolonsQuoted(s, Code, []);
    TrimKeepsSemicolonsQuoted(piece);
    if Trim(piece) == [] && rest != [] {
      NextStatementClean(rest);
    }
  }

  /** All statements of a script are non-empty, trimmed, and free of unquoted ';'. */
  lemma {:induction false} StatementsClean(s: string)
    ensures forall i :: 0 <= i < |Statements(s)| ==>
      Statements(s)[i] != [] && IsTrimmed(Statements(s)[i]) && SemicolonsQuoted(Statements(s)[i])
    decreases |s|
  {
    var r := NextStatement(s);
    if r.0.Some? {
      NextStatementClean(s);
      StatementsClean(r.1);
      assert Statements(s) == [r.0.value] + Statements(r.1);
    }
  }

  /** next() returns the trimmed first piece when it holds more than blanks. */
  lemma NextOfPiece(s: string, piece: string, rest: string)
    requires Scan(s, Code, []) == (piece, rest) && !AllBlank(piece)
    ensures NextStatement(s) == (Some(Trim(piece)), rest)
  {
  }

  /** Plain code up to a ';' is a statement of its own, trimmed. */
  lemma NextOfCode(code: string, rest: string)
    requires PlainCode(code) && !AllBlank(code)
    ensures NextStatement(code + [Semicolon] + rest) == (Some(Trim(code)), rest)
  {
    CodeRun(code, rest, []);
    assert [] + code == code;
    NextOfPiece(code + [Semicolon] + rest, code, rest);
  }

  // ---------------------------------------------------------------------
  // execute(): every statement is run once, in order, with a commit after every
  // commitAfter-th statement and one more at the end

  /** The statements run by executeUpdate, in order. */
  function Updates(calls: seq<DbCall>): (r: seq<string>)
    ensures |r| <= |calls|
  {
    if calls == [] then []
    else (if calls[0].Update? then [calls[0].sql] else []) + Updates(calls[1..])
  }

  function Commits(calls: seq<DbCall>): (n: nat)
    ensures n <= |calls|
  {
    if calls == [] then 0 else (if calls[0] == Commit then 1 else 0) + Commits(calls[1..])
  }

  lemma {:induction false} UpdatesAppend(a: seq<DbCall>, b: seq<DbCall>)
    ensures Updates(a + b) == Updates(a) + Updates(b)
    ensures Commits(a + b) == Commits(a) + Commits(b)
    decreases |a|
  {
    if a == [] {
      assert a + b == b;
    } else {
      var s := a + b;
      assert s[0] == a[0] && s[1..] == a[1..] + b;
      UpdatesAppend(a[1..], b);
      var h := if a[0].Update? then [a[0].sql] else [];
      calc {
        Updates(s);
        h + Updates(a[1..] + b);
        h + (Updates(a[1..]) + Updates(b));
        (h + Updates(a[1..])) + Updates(b);
      }
    }
  }

  /** execute() runs exactly the script's statements, each once, in their order. */
  lemma {:induction false} ExecutionUpdates(statements: seq<string>, counter: int, commitAfter: int)
    ensures Updates(ExecutionFrom(statements, counter, commitAfter)) == statements
    decreases |statements|
  {
    if statements != [] {
      var c := counter + 1;
      var head := [Update(statements[0])] + (if CommitDue(c, commitAfter) then [Commit] else []);
      ExecutionUpdates(statements[1..], c, commitAfter);
      UpdatesAppend(head, ExecutionFrom(statements[1..], c, commitAfter));
      assert Updates(head) == [statements[0]] by {
        assert head[1..] == (if CommitDue(c, commitAfter) then [Commit] else []);
      }
      assert statements == [statements[0]] + statements[1..];
    }
  }

  /** The last call of execute() is always a commit, whatever commitAfter is. */
  lemma {:induction false} ExecutionEndsWithCommit(statements: seq<string>, counter: int, commitAfter: int)
    ensures ExecutionFrom(statements, counter, commitAfter) != []
    ensures ExecutionFrom(statements, counter, commitAfter)[|ExecutionFrom(statements, counter, commitAfter)| - 1] == Commit
    decreases |statements|
  {
    if statements != [] {
      ExecutionEndsWithCommit(statements[1..], counter + 1, commitAfter);
    }
  }

  lemma MulAtLeast(a: int, m: int)
    requires a >= 1 && m > 0
    ensures a * m >= m
  {
    assert a * m == (a - 1) * m + m;
    assert (a - 1) * m >= 0;
  }

  /** Quotient and remainder are the only ones with the remainder in [0, m). */
  lemma DivUnique(x: int, m: int, q: int, r: int)
    requires m > 0 && 0 <= r < m && x == q * m + r
    ensures x / m == q && x % m == r
  {
    var q', r' := x / m, x % m;
    assert x == q' * m + r';
    assert (q - q') * m == r' - r;
    if q' < q {
      MulAtLeast(q - q', m);
    } else if q < q' {
      MulAtLeast(q' - q, m);
    }
  }

  /** Stepping a count by one passes a multiple of m exactly when the new count is one. */
  lemma DivStep(c: int, m: int)
    requires c >= 0 && m > 0
    ensures (c + 1) % m == 0 ==> (c + 1) / m == c / m + 1
    ensures (c + 1) % m != 0 ==> (c + 1) / m == c / m
  {
    var q, r := c / m, c % m;
    assert c == q * m + r;
    if r + 1 == m {
      assert c + 1 == (q + 1) * m + 0;
      DivUnique(c + 1, m, q + 1, 0);
    } else {
      DivUnique(c + 1, m, q, r + 1);
    }
  }

  /** With commitAfter > 0, execute() commits once per multiple of commitAfter the count
      reaches, plus the final commit; otherwise it commits only at the end. */
  lemma {:induction false} ExecutionCommits(statements: seq<string>, counter: int, commitAfter: int)
    requires counter >= 0
    ensures commitAfter <= 0 ==> Commits(ExecutionFrom(statements, counter, commitAfter)) == 1
    ensures commitAfter > 0 ==>
      Commits(ExecutionFrom(statements, counter, commitAfter)) == (counter + |statements|) / commitAfter - counter / commitAfter + 1
    decreases |statements|
  {
    if statements == [] {
      assert Commits([Commit]) == 1 + Commits([]);
    } else {
      var c := counter + 1;
      var head := [Update(statements[0])] + (if CommitDue(c, commitAfter) then [Commit] else []);
      ExecutionCommits(statements[1..], c, commitAfter);
      UpdatesAppend(head, ExecutionFrom(statements[1..], c, commitAfter));
      assert Commits(head) == (if CommitDue(c, commitAfter) then 1 else 0) by {
        assert head[1..] == (if CommitDue(c, commitAfter) then [Commit] else []);
        if CommitDue(c, commitAfter) {
          assert Commits(head[1..]) == 1 + Commits(head[1..][1..]);
        }
      }
      if commitAfter > 0 {
        DivStep(counter, commitAfter);
      }
    }
  }

  /** The script of n statements with commitAfter k commits n / k + 1 times: a count that is a
      multiple of k ends with two commits in a row. */
  lemma ScriptCommits(statements: seq<string>, commitAfter: int)
    ensures commitAfter > 0 ==> Commits(ExecutionFrom(statements, 0, commitAfter)) == |statements| / commitAfter + 1
    ensures commitAfter <= 0 ==> Commits(ExecutionFrom(statements, 0, commitAfter)) == 1
  {
    ExecutionCommits(statements, 0, commitAfter);
  }

  /** When nothing throws, execute() makes createStatement and then the calls above: every
      statement once, in order, and the final commit last. */
  lemma PlanCalls(statements: seq<string>, commitAfter: int)
    ensures Plan(statements, commitAfter)[0] == CreateStatement
    ensures Updates(Plan(statements, commitAfter)) == statements
    ensures Commits(Plan(statements, commitAfter)) == Commits(ExecutionFrom(statements, 0, commitAfter))
    ensures Plan(statements, commitAfter)[|Plan(statements, commitAfter)| - 1] == Commit
  {
    var later := ExecutionFrom(statements, 0, commitAfter);
    var plan := [CreateStatement] + later;
    assert Updates([CreateStatement]) == [] && Commits([CreateStatement]) == 0 by {
      assert [CreateStatement][1..] == [];
    }
    UpdatesAppend([CreateStatement], later);
    ExecutionUpdates(statements, 0, commitAfter);
    ExecutionEndsWithCommit(statements, 0, commitAfter);
    assert plan[|plan| - 1] == later[|later| - 1];
  }

  /** The calls of a plan from index i on stop at the first one that throws: execute() ends
      without an exception exactly when none of them throws, and otherwise the exception is the
      one of the last call made, every call before it having succeeded. */
  lemma {:induction false} ReachedFirstFailure(plan: seq<DbCall>, driver: nat -> Option<string>, i: nat)
    requires i <= |plan|
    ensures var r := Reached(plan, driver, i);
      (r.1.None? <==> forall j :: i <= j < |plan| ==> driver(j).None?)
      && (r.1.Some? ==> i < r.0 && r.1 == driver(r.0 - 1) && forall j :: i <= j < r.0 - 1 ==> driver(j).None?)
    decreases |plan| - i
  {
    if i < |plan| && driver(i).None? {
      ReachedFirstFailure(plan, driver, i + 1);
    }
  }

  /** execute() on a fresh script makes the first calls of its plan, and it ends without an
      SQLException exactly when none of the plan's calls throws. Then the calls made are all of
      them: every statement is run, in order, and the final commit is made. */
  lemma ExecutedCompletes(statements: seq<string>, commitAfter: int, driver: nat -> Option<string>)
    ensures var plan := Plan(statements, commitAfter);
      var r := Executed(statements, commitAfter, driver);
      r.0 <= plan
      && (r.1.None? <==> forall j :: 0 <= j < |plan| ==> driver(j).None?)
      && (r.1.None? ==> r.0 == plan && Updates(r.0) == statements && r.0[|r.0| - 1] == Commit)
  {
    ReachedFirstFailure(Plan(statements, commitAfter), driver, 0);
    PlanCalls(statements, commitAfter);
  }

  /** After an SQLException, the call that threw is the last call made, all calls before it
      succeeded, and the statements run are the first ones of the script: none after the
      failing call is run. */
  lemma ExecutedAborts(statements: seq<string>, commitAfter: int, driver: nat -> Option<string>)
    requires Executed(statements, commitAfter, driver).1.Some?
    ensures var r := Executed(statements, commitAfter, driver);
      r.0 != [] && driver(|r.0| - 1).Some?
      && r.1 == Some(SqlFailure(driver(|r.0| - 1).value))
      && (forall j :: 0 <= j < |r.0| - 1 ==> driver(j).None?)
      && Updates(r.0) <= statements
  {
    var plan := Plan(statements, commitAfter);
    ReachedFirstFailure(plan, driver, 0);
    PlanCalls(statements, commitAfter);
    UpdatesPrefix(plan, Reached(plan, driver, 0).0);
  }

  /** The updates of the first n calls come first among the updates of all of them. */
  lemma UpdatesPrefix(calls: seq<DbCall>, n: nat)
    requires n <= |calls|
    ensures Updates(calls[..n]) <= Updates(calls)
  {
    assert calls == calls[..n] + calls[n..];
    UpdatesAppend(calls[..n], calls[n..]);
  }

  // ---------------------------------------------------------------------
  // The sample script of Script.main,
  //   /home/antons/sic.sql;' -- poznamka';a toto --realna poznamka\n;dalsi
  // read with successive next() calls: a path, a literal holding '--', a statement with
  // a trailing comment, and a last statement without ';'. Each lemma takes its piece of
  // the sample as a parameter pinned to its text, and the rest of the script as any text.

  /** First call: the priming NUL is trimmed away with the statement's blanks. */
  lemma SampleFirst(path: string, rest: string)
    requires path == "/home/antons/sic.sql"
    ensures NextStatement(['\0'] + path + [Semicolon] + rest) == (Some(path), rest)
  {
    var p := ['\0'] + path;
    assert PlainCode(p);
    assert p == ['\0'] + path + [];
    TrimOf(['\0'], path, []);
    NextOfCode(p, rest);
  }

  /** Second call: a '--' inside a literal is part of the statement. */
  lemma SampleSecond(p: string, rest: string)
    requires p == "' -- poznamka'"
    ensures NextStatement(p + [Semicolon] + rest) == (Some(p), rest)
  {
    var lit := p[1..|p| - 1];
    assert p == [Quote] + lit + [Quote];
    assert Quote !in lit;
    LiteralRun(lit, [Semicolon] + rest, []);
    assert p + [Semicolon] + rest == [Quote] + lit + [Quote] + ([Semicolon] + rest);
    assert ([Semicolon] + rest)[1..] == rest;
    assert [] + [Quote] + lit + [Quote] == p;
    assert !IsBlank(p[0]);
    NextOfPiece(p + [Semicolon] + rest, p, rest);
    assert p == [] + p + [];
    TrimOf([], p, []);
  }

  /** The third sample piece is code, then a comment running to its newline. */
  lemma SampleThirdParts(p: string) returns (code: string, body: string)
    requires p == "a toto --realna poznamka\n"
    ensures p == code + [Dash, Dash] + body + [Newline] && code == "a toto "
    ensures PlainCode(code) && Newline !in body
  {
    code, body := p[..7], p[9..24];
    assert p == code + [Dash, Dash] + body + [Newline];
  }

  /** What the scanner keeps of the third statement: the code and the comment's newline. */
  lemma SampleThirdScan(p: string, rest: string)
    requires p == "a toto --realna poznamka\n"
    ensures Scan(p + [Semicolon] + rest, Code, []) == ("a toto \n", rest)
  {
    var code, body := SampleThirdParts(p);
    assert p + [Semicolon] + rest == code + ([Dash, Dash] + body + [Newline] + ([Semicolon] + rest));
    CodePrefix(code, [Dash, Dash] + body + [Newline] + ([Semicolon] + rest), []);
    CommentRun(body, [Semicolon] + rest, [] + code);
    assert [] + code + [Newline] == "a toto \n";
    assert ([Semicolon] + rest)[1..] == rest;
  }

  /** Third call: a comment is dropped up to its newline, which trim() then removes. */
  lemma SampleThird(p: string, rest: string)
    requires p == "a toto --realna poznamka\n"
    ensures NextStatement(p + [Semicolon] + rest) == (Some("a toto"), rest)
  {
    SampleThirdScan(p, rest);
    var piece := "a toto \n";
    assert !IsBlank(piece[0]);
    NextOfPiece(p + [Semicolon] + rest, piece, rest);
    assert piece == [] + "a toto" + " \n";
    TrimOf([], "a toto", " \n");
  }

  /** Fourth call: the text after the last ';' is a statement of its own, and nothing is left. */
  lemma SampleFourth(s: string)
    requires s == "dalsi "
    ensures NextStatement(s) == (Some("dalsi"), [])
  {
    assert PlainCode(s);
    CodeToEnd(s, []);
    assert [] + s == s;
    assert !IsBlank(s[0]);
    NextOfPiece(s, s, []);
    assert s == [] + "dalsi" + " ";
    TrimOf([], "dalsi", " ");
  }
}
