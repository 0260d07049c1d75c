/** The SQL script splitter (sk.antons.jdbc.util.Script): a character machine with one
    character of lookahead that cuts a script into statements at ';', keeps single-quoted
    literals intact and drops '--' comments up to the end of the line. */
module SqlScript {
  import opened Wrappers
  import opened Text

  const Semicolon: char := ';'
  const Quote: char := '\''
  const Dash: char := '-'
  const Newline: char := '\n'

  /** What Reader.read() returns once the input is used up. */
  const EndOfInput: int := -1

  /** The values Reader.read() can return for a character, as Dafny characters can hold them. */
  predicate IsCharCode(x: int) {
    0 <= x < 0xD800 || 0xE000 <= x < 0x11_0000
  }

  /** The two flags of Script.next(): outside both, inside a quoted literal, inside a comment. */
  datatype Mode = Code | Literal | Comment

  function ModeOf(incomment: bool, inliteral: bool): Mode {
    if inliteral then Literal else if incomment then Comment else Code
  }

  // ---------------------------------------------------------------------
  // The splitting, as functions of the characters not yet consumed

  /** What one turn of next()'s loop does with the head character `c`, given the character
      after it (None at the end of the input), outside a ';' that ends the statement:
      the mode it leaves, and whether `c` goes into the statement. A '--' outside a
      literal starts a comment; the comment's characters are dropped, the newline that
      ends it is kept. */
  function Step(c: char, next: Option<char>, mode: Mode): (r: (Mode, bool))
    ensures mode == Literal ==> r.1
    ensures r.0 == Comment ==> !r.1
  {
    match mode
    case Literal => (if c == Quote then Code else Literal, true)
    case Comment => if c == Newline then (Code, true) else (Comment, false)
    case Code =>
      if c == Quote then (Literal, true)
      else if c == Dash && next == Some(Dash) then (Comment, false)
      else (Code, true)
  }

  /** The character after the head, if any. */
  function Lookahead(s: string): Option<char> {
    if |s| > 1 then Some(s[1]) else None
  }

  /** One run of the scanning loop of next(): from the pending characters `s`, in `mode`, with
      `acc` already collected, the raw statement text and the characters left after it
      (the ';' that ends it is consumed). */
  function Scan(s: string, mode: Mode, acc: string): (r: (string, string))
    ensures |r.1| <= |s|
    ensures s != [] ==> |r.1| < |s|
    decreases |s|
  {
    if s == [] then (acc, [])
    else if mode == Code && s[0] == Semicolon then (acc, s[1..])
    else
      var (mode', keep) := Step(s[0], Lookahead(s), mode);
      Scan(s[1..], mode', if keep then acc + [s[0]] else acc)
  }

  /** next(): the first non-empty trimmed piece, or None once the input is exhausted,
      with the characters left after it. */
  function NextStatement(s: string): (r: (Option<string>, string))
    ensures |r.1| <= |s|
    ensures s != [] ==> |r.1| < |s|
    ensures r.0.None? ==> r.1 == []
    ensures r.0.Some? ==> r.0.value != [] && IsTrimmed(r.0.value)
    decreases |s|
  {
    var (piece, rest) := Scan(s, Code, []);
    var t := Trim(piece);
    if t != [] then (Some(t), rest)
    else if rest != [] then NextStatement(rest)
    else (None, [])
  }

  /** Every statement the script yields, in order. */
  function Statements(s: string): (r: seq<string>)
    decreases |s|
  {
    match NextStatement(s)
    case (None, _) => []
    case (Some(t), rest) => [t] + Statements(rest)
  }

  // ---------------------------------------------------------------------
  // The Script object

  class Script {
    /** What the reader delivers, one character per read(). */
    const text: string
    /** How many characters the reader has delivered. */
    var pos: nat
    var head: int
    var head1: int
    var firstuse: bool
    var commitAfter: int

    ghost predicate Valid()
      reads this
    {
      && pos <= |text|
      && (head == EndOfInput ==> head1 == EndOfInput)
      && (head1 == EndOfInput ==> pos == |text|)
      && (head != EndOfInput ==> IsCharCode(head))
      && (head1 != EndOfInput ==> IsCharCode(head1))
    }

    /** The characters next() has still to look at: head, head1 and the unread input. */
    ghost function Pending(): string
      reads this
      requires Valid()
    {
      (if head == EndOfInput then [] else [head as char])
      + (if head1 == EndOfInput then [] else [head1 as char])
      + text[pos..]
    }

    /** The constructor primes the lookahead with readOne() while head is still 0, so a NUL
        character stands before the first real one. */
    constructor (text: string)
      ensures Valid()
      ensures this.text == text
      ensures Pending() == ['\0'] + text
      ensures firstuse && commitAfter == 0
    {
      this.text := text;
      pos := 0;
      head := 0;
      head1 := 0;
      firstuse := true;
      commitAfter := 0;
      new;
      ReadOne();
    }

    /** Reader.read(): the next character's code, or -1 at the end of the input. */
    method Read() returns (c: int)
      requires Valid()
      modifies this`pos
      ensures pos <= |text|
      ensures old(pos) < |text| ==> c == text[old(pos)] as int && pos == old(pos) + 1
      ensures old(pos) == |text| ==> c == EndOfInput && pos == old(pos)
    {
      if pos < |text| {
        c := text[pos] as int;
        pos := pos + 1;
      } else {
        c := EndOfInput;
      }
    }

    /** readOne(): shift the lookahead by one character; at the end it stays at the end. */
    method ReadOne()
      requires Valid()
      modifies this`head, this`head1, this`pos
      ensures Valid()
      ensures Pending() == if old(Pending()) == [] then [] else old(Pending())[1..]
      ensures old(head) == EndOfInput ==> head == EndOfInput
      ensures old(head) != EndOfInput ==> head == old(head1)
    {
      if head == EndOfInput {
        return;
      }
      head := head1;
      head1 := Read();
    }

    /** next(): collect the next statement, trim it, and skip the empty ones. */
    method Next() returns (r: Option<string>)
      requires Valid()
      modifies this`head, this`head1, this`pos
      ensures Valid()
      ensures (r, Pending()) == NextStatement(old(Pending()))
      decreases |Pending()|
    {
      ghost var s0 := Pending();
      var incomment := false;
      var inliteral := false;
      var sb: string := [];
      while head != EndOfInput
        invariant Valid()
        invariant !(incomment && inliteral)
        invariant Scan(Pending(), ModeOf(incomment, inliteral), sb) == Scan(s0, Code, [])
        decreases |Pending()|, if !incomment && !inliteral then 1 else 0
      {
        assert Pending()[0] == head as char;
        if inliteral {
          if head == Quote as int {
            inliteral := false;
          }
        } else if incomment {
          if head == Newline as int {
            incomment := false;
          } else {
            ReadOne();
            continue;
          }
        } else {
          if head == Semicolon as int {
            ReadOne();
            break;
          }
          if head == Quote as int {
            inliteral := true;
          } else if head == Dash as int && head1 == Dash as int {
            assert Pending()[1] == head1 as char;
            incomment := true;
            continue;
          }
        }
        sb := sb + [head as char];
        ReadOne();
      }
      assert (sb, Pending()) == Scan(s0, Code, []);
      var s := Trim(sb);
      if s != [] {
        return Some(s);
      }
      if head != EndOfInput {
        r := Next();
        return;
      }
      return None;
    }

    /** iterator(): the statements can be walked through once; a second call fails. */
    method Iterator() returns (r: Result<StatementIterator, string>)
      requires Valid()
      modifies this`firstuse, this`head, this`head1, this`pos
      ensures Valid() && !firstuse
      ensures !old(firstuse) ==> r == Err("Script can be used only once") && Pending() == old(Pending())
      ensures old(firstuse) ==> r.Ok? && fresh(r.value) && r.value.script == this && r.value.Valid()
      ensures old(firstuse) ==> r.value.Remaining() == Statements(old(Pending()))
    {
      if firstuse {
        firstuse := false;
      } else {
        return Err("Script can be used only once");
      }
      var it := new StatementIterator(this);
      return Ok(it);
    }

    /** stream(): a view of iterator(), so it uses up the single permitted walk as well. */
    method Stream() returns (r: Result<StatementIterator, string>)
      requires Valid()
      modifies this`firstuse, this`head, this`head1, this`pos
      ensures Valid() && !firstuse
      ensures !old(firstuse) ==> r == Err("Script can be used only once") && Pending() == old(Pending())
      ensures old(firstuse) ==> r.Ok? && fresh(r.value) && r.value.script == this && r.value.Valid()
      ensures old(firstuse) ==> r.value.Remaining() == Statements(old(Pending()))
    {
      r := Iterator();
    }

    /** commitAfter(int): the fluent setter. */
    method CommitAfter(value: int) returns (r: Script)
      modifies this`commitAfter
      ensures r == this && commitAfter == value
    {
      commitAfter := value;
      return this;
    }

    /** execute(conn): createStatement, one update per statement, in order, a commit after
        every commitAfter of them when commitAfter is positive, and a final commit. The
        connection and its statement are modelled by the calls made on them; `driver` says
        which of those calls, counted from 0, throws an SQLException and with what text. The
        first one that throws ends execute(). */
    method Execute(driver: nat -> Option<string>) returns (calls: seq<DbCall>, error: Option<Failure>)
      requires Valid()
      modifies this`firstuse, this`head, this`head1, this`pos
      ensures Valid() && !firstuse
      ensures !old(firstuse) ==> calls == [] && error == Some(IllegalState("Script can be used only once"))
      ensures old(firstuse) ==> (calls, error) == Executed(Statements(old(Pending())), old(commitAfter), driver)
    {
      var it := Iterator();
      if it.Err? {
        return [], Some(IllegalState(it.error));
      }
      calls, error := RunUpdates(it.value, driver, Statements(old(Pending())));
    }

    /** The body of execute() after iterator(): createStatement, then the loop, counting the
        statements, then the closing commit, until a call throws. */
    method RunUpdates(iter: StatementIterator, driver: nat -> Option<string>, ghost all: seq<string>)
      returns (calls: seq<DbCall>, error: Option<Failure>)
      requires iter.script == this && iter.Valid() && iter.Remaining() == all
      modifies iter, this`head, this`head1, this`pos
      ensures Valid()
      ensures (calls, error) == Executed(all, commitAfter, driver)
    {
      ghost var plan := Plan(all, commitAfter);
      var thrown;
      PlanStep([], CreateStatement, ExecutionFrom(all, 0, commitAfter), plan);
      calls, thrown := Perform([], CreateStatement, driver, plan);
      if thrown.Some? {
        error := Some(SqlFailure(thrown.value));
        Stopped(all, commitAfter, driver, calls, thrown, error);
        return;
      }
      var counter := 0;
      var more := iter.HasNext();
      while more
        invariant iter.Valid()
        invariant more <==> iter.Remaining() != []
        invariant calls + ExecutionFrom(iter.Remaining(), counter, commitAfter) == plan
        invariant Reached(plan, driver, 0) == Reached(plan, driver, |calls|)
        decreases |iter.Remaining()|
      {
        calls, counter, thrown := Turn(iter, driver, calls, counter, plan);
        if thrown.Some? {
          error := Some(SqlFailure(thrown.value));
          Stopped(all, commitAfter, driver, calls, thrown, error);
          return;
        }
        more := iter.HasNext();
      }
      assert [Commit] + [] == [Commit];
      PlanStep(calls, Commit, [], plan);
      calls, thrown := Perform(calls, Commit, driver, plan);
      error := if thrown.Some? then Some(SqlFailure(thrown.value)) else None;
      Stopped(all, commitAfter, driver, calls, thrown, error);
    }

    /** One turn of execute()'s loop: the next statement's update and, when the count reaches
        a multiple of commitAfter, a commit, until a call throws. */
    method Turn(iter: StatementIterator, driver: nat -> Option<string>, calls: seq<DbCall>, counter: int,
                ghost plan: seq<DbCall>)
      returns (calls': seq<DbCall>, counter': int, thrown: Option<string>)
      requires iter.script == this && iter.Valid() && iter.Remaining() != []
      requires calls + ExecutionFrom(iter.Remaining(), counter, commitAfter) == plan
      requires Reached(plan, driver, 0) == Reached(plan, driver, |calls|)
      modifies iter, this`head, this`head1, this`pos
      ensures iter.Valid() && iter.Remaining() == old(iter.Remaining())[1..]
      ensures |calls'| <= |plan| && calls' == plan[..|calls'|]
      ensures thrown.Some? ==> Reached(plan, driver, 0) == (|calls'|, thrown)
      ensures thrown.None? ==> calls' + ExecutionFrom(iter.Remaining(), counter', commitAfter) == plan
      ensures thrown.None? ==> Reached(plan, driver, 0) == Reached(plan, driver, |calls'|)
    {
      ghost var rem := iter.Remaining();
      TurnStep(calls, rem, counter, commitAfter, plan);
      var statement := iter.Next();
      counter' := counter + 1;
      calls', thrown := Perform(calls, Update(statement.value), driver, plan);
      if thrown.None? && CommitDue(counter', commitAfter) {
        calls', thrown := Perform(calls', Commit, driver, plan);
      }
    }
  }

  /** The calls one turn of the loop makes are the next ones in the plan. */
  lemma TurnStep(calls: seq<DbCall>, rem: seq<string>, counter: int, commitAfter: int, plan: seq<DbCall>)
    requires rem != [] && calls + ExecutionFrom(rem, counter, commitAfter) == plan
    ensures |calls| < |plan| && plan[..|calls|] == calls && plan[|calls|] == Update(rem[0])
    ensures var made := calls + [Update(rem[0])];
      if CommitDue(counter + 1, commitAfter) then
        |made| < |plan| && plan[..|made|] == made && plan[|made|] == Commit
        && made + [Commit] + ExecutionFrom(rem[1..], counter + 1, commitAfter) == plan
      else made + ExecutionFrom(rem[1..], counter + 1, commitAfter) == plan
  {
    var later := ExecutionFrom(rem[1..], counter + 1, commitAfter);
    if CommitDue(counter + 1, commitAfter) {
      assert ExecutionFrom(rem, counter, commitAfter) == [Update(rem[0])] + [Commit] + later;
      assert [Update(rem[0])] + [Commit] + later == [Update(rem[0])] + ([Commit] + later);
      PlanStep(calls, Update(rem[0]), [Commit] + later, plan);
      PlanStep(calls + [Update(rem[0])], Commit, later, plan);
    } else {
      assert ExecutionFrom(rem, counter, commitAfter) == [Update(rem[0])] + [] + later;
      assert [Update(rem[0])] + [] + later == [Update(rem[0])] + later;
      PlanStep(calls, Update(rem[0]), later, plan);
    }
  }

  /** Where execute() stops: the calls made so far, and the failure the last one threw. */
  lemma Stopped(statements: seq<string>, commitAfter: int, driver: nat -> Option<string>,
                calls: seq<DbCall>, thrown: Option<string>, error: Option<Failure>)
    requires |calls| <= |Plan(statements, commitAfter)|
    requires calls == Plan(statements, commitAfter)[..|calls|]
    requires Reached(Plan(statements, commitAfter), driver, 0) == (|calls|, thrown)
    requires error == if thrown.Some? then Some(SqlFailure(thrown.value)) else None
    ensures (calls, error) == Executed(statements, commitAfter, driver)
  {
  }

  /** A call due next in the plan: the calls made so far are the plan's first ones, and the
      call comes right after them. */
  lemma PlanStep(calls: seq<DbCall>, c: DbCall, rest: seq<DbCall>, plan: seq<DbCall>)
    requires calls + ([c] + rest) == plan
    ensures |calls| < |plan| && plan[..|calls|] == calls && plan[|calls|] == c
    ensures (calls + [c]) + rest == plan
  {
    assert plan[..|calls|] == (calls + ([c] + rest))[..|calls|];
  }

  /** One call on the connection or on its statement: it is made, and it throws what the
      driver says for the call with its index. */
  method Perform(calls: seq<DbCall>, c: DbCall, driver: nat -> Option<string>, ghost plan: seq<DbCall>)
    returns (calls': seq<DbCall>, thrown: Option<string>)
    requires |calls| < |plan| && plan[..|calls|] == calls && plan[|calls|] == c
    requires Reached(plan, driver, 0) == Reached(plan, driver, |calls|)
    ensures calls' == calls + [c] && calls' == plan[..|calls'|]
    ensures thrown == driver(|calls|)
    ensures thrown.None? ==> Reached(plan, driver, 0) == Reached(plan, driver, |calls'|)
    ensures thrown.Some? ==> Reached(plan, driver, 0) == (|calls'|, thrown)
  {
    calls' := calls + [c];
    thrown := driver(|calls|);
    assert plan[..|calls'|] == plan[..|calls|] + [plan[|calls|]];
  }

  /** The anonymous Iterator that iterator() returns: it always holds the next statement. */
  class StatementIterator {
    const script: Script
    var n: Option<string>

    ghost predicate Valid()
      reads this, script
    {
      script.Valid() && (n.None? ==> script.Pending() == [])
    }

    /** The statements still to be returned. */
    ghost function Remaining(): seq<string>
      reads this, script
      requires Valid()
    {
      match n
      case None => []
      case Some(t) => [t] + Statements(script.Pending())
    }

    constructor (script: Script)
      requires script.Valid()
      modifies script`head, script`head1, script`pos
      ensures this.script == script && Valid()
      ensures Remaining() == Statements(old(script.Pending()))
    {
      this.script := script;
      var first := script.Next();
      n := first;
    }

    method HasNext() returns (b: bool)
      requires Valid()
      ensures b <==> Remaining() != []
    {
      b := n.Some?;
    }

    /** next(): the held statement (None past the end), and read the following one. */
    method Next() returns (r: Option<string>)
      requires Valid()
      modifies this, script`head, script`head1, script`pos
      ensures Valid()
      ensures old(Remaining()) == [] ==> r.None? && Remaining() == []
      ensures old(Remaining()) != [] ==> r == Some(old(Remaining())[0]) && Remaining() == old(Remaining())[1..]
    {
      r := n;
      n := script.Next();
    }
  }

  // ---------------------------------------------------------------------
  // execute()

  /** One turn of execute()'s loop appends the update and, when due, a commit. */
  lemma ExecutionStep(statement: string, rest: seq<string>, counter: int, commitAfter: int)
    ensures CommitDue(counter + 1, commitAfter) ==>
      ExecutionFrom([statement] + rest, counter, commitAfter)
      == [Update(statement)] + [Commit] + ExecutionFrom(rest, counter + 1, commitAfter)
    ensures !CommitDue(counter + 1, commitAfter) ==>
      ExecutionFrom([statement] + rest, counter, commitAfter)
      == [Update(statement)] + ExecutionFrom(rest, counter + 1, commitAfter)
  {
    assert ([statement] + rest)[1..] == rest;
  }

  /** execute() commits after the statement that brings the count to a multiple of commitAfter. */
  predicate CommitDue(counter: int, commitAfter: int) {
    commitAfter > 0 && counter > 0 && counter % commitAfter == 0
  }

  /** A call execute() makes on the connection or on its statement. */
  datatype DbCall = CreateStatement | Update(sql: string) | Commit

  /** How execute() ends abnormally: a second use of the script, or an SQLException from
      the driver, each with its message. */
  datatype Failure = IllegalState(message: string) | SqlFailure(message: string)

  /** The calls made for `statements` when `counter` statements have already run. */
  function ExecutionFrom(statements: seq<string>, counter: int, commitAfter: int): (calls: seq<DbCall>)
  {
    if statements == [] then [Commit]
    else
      var c := counter + 1;
      [Update(statements[0])]
      + (if CommitDue(c, commitAfter) then [Commit] else [])
      + ExecutionFrom(statements[1..], c, commitAfter)
  }

  /** The calls execute() makes when none of them throws. */
  function Plan(statements: seq<string>, commitAfter: int): seq<DbCall> {
    [CreateStatement] + ExecutionFrom(statements, 0, commitAfter)
  }

  /** How far the calls of `plan` from index i on get: the index after the last call made,
      and the text of the exception it threw, if one did. */
  function Reached(plan: seq<DbCall>, driver: nat -> Option<string>, i: nat): (r: (nat, Option<string>))
    requires i <= |plan|
    ensures i <= r.0 <= |plan|
    ensures r.1.None? ==> r.0 == |plan|
    decreases |plan| - i
  {
    if i == |plan| then (|plan|, None)
    else if driver(i).Some? then (i + 1, driver(i))
    else Reached(plan, driver, i + 1)
  }

  /** What execute() leaves behind on a fresh script: the calls made, and the SQLException
      that ended it, if any. */
  function Executed(statements: seq<string>, commitAfter: int, driver: nat -> Option<string>)
    : (r: (seq<DbCall>, Option<Failure>))
    ensures |r.0| <= |Plan(statements, commitAfter)|
  {
    var plan := Plan(statements, commitAfter);
    var reached := Reached(plan, driver, 0);
    (plan[..reached.0], if reached.1.Some? then Some(SqlFailure(reached.1.value)) else None)
  }
}
