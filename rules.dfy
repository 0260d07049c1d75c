/** The decisions of the logging handlers (package sk.antons.jdbc.log.invocation) as
    functions of a handler's fields: what invoke() records about the delegated call, what
    the pre- and post-hooks of each handler do, and the text of the lines they log. */
module HandlerRules {
  import opened Wrappers
  import opened Text

  // ---------------------------------------------------------------------
  // Calls, values and throwables

  /** A Throwable: an InvocationTargetException with its cause (None for null), or any
      other throwable, shown by its toString(). */
  datatype Throwable = InvocationTarget(cause: Option<Throwable>) | Thrown(shown: string)

  /** An argument or result of a JDBC call: null, an int, a string, or another object. */
  datatype Value = Null | Int(i: int) | Text(s: string) | Obj(shown: string)

  /** String.valueOf / "" + v. */
  function Show(v: Value): string {
    match v
    case Null => "null"
    case Int(i) => IntToString(i)
    case Text(s) => s
    case Obj(shown) => shown
  }

  /** The method names the handlers test for, and every other name. */
  datatype Operation =
    | CreateStatement | PrepareStatement | Commit | Rollback
    | ExecuteQuery | ExecuteUpdate | Next | Close
    | Other(name: string)

  const KnownNames: seq<string> := ["createStatement", "prepareStatement", "commit", "rollback",
                                    "executeQuery", "executeUpdate", "next", "close"]

  /** Method.getName(). */
  function Name(op: Operation): string {
    match op
    case CreateStatement => KnownNames[0]
    case PrepareStatement => KnownNames[1]
    case Commit => KnownNames[2]
    case Rollback => KnownNames[3]
    case ExecuteQuery => KnownNames[4]
    case ExecuteUpdate => KnownNames[5]
    case Next => KnownNames[6]
    case Close => KnownNames[7]
    case Other(name) => name
  }

  /** The "...".equals(name) tests of the handlers, as one classification. */
  function OperationOf(name: string): (op: Operation)
    ensures Name(op) == name
    ensures WellNamed(op)
  {
    if name == KnownNames[0] then CreateStatement
    else if name == KnownNames[1] then PrepareStatement
    else if name == KnownNames[2] then Commit
    else if name == KnownNames[3] then Rollback
    else if name == KnownNames[4] then ExecuteQuery
    else if name == KnownNames[5] then ExecuteUpdate
    else if name == KnownNames[6] then Next
    else if name == KnownNames[7] then Close
    else Other(name)
  }

  /** An Other operation carries a name none of the handlers tests for. */
  predicate WellNamed(op: Operation) {
    op.Other? ==> op.name !in KnownNames
  }

  /** Classifying a name gives back the operation it names. */
  lemma OperationOfName(op: Operation)
    requires WellNamed(op)
    ensures OperationOf(Name(op)) == op
  {
    if op.Other? {
      assert forall i :: 0 <= i < |KnownNames| ==> op.name != KnownNames[i];
    }
  }

  /** A declared parameter type: int.class.isAssignableFrom(c) holds only for int itself. */
  datatype ParamType = IntParam | OtherParam

  /** A reflected method: what the handlers read of it. */
  datatype Method = Method(op: Operation, types: seq<ParamType>)

  /** The arguments match the declared parameter types, as reflection guarantees. */
  predicate Fits(m: Method, args: seq<Value>) {
    && |args| == |m.types|
    && (forall i :: 0 <= i < |args| && m.types[i] == IntParam ==> args[i].Int?)
  }

  // ---------------------------------------------------------------------
  // CommonHandler: error text, prefix and postfix

  /** Where a chain of InvocationTargetExceptions leads: the first throwable that is not one,
      or None when a cause is null. */
  function Root(t: Throwable): (r: Option<Throwable>)
    ensures r.Some? ==> r.value.Thrown?
  {
    match t
    case Thrown(_) => Some(t)
    case InvocationTarget(None) => None
    case InvocationTarget(Some(c)) => Root(c)
  }

  /** What toError(t) returns: "" for null, else the toString() of the root of the chain,
      or "InvocationTargetException" when the chain ends in null. */
  function Describe(t: Option<Throwable>): string {
    match t
    case None => ""
    case Some(x) =>
      match Root(x)
      case None => "InvocationTargetException"
      case Some(y) => y.shown
  }

  /** `t` under `n` layers of InvocationTargetException. */
  function Nest(t: Throwable, n: nat): Throwable {
    if n == 0 then t else InvocationTarget(Some(Nest(t, n - 1)))
  }

  /** However deeply reflection wraps a throwable, the error text is the same. */
  lemma {:induction false} DescribeNest(t: Throwable, n: nat)
    ensures Describe(Some(Nest(t, n))) == Describe(Some(t))
    ensures Root(Nest(t, n)) == Root(t)
  {
    if n > 0 {
      DescribeNest(t, n - 1);
    }
  }

  /** consumerPrefix: "jdbc", then " [c][s]" when both identities are positive, " [c]" when
      only the connection's is. */
  function Prefix(conn: int, stm: int): string {
    "jdbc"
    + (if conn > 0 && stm > 0 then " [" + IntToString(conn) + "][" + IntToString(stm) + "]"
       else if conn > 0 then " [" + IntToString(conn) + "]"
       else "")
  }

  /** The identities a prefix shows: 0 stands for one that is not shown. */
  function Shown(conn: int, stm: int): (int, int) {
    (if conn > 0 then conn else 0, if conn > 0 && stm > 0 then stm else 0)
  }

  /** What follows the connection's identity in a prefix that shows it. */
  function IdentityTail(stm: int): string {
    if stm > 0 then "][" + IntToString(stm) + "]" else "]"
  }

  lemma PrefixShape(conn: int, stm: int)
    ensures Prefix(conn, stm)
            == "jdbc" + (if conn > 0 then " [" + (IntToString(conn) + IdentityTail(stm)) else "")
  {
  }

  lemma TailIdentifies(s1: int, s2: int)
    requires IdentityTail(s1) == IdentityTail(s2)
    ensures (s1 > 0 <==> s2 > 0) && (s1 > 0 ==> s1 == s2)
  {
    var t1, t2 := IdentityTail(s1), IdentityTail(s2);
    if s1 > 0 || s2 > 0 {
      assert |t1| > 1 || |t2| > 1;
    }
    if s1 > 0 && s2 > 0 {
      var b1, b2 := IntToString(s1), IntToString(s2);
      assert t1 == "][" + (b1 + "]") && t2 == "][" + (b2 + "]");
      assert b1 + "]" == t1[2..] == t2[2..] == b2 + "]";
      SplitAfterNumeral(b1, "]", b2, "]");
      IntToStringInjective(s1, s2);
    }
  }

  /** The prefix tells which identities it shows: two handlers with the same prefix show
      the same identities. */
  lemma PrefixIdentifies(c1: int, s1: int, c2: int, s2: int)
    requires Prefix(c1, s1) == Prefix(c2, s2)
    ensures Shown(c1, s1) == Shown(c2, s2)
  {
    PrefixShape(c1, s1);
    PrefixShape(c2, s2);
    var r1 := if c1 > 0 then " [" + (IntToString(c1) + IdentityTail(s1)) else "";
    var r2 := if c2 > 0 then " [" + (IntToString(c2) + IdentityTail(s2)) else "";
    assert r1 == Prefix(c1, s1)[4..] == Prefix(c2, s2)[4..] == r2;
    assert c1 > 0 <==> |r1| > 0;
    if c1 > 0 && c2 > 0 {
      var a1, a2 := IntToString(c1), IntToString(c2);
      var t1, t2 := IdentityTail(s1), IdentityTail(s2);
      assert a1 + t1 == r1[2..] == r2[2..] == a2 + t2;
      SplitAfterNumeral(a1, t1, a2, t2);
      IntToStringInjective(c1, c2);
      TailIdentifies(s1, s2);
    }
  }

  /** consumerPostfix: " time: t", then " error: " and the error text when the call failed. */
  function Postfix(time: int, error: Option<Throwable>): string {
    " time: " + IntToString(time) + (if error.Some? then " error: " + Describe(error) else "")
  }

  /** What follows the time in a postfix. */
  function ErrorTail(error: Option<Throwable>): string {
    if error.Some? then " error: " + Describe(error) else ""
  }

  lemma ErrorTailIdentifies(e1: Option<Throwable>, e2: Option<Throwable>)
    requires ErrorTail(e1) == ErrorTail(e2)
    ensures (e1.Some? <==> e2.Some?) && Describe(e1) == Describe(e2)
  {
    var x1, x2 := ErrorTail(e1), ErrorTail(e2);
    assert e1.Some? <==> |x1| > 0;
    if e1.Some? && e2.Some? {
      assert Describe(e1) == x1[8..] == x2[8..] == Describe(e2);
    }
  }

  /** After " time: " the postfix holds the number and then the error part. */
  lemma PostfixAfterTime(t: int, e: Option<Throwable>)
    ensures |Postfix(t, e)| >= 7 && Postfix(t, e)[7..] == IntToString(t) + ErrorTail(e)
  {
    assert Postfix(t, e) == " time: " + (IntToString(t) + ErrorTail(e));
  }

  /** The postfix gives back the call's time, whether it failed, and its error text. */
  lemma PostfixReadsBack(t1: int, e1: Option<Throwable>, t2: int, e2: Option<Throwable>)
    requires Postfix(t1, e1) == Postfix(t2, e2)
    ensures t1 == t2
    ensures e1.Some? <==> e2.Some?
    ensures Describe(e1) == Describe(e2)
  {
    PostfixAfterTime(t1, e1);
    PostfixAfterTime(t2, e2);
    SplitAfterNumeral(IntToString(t1), ErrorTail(e1), IntToString(t2), ErrorTail(e2));
    ErrorTailIdentifies(e1, e2);
    IntToStringInjective(t1, t2);
  }

  // ---------------------------------------------------------------------
  // The state the hooks read and write

  /** Which of the four handlers; the prepared statement handler keeps its statement text. */
  datatype Kind = ConnectionKind | StatementKind | PreparedKind(statement: string) | ResultSetKind

  /** The mutable fields of a handler: CommonHandler's invocationTime and error, the parameter
      buffer of PreparedStatementHandler, and the row counter and times of ResultSetHandler. */
  datatype Fields = Fields(
    invocationTime: int, error: Option<Throwable>, params: map<int, string>,
    count: int, nextstartTime: int, nextfirstTime: int, nextlastTime: int)

  /** A newly constructed handler: an empty buffer, a row count of -1 and no times yet. */
  const Initial: Fields := Fields(0, None, map[], -1, 0, 0, 0)

  /** What the configuration answers a post-hook: isConsumerOn(), logStatement(), logResult().
      logTransaction() is not here because no handler asks for it. */
  datatype Settings = Settings(on: bool, logStatement: bool, logResult: bool)

  /** The readings of System.currentTimeMillis() during one invoke(): in the pre-hook, around
      the delegated call, and in the post-hook. */
  datatype Clock = Clock(pre: int, start: int, end: int, post: int)

  /** JdbcWrapper.wrap called by a post-hook: the handler it builds and the identities it passes. */
  datatype Wrap =
    | NoWrap
    | WrapStatement(conn: int)
    | WrapPrepared(statement: string, conn: int)
    | WrapResultSet(conn: int, stm: int)

  /** What a handler's own branch of postInvoke decides: the fields, what it appends between
      prefix and postfix when it logs, and the wrapping. */
  datatype Hook = Hook(fields: Fields, body: Option<string>, wrap: Wrap)

  /** What a post-hook leaves behind: the fields, the line given to the consumer, the wrapping. */
  datatype Post = Post(fields: Fields, line: Option<string>, wrap: Wrap)

  /** The calls the JDBC interfaces make possible: the arguments fit the declared types, and the
      statement text a handler reads from args[0] is passed. */
  predicate JdbcCall(kind: Kind, m: Method, args: seq<Value>) {
    && WellNamed(m.op)
    && Fits(m, args)
    && (kind == StatementKind && (m.op == ExecuteQuery || m.op == ExecuteUpdate) ==> |args| >= 1)
    && (kind == ConnectionKind && m.op == PrepareStatement ==> |args| >= 1)
  }

  // ---------------------------------------------------------------------
  // The pre-hooks

  /** ResultSetHandler.preInvoke: a next() made while the consumer is on sets the start time
      when it is still 0; the other handlers' pre-hooks do nothing. */
  function PreInvoke(kind: Kind, f: Fields, on: bool, op: Operation, now: int): (r: Fields)
    ensures r.(nextstartTime := f.nextstartTime) == f
    ensures r.nextstartTime != f.nextstartTime ==> f.nextstartTime == 0 && r.nextstartTime == now
  {
    if kind == ResultSetKind && on && op == Next && f.nextstartTime == 0
    then f.(nextstartTime := now)
    else f
  }

  /** invoke() around the delegated call: error is reset, then holds what the call threw, and
      invocationTime is the end time minus the start time. */
  function Delegated(f: Fields, outcome: Result<Value, Throwable>, start: int, end: int): (r: Fields)
    ensures r.error.Some? <==> outcome.Err?
    ensures outcome.Err? ==> r.error == Some(outcome.error)
    ensures r.invocationTime == end - start
    ensures r.(error := f.error, invocationTime := f.invocationTime) == f
  {
    f.(error := if outcome.Err? then Some(outcome.error) else None, invocationTime := end - start)
  }

  // ---------------------------------------------------------------------
  // PreparedStatementHandler.params(): the buffer in ascending key order

  /** A non-empty set has an element. */
  lemma Inhabited(keys: set<int>)
    requires keys != {}
    ensures exists k :: k in keys
  {
    if forall k :: k !in keys {
      assert false;
    }
  }

  /** Every non-empty finite set of ints has a least element. */
  lemma {:induction false} LeastOf(keys: set<int>) returns (least: int)
    requires keys != {}
    ensures least in keys && forall j :: j in keys ==> least <= j
    decreases |keys|
  {
    Inhabited(keys);
    var x :| x in keys;
    var others := keys - {x};
    if others == {} {
      least := x;
      forall j | j in keys
        ensures x <= j
      {
        assert j !in others;
      }
    } else {
      var k := LeastOf(others);
      least := if x < k then x else k;
      forall j | j in keys
        ensures least <= j
      {
        if j != x {
          assert j in others;
        }
      }
    }
  }

  lemma LeastExists(keys: set<int>)
    requires keys != {}
    ensures exists k :: k in keys && forall j :: j in keys ==> k <= j
  {
    var k := LeastOf(keys);
  }

  function Least(keys: set<int>): (k: int)
    requires keys != {}
    ensures k in keys && forall j :: j in keys ==> k <= j
  {
    LeastExists(keys);
    var k :| k in keys && forall j :: j in keys ==> k <= j;
    k
  }

  predicate Increasing(keys: seq<int>) {
    forall i, j :: 0 <= i < j < |keys| ==> keys[i] < keys[j]
  }

  /** Collections.sort over the key set: the keys, each once, in ascending order. */
  function SortedKeys(keys: set<int>): (r: seq<int>)
    ensures Increasing(r)
    ensures forall k :: k in r <==> k in keys
    decreases |keys|
  {
    if keys == {} then []
    else
      var k := Least(keys);
      var rest := SortedKeys(keys - {k});
      assert forall i :: 0 <= i < |rest| ==> rest[i] in keys - {k};
      [k] + rest
  }

  /** Where a listed key stands in the listing. */
  lemma {:induction false} Position(s: seq<int>, k: int) returns (i: nat)
    requires k in s
    ensures i < |s| && s[i] == k
  {
    if s[0] == k {
      i := 0;
    } else {
      assert k in s[1..];
      var i' := Position(s[1..], k);
      i := i' + 1;
    }
  }

  /** Two ascending listings of the same keys are the same listing. */
  lemma {:induction false} IncreasingUnique(a: seq<int>, b: seq<int>)
    requires Increasing(a) && Increasing(b)
    requires forall k :: k in a <==> k in b
    ensures a == b
    decreases |a|
  {
    if a != [] {
      assert a[0] in a;
    }
    if b != [] {
      assert b[0] in b;
    }
    if a != [] && b != [] {
      var ja := Position(a, b[0]);
      var jb := Position(b, a[0]);
      assert a[0] <= a[ja] && b[0] <= b[jb];
      forall k | k in a[1..]
        ensures k in b[1..]
      {
        var i := Position(a[1..], k);
        var j := Position(b, k);
        assert a[0] < a[i + 1];
        assert b[1..][j - 1] == k;
      }
      forall k | k in b[1..]
        ensures k in a[1..]
      {
        var i := Position(b[1..], k);
        var j := Position(a, k);
        assert b[0] < b[i + 1];
        assert a[1..][j - 1] == k;
      }
      IncreasingUnique(a[1..], b[1..]);
      assert a == [a[0]] + a[1..] && b == [b[0]] + b[1..];
    }
  }

  /** The text params() appends for one entry of the buffer. */
  function Entry(k: int, v: string): string {
    " ?" + IntToString(k) + ":" + v
  }

  /** The entries for the listed keys, in the order listed. */
  function Entries(params: map<int, string>, keys: seq<int>): string
    requires forall k :: k in keys ==> k in params
  {
    if keys == [] then ""
    else Entries(params, keys[..|keys| - 1]) + Entry(keys[|keys| - 1], params[keys[|keys| - 1]])
  }

  /** One more key adds its entry at the end. */
  lemma EntriesStep(params: map<int, string>, keys: seq<int>, i: nat)
    requires i < |keys| && forall k :: k in keys ==> k in params
    ensures Entries(params, keys[..i + 1]) == Entries(params, keys[..i]) + Entry(keys[i], params[keys[i]])
  {
    assert keys[..i + 1][..i] == keys[..i];
  }

  /** params(): " ?k:v" for every entry, keys ascending. */
  function Render(params: map<int, string>): string {
    Entries(params, SortedKeys(params.Keys))
  }

  /** An empty buffer is rendered as nothing. */
  lemma RenderEmpty(params: map<int, string>)
    ensures Render(params) == "" <==> params == map[]
  {
    var keys := SortedKeys(params.Keys);
    if params != map[] {
      assert params.Keys != {};
      Inhabited(params.Keys);
      var k :| k in params.Keys;
      assert k in keys;
      assert |Entry(keys[|keys| - 1], params[keys[|keys| - 1]])| > 0;
    }
  }

  /** The rendering is the one of the only ascending listing of the keys. */
  lemma RenderListing(params: map<int, string>, keys: seq<int>)
    requires Increasing(keys) && forall k :: k in keys <==> k in params
    ensures Render(params) == Entries(params, keys)
  {
    IncreasingUnique(keys, SortedKeys(params.Keys));
  }

  /** A binding at an index above every bound one is rendered last. */
  lemma RenderAppend(params: map<int, string>, k: int, v: string)
    requires forall j :: j in params ==> j < k
    ensures Render(params[k := v]) == Render(params) + Entry(k, v)
  {
    var q := params[k := v];
    var keys := SortedKeys(params.Keys);
    var keys' := keys + [k];
    ListingAppend(keys, k, params.Keys);
    assert forall j :: j in keys' <==> j in q.Keys;
    RenderListing(q, keys');
    assert keys'[..|keys'| - 1] == keys;
    assert Entries(q, keys') == Entries(q, keys) + Entry(k, v);
    EntriesOnlyListed(params, q, keys);
  }

  lemma ListingAppend(keys: seq<int>, k: int, bound: set<int>)
    requires Increasing(keys) && (forall j :: j in keys <==> j in bound)
    requires forall j :: j in bound ==> j < k
    ensures Increasing(keys + [k])
    ensures forall j :: j in keys + [k] <==> j in bound + {k}
  {
    forall i | 0 <= i < |keys|
      ensures keys[i] in bound
    {
      assert keys[i] in keys;
    }
  }

  /** Entries reads only the listed keys. */
  lemma {:induction false} EntriesOnlyListed(p: map<int, string>, q: map<int, string>, keys: seq<int>)
    requires forall k :: k in keys ==> k in p && k in q && p[k] == q[k]
    ensures Entries(p, keys) == Entries(q, keys)
  {
    if keys != [] {
      EntriesOnlyListed(p, q, keys[..|keys| - 1]);
    }
  }

  // ---------------------------------------------------------------------
  // The post-hooks

  /** A logged line: consumerPrefix, what the hook appends, consumerPostfix. */
  function Line(conn: int, stm: int, body: string, f: Fields): string {
    Prefix(conn, stm) + body + Postfix(f.invocationTime, f.error)
  }

  /** ConnectionHandler.postInvoke with the consumer on. */
  function ConnectionHook(conn: int, f: Fields, s: Settings, op: Operation, args: seq<Value>): (h: Hook)
    requires op == PrepareStatement ==> |args| >= 1
    ensures h.fields == f
  {
    match op
    case CreateStatement => Hook(f, None, if s.logStatement then WrapStatement(conn) else NoWrap)
    case PrepareStatement =>
      Hook(f, None, if s.logStatement then WrapPrepared(Show(args[0]), conn) else NoWrap)
    case Commit => Hook(f, Some(" " + Name(op)), NoWrap)
    case Rollback => Hook(f, Some(" " + Name(op)), NoWrap)
    case _ => Hook(f, None, NoWrap)
  }

  /** StatementHandler.postInvoke with the consumer on. */
  function StatementHook(conn: int, stm: int, f: Fields, s: Settings, op: Operation,
                         args: seq<Value>, o: Value): (h: Hook)
    requires op == ExecuteQuery || op == ExecuteUpdate ==> |args| >= 1
    ensures h.fields == f
  {
    match op
    case ExecuteQuery =>
      Hook(f, Some(" statement: " + Show(args[0])),
           if s.logResult && o != Null then WrapResultSet(conn, stm) else NoWrap)
    case ExecuteUpdate =>
      Hook(f, Some(" statement: " + Show(args[0]) + " result: " + Show(o)), NoWrap)
    case _ => Hook(f, None, NoWrap)
  }

  /** PreparedStatementHandler.addParam: a setter with two or three parameters whose first is an
      int binds "" + args[1] to the index args[0]; any other setter leaves the buffer alone. */
  function AddParam(params: map<int, string>, m: Method, args: seq<Value>): map<int, string>
    requires Fits(m, args)
  {
    if |m.types| < 2 || |m.types| > 3 || m.types[0] != IntParam then params
    else params[args[0].i := Show(args[1])]
  }

  /** What an executeQuery (no result) or executeUpdate (with its result) through a prepared
      statement handler logs between prefix and postfix: the buffer before it is cleared. */
  function ExecuteBody(text: string, params: map<int, string>, result: Option<Value>): string {
    " statement: " + text + " params: " + Render(params)
    + (if result.Some? then " result: " + Show(result.value) else "")
  }

  /** PreparedStatementHandler.postInvoke with the consumer on. */
  function PreparedHook(conn: int, stm: int, text: string, f: Fields, s: Settings, m: Method,
                        args: seq<Value>, o: Value): (h: Hook)
    requires Fits(m, args)
    ensures h.fields == f.(params := h.fields.params)
  {
    match m.op
    case ExecuteQuery =>
      Hook(f.(params := map[]), Some(ExecuteBody(text, f.params, None)),
           if s.logResult && o != Null then WrapResultSet(conn, stm) else NoWrap)
    case ExecuteUpdate =>
      Hook(f.(params := map[]), Some(ExecuteBody(text, f.params, Some(o))), NoWrap)
    case Other(name) =>
      if StartsWith(name, "set") then Hook(f.(params := AddParam(f.params, m, args)), None, NoWrap)
      else Hook(f, None, NoWrap)
    case _ => Hook(f, None, NoWrap)
  }

  /** What ResultSetHandler logs on close between prefix and postfix, with the last time
      already recorded in `f`. */
  function CloseBody(f: Fields): string {
    " resultset row count: " + IntToString(f.count)
    + " first row time: " + IntToString(f.nextfirstTime - f.nextstartTime)
    + " all rows time: " + IntToString(f.nextlastTime - f.nextstartTime)
    + " close"
  }

  /** ResultSetHandler.postInvoke with the consumer on. */
  function ResultSetHook(f: Fields, op: Operation, now: int): (h: Hook)
    ensures h.fields.invocationTime == f.invocationTime && h.fields.error == f.error
    ensures h.fields.params == f.params
  {
    match op
    case Next =>
      Hook(f.(nextfirstTime := if f.nextfirstTime == 0 then now else f.nextfirstTime,
              count := f.count + 1), None, NoWrap)
    case Close =>
      var g := f.(nextlastTime := now);
      Hook(g, Some(CloseBody(g)), NoWrap)
    case _ => Hook(f, None, NoWrap)
  }

  /** postInvoke of the handler of kind `kind`: every handler does nothing while the consumer
      is off, no post-hook touches the error or the time of the call, and every line is framed
      by the handler's prefix and the postfix of the fields it is given. */
  function PostInvoke(kind: Kind, conn: int, stm: int, f: Fields, s: Settings, m: Method,
                      args: seq<Value>, o: Value, now: int): (r: Post)
    requires JdbcCall(kind, m, args)
    ensures r.fields.invocationTime == f.invocationTime && r.fields.error == f.error
    ensures !s.on ==> r == Post(f, None, NoWrap)
    ensures FramedLine(r.line, conn, stm, f)
  {
    if !s.on then Post(f, None, NoWrap)
    else
      var h := match kind
        case ConnectionKind => ConnectionHook(conn, f, s, m.op, args)
        case StatementKind => StatementHook(conn, stm, f, s, m.op, args, o)
        case PreparedKind(text) => PreparedHook(conn, stm, text, f, s, m, args, o)
        case ResultSetKind => ResultSetHook(f, m.op, now);
      if h.body.None? then PostOf(conn, stm, f, h)
      else
        Framed(Prefix(conn, stm), h.body.value, Postfix(f.invocationTime, f.error));
        PostOf(conn, stm, f, h)
  }

  /** What a post-hook leaves once its branch decided `h`: the body, if any, framed as a line. */
  function PostOf(conn: int, stm: int, f: Fields, h: Hook): Post {
    Post(h.fields, if h.body.Some? then Some(Line(conn, stm, h.body.value, f)) else None, h.wrap)
  }

  /** A line framed by the prefix of the handler and the postfix of the fields. */
  predicate FramedLine(line: Option<string>, conn: int, stm: int, f: Fields) {
    line.Some? ==>
      StartsWith(line.value, Prefix(conn, stm)) && EndsWith(line.value, Postfix(f.invocationTime, f.error))
  }

  lemma Framed(p: string, mid: string, q: string)
    ensures StartsWith(p + mid + q, p) && EndsWith(p + mid + q, q)
  {
    assert (p + mid + q)[..|p|] == p;
    assert (p + mid + q)[|p + mid|..] == q;
  }

  predicate EndsWith(s: string, suffix: string) {
    |suffix| <= |s| && s[|s| - |suffix|..] == suffix
  }

  // ---------------------------------------------------------------------
  // CommonHandler.invoke

  /** What the caller of the proxy gets back: the delegated result, or the proxy that the
      post-hook built around it. */
  datatype Reply = Plain(value: Value) | Wrapped(wrap: Wrap)

  /** One invoke(): the fields afterwards, the line given to the consumer, the handler the
      post-hook built (even when the call threw and the proxy is dropped), and the reply. */
  datatype Step = Step(fields: Fields, line: Option<string>, made: Wrap, reply: Result<Reply, Throwable>)

  /** invoke(): pre-hook, delegated call with error reset and timing, post-hook once with the
      delegated result (null when the call threw), then the throwable rethrown or the post-hook's
      result returned. Each hook asks isConsumerOn() itself, and the answer can change while
      the delegated call runs: `preOn` is what the pre-hook hears, `s` what the post-hook reads. */
  function Invocation(kind: Kind, conn: int, stm: int, f: Fields, preOn: bool, s: Settings, m: Method,
                      args: seq<Value>, outcome: Result<Value, Throwable>, clock: Clock): (r: Step)
    requires JdbcCall(kind, m, args)
    ensures r.fields.invocationTime == clock.end - clock.start
    ensures r.fields.error == ErrorOf(outcome)
    ensures outcome.Err? ==> r.reply == Err(outcome.error)
    ensures outcome.Ok? && r.made == NoWrap ==> r.reply == Ok(Plain(outcome.value))
    ensures outcome.Ok? && r.made != NoWrap ==> r.reply == Ok(Wrapped(r.made))
  {
    var pre := PreInvoke(kind, f, preOn, m.op, clock.pre);
    var done := Delegated(pre, outcome, clock.start, clock.end);
    var o := ResultOf(outcome);
    var post := PostInvoke(kind, conn, stm, done, s, m, args, o, clock.post);
    Step(post.fields, post.line, post.wrap,
         if outcome.Err? then Err(outcome.error)
         else if post.wrap == NoWrap then Ok(Plain(o))
         else Ok(Wrapped(post.wrap)))
  }

  /** The error of the call, as the postfix shows it. */
  function ErrorOf(outcome: Result<Value, Throwable>): Option<Throwable> {
    if outcome.Err? then Some(outcome.error) else None
  }

  /** The delegated result as postInvoke sees it: null when the call threw. */
  function ResultOf(outcome: Result<Value, Throwable>): Value {
    if outcome.Ok? then outcome.value else Null
  }

  /** With the consumer off at both hooks, a call logs nothing, wraps nothing and changes no
      field but the error and the time: no binding, no clearing, no counting. */
  lemma ConsumerOff(kind: Kind, conn: int, stm: int, f: Fields, preOn: bool, s: Settings, m: Method,
                    args: seq<Value>, outcome: Result<Value, Throwable>, clock: Clock)
    requires JdbcCall(kind, m, args) && !preOn && !s.on
    ensures var r := Invocation(kind, conn, stm, f, preOn, s, m, args, outcome, clock);
      && r.line == None && r.made == NoWrap
      && r.fields == f.(error := ErrorOf(outcome), invocationTime := clock.end - clock.start)
  {
  }

  /** Every line a call logs starts with the handler's prefix and ends with the postfix of
      that same call: its own time, and its own error or none, never an earlier call's. */
  lemma LineFrame(kind: Kind, conn: int, stm: int, f: Fields, preOn: bool, s: Settings, m: Method,
                  args: seq<Value>, outcome: Result<Value, Throwable>, clock: Clock)
    requires JdbcCall(kind, m, args)
    ensures var r := Invocation(kind, conn, stm, f, preOn, s, m, args, outcome, clock);
      r.line.Some? ==>
        && StartsWith(r.line.value, Prefix(conn, stm))
        && EndsWith(r.line.value, Postfix(clock.end - clock.start, ErrorOf(outcome)))
  {
  }



  // ---------------------------------------------------------------------
  // ConnectionHandler

  /** A connection handler's statement identity is 0, so its lines start "jdbc [c]". */
  lemma ConnectionPrefix(conn: int)
    requires conn > 0
    ensures Prefix(conn, 0) == "jdbc [" + IntToString(conn) + "]"
    ensures Shown(conn, 0) == (conn, 0)
  {
  }

  /** createStatement and prepareStatement log nothing; their result is wrapped iff the consumer
      is on and logStatement() holds, with the connection's identity and, for prepareStatement,
      args[0] as the statement text. This happens even when the call threw: null is wrapped,
      and the wrapper is dropped when the throwable is rethrown. */
  lemma ConnectionWraps(conn: int, stm: int, f: Fields, preOn: bool, s: Settings, m: Method, args: seq<Value>,
                        outcome: Result<Value, Throwable>, clock: Clock)
    requires JdbcCall(ConnectionKind, m, args)
    requires m.op == CreateStatement || m.op == PrepareStatement
    ensures var r := Invocation(ConnectionKind, conn, stm, f, preOn, s, m, args, outcome, clock);
      && r.line == None
      && (r.made != NoWrap <==> s.on && s.logStatement)
      && (r.made != NoWrap && m.op == CreateStatement ==> r.made == WrapStatement(conn))
      && (r.made != NoWrap && m.op == PrepareStatement ==> r.made == WrapPrepared(Show(args[0]), conn))
  {
  }

  /** commit and rollback log one line, " " and the method name between prefix and postfix,
      whenever the consumer is on: whatever the flags say, logTransaction() included. */
  lemma TransactionLine(conn: int, stm: int, f: Fields, preOn: bool, s: Settings, m: Method, args: seq<Value>,
                        outcome: Result<Value, Throwable>, clock: Clock)
    requires JdbcCall(ConnectionKind, m, args)
    requires m.op == Commit || m.op == Rollback
    ensures var r := Invocation(ConnectionKind, conn, stm, f, preOn, s, m, args, outcome, clock);
      && r.made == NoWrap
      && r.fields == f.(error := ErrorOf(outcome), invocationTime := clock.end - clock.start)
      && r.line == (if s.on then Some(Line(conn, stm, " " + Name(m.op), r.fields)) else None)
  {
  }

  /** Any other connection method logs nothing and returns the delegated result unchanged. */
  lemma ConnectionOther(conn: int, stm: int, f: Fields, preOn: bool, s: Settings, m: Method, args: seq<Value>,
                        outcome: Result<Value, Throwable>, clock: Clock)
    requires JdbcCall(ConnectionKind, m, args)
    requires m.op !in {CreateStatement, PrepareStatement, Commit, Rollback}
    ensures var r := Invocation(ConnectionKind, conn, stm, f, preOn, s, m, args, outcome, clock);
      && r.line == None && r.made == NoWrap
      && r.fields == f.(error := ErrorOf(outcome), invocationTime := clock.end - clock.start)
  {
  }

  // ---------------------------------------------------------------------
  // StatementHandler

  /** executeQuery with the consumer on logs " statement: " and args[0]; the result set is
      wrapped with this handler's identities iff logResult() holds and the result is not null. */
  lemma StatementQuery(conn: int, stm: int, f: Fields, preOn: bool, s: Settings, m: Method, args: seq<Value>,
                       outcome: Result<Value, Throwable>, clock: Clock)
    requires JdbcCall(StatementKind, m, args) && m.op == ExecuteQuery && s.on
    ensures var r := Invocation(StatementKind, conn, stm, f, preOn, s, m, args, outcome, clock);
      && r.line == Some(Line(conn, stm, " statement: " + Show(args[0]), r.fields))
      && (r.made != NoWrap <==> s.logResult && ResultOf(outcome) != Null)
      && (r.made != NoWrap ==> r.made == WrapResultSet(conn, stm))
  {
  }

  /** executeUpdate with the consumer on logs the statement and " result: " with the result. */
  lemma StatementUpdate(conn: int, stm: int, f: Fields, preOn: bool, s: Settings, m: Method, args: seq<Value>,
                        outcome: Result<Value, Throwable>, clock: Clock)
    requires JdbcCall(StatementKind, m, args) && m.op == ExecuteUpdate && s.on
    ensures var r := Invocation(StatementKind, conn, stm, f, preOn, s, m, args, outcome, clock);
      && r.line == Some(Line(conn, stm, " statement: " + Show(args[0]) + " result: " + Show(ResultOf(outcome)), r.fields))
      && r.made == NoWrap
  {
  }

  /** Any other statement method logs nothing and returns the delegated result unchanged. */
  lemma StatementOther(conn: int, stm: int, f: Fields, preOn: bool, s: Settings, m: Method, args: seq<Value>,
                       outcome: Result<Value, Throwable>, clock: Clock)
    requires JdbcCall(StatementKind, m, args) && m.op != ExecuteQuery && m.op != ExecuteUpdate
    ensures var r := Invocation(StatementKind, conn, stm, f, preOn, s, m, args, outcome, clock);
      && r.line == None && r.made == NoWrap
      && r.fields == f.(error := ErrorOf(outcome), invocationTime := clock.end - clock.start)
  {
  }

  // ---------------------------------------------------------------------
  // PreparedStatementHandler

  /** Whether addParam binds: two or three declared parameters, the first an int. */
  predicate Binds(m: Method) {
    2 <= |m.types| <= 3 && m.types[0] == IntParam
  }

  /** A binding setter maps its index to "" + its value and keeps every other binding; any
      other setter leaves the buffer as it was. */
  lemma SetterBinds(params: map<int, string>, m: Method, args: seq<Value>)
    requires Fits(m, args)
    ensures Binds(m) ==> var q := AddParam(params, m, args);
      && args[0].Int? && args[0].i in q && q[args[0].i] == Show(args[1])
      && (forall k :: k != args[0].i ==> (k in q <==> k in params))
      && (forall k :: k != args[0].i && k in q ==> q[k] == params[k])
    ensures !Binds(m) ==> AddParam(params, m, args) == params
  {
  }

  /** Binding the same index twice keeps only the second value. */
  lemma LastBindingWins(params: map<int, string>, m1: Method, a1: seq<Value>, m2: Method, a2: seq<Value>)
    requires Fits(m1, a1) && Fits(m2, a2) && Binds(m1) && Binds(m2)
    requires a1[0] == a2[0]
    ensures AddParam(AddParam(params, m1, a1), m2, a2) == AddParam(params, m2, a2)
  {
  }

  /** A setter call with the consumer on goes to addParam and logs nothing. */
  lemma PreparedSetter(conn: int, stm: int, text: string, f: Fields, preOn: bool, s: Settings, m: Method,
                       args: seq<Value>, outcome: Result<Value, Throwable>, clock: Clock)
    requires JdbcCall(PreparedKind(text), m, args) && s.on
    requires m.op.Other? && StartsWith(m.op.name, "set")
    ensures var r := Invocation(PreparedKind(text), conn, stm, f, preOn, s, m, args, outcome, clock);
      && r.line == None && r.made == NoWrap
      && r.fields.params == AddParam(f.params, m, args)
  {
  }

  /** executeQuery and executeUpdate with the consumer on log the statement text and the
      buffer in ascending index order (executeUpdate also the result), then empty the buffer;
      executeQuery wraps a non-null result set iff logResult() holds. */
  lemma PreparedExecute(conn: int, stm: int, text: string, f: Fields, preOn: bool, s: Settings, m: Method,
                        args: seq<Value>, outcome: Result<Value, Throwable>, clock: Clock)
    requires JdbcCall(PreparedKind(text), m, args) && s.on
    requires m.op == ExecuteQuery || m.op == ExecuteUpdate
    ensures var r := Invocation(PreparedKind(text), conn, stm, f, preOn, s, m, args, outcome, clock);
      var result := if m.op == ExecuteUpdate then Some(ResultOf(outcome)) else None;
      && r.fields.params == map[]
      && r.line == Some(Line(conn, stm, ExecuteBody(text, f.params, result), r.fields))
      && (r.made != NoWrap <==> m.op == ExecuteQuery && s.logResult && ResultOf(outcome) != Null)
      && (r.made != NoWrap ==> r.made == WrapResultSet(conn, stm))
  {
  }

  /** The buffer is emptied only by an execute made while the consumer is on: bindings made
      before an execute that ran with the consumer off are still logged by the next execute
      made with it on. */
  lemma StaleBindings(conn: int, stm: int, text: string, f: Fields,
                      preOn1: bool, s1: Settings, m1: Method, args1: seq<Value>, outcome1: Result<Value, Throwable>, clock1: Clock,
                      preOn2: bool, s2: Settings, m2: Method, args2: seq<Value>, outcome2: Result<Value, Throwable>, clock2: Clock)
    requires JdbcCall(PreparedKind(text), m1, args1) && JdbcCall(PreparedKind(text), m2, args2)
    requires m1.op in {ExecuteQuery, ExecuteUpdate} && m2.op in {ExecuteQuery, ExecuteUpdate}
    requires !s1.on && s2.on
    ensures var r1 := Invocation(PreparedKind(text), conn, stm, f, preOn1, s1, m1, args1, outcome1, clock1);
      var r2 := Invocation(PreparedKind(text), conn, stm, r1.fields, preOn2, s2, m2, args2, outcome2, clock2);
      var result := if m2.op == ExecuteUpdate then Some(ResultOf(outcome2)) else None;
      && r1.fields.params == f.params
      && r2.line == Some(Line(conn, stm, ExecuteBody(text, f.params, result), r2.fields))
  {
    var r1 := Invocation(PreparedKind(text), conn, stm, f, preOn1, s1, m1, args1, outcome1, clock1);
    PreparedExecute(conn, stm, text, r1.fields, preOn2, s2, m2, args2, outcome2, clock2);
  }

  // ---------------------------------------------------------------------
  // ResultSetHandler

  /** The row counter and the times: next() sets the start time while it is 0 when the
      pre-hook finds the consumer on, and counts one row and sets the first-row time while it
      is 0 when the post-hook finds it on; a time once set is never written again by next();
      nothing else counts. */
  lemma RowStep(conn: int, stm: int, f: Fields, preOn: bool, s: Settings, m: Method, args: seq<Value>,
                outcome: Result<Value, Throwable>, clock: Clock)
    requires JdbcCall(ResultSetKind, m, args)
    ensures var r := Invocation(ResultSetKind, conn, stm, f, preOn, s, m, args, outcome, clock);
      var counted := s.on && m.op == Next;
      && r.fields.count == (if counted then f.count + 1 else f.count)
      && r.fields.nextstartTime == (if preOn && m.op == Next && f.nextstartTime == 0 then clock.pre else f.nextstartTime)
      && r.fields.nextfirstTime == (if counted && f.nextfirstTime == 0 then clock.post else f.nextfirstTime)
      && r.fields.params == f.params
      && r.made == NoWrap
  {
  }

  /** Logging switched off while next() runs: the pre-hook sets the start time, but the
      post-hook neither counts the row nor sets the first-row time, and nothing is logged. */
  lemma SwitchedOffDuringNext(conn: int, stm: int, f: Fields, s: Settings, m: Method, args: seq<Value>,
                              outcome: Result<Value, Throwable>, clock: Clock)
    requires JdbcCall(ResultSetKind, m, args) && m.op == Next && !s.on && f.nextstartTime == 0
    ensures var r := Invocation(ResultSetKind, conn, stm, f, true, s, m, args, outcome, clock);
      && r.fields.nextstartTime == clock.pre
      && r.fields.nextfirstTime == f.nextfirstTime
      && r.fields.count == f.count
      && r.line == None && r.made == NoWrap
  {
    RowStep(conn, stm, f, true, s, m, args, outcome, clock);
  }

  /** Every close() made with the consumer on records the last time and logs the row count,
      the first-row and all-rows times measured from the start time, and " close". */
  lemma CloseLogs(conn: int, stm: int, f: Fields, preOn: bool, s: Settings, m: Method, args: seq<Value>,
                  outcome: Result<Value, Throwable>, clock: Clock)
    requires JdbcCall(ResultSetKind, m, args)
    ensures var r := Invocation(ResultSetKind, conn, stm, f, preOn, s, m, args, outcome, clock);
      && (s.on && m.op == Close ==>
            && r.fields.nextlastTime == clock.post
            && r.line == Some(Line(conn, stm, CloseBody(r.fields), r.fields)))
      && (!(s.on && m.op == Close) ==> r.line == None && r.fields.nextlastTime == f.nextlastTime)
  {
  }

  // ---------------------------------------------------------------------
  // Runs of calls through one handler

  /** One call through a proxy: the consumer status the pre-hook hears, the configuration the
      post-hook reads, the method and arguments, what the delegated call did, and the clock
      readings. */
  datatype Call = Call(preOn: bool, s: Settings, m: Method, args: seq<Value>, outcome: Result<Value, Throwable>,
                       clock: Clock)

  predicate JdbcCalls(kind: Kind, calls: seq<Call>) {
    forall i :: 0 <= i < |calls| ==> JdbcCall(kind, calls[i].m, calls[i].args)
  }

  /** The fields after a run of calls, and the lines logged, in order. */
  function Run(kind: Kind, conn: int, stm: int, f: Fields, calls: seq<Call>): (r: (Fields, seq<string>))
    requires JdbcCalls(kind, calls)
    ensures |r.1| <= |calls|
  {
    if calls == [] then (f, [])
    else
      var before := Run(kind, conn, stm, f, calls[..|calls| - 1]);
      var c := calls[|calls| - 1];
      var step := Invocation(kind, conn, stm, before.0, c.preOn, c.s, c.m, c.args, c.outcome, c.clock);
      (step.fields, before.1 + (if step.line.Some? then [step.line.value] else []))
  }

  /** next() calls made with the consumer on at both hooks, with the clock never reading 0. */
  predicate Nexts(calls: seq<Call>) {
    forall i :: 0 <= i < |calls| ==>
      calls[i].preOn && calls[i].s.on && calls[i].m.op == Next && calls[i].clock.pre != 0 && calls[i].clock.post != 0
  }

  /** Each next() counts one row, whatever it returned, and logs nothing; the start and
      first-row times are those of the first next() and are not overwritten by later ones. */
  lemma {:induction false} RowCount(conn: int, stm: int, f: Fields, calls: seq<Call>)
    requires JdbcCalls(ResultSetKind, calls) && Nexts(calls)
    ensures var r := Run(ResultSetKind, conn, stm, f, calls);
      && r.0.count == f.count + |calls|
      && r.1 == []
      && (f.nextstartTime != 0 || calls == [] ==> r.0.nextstartTime == f.nextstartTime)
      && (f.nextstartTime == 0 && calls != [] ==> r.0.nextstartTime == calls[0].clock.pre)
      && (f.nextfirstTime != 0 || calls == [] ==> r.0.nextfirstTime == f.nextfirstTime)
      && (f.nextfirstTime == 0 && calls != [] ==> r.0.nextfirstTime == calls[0].clock.post)
    decreases |calls|
  {
    if calls != [] {
      var front := calls[..|calls| - 1];
      var c := calls[|calls| - 1];
      assert JdbcCalls(ResultSetKind, front) && Nexts(front) by {
        assert forall i :: 0 <= i < |front| ==> front[i] == calls[i];
      }
      RowCount(conn, stm, f, front);
      var before := Run(ResultSetKind, conn, stm, f, front);
      RowStep(conn, stm, before.0, c.preOn, c.s, c.m, c.args, c.outcome, c.clock);
      if front != [] {
        assert front[0] == calls[0];
      }
    }
  }

  /** A result set read with k next() calls and then closed, consumer on throughout, logs
      exactly one line, and it reports a row count of k - 1: a row count of -1 when next() was
      never called, and 3 for three rows read to the end, since the call that finds no more
      rows counts too. */
  lemma {:induction false} ClosedAfterRows(conn: int, stm: int, nexts: seq<Call>, close: Call)
    requires JdbcCalls(ResultSetKind, nexts) && Nexts(nexts)
    requires JdbcCall(ResultSetKind, close.m, close.args) && close.s.on && close.m.op == Close
    ensures var r := Run(ResultSetKind, conn, stm, Initial, nexts + [close]);
      && r.0.count == |nexts| - 1
      && r.0.nextlastTime == close.clock.post
      && r.1 == [Line(conn, stm, CloseBody(r.0), r.0)]
  {
    var calls := nexts + [close];
    assert calls[..|calls| - 1] == nexts;
    assert JdbcCalls(ResultSetKind, calls) by {
      assert forall i :: 0 <= i < |nexts| ==> calls[i] == nexts[i];
    }
    RowCount(conn, stm, Initial, nexts);
    var before := Run(ResultSetKind, conn, stm, Initial, nexts);
    RowStep(conn, stm, before.0, close.preOn, close.s, close.m, close.args, close.outcome, close.clock);
    CloseLogs(conn, stm, before.0, close.preOn, close.s, close.m, close.args, close.outcome, close.clock);
  }
}
