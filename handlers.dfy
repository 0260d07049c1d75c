/** The logging handlers themselves (package sk.antons.jdbc.log.invocation): objects whose
    fields every call through their proxy updates, each method proved to do what the rules of
    module HandlerRules say. CommonHandler and its four subclasses are one class here, told apart
    by `kind`; the wrapped JDBC object is not modelled, only what calling it returned. */
module Invocation {
  import opened Wrappers
  import Text
  import opened HandlerRules
  import Log

  /** What invoke() gives back: the delegated value itself, or a proxy around a new handler. */
  datatype Returned = Given(value: Value) | Proxy(handler: Handler)

  /** The lines a consumer gets from one post-hook. */
  function Lines(line: Option<string>): seq<string> {
    if line.Some? then [line.value] else []
  }

  /** How many statement identities the wrapping a post-hook does takes from the counter. */
  function NewStatements(w: Wrap): nat {
    if w.WrapStatement? || w.WrapPrepared? then 1 else 0
  }

  class Handler {
    const kind: Kind
    const config: Log.LogConfig
    const connidentity: int
    const stmidentity: int
    var invocationTime: int
    var error: Option<Throwable>
    var params: map<int, string>
    var count: int
    var nextstartTime: int
    var nextfirstTime: int
    var nextlastTime: int

    /** The mutable fields, as the rules see them. */
    function State(): Fields
      reads this
    {
      Fields(invocationTime, error, params, count, nextstartTime, nextfirstTime, nextlastTime)
    }

    /** ConnectionHandler(conn, config): a fresh connection identity, statement identity 0. */
    constructor Connection(config: Log.LogConfig, ids: Log.Identities)
      requires ids.Valid()
      modifies ids
      ensures ids.Valid()
      ensures kind == ConnectionKind && this.config == config && State() == Initial
      ensures connidentity == ids.connection == old(ids.connection) + 1 && stmidentity == 0
      ensures ids.statement == old(ids.statement)
    {
      var id := ids.NextConnection();
      kind := ConnectionKind;
      this.config := config;
      connidentity := id;
      stmidentity := 0;
      invocationTime, error, params := 0, None, map[];
      count, nextstartTime, nextfirstTime, nextlastTime := -1, 0, 0, 0;
    }

    /** StatementHandler(stm, config, connidentity): a fresh statement identity. */
    constructor Statement(config: Log.LogConfig, connidentity: int, ids: Log.Identities)
      requires ids.Valid()
      modifies ids
      ensures ids.Valid()
      ensures kind == StatementKind && this.config == config && State() == Initial
      ensures this.connidentity == connidentity
      ensures stmidentity == ids.statement == old(ids.statement) + 1
      ensures ids.connection == old(ids.connection)
    {
      var id := ids.NextStatement();
      kind := StatementKind;
      this.config := config;
      this.connidentity := connidentity;
      stmidentity := id;
      invocationTime, error, params := 0, None, map[];
      count, nextstartTime, nextfirstTime, nextlastTime := -1, 0, 0, 0;
    }

    /** PreparedStatementHandler(stm, statement, config, connidentity): a fresh statement
        identity and the statement text, kept for good. */
    constructor Prepared(config: Log.LogConfig, statement: string, connidentity: int, ids: Log.Identities)
      requires ids.Valid()
      modifies ids
      ensures ids.Valid()
      ensures kind == PreparedKind(statement) && this.config == config && State() == Initial
      ensures this.connidentity == connidentity
      ensures stmidentity == ids.statement == old(ids.statement) + 1
      ensures ids.connection == old(ids.connection)
    {
      var id := ids.NextStatement();
      kind := PreparedKind(statement);
      this.config := config;
      this.connidentity := connidentity;
      stmidentity := id;
      invocationTime, error, params := 0, None, map[];
      count, nextstartTime, nextfirstTime, nextlastTime := -1, 0, 0, 0;
    }

    /** ResultSetHandler(rs, config, connidentity, stmidentity): the identities of the statement
        that produced it, a row count of -1 and no times. */
    constructor ResultSet(config: Log.LogConfig, connidentity: int, stmidentity: int)
      ensures kind == ResultSetKind && this.config == config && State() == Initial
      ensures this.connidentity == connidentity && this.stmidentity == stmidentity
    {
      kind := ResultSetKind;
      this.config := config;
      this.connidentity := connidentity;
      this.stmidentity := stmidentity;
      invocationTime, error, params := 0, None, map[];
      count, nextstartTime, nextfirstTime, nextlastTime := -1, 0, 0, 0;
    }

    /** A handler built by wrapping `w`, with `statementId` the last statement identity
        handed out: its kind, its identities, its configuration, and no calls yet. */
    predicate Made(h: Handler, w: Wrap, statementId: int)
      reads h
    {
      && h.config == config
      && h.State() == Initial
      && match w
         case NoWrap => false
         case WrapStatement(conn) =>
           h.kind == StatementKind && h.connidentity == conn && h.stmidentity == statementId
         case WrapPrepared(text, conn) =>
           h.kind == PreparedKind(text) && h.connidentity == conn && h.stmidentity == statementId
         case WrapResultSet(conn, stm) =>
           h.kind == ResultSetKind && h.connidentity == conn && h.stmidentity == stm
    }

    /** toError(t): down the chain of InvocationTargetExceptions to the first other throwable. */
    static method ToError(t: Option<Throwable>) returns (s: string)
      ensures s == Describe(t)
    {
      if t.None? {
        return "";
      }
      var x := t.value;
      while x.InvocationTarget?
        invariant Root(x) == Root(t.value)
        decreases x
      {
        if x.cause.None? {
          return "InvocationTargetException";
        }
        x := x.cause.value;
      }
      s := x.shown;
    }

    /** consumerPostfix(sb): the time and, when the call failed, its error text. */
    method ConsumerPostfix() returns (s: string)
      ensures s == Postfix(invocationTime, error)
    {
      s := " time: " + Text.IntToString(invocationTime);
      if error.Some? {
        var text := ToError(error);
        s := s + " error: " + text;
      }
    }

    /** params(): the buffer rendered entry by entry in ascending index order. */
    method RenderParams() returns (s: string)
      ensures s == Render(params)
    {
      var keys := SortedKeys(params.Keys);
      s := "";
      var i := 0;
      while i < |keys|
        invariant 0 <= i <= |keys|
        invariant s == Entries(params, keys[..i])
      {
        var key := keys[i];
        EntriesStep(params, keys, i);
        s := s + Entry(key, params[key]);
        i := i + 1;
      }
      assert keys[..i] == keys;
    }

    /** addParam(method, args). */
    method AddParam(m: Method, args: seq<Value>)
      requires Fits(m, args)
      modifies this
      ensures State() == old(State()).(params := HandlerRules.AddParam(old(params), m, args))
    {
      if |m.types| < 2 {
        return;
      }
      if |m.types| > 3 {
        return;
      }
      var c := m.types[0];
      if c != IntParam {
        return;
      }
      var value := args[1];
      var svalue := Show(value);
      var key := args[0].i;
      params := params[key := svalue];
    }

    /** preInvoke(method, args). */
    method PreInvoke(m: Method, now: int)
      modifies this
      ensures State() == HandlerRules.PreInvoke(kind, old(State()), config.consumerStatus.IsConsumerOn(), m.op, now)
    {
      if kind == ResultSetKind && config.consumerStatus.IsConsumerOn() {
        if m.op == Next {
          if nextstartTime == 0 {
            nextstartTime := now;
          }
        }
      }
    }

    /** postInvoke(method, args, o): nothing while the consumer is off, otherwise the branch of
        the handler's own class; the line given to the consumer, the fields and the wrapping
        are the ones the rules give. */
    method PostInvoke(m: Method, args: seq<Value>, o: Value, now: int, ids: Log.Identities)
      returns (r: Returned)
      requires JdbcCall(kind, m, args) && ids.Valid()
      modifies this, config.consumer, ids
      ensures ids.Valid()
      ensures var post := HandlerRules.PostInvoke(kind, connidentity, stmidentity, old(State()),
                                                  config.Settings(), m, args, o, now);
        && State() == post.fields
        && config.consumer.lines == old(config.consumer.lines) + Lines(post.line)
        && ids.connection == old(ids.connection)
        && ids.statement == old(ids.statement) + NewStatements(post.wrap)
        && (post.wrap == NoWrap ==> r == Given(o))
        && (post.wrap != NoWrap ==> r.Proxy? && fresh(r.handler) && Made(r.handler, post.wrap, ids.statement))
    {
      r := Given(o);
      if !config.consumerStatus.IsConsumerOn() {
        return;
      }
      if kind == ConnectionKind {
        r := ConnectionPostInvoke(m, args, o, now, ids);
      } else if kind == StatementKind {
        r := StatementPostInvoke(m, args, o, now, ids);
      } else if kind.PreparedKind? {
        r := PreparedPostInvoke(m, args, o, now, ids);
      } else {
        r := ResultSetPostInvoke(m, args, o, now, ids);
      }
    }

    /** ConnectionHandler.postInvoke with the consumer on. */
    method ConnectionPostInvoke(m: Method, args: seq<Value>, o: Value, now: int, ids: Log.Identities)
      returns (r: Returned)
      requires kind == ConnectionKind && config.consumerStatus.IsConsumerOn()
      requires JdbcCall(kind, m, args) && ids.Valid()
      modifies this, config.consumer, ids
      ensures ids.Valid()
      ensures var post := PostOf(connidentity, stmidentity, old(State()),
                                 ConnectionHook(connidentity, old(State()), config.Settings(), m.op, args));
        && State() == post.fields
        && config.consumer.lines == old(config.consumer.lines) + Lines(post.line)
        && ids.connection == old(ids.connection)
        && ids.statement == old(ids.statement) + NewStatements(post.wrap)
        && (post.wrap == NoWrap ==> r == Given(o))
        && (post.wrap != NoWrap ==> r.Proxy? && fresh(r.handler) && Made(r.handler, post.wrap, ids.statement))
    {
      r := Given(o);
      var prefix := Prefix(connidentity, stmidentity);
      if m.op == CreateStatement {
        if config.LogStatement() {
          var h := new Handler.Statement(config, connidentity, ids);
          r := Proxy(h);
        }
      } else if m.op == PrepareStatement {
        if config.LogStatement() {
          var h := new Handler.Prepared(config, Show(args[0]), connidentity, ids);
          r := Proxy(h);
        }
      } else if m.op == Commit || m.op == Rollback {
        var postfix := ConsumerPostfix();
        config.consumer.Consume(prefix + (" " + Name(m.op)) + postfix);
      }
    }

    /** StatementHandler.postInvoke with the consumer on. */
    method StatementPostInvoke(m: Method, args: seq<Value>, o: Value, now: int, ids: Log.Identities)
      returns (r: Returned)
      requires kind == StatementKind && config.consumerStatus.IsConsumerOn()
      requires JdbcCall(kind, m, args) && ids.Valid()
      modifies this, config.consumer, ids
      ensures ids.Valid()
      ensures var post := PostOf(connidentity, stmidentity, old(State()),
                                 StatementHook(connidentity, stmidentity, old(State()), config.Settings(), m.op, args, o));
        && State() == post.fields
        && config.consumer.lines == old(config.consumer.lines) + Lines(post.line)
        && ids.connection == old(ids.connection)
        && ids.statement == old(ids.statement) + NewStatements(post.wrap)
        && (post.wrap == NoWrap ==> r == Given(o))
        && (post.wrap != NoWrap ==> r.Proxy? && fresh(r.handler) && Made(r.handler, post.wrap, ids.statement))
    {
      r := Given(o);
      var prefix := Prefix(connidentity, stmidentity);
      if m.op == ExecuteQuery {
        var postfix := ConsumerPostfix();
        config.consumer.Consume(prefix + (" statement: " + Show(args[0])) + postfix);
        if config.LogResult() && o != Null {
          var h := new Handler.ResultSet(config, connidentity, stmidentity);
          r := Proxy(h);
        }
      } else if m.op == ExecuteUpdate {
        var postfix := ConsumerPostfix();
        config.consumer.Consume(prefix + (" statement: " + Show(args[0]) + " result: " + Show(o)) + postfix);
      }
    }

    /** The line an execute of a prepared statement logs: the prefix, the statement text, the
        rendered bindings, the result when there is one, and the postfix. */
    method ExecuteLine(result: Option<Value>) returns (s: string)
      requires kind.PreparedKind?
      ensures s == Line(connidentity, stmidentity, ExecuteBody(kind.statement, params, result), State())
    {
      var rendered := RenderParams();
      var postfix := ConsumerPostfix();
      var tail := if result.Some? then " result: " + Show(result.value) else "";
      s := Prefix(connidentity, stmidentity) + (" statement: " + kind.statement + " params: " + rendered + tail) + postfix;
    }

    /** PreparedStatementHandler.postInvoke with the consumer on. */
    method PreparedPostInvoke(m: Method, args: seq<Value>, o: Value, now: int, ids: Log.Identities)
      returns (r: Returned)
      requires kind.PreparedKind? && config.consumerStatus.IsConsumerOn()
      requires JdbcCall(kind, m, args) && ids.Valid()
      modifies this, config.consumer, ids
      ensures ids.Valid()
      ensures var post := PostOf(connidentity, stmidentity, old(State()),
                                 PreparedHook(connidentity, stmidentity, kind.statement, old(State()), config.Settings(), m, args, o));
        && State() == post.fields
        && config.consumer.lines == old(config.consumer.lines) + Lines(post.line)
        && ids.connection == old(ids.connection)
        && ids.statement == old(ids.statement) + NewStatements(post.wrap)
        && (post.wrap == NoWrap ==> r == Given(o))
        && (post.wrap != NoWrap ==> r.Proxy? && fresh(r.handler) && Made(r.handler, post.wrap, ids.statement))
    {
      r := Given(o);
      if m.op == ExecuteQuery || m.op == ExecuteUpdate {
        r := PostExecute(m.op, o);
      } else if m.op.Other? && Text.StartsWith(m.op.name, "set") {
        AddParam(m, args);
      }
    }

    /** The execute branch of PreparedStatementHandler.postInvoke: executeQuery logs no
        result, executeUpdate logs its count, and both clear the bindings. */
    method PostExecute(op: Operation, o: Value) returns (r: Returned)
      requires kind.PreparedKind? && (op == ExecuteQuery || op == ExecuteUpdate)
      modifies this, config.consumer
      ensures State() == old(State()).(params := map[])
      ensures config.consumer.lines == old(config.consumer.lines)
        + [Line(connidentity, stmidentity, ExecuteBody(kind.statement, old(params), if op == ExecuteUpdate then Some(o) else None), old(State()))]
      ensures op == ExecuteQuery && config.LogResult() && o != Null ==>
        r.Proxy? && fresh(r.handler) && Made(r.handler, WrapResultSet(connidentity, stmidentity), 0)
      ensures !(op == ExecuteQuery && config.LogResult() && o != Null) ==> r == Given(o)
    {
      r := Given(o);
      var line := ExecuteLine(if op == ExecuteUpdate then Some(o) else None);
      config.consumer.Consume(line);
      if op == ExecuteQuery && config.LogResult() && o != Null {
        var h := new Handler.ResultSet(config, connidentity, stmidentity);
        r := Proxy(h);
      }
      params := map[];
    }

    /** ResultSetHandler.postInvoke with the consumer on. */
    method ResultSetPostInvoke(m: Method, args: seq<Value>, o: Value, now: int, ids: Log.Identities)
      returns (r: Returned)
      requires kind == ResultSetKind && config.consumerStatus.IsConsumerOn()
      requires JdbcCall(kind, m, args) && ids.Valid()
      modifies this, config.consumer, ids
      ensures ids.Valid()
      ensures var post := PostOf(connidentity, stmidentity, old(State()),
                                 ResultSetHook(old(State()), m.op, now));
        && State() == post.fields
        && config.consumer.lines == old(config.consumer.lines) + Lines(post.line)
        && ids.connection == old(ids.connection)
        && ids.statement == old(ids.statement) + NewStatements(post.wrap)
        && (post.wrap == NoWrap ==> r == Given(o))
        && (post.wrap != NoWrap ==> r.Proxy? && fresh(r.handler) && Made(r.handler, post.wrap, ids.statement))
    {
      r := Given(o);
      var prefix := Prefix(connidentity, stmidentity);
      if m.op == Next {
        if nextfirstTime == 0 {
          nextfirstTime := now;
        }
        count := count + 1;
      } else if m.op == Close {
        nextlastTime := now;
        var postfix := ConsumerPostfix();
        config.consumer.Consume(prefix + CloseBody(State()) + postfix);
      }
    }

    /** invoke(proxy, method, args): pre-hook, the delegated call (its outcome given) with
        error reset and timing, the post-hook exactly once, then the throwable rethrown or the
        post-hook's result returned. While the delegated call runs, the application may switch
        logging: `onAfter` is the consumer status the post-hook finds. */
    method Invoke(m: Method, args: seq<Value>, outcome: Result<Value, Throwable>, onAfter: bool, clock: Clock,
                  ids: Log.Identities)
      returns (r: Result<Returned, Throwable>)
      requires JdbcCall(kind, m, args) && ids.Valid()
      modifies this, config.consumer, config.consumerStatus, ids
      ensures ids.Valid() && config.consumerStatus.on == onAfter
      ensures var step := Invocation(kind, connidentity, stmidentity, old(State()),
                                     old(config.consumerStatus.IsConsumerOn()), config.Settings(),
                                     m, args, outcome, clock);
        && State() == step.fields
        && config.consumer.lines == old(config.consumer.lines) + Lines(step.line)
        && ids.connection == old(ids.connection)
        && ids.statement == old(ids.statement) + NewStatements(step.made)
        && (step.reply.Err? ==> r == Err(step.reply.error))
        && (step.reply.Ok? && step.reply.value.Plain? ==> r == Ok(Given(step.reply.value.value)))
        && (step.reply.Ok? && step.reply.value.Wrapped? ==>
              r.Ok? && r.value.Proxy? && fresh(r.value.handler) && Made(r.value.handler, step.made, ids.statement))
    {
      PreInvoke(m, clock.pre);
      var o := Null;
      error := None;
      var starttime := clock.start;
      // the delegated call runs here, and logging may be switched meanwhile
      config.consumerStatus.on := onAfter;
      match outcome {
        case Ok(v) => o := v;
        case Err(e) => error := Some(e);
      }
      var endtime := clock.end;
      invocationTime := endtime - starttime;
      ghost var done := State();
      assert done == Delegated(HandlerRules.PreInvoke(kind, old(State()), old(config.consumerStatus.IsConsumerOn()), m.op, clock.pre),
                               outcome, clock.start, clock.end);
      var returned := PostInvoke(m, args, o, clock.post, ids);
      r := if error.Some? then Err(error.value) else Ok(returned);
    }
  }
}
