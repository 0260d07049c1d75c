# jdbc — a verified model of the SQL script splitter, the JDBC logging handlers and the SQL-to-HTML report

This project models the core of `sk.antons.jdbc`, a small Java library. The library does three things:

- **`Script`** cuts an SQL script into statements at `;`. It keeps `'...'` literals whole,
  drops `--` comments up to the end of the line and trims each statement. `execute`
  runs the statements one by one with `executeUpdate` and commits every `commitAfter`
  statements and once at the end.
- **The logging handlers** sit behind JDBC proxies: `CommonHandler` and its four subclasses
  for connections, statements, prepared statements and result sets, configured by
  `LogConfig`. Every call is timed. The handler may wrap what the call returns in a further
  proxy, and it gives log lines of the form `jdbc [c][s] … time: t [error: e]` to a consumer.
- **`SqlToHtml`** runs a `select` and renders the answer as an HTML table. It supports an
  optional header, extra template columns with `${label}` placeholders, and paging.

The modules are:

| module | file | content |
|---|---|---|
| `Wrappers` | `wrappers.dfy` | `Option` (Java's null) and `Result` (a thrown exception) |
| `Text` | `text.dfy` | the JDK string operations the code relies on: `trim()`, ASCII `toLowerCase()`, `Long.toString`, `String.replace`, with their laws |
| `SqlScript` | `script.dfy` | the splitter as functions on the pending characters (`Scan`, `NextStatement`, `Statements`) and the `Script` class with its reader, lookahead fields and loops, each method proved against those functions |
| `ScriptProperties` | `script_properties.dfy` | what the splitter and `execute()` guarantee: literals, comments, clean statements, updates in order, the commit count, the sample script of `main` |
| `HandlerRules` | `rules.dfy` | the handlers' decisions as functions of their fields: prefix and postfix, `toError`, `params()`, each `postInvoke`, `invoke`, and runs of calls |
| `Log` | `log.dfy` | `LogConfig`, `Consumer`, `ConsumerStatus` and the identity counters as classes |
| `Invocation` | `handlers.dfy` | the handler as a class whose methods update its fields, each proved to do what `HandlerRules` says |
| `SqlHtml` | `sqlhtml.dfy` | `clearSql`, cell and row rendering, template filling, paging, and the `SqlToHtml` class whose `Build` writes its buffer |

Four modelling choices shape the project:

- **The database is a parameter.** `Build` receives the answer to the query as a function of
  the SQL sent: either a failure (the exception text) or column metadata and rows of
  already-formatted cell values.
- **The handler's environment is a parameter.** `Invoke` receives the outcome of the
  delegated call, the four clock readings, and the consumer status as the post-hook finds it.
  The pre-hook and the post-hook each ask `isConsumerOn()`, and logging may be switched
  while the delegated call runs.
- **`Script.execute` returns the calls it makes** on the connection and its statement, as a
  list of `CreateStatement`, `Update(sql)` and `Commit` calls. The driver is a parameter
  saying which of those calls, counted from 0, throws an SQLException and with what text.
- **The JVM's text for a NullPointerException is a parameter of `Build`.** Its wording differs
  between Java versions: recent JDKs append a message naming the null field.

## Model

Source paths are relative to the repository root.

| member | source | states |
|---|---|---|
| Text.Trim | src/main/java/sk/antons/jdbc/util/Script.java:93 | the result has no blank (code point up to U+0020) at either end, and it is empty exactly when the input is all blanks |
| Text.TrimInfix | src/main/java/sk/antons/jdbc/util/Script.java:93 | what trim() removes is blank, and what it keeps is a contiguous part of the input |
| Text.TrimIdempotent | src/main/java/sk/antons/jdbc/util/SqlToHtml.java:169 | trimming twice gives the same result as trimming once |
| Text.TrimOf | src/main/java/sk/antons/jdbc/util/Script.java:93 | trim() gives back a trimmed core from between any blanks |
| Text.Lower | src/main/java/sk/antons/jdbc/util/SqlToHtml.java:81 | every character is lowered, with ASCII letters mapped to lower case and the rest kept, and the length is unchanged |
| Text.IntToString | src/main/java/sk/antons/jdbc/log/invocation/CommonHandler.java:71 | a rendered long is a non-empty run of numerals that starts with '-' exactly when it is negative |
| Text.IntToStringInjective | src/main/java/sk/antons/jdbc/log/invocation/CommonHandler.java:67 | different numbers are rendered differently |
| Text.SplitAfterNumeral | src/main/java/sk/antons/jdbc/log/invocation/CommonHandler.java:67-71 | a rendered number followed by a non-numeral can be cut off again in one way only |
| Text.ReplaceSkips | src/main/java/sk/antons/jdbc/util/SqlToHtml.java:137 | replace() passes through text that lacks the target's first character |
| SqlScript.Step | src/main/java/sk/antons/jdbc/util/Script.java:67-88 | a literal's characters are always kept, and a character that leaves the scanner in a comment is dropped |
| SqlScript.Scan | src/main/java/sk/antons/jdbc/util/Script.java:66-91 | the scanning loop consumes at least one character of non-empty input |
| SqlScript.NextStatement | src/main/java/sk/antons/jdbc/util/Script.java:61-97 | a returned statement is non-empty and trimmed, and None comes only once the input is exhausted |
| SqlScript.Script.constructor | src/main/java/sk/antons/jdbc/util/Script.java:41-44 | priming readOne() while head is 0 leaves a NUL character before the script's first one; the iterator is unused and commitAfter is 0 |
| SqlScript.Script.Read | src/main/java/sk/antons/jdbc/util/Script.java:55 | the reader yields the next character's code, or -1 at the end and stays there |
| SqlScript.Script.ReadOne | src/main/java/sk/antons/jdbc/util/Script.java:51-59 | the lookahead shifts by one character, and once head is -1 nothing changes |
| SqlScript.Script.Next | src/main/java/sk/antons/jdbc/util/Script.java:61-97 | the loop over the fields returns NextStatement of the pending characters and leaves what NextStatement leaves |
| SqlScript.Script.Iterator | src/main/java/sk/antons/jdbc/util/Script.java:99-117 | the first call yields an iterator over exactly Statements of the script, and any later call fails with "Script can be used only once" |
| SqlScript.Script.Stream | src/main/java/sk/antons/jdbc/util/Script.java:119-125 | stream() uses up the single permitted walk just as iterator() does |
| SqlScript.Script.CommitAfter | src/main/java/sk/antons/jdbc/util/Script.java:127-128 | sets commitAfter and returns the same script |
| SqlScript.StatementIterator.constructor | src/main/java/sk/antons/jdbc/util/Script.java:103-104 | the iterator starts holding every statement of the pending input |
| SqlScript.StatementIterator.HasNext | src/main/java/sk/antons/jdbc/util/Script.java:106-108 | true exactly when statements remain |
| SqlScript.StatementIterator.Next | src/main/java/sk/antons/jdbc/util/Script.java:110-114 | returns the first remaining statement and drops it from the remaining ones; past the end it returns null |
| SqlScript.Script.Execute | src/main/java/sk/antons/jdbc/util/Script.java:130-142 | a second use fails with IllegalStateException before any call; otherwise the calls made and the exception are Executed of the script's statements: the plan cut after the first call that throws |
| SqlScript.Script.RunUpdates | src/main/java/sk/antons/jdbc/util/Script.java:132-140 | createStatement, the counting loop and the final commit make the calls of Plan up to and including the first that throws, and end with its SQLException |
| SqlScript.Script.Turn | src/main/java/sk/antons/jdbc/util/Script.java:134-139 | one turn of the loop makes the next update and, when due, a commit, each the next call of the plan, and stops at the one that throws |
| SqlScript.Perform | src/main/java/sk/antons/jdbc/util/Script.java:132-140 | a call on the connection or its statement is the plan's next call, and it throws exactly what the driver says for its index |
| SqlScript.TurnStep | src/main/java/sk/antons/jdbc/util/Script.java:134-139 | the update of the next statement, and the commit when the count is due, are the next calls of the plan |
| SqlScript.Stopped | src/main/java/sk/antons/jdbc/util/Script.java:130-142 | wherever the calls stop, the calls made and the exception thrown are Executed of the script |
| SqlScript.PlanStep | src/main/java/sk/antons/jdbc/util/Script.java:132-140 | the calls made are the plan's first ones, and the call due next follows them |
| SqlScript.Reached | src/main/java/sk/antons/jdbc/util/Script.java:132-140 | the calls execute() gets through stop at the plan's end or right after the first call that throws |
| SqlScript.ExecutionStep | src/main/java/sk/antons/jdbc/util/Script.java:136-138 | one statement adds its update, then a commit exactly when the new count is a positive multiple of commitAfter |
| ScriptProperties.CodePrefix | src/main/java/sk/antons/jdbc/util/Script.java:78-90 | plain code, with no quote, ';' or '--', is copied as it is |
| ScriptProperties.CodeRun | src/main/java/sk/antons/jdbc/util/Script.java:79-81 | outside a literal ';' ends the statement and is consumed, and scanning stops right after it |
| ScriptProperties.CodeToEnd | src/main/java/sk/antons/jdbc/util/Script.java:66 | plain code that runs to the end of the input is the whole last piece |
| ScriptProperties.LiteralBody | src/main/java/sk/antons/jdbc/util/Script.java:67-70 | inside a literal every character is kept, ';' and '--' included, up to and with the closing quote |
| ScriptProperties.LiteralRun | src/main/java/sk/antons/jdbc/util/Script.java:82-83 | a quoted literal met in code is kept whole, quotes included |
| ScriptProperties.CommentBody | src/main/java/sk/antons/jdbc/util/Script.java:71-77 | inside a comment every character is dropped up to a newline, which is kept and ends the comment |
| ScriptProperties.CommentToEnd | src/main/java/sk/antons/jdbc/util/Script.java:71-77 | a comment that reaches the end of the input drops everything |
| ScriptProperties.CommentRun | src/main/java/sk/antons/jdbc/util/Script.java:84-86 | '--' in code drops the comment up to the newline and keeps the newline |
| ScriptProperties.NextStatementClean | src/main/java/sk/antons/jdbc/util/Script.java:61-97 | every ';' in a returned statement lies inside a literal |
| ScriptProperties.StatementsClean | src/main/java/sk/antons/jdbc/util/Script.java:99-117 | every statement of a script is non-empty and trimmed, and holds no ';' outside a literal |
| ScriptProperties.NextOfPiece | src/main/java/sk/antons/jdbc/util/Script.java:93-94 | when the first piece is more than blanks, next() returns it trimmed |
| ScriptProperties.NextOfCode | src/main/java/sk/antons/jdbc/util/Script.java:79-94 | plain code up to a ';' is a statement of its own, trimmed |
| ScriptProperties.ExecutionUpdates | src/main/java/sk/antons/jdbc/util/Script.java:134-137 | execute() runs exactly the script's statements, each once and in order |
| ScriptProperties.ExecutionEndsWithCommit | src/main/java/sk/antons/jdbc/util/Script.java:140 | the last call of execute() is always a commit |
| ScriptProperties.ExecutionCommits | src/main/java/sk/antons/jdbc/util/Script.java:138-140 | there is one commit per positive multiple of commitAfter that the count passes, plus the final one; with commitAfter <= 0 only the final one |
| ScriptProperties.ScriptCommits | src/main/java/sk/antons/jdbc/util/Script.java:130-142 | a script of n statements commits n / k + 1 times when k > 0, and once otherwise |
| ScriptProperties.PlanCalls | src/main/java/sk/antons/jdbc/util/Script.java:130-142 | the plan starts with createStatement, runs every statement once and in order, has ExecutionFrom's commits and ends with a commit |
| ScriptProperties.ReachedFirstFailure | src/main/java/sk/antons/jdbc/util/Script.java:132-140 | no exception exactly when no call of the plan throws; otherwise the exception is the last call's and every call before it succeeded |
| ScriptProperties.ExecutedCompletes | src/main/java/sk/antons/jdbc/util/Script.java:130-142 | the calls made are a prefix of the plan; execute() ends normally exactly when no call throws, and then it ran every statement in order and made the final commit |
| ScriptProperties.ExecutedAborts | src/main/java/sk/antons/jdbc/util/Script.java:130-142 | after an SQLException the call that threw is the last one made, all earlier calls succeeded, and the statements run are the first ones of the script |
| ScriptProperties.SampleFirst | src/main/java/sk/antons/jdbc/util/Script.java:147-148 | the first statement of main's sample is the path, with the priming NUL trimmed away |
| ScriptProperties.SampleSecond | src/main/java/sk/antons/jdbc/util/Script.java:147-151 | a '--' inside a literal stays part of the statement |
| ScriptProperties.SampleThird | src/main/java/sk/antons/jdbc/util/Script.java:147-151 | "a toto --realna poznamka\n" becomes "a toto" |
| ScriptProperties.SampleFourth | src/main/java/sk/antons/jdbc/util/Script.java:147-151 | the text after the last ';' is a statement of its own, trimmed, and nothing is left |
| HandlerRules.OperationOf | src/main/java/sk/antons/jdbc/log/invocation/ConnectionHandler.java:50-59 | classifying a method name gives an operation whose name is that name |
| HandlerRules.OperationOfName | src/main/java/sk/antons/jdbc/log/invocation/StatementHandler.java:49-59 | classifying an operation's name gives back that operation |
| HandlerRules.Root | src/main/java/sk/antons/jdbc/log/invocation/CommonHandler.java:79-82 | following the causes ends at a throwable that is not an InvocationTargetException, or at null |
| HandlerRules.DescribeNest | src/main/java/sk/antons/jdbc/log/invocation/CommonHandler.java:77-85 | any number of InvocationTargetException layers leave the error text unchanged |
| HandlerRules.PrefixIdentifies | src/main/java/sk/antons/jdbc/log/invocation/CommonHandler.java:65-69 | two handlers whose prefixes are equal show the same identities |
| HandlerRules.PostfixReadsBack | src/main/java/sk/antons/jdbc/log/invocation/CommonHandler.java:70-73 | the postfix gives back the time, whether the call failed and its error text |
| HandlerRules.PreInvoke | src/main/java/sk/antons/jdbc/log/invocation/ResultSetHandler.java:46-52 | only the start time can change, and only from 0 to the current time |
| HandlerRules.Delegated | src/main/java/sk/antons/jdbc/log/invocation/CommonHandler.java:47-56 | the error is what the call threw or null, the time is end minus start, and no other field changes |
| HandlerRules.SortedKeys | src/main/java/sk/antons/jdbc/log/invocation/PreparedStatementHandler.java:97-99 | the keys are listed each once, in ascending order |
| HandlerRules.IncreasingUnique | src/main/java/sk/antons/jdbc/log/invocation/PreparedStatementHandler.java:99 | the ascending listing of a key set is unique |
| HandlerRules.RenderEmpty | src/main/java/sk/antons/jdbc/log/invocation/PreparedStatementHandler.java:96-106 | params() is empty exactly when the buffer is |
| HandlerRules.RenderListing | src/main/java/sk/antons/jdbc/log/invocation/PreparedStatementHandler.java:96-106 | params() renders the buffer in the order of any ascending listing of its keys |
| HandlerRules.RenderAppend | src/main/java/sk/antons/jdbc/log/invocation/PreparedStatementHandler.java:101-104 | a binding at an index above all others is rendered last |
| HandlerRules.ConnectionHook | src/main/java/sk/antons/jdbc/log/invocation/ConnectionHandler.java:49-67 | the connection's post-hook changes no field |
| HandlerRules.StatementHook | src/main/java/sk/antons/jdbc/log/invocation/StatementHandler.java:48-68 | the statement's post-hook changes no field |
| HandlerRules.PreparedHook | src/main/java/sk/antons/jdbc/log/invocation/PreparedStatementHandler.java:56-82 | the prepared statement's post-hook changes only the parameter buffer |
| HandlerRules.ResultSetHook | src/main/java/sk/antons/jdbc/log/invocation/ResultSetHandler.java:56-73 | the result set's post-hook leaves the time, the error and the buffer alone |
| HandlerRules.PostInvoke | src/main/java/sk/antons/jdbc/log/invocation/CommonHandler.java:57 | with the consumer off no post-hook does anything, and any line is framed by the handler's prefix and the call's postfix |
| HandlerRules.Invocation | src/main/java/sk/antons/jdbc/log/invocation/CommonHandler.java:45-60 | the pre-hook hears its own consumer status and the post-hook reads its own; the error and time are the call's own; a throwable is rethrown, even when a wrapper was built; otherwise the reply is the wrapper or the delegated result |
| HandlerRules.ConsumerOff | src/main/java/sk/antons/jdbc/log/invocation/CommonHandler.java:45-60 | with the consumer off at both hooks a call logs nothing, wraps nothing and changes nothing but the error and the time |
| HandlerRules.LineFrame | src/main/java/sk/antons/jdbc/log/invocation/CommonHandler.java:65-73 | every logged line starts with the prefix and ends with the postfix of that same call |
| HandlerRules.ConnectionPrefix | src/main/java/sk/antons/jdbc/log/invocation/CommonHandler.java:68 | a connection handler's lines start "jdbc [c]" |
| HandlerRules.ConnectionWraps | src/main/java/sk/antons/jdbc/log/invocation/ConnectionHandler.java:51-58 | createStatement and prepareStatement log nothing, and their result is wrapped exactly when the consumer is on and logStatement() holds, even when null |
| HandlerRules.TransactionLine | src/main/java/sk/antons/jdbc/log/invocation/ConnectionHandler.java:59-65 | commit and rollback log " commit" or " rollback" whenever the consumer is on, whatever logTransaction() says |
| HandlerRules.ConnectionOther | src/main/java/sk/antons/jdbc/log/invocation/ConnectionHandler.java:49-67 | any other connection method passes through without logging |
| HandlerRules.StatementQuery | src/main/java/sk/antons/jdbc/log/invocation/StatementHandler.java:50-58 | executeQuery logs the statement, and a non-null result set is wrapped exactly when logResult() holds |
| HandlerRules.StatementUpdate | src/main/java/sk/antons/jdbc/log/invocation/StatementHandler.java:59-66 | executeUpdate logs the statement and its result |
| HandlerRules.StatementOther | src/main/java/sk/antons/jdbc/log/invocation/StatementHandler.java:48-68 | any other statement method passes through without logging |
| HandlerRules.SetterBinds | src/main/java/sk/antons/jdbc/log/invocation/PreparedStatementHandler.java:85-94 | a setter with two or three parameters, the first an int, binds its index to "" + value and keeps every other binding; any other setter binds nothing |
| HandlerRules.LastBindingWins | src/main/java/sk/antons/jdbc/log/invocation/PreparedStatementHandler.java:93 | binding one index twice keeps only the second value |
| HandlerRules.PreparedSetter | src/main/java/sk/antons/jdbc/log/invocation/PreparedStatementHandler.java:78-80 | a set... call goes to addParam and logs nothing |
| HandlerRules.PreparedExecute | src/main/java/sk/antons/jdbc/log/invocation/PreparedStatementHandler.java:58-77 | execute logs the statement and its sorted bindings, plus the result for an update; it empties the buffer and wraps a non-null result set exactly when logResult() holds |
| HandlerRules.StaleBindings | src/main/java/sk/antons/jdbc/log/invocation/PreparedStatementHandler.java:56-77 | bindings outlive an execute made with the consumer off and are logged by the next execute made with it on |
| HandlerRules.RowStep | src/main/java/sk/antons/jdbc/log/invocation/ResultSetHandler.java:46-60 | next() sets the start time, while it is 0, when the pre-hook finds the consumer on; it counts one row and sets the first-row time, while that is 0, when the post-hook finds it on; nothing else counts |
| HandlerRules.SwitchedOffDuringNext | src/main/java/sk/antons/jdbc/log/invocation/ResultSetHandler.java:46-60 | logging switched off during next(): the start time is set, but the row is not counted, the first-row time is not set, and nothing is logged |
| HandlerRules.CloseLogs | src/main/java/sk/antons/jdbc/log/invocation/ResultSetHandler.java:61-71 | close() with the consumer on records the last time and logs the count and both times; no other call logs |
| HandlerRules.Run | src/main/java/sk/antons/jdbc/log/invocation/CommonHandler.java:45-60 | a run of calls logs at most one line per call |
| HandlerRules.RowCount | src/main/java/sk/antons/jdbc/log/invocation/ResultSetHandler.java:46-60 | k next() calls with the consumer on at both hooks add k to the count and log nothing, and the start and first-row times are those of the first call |
| HandlerRules.ClosedAfterRows | src/main/java/sk/antons/jdbc/log/invocation/ResultSetHandler.java:33-71 | k next() calls and a close log exactly one line, with row count k - 1 (3 for three rows read to the end) |
| Log.Consumer.Consume | src/main/java/sk/antons/jdbc/log/invocation/ConnectionHandler.java:64 | the line is appended after all earlier ones |
| Log.LogConfig.constructor | src/main/java/sk/antons/jdbc/log/LogConfig.java:29-41 | keeps the status and the consumer, and all three flags start true |
| Log.LogConfig.Statement | src/main/java/sk/antons/jdbc/log/LogConfig.java:58-61 | sets only logStatement and returns the same configuration |
| Log.LogConfig.ResultSet | src/main/java/sk/antons/jdbc/log/LogConfig.java:68-71 | sets only logResultSet and returns the same configuration |
| Log.LogConfig.Transaction | src/main/java/sk/antons/jdbc/log/LogConfig.java:78-81 | sets only logTransaction and returns the same configuration |
| Log.LogConfig.Settings | src/main/java/sk/antons/jdbc/log/LogConfig.java:84-88 | the hooks see the current consumer status, logStatement() and logResult(), the last being the result set flag |
| Log.Identities.NextConnection | src/main/java/sk/antons/jdbc/log/invocation/ConnectionHandler.java:34 | a positive connection identity never handed out before |
| Log.Identities.NextStatement | src/main/java/sk/antons/jdbc/log/invocation/StatementHandler.java:33 | a positive statement identity never handed out before |
| Invocation.Handler.Connection | src/main/java/sk/antons/jdbc/log/invocation/ConnectionHandler.java:33-36 | a fresh connection identity, statement identity 0, initial fields |
| Invocation.Handler.Statement | src/main/java/sk/antons/jdbc/log/invocation/StatementHandler.java:32-35 | the given connection identity, a fresh statement identity |
| Invocation.Handler.Prepared | src/main/java/sk/antons/jdbc/log/invocation/PreparedStatementHandler.java:39-43 | a fresh statement identity and the statement text, with an empty buffer |
| Invocation.Handler.ResultSet | src/main/java/sk/antons/jdbc/log/invocation/ResultSetHandler.java:35-38 | the producing statement's identities, count -1 and no times |
| Invocation.Handler.ToError | src/main/java/sk/antons/jdbc/log/invocation/CommonHandler.java:77-85 | the loop down the InvocationTargetException chain returns Describe of the throwable |
| Invocation.Handler.ConsumerPostfix | src/main/java/sk/antons/jdbc/log/invocation/CommonHandler.java:70-73 | the postfix of the handler's current time and error |
| Invocation.Handler.RenderParams | src/main/java/sk/antons/jdbc/log/invocation/PreparedStatementHandler.java:96-106 | the loop over the sorted keys returns Render of the buffer |
| Invocation.Handler.AddParam | src/main/java/sk/antons/jdbc/log/invocation/PreparedStatementHandler.java:85-94 | the buffer becomes the rules' AddParam of it, and no other field changes |
| Invocation.Handler.PreInvoke | src/main/java/sk/antons/jdbc/log/invocation/ResultSetHandler.java:46-52 | the fields become the rules' PreInvoke of them |
| Invocation.Handler.PostInvoke | src/main/java/sk/antons/jdbc/log/invocation/CommonHandler.java:57 | fields, consumer lines, the new handler and the identities taken are those of the rules' PostInvoke |
| Invocation.Handler.ConnectionPostInvoke | src/main/java/sk/antons/jdbc/log/invocation/ConnectionHandler.java:48-68 | the connection's branch agrees with ConnectionHook |
| Invocation.Handler.StatementPostInvoke | src/main/java/sk/antons/jdbc/log/invocation/StatementHandler.java:47-69 | the statement's branch agrees with StatementHook |
| Invocation.Handler.ExecuteLine | src/main/java/sk/antons/jdbc/log/invocation/PreparedStatementHandler.java:59-63 | the line built is the framed ExecuteBody |
| Invocation.Handler.PreparedPostInvoke | src/main/java/sk/antons/jdbc/log/invocation/PreparedStatementHandler.java:55-83 | the prepared statement's branch agrees with PreparedHook |
| Invocation.Handler.PostExecute | src/main/java/sk/antons/jdbc/log/invocation/PreparedStatementHandler.java:58-77 | one line with the bindings as they were, the buffer emptied, and a result-set proxy exactly when executeQuery returned non-null with logResult() on |
| Invocation.Handler.ResultSetPostInvoke | src/main/java/sk/antons/jdbc/log/invocation/ResultSetHandler.java:55-74 | the result set's branch agrees with ResultSetHook |
| Invocation.Handler.Invoke | src/main/java/sk/antons/jdbc/log/invocation/CommonHandler.java:45-60 | the new fields, the lines logged, the handler built and the reply or rethrown error are those of Invocation, with the status before the call for the pre-hook and the status after it for the post-hook |
| SqlHtml.IsNumberType | src/main/java/sk/antons/jdbc/util/SqlToHtml.java:176-186 | true exactly for the eight listed java.sql.Types codes |
| SqlHtml.Style | src/main/java/sk/antons/jdbc/util/SqlToHtml.java:117-124 | "time" exactly for TIMESTAMP, "date" exactly for DATE, "number" exactly for the number types, otherwise none |
| SqlHtml.Tokens | src/main/java/sk/antons/jdbc/util/SqlToHtml.java:165-167 | the tokens are the maximal non-empty runs without '\n' or '\r' |
| SqlHtml.ClearSql | src/main/java/sk/antons/jdbc/util/SqlToHtml.java:163-174 | the tokenizer loop returns CleanSql of the input |
| SqlHtml.CleanSqlOneLine | src/main/java/sk/antons/jdbc/util/SqlToHtml.java:163-174 | the cleaned sql holds no line break and is trimmed |
| SqlHtml.CommentLineDropped | src/main/java/sk/antons/jdbc/util/SqlToHtml.java:170 | a line that starts with "--" after trimming contributes nothing |
| SqlHtml.TokensOfLine | src/main/java/sk/antons/jdbc/util/SqlToHtml.java:165-167 | a line followed by a break is the next token |
| SqlHtml.CleanSingleLine | src/main/java/sk/antons/jdbc/util/SqlToHtml.java:169-173 | a single non-comment line cleans to the line trimmed |
| SqlHtml.CellReadsBack | src/main/java/sk/antons/jdbc/util/SqlToHtml.java:219-225 | a cell gives back its value, empty for null, when its class holds no '>' |
| SqlHtml.Labels | src/main/java/sk/antons/jdbc/util/SqlToHtml.java:77-82 | one lower-cased label per column, "" for a null label |
| SqlHtml.Values | src/main/java/sk/antons/jdbc/util/SqlToHtml.java:133-137 | a template sees each column's value, with null as "" |
| SqlHtml.PlaceholderFilled | src/main/java/sk/antons/jdbc/util/SqlToHtml.java:129-141 | "${label}" is filled with the value of the last column carrying that label |
| SqlHtml.OtherPlaceholder | src/main/java/sk/antons/jdbc/util/SqlToHtml.java:137 | replacing one placeholder leaves another key's placeholder alone |
| SqlHtml.FillAbsent | src/main/java/sk/antons/jdbc/util/SqlToHtml.java:130-139 | a template without '$' is left unchanged |
| SqlHtml.RowTexts | src/main/java/sk/antons/jdbc/util/SqlToHtml.java:96-144 | the html of all rows holds the html of each row |
| SqlHtml.First | src/main/java/sk/antons/jdbc/util/SqlToHtml.java:91-92 | the page starts at page * pagelen (clamped to the row count) when paging, and at 0 otherwise |
| SqlHtml.Last | src/main/java/sk/antons/jdbc/util/SqlToHtml.java:91-93 | the page ends between its start and the row count |
| SqlHtml.WindowExact | src/main/java/sk/antons/jdbc/util/SqlToHtml.java:96-101 | a row is rendered exactly when it belongs to the page |
| SqlHtml.WindowSize | src/main/java/sk/antons/jdbc/util/SqlToHtml.java:91-102 | a page holds at most pagelen rows, and all rows without paging |
| SqlHtml.PageCountWindow | src/main/java/sk/antons/jdbc/util/SqlToHtml.java:95-102 | the window holds as many rows as belong to the page |
| SqlHtml.HeaderOf | src/main/java/sk/antons/jdbc/util/SqlToHtml.java:83 | a non-empty header is kept; a null or empty one becomes the labels |
| SqlHtml.RenderedRows | src/main/java/sk/antons/jdbc/util/SqlToHtml.java:145-148 | a successful table's size counts the page's rows, and its html continues the buffer after the opened table |
| SqlHtml.WindowStep | src/main/java/sk/antons/jdbc/util/SqlToHtml.java:97-101 | rows before the page are skipped, the first row after it stops the loop, and every other row is the next one of the page |
| SqlHtml.SqlToHtml.constructor | src/main/java/sk/antons/jdbc/util/SqlToHtml.java:40-47 | nothing set, page 0, pagelen 0 and an empty buffer |
| SqlHtml.SqlToHtml.Sql | src/main/java/sk/antons/jdbc/util/SqlToHtml.java:50 | sets the sql and returns the same object |
| SqlHtml.SqlToHtml.SqlHeader | src/main/java/sk/antons/jdbc/util/SqlToHtml.java:51 | sets the header and returns the same object |
| SqlHtml.SqlToHtml.FieldsHeader | src/main/java/sk/antons/jdbc/util/SqlToHtml.java:52 | sets the template captions and returns the same object |
| SqlHtml.SqlToHtml.Fields | src/main/java/sk/antons/jdbc/util/SqlToHtml.java:53 | sets the templates and returns the same object |
| SqlHtml.SqlToHtml.Page | src/main/java/sk/antons/jdbc/util/SqlToHtml.java:54 | sets the page and returns the same object |
| SqlHtml.SqlToHtml.Pagelen | src/main/java/sk/antons/jdbc/util/SqlToHtml.java:55 | sets the page length and returns the same object |
| SqlHtml.SqlToHtml.EmitRowStart | src/main/java/sk/antons/jdbc/util/SqlToHtml.java:214-218 | appends the row's opening tag |
| SqlHtml.SqlToHtml.EmitRowEnd | src/main/java/sk/antons/jdbc/util/SqlToHtml.java:211-213 | appends "</tr>\n" |
| SqlHtml.SqlToHtml.Coll | src/main/java/sk/antons/jdbc/util/SqlToHtml.java:219-225 | appends the cell of the value |
| SqlHtml.SqlToHtml.EmitCells | src/main/java/sk/antons/jdbc/util/SqlToHtml.java:85-86 | the caption loop appends one cell per caption |
| SqlHtml.SqlToHtml.EmitHeader | src/main/java/sk/antons/jdbc/util/SqlToHtml.java:84-87 | appends the header row: header captions, then template captions |
| SqlHtml.SqlToHtml.EmitValues | src/main/java/sk/antons/jdbc/util/SqlToHtml.java:107-128 | the column loop appends each value with the class Style gives its type |
| SqlHtml.SqlToHtml.EmitFields | src/main/java/sk/antons/jdbc/util/SqlToHtml.java:130-141 | the template loop appends each template filled from the row |
| SqlHtml.SqlToHtml.ColumnLabels | src/main/java/sk/antons/jdbc/util/SqlToHtml.java:77-82 | the label loop returns Labels of the columns |
| SqlHtml.SqlToHtml.EmitRow | src/main/java/sk/antons/jdbc/util/SqlToHtml.java:106-143 | appends the complete html of one row |
| SqlHtml.SqlToHtml.EmitRows | src/main/java/sk/antons/jdbc/util/SqlToHtml.java:94-144 | the row loop renders exactly the rows of the page and counts them; a null template list fails at the first row when there is a header |
| SqlHtml.SqlToHtml.ReadRow | src/main/java/sk/antons/jdbc/util/SqlToHtml.java:97-143 | one turn of the row loop keeps the loop's invariant or finishes it |
| SqlHtml.SqlToHtml.Build | src/main/java/sk/antons/jdbc/util/SqlToHtml.java:58-161 | null sql gives "no sql"; the sql is cleaned and page reset when pagelen < 1; a non-select gives "no selext present"; a select gives the table and buffer of Rendered |
| SqlHtml.SqlToHtml.EmitTableHeader | src/main/java/sk/antons/jdbc/util/SqlToHtml.java:75-87 | the header field becomes HeaderOf, and its header row is appended |
| SqlHtml.SqlToHtml.EmitSelect | src/main/java/sk/antons/jdbc/util/SqlToHtml.java:69-151 | the opened table, then the query's failure text, or the header row and the page: the table, buffer and header of Rendered |
| SqlHtml.SqlToHtml.EmitPage | src/main/java/sk/antons/jdbc/util/SqlToHtml.java:89-148 | the table and buffer are PageOf for the page's window |
| SqlHtml.SqlToHtml.EmitWindow | src/main/java/sk/antons/jdbc/util/SqlToHtml.java:96-150 | a successful table holds the window's rows and the closing tag, and its size is the window's length; a null template list gives the NullPointerException's text after the first row's values |

## Left out

- I/O is not modelled. Reader exceptions, which `Script` turns into IllegalStateException,
  are left out.
- The JDBC driver is replaced by parameters: the query's answer for `Build`, and for `execute`
  the SQLException, if any, of each call on the connection and its statement. So are
  `System.currentTimeMillis()` and the delegated reflective call. `Proxy.newProxyInstance` is not
  modelled; a wrapped result is a new `Handler`.
- `Invocation.Handler.Invoke`: its `Err(outcome.error)` is what `invoke()` rethrows, the
  InvocationTargetException that `Method.invoke` raised (CommonHandler.java:51-58). It is not
  what the caller of a logged object receives. No JDBC interface method declares that
  exception, so the proxy wraps it in an UndeclaredThrowableException, and the driver's
  SQLException never reaches that caller directly. The proxy's wrapping is not modelled.
- The consumer is a list of lines. A consumer that throws is not modelled.
- `JdbcWrapper`, `Db`, `DriverManagerDataSource` and `LogDataSource` lie outside the modelled core.
- `Identities.java` is not part of this model. `Log.Identities` stands in for it, with one
  explicitly shared pair of counters and no concurrency.
- Integers are unbounded. The int/long overflow of `counter`, of the identity counters and of
  `page * pagelen` is not modelled.
- Dates and timestamps arrive as the formatted strings `SimpleDateFormat` would give. `formatDate` is not modelled.
- `SqlHtml.Fill` substitutes the last column first. With that order a label used twice takes the value of its last
  column, as the `HashMap` keyed by label does. The order in which `HashMap.entrySet()` visits the
  labels is not modelled; it matters only when one value contains another column's placeholder.
- Only two failures of `build()` inside the `try` are modelled: a failing query, and the
  NullPointerException of a null template list. A driver exception part-way through the rows is
  not modelled, and neither is the closing of the result set and statement in `finally`.
- `Text.Lower`: `toLowerCase()` is modelled for ASCII letters only.
- `String.trim()` and `Reader.read()` work on characters that Dafny can hold. Lone surrogates are not modelled.
- `main` is modelled only for its first script, one `next()` call at a time
  (`SampleFirst` … `SampleFourth`). The `FileReader` part is left out.
- `stream()`'s Spliterator is represented by the iterator it wraps.
- `CommonHandler.isFail()` is not used by any handler and is not modelled.
- `HandlerRules.Run`: a run of calls is modelled through one handler at a time. The handlers
  created along the way are stated by `Invocation.Handler.Invoke` but are not traced further.
- Three behaviours of the code are easy to miss, and the model states each of them:
  - The parameter buffer survives an execute made while the consumer is off
    (PreparedStatementHandler.java:56-77). Only an execute made while it is on clears the
    buffer (`HandlerRules.StaleBindings`).
  - `LogConfig.transaction()` sets `logTransaction` (LogConfig.java:78-81), but no handler ever
    reads it. commit and rollback are logged whenever the consumer is on
    (ConnectionHandler.java:59-65, `HandlerRules.TransactionLine`).
  - A result set's close() is logged whatever `resultSet(false)` says
    (ResultSetHandler.java:61-71, `HandlerRules.CloseLogs`). The result set flag decides only
    whether result sets are wrapped.
