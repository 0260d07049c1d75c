/** The logging configuration (package sk.antons.jdbc.log): where lines go, whether logging is
    on, and which kinds of objects are logged. */
module Log {
  import HandlerRules

  /** Consumer: receives each finished log line. The sink is modelled by the lines it got. */
  class Consumer {
    var lines: seq<string>

    constructor ()
      ensures lines == []
    {
      lines := [];
    }

    /** consume(message): the line is added after every earlier one. */
    method Consume(line: string)
      modifies this
      ensures lines == old(lines) + [line]
    {
      lines := lines + [line];
    }
  }

  /** ConsumerStatus: whether logging is on, asked anew at every hook. */
  class ConsumerStatus {
    var on: bool

    constructor (on: bool)
      ensures this.on == on
    {
      this.on := on;
    }

    function IsConsumerOn(): bool
      reads this
    {
      on
    }
  }

  /** LogConfig: the consumer and its status, and three flags that all start out true. */
  class LogConfig {
    const consumer: Consumer
    const consumerStatus: ConsumerStatus
    var logStatement: bool
    var logResultSet: bool
    var logTransaction: bool

    /** A new configuration keeps the given status and consumer and logs everything. */
    constructor (consumerStatus: ConsumerStatus, consumer: Consumer)
      ensures this.consumer == consumer && this.consumerStatus == consumerStatus
      ensures logStatement && logResultSet && logTransaction
    {
      this.consumer := consumer;
      this.consumerStatus := consumerStatus;
      logStatement := true;
      logResultSet := true;
      logTransaction := true;
    }

    /** statement(log): sets only the statement flag and returns the same configuration. */
    method Statement(log: bool) returns (r: LogConfig)
      modifies this
      ensures r == this
      ensures logStatement == log
      ensures logResultSet == old(logResultSet) && logTransaction == old(logTransaction)
    {
      logStatement := log;
      r := this;
    }

    /** resultSet(log): sets only the result set flag and returns the same configuration. */
    method ResultSet(log: bool) returns (r: LogConfig)
      modifies this
      ensures r == this
      ensures logResultSet == log
      ensures logStatement == old(logStatement) && logTransaction == old(logTransaction)
    {
      logResultSet := log;
      r := this;
    }

    /** transaction(log): sets only the transaction flag and returns the same configuration. */
    method Transaction(log: bool) returns (r: LogConfig)
      modifies this
      ensures r == this
      ensures logTransaction == log
      ensures logStatement == old(logStatement) && logResultSet == old(logResultSet)
    {
      logTransaction := log;
      r := this;
    }

    function LogStatement(): bool
      reads this
    {
      logStatement
    }

    function LogTransaction(): bool
      reads this
    {
      logTransaction
    }

    /** logResult() answers with the result set flag. */
    function LogResult(): bool
      reads this
    {
      logResultSet
    }

    /** What a hook learns from the configuration during a call. */
    function Settings(): (s: HandlerRules.Settings)
      reads this, consumerStatus
      ensures s.on == consumerStatus.IsConsumerOn()
      ensures s.logStatement == LogStatement() && s.logResult == LogResult()
    {
      HandlerRules.Settings(consumerStatus.IsConsumerOn(), LogStatement(), LogResult())
    }
  }

  /** Identities: the process-wide counters behind nextConnection() and nextStatement(). */
  class Identities {
    var connection: int
    var statement: int
    /** The identities handed out so far. */
    ghost var connections: set<int>
    ghost var statements: set<int>

    constructor ()
      ensures connection == 0 && statement == 0 && connections == {} && statements == {}
    {
      connection := 0;
      statement := 0;
      connections := {};
      statements := {};
    }

    /** Every identity handed out is positive and at most its counter. */
    ghost predicate Valid()
      reads this
    {
      connection >= 0 && statement >= 0
      && (forall id :: id in connections ==> 0 < id <= connection)
      && (forall id :: id in statements ==> 0 < id <= statement)
    }

    /** A connection identity never handed out before, and positive. */
    method NextConnection() returns (id: int)
      requires Valid()
      modifies this
      ensures Valid()
      ensures id == old(connection) + 1 && connection == id && statement == old(statement)
      ensures id > 0 && id !in old(connections)
      ensures connections == old(connections) + {id} && statements == old(statements)
    {
      connection := connection + 1;
      id := connection;
      connections := connections + {id};
    }

    /** A statement identity never handed out before, and positive. */
    method NextStatement() returns (id: int)
      requires Valid()
      modifies this
      ensures Valid()
      ensures id == old(statement) + 1 && statement == id && connection == old(connection)
      ensures id > 0 && id !in old(statements)
      ensures statements == old(statements) + {id} && connections == old(connections)
    {
      statement := statement + 1;
      id := statement;
      statements := statements + {id};
    }
  }
}
