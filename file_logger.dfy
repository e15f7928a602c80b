/** `FileLogger`: the per-category logger. It gates entries by the provider's
    minimum level, remembers one ambient scope value (a single slot, not a
    stack), and hands every accepted entry, formatted, to the provider's
    queue. */
module FileLoggers {
  import opened Wrappers
  import opened Text
  import LogLevel
  import opened LogMessages

  /** The part of `FileLoggerProvider` a logger sees: its minimum level and
      the queue `EnqueueMessage` appends to. */
  class FileLoggerProvider {
    const logMinLevel: LogLevel.Level
    var queue: seq<LogMessage>

    constructor (logMinLevel: LogLevel.Level)
      ensures this.logMinLevel == logMinLevel && queue == []
    {
      this.logMinLevel := logMinLevel;
      queue := [];
    }

    method EnqueueMessage(message: LogMessage)
      modifies this
      ensures queue == old(queue) + [message]
    {
      queue := queue + [message];
    }

    /** Every queued entry is at or above the minimum level. */
    ghost predicate Filtered()
      reads this
    {
      forall i :: 0 <= i < |queue| ==> queue[i].logLevel >= logMinLevel
    }
  }

  /** The checks of the `FileLogger` constructor, in its order: a null
      provider first, then a null, empty or all-white-space category name.
      On success the category name is kept as given. */
  function CheckConstructorArguments(providerIsNull: bool, categoryName: Option<string>): (r: Result<string, LoggerError>)
    ensures r.Success? <==> !providerIsNull && categoryName.Some? &&
                            exists i :: 0 <= i < |categoryName.value| && !IsWhiteSpace(categoryName.value[i])
    ensures r.Success? ==> r.value == categoryName.value
    ensures providerIsNull ==> r == Failure(ArgumentException("Log provider must not be NULL"))
    ensures !providerIsNull && r.Failure? ==> r == Failure(ArgumentException("Log name must not be NULL or empty"))
  {
    if providerIsNull then Failure(ArgumentException("Log provider must not be NULL"))
    else if IsNullOrWhiteSpace(categoryName) then Failure(ArgumentException("Log name must not be NULL or empty"))
    else Success(categoryName.value)
  }

  class FileLogger {
    const fileLoggerProvider: FileLoggerProvider
    const categoryName: string
    var currentScopeState: Option<string>

    constructor (fileLoggerProvider: FileLoggerProvider, categoryName: string)
      requires !IsNullOrWhiteSpace(Some(categoryName))
      ensures this.fileLoggerProvider == fileLoggerProvider && this.categoryName == categoryName
      ensures currentScopeState == None
    {
      this.fileLoggerProvider := fileLoggerProvider;
      this.categoryName := categoryName;
      currentScopeState := None;
    }

    /** `new FileLogger(provider, categoryName)`, with the `ArgumentException`
        it throws as a `Failure`; `null` is `None` for the name. */
    static method Create(provider: FileLoggerProvider?, categoryName: Option<string>) returns (r: Result<FileLogger, LoggerError>)
      ensures var check := CheckConstructorArguments(provider == null, categoryName);
        (check.Failure? ==> r == Failure(check.error)) &&
        (check.Success? ==> r.Success? && fresh(r.value) && r.value.fileLoggerProvider == provider &&
                            r.value.categoryName == check.value && r.value.currentScopeState == None)
    {
      var check := CheckConstructorArguments(provider == null, categoryName);
      if check.Failure? {
        return Failure(check.error);
      }
      var logger := new FileLogger(provider, check.value);
      r := Success(logger);
    }

    /** `IsEnabled`: the level is at or above the provider's minimum. A
        minimum at or below `Trace` enables every named level, and a minimum
        above `None` enables none of them. */
    predicate IsEnabled(logLevel: LogLevel.Level): (enabled: bool)
      ensures enabled <==> fileLoggerProvider.logMinLevel <= logLevel
      ensures fileLoggerProvider.logMinLevel <= LogLevel.Trace && LogLevel.IsDefined(logLevel) ==> enabled
      ensures fileLoggerProvider.logMinLevel > LogLevel.None && LogLevel.IsDefined(logLevel) ==> !enabled
    {
      logLevel >= fileLoggerProvider.logMinLevel
    }

    /** `BeginScope`: the new scope overwrites whatever scope value was active;
        a null state (`None`) clears it, as `Dispose` does. */
    method BeginScope(state: Option<string>) returns (scope: Scope)
      modifies this
      ensures fresh(scope) && scope.fileLogger == this
      ensures currentScopeState == state
    {
      scope := new Scope(this, state);
    }

    /** `Log`: below the minimum level nothing happens; otherwise the formatter
        runs and exactly one entry, carrying the current scope value, is
        appended to the provider's queue, unless building it throws (a level
        outside the enum's members), in which case nothing is appended. */
    method Log<TState>(logLevel: LogLevel.Level, eventId: int, state: TState, exception: Option<string>,
                       formatter: (TState, Option<string>) -> string, timeStamp: string, newLine: string)
      returns (outcome: Outcome<LoggerError>)
      modifies fileLoggerProvider
      ensures currentScopeState == old(currentScopeState)
      ensures !IsEnabled(logLevel) ==> outcome == Pass && fileLoggerProvider.queue == old(fileLoggerProvider.queue)
      ensures IsEnabled(logLevel) ==>
        var built := BuildLogMessage(formatter(state, exception), exception, logLevel, categoryName, eventId,
                                     currentScopeState, timeStamp, newLine);
        (built.Success? ==> outcome == Pass && fileLoggerProvider.queue == old(fileLoggerProvider.queue) + [built.value]) &&
        (built.Failure? ==> outcome == Fail(built.error) && fileLoggerProvider.queue == old(fileLoggerProvider.queue))
      ensures IsEnabled(logLevel) && LogLevel.IsDefined(logLevel) ==>
        var queue := fileLoggerProvider.queue;
        |queue| == |old(fileLoggerProvider.queue)| + 1 && queue[..|queue| - 1] == old(fileLoggerProvider.queue) &&
        queue[|queue| - 1].categoryName == categoryName && queue[|queue| - 1].logLevel == logLevel &&
        queue[|queue| - 1].eventId == eventId && queue[|queue| - 1].exception == exception &&
        queue[|queue| - 1].scopeState == currentScopeState &&
        queue[|queue| - 1].message == RenderMessage(formatter(state, exception), eventId, exception)
      ensures old(fileLoggerProvider.Filtered()) ==> fileLoggerProvider.Filtered()
    {
      if IsEnabled(logLevel) == false {
        return Pass;
      }
      var message := formatter(state, exception);
      var built := NewLogMessage(message, exception, logLevel, categoryName, eventId, currentScopeState, timeStamp, newLine);
      if built.Failure? {
        return Fail(built.error);
      }
      fileLoggerProvider.EnqueueMessage(built.value);
      outcome := Pass;
    }
  }

  /** The handle `BeginScope` returns. */
  class Scope {
    const fileLogger: FileLogger

    constructor (fileLogger: FileLogger, state: Option<string>)
      modifies fileLogger
      ensures this.fileLogger == fileLogger
      ensures fileLogger.currentScopeState == state
    {
      this.fileLogger := fileLogger;
      new;
      fileLogger.currentScopeState := state;
    }

    /** `Dispose`: clears the logger's scope slot, whichever scope set it. */
    method Dispose()
      modifies fileLogger
      ensures fileLogger.currentScopeState == None
    {
      fileLogger.currentScopeState := None;
    }
  }

  /** A level at or above an enabled one is enabled. */
  lemma EnabledIsUpwardClosed(logger: FileLogger, lower: LogLevel.Level, higher: LogLevel.Level)
    requires lower <= higher && logger.IsEnabled(lower)
    ensures logger.IsEnabled(higher)
  {
  }

  function Echo(state: string, exception: Option<string>): string {
    state
  }

  /** The entry `Log(Information, 0, "boot ok", null, Echo)` builds on the
      logger of category `App` while `scope` is the scope value. */
  lemma BootEntry(timeStamp: string, newLine: string, scope: Option<string>)
    ensures var r := BuildLogMessage("boot ok", None, LogLevel.Information, "App", 0, scope, timeStamp, newLine);
      r.Success? && r.value.scopeState == scope && r.value.header == HeaderText(timeStamp, "INFO", scope, "App")
  {
    assert LogLevelToString(LogLevel.Information) == Success("INFO");
  }

  /** A fresh logger of category `App` on a provider that accepts every level. */
  method NewAppLogger() returns (logger: FileLogger)
    ensures fresh(logger) && fresh(logger.fileLoggerProvider)
    ensures logger.categoryName == "App" && logger.currentScopeState == None
    ensures logger.fileLoggerProvider.logMinLevel == LogLevel.Trace && logger.fileLoggerProvider.queue == []
  {
    var provider := new FileLoggerProvider(LogLevel.Trace);
    assert "App"[0] == 'A' && !IsWhiteSpace('A');
    logger := new FileLogger(provider, "App");
  }

  /** Begin the scope "req-7", log, dispose the scope, log again: the first
      entry carries the scope and its header holds `req-7` as a field between
      the level code and the category; the second has no scope field at all. */
  method RequestScopeExample(timeStamp1: string, timeStamp2: string, newLine: string)
    returns (first: LogMessage, second: LogMessage)
    ensures first.scopeState == Some("req-7") && second.scopeState == None
    ensures first.header == HeaderText(timeStamp1, "INFO", Some("req-7"), "App")
    ensures second.header == HeaderText(timeStamp2, "INFO", None, "App")
    ensures '|' !in timeStamp1 ==> Split(first.header, '|') == [timeStamp1, "INFO", "req-7", "App", ""]
    ensures '|' !in timeStamp2 ==> Split(second.header, '|') == [timeStamp2, "INFO", "App", ""]
  {
    var logger := NewAppLogger();
    var provider := logger.fileLoggerProvider;
    var scope := logger.BeginScope(Some("req-7"));
    BootEntry(timeStamp1, newLine, Some("req-7"));
    var outcome1 := logger.Log(LogLevel.Information, 0, "boot ok", None, Echo, timeStamp1, newLine);
    first := provider.queue[0];
    assert first == BuildLogMessage("boot ok", None, LogLevel.Information, "App", 0, Some("req-7"), timeStamp1, newLine).value;
    scope.Dispose();
    BootEntry(timeStamp2, newLine, None);
    var outcome2 := logger.Log(LogLevel.Information, 0, "boot ok", None, Echo, timeStamp2, newLine);
    second := provider.queue[1];
    assert second == BuildLogMessage("boot ok", None, LogLevel.Information, "App", 0, None, timeStamp2, newLine).value;
    if '|' !in timeStamp1 {
      HeaderFields(timeStamp1, "INFO", Some("req-7"), "App");
    }
    if '|' !in timeStamp2 {
      HeaderFields(timeStamp2, "INFO", None, "App");
    }
  }

  /** Scopes do not nest: a second `BeginScope` overwrites the first, and
      disposing the first scope afterwards clears the slot anyway; disposing
      again leaves it cleared. */
  method OverwrittenScopeExample(outer: string, inner: string)
    returns (afterInner: Option<string>, afterOuterDispose: Option<string>, afterSecondDispose: Option<string>)
    ensures afterInner == Some(inner)
    ensures afterOuterDispose == None && afterSecondDispose == None
  {
    var logger := NewAppLogger();
    var outerScope := logger.BeginScope(Some(outer));
    var innerScope := logger.BeginScope(Some(inner));
    afterInner := logger.currentScopeState;
    outerScope.Dispose();
    afterOuterDispose := logger.currentScopeState;
    outerScope.Dispose();
    afterSecondDispose := logger.currentScopeState;
  }
}
