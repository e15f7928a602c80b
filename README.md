# FileLogger formatter and per-category logger, modelled in Dafny

This project models two pieces of the FileLogger library, a log sink for
`Microsoft.Extensions.Logging`:

- **`LogMessage`** (FileLoggerLibrary/LogMessage.cs), the formatter. Its
  constructor builds the header `timestamp|LEVEL|[scope|]category|`. It
  decorates the message with ` [eventId]` and ` [exceptionMessage]`, or
  replaces an empty message with the exception text. It also keeps a padded
  copy of the message in which every continuation line is indented by the
  header's length, counted as C# counts it, in UTF-16 code units. `LogLevelToString` maps the seven levels to four-character
  codes. `ToString` is the header followed by the unpadded message.
- **`FileLogger`** (FileLoggerLibrary/FileLogger.cs), the per-category logger.
  Its constructor validates its arguments. `IsEnabled` is a gate on the
  provider's minimum level. The scope is a single slot: `BeginScope`
  overwrites it and disposing any `Scope` clears it. `Log` either drops the
  entry or appends exactly one formatted entry to the provider's queue.

Files:

- `wrappers.dfy`: `Option`, `Result` and `Outcome`, which stand for null
  references, thrown exceptions and `void` methods that may throw.
- `text.dfy`: the .NET string operations the formatter uses, written as
  functions with their own lemmas. They are ordinal `Contains`, ordinal
  `Replace("\r\n", "\n")` (a single left-to-right pass), `Split`, `Join`,
  `new String(' ', n)`, `String.Length` (UTF-16 code units), `Int32.ToString`
  and `IsNullOrWhiteSpace`.
- `log_level.dfy`: `LogLevel` as a 32-bit integer newtype with the seven
  named members Trace (0) to None (6). As with a C# enum, other values exist
  and levels compare by their integers.
- `log_message.dfy`: the `LogMessage` datatype and the formatter.
  `NewLogMessage` builds an entry step by step, as the constructor does. It is
  proved equal to the function `BuildLogMessage`. `PadMessage` overwrites
  the split lines in an array, as the source does. It is proved equal to the
  function `Padded`. The lemmas are stated about those functions.
- `file_logger.dfy`: the classes `FileLoggerProvider`, `FileLogger` and
  `Scope`. `FileLoggerProvider` is a stand-in holding only the minimum level
  and the queue that `EnqueueMessage` appends to. The file also has two
  example runs.

The clock reading (`DateTime.Now` formatted as text) and
`Environment.NewLine` are parameters. The formatter delegate is a total Dafny
function. An exception is represented by its `Message`, and a scope object by
its textual form.

Padding is applied unconditionally in `LogMessage.cs`. No multi-line or
indentation option is consulted there.

## Model

| member | source | states |
|---|---|---|
| `LogMessages.LogLevelToString` | FileLoggerLibrary/LogMessage.cs:58-73 | success exactly for the seven members, each code four characters without `|` or line feed, `None` gives four spaces, any other value throws `NotImplementedException` |
| `LogMessages.LevelCodesDistinct` | FileLoggerLibrary/LogMessage.cs:58-73 | two members with the same code are the same level |
| `LogMessages.HeaderText` | FileLoggerLibrary/LogMessage.cs:30-34 | header length is timestamp + code + category + 3, plus scope + 1 when a scope is active; the header starts with the timestamp and a `|` |
| `LogMessages.HeaderFields` | FileLoggerLibrary/LogMessage.cs:30-34 | read back at `|`, the header's fields are timestamp, code, scope (only when active), category and an empty last field, so the scope sits only between code and category |
| `LogMessages.HeaderLayout` | FileLoggerLibrary/LogMessage.cs:30-34 | a built entry's header is `timestamp|CODE|category|` without a scope, of length timestamp + category + 7, and `timestamp|CODE|scope|category|` with one |
| `LogMessages.EventIdSuffix` | FileLoggerLibrary/LogMessage.cs:36-39 | the suffix is empty exactly for event id 0 and never holds a line feed |
| `LogMessages.RenderMessage` | FileLoggerLibrary/LogMessage.cs:36-48 | without exception the message plus the event suffix; with an exception and a non-empty message, that plus ` [exceptionMessage]`; with an empty message, exactly the exception text, event suffix discarded |
| `LogMessages.RenderedLineFeeds` | FileLoggerLibrary/LogMessage.cs:36-48 | the decorations add no line: the line feeds of the result are those of the message and of the exception text it keeps |
| `Text.IntToDecimalRoundTrip` | FileLoggerLibrary/LogMessage.cs:38 | the rendered event id parses back to the event id |
| `Text.CrLfHasLineFeed` | FileLoggerLibrary/LogMessage.cs:86 | a message containing CRLF contains a line feed, so the test at this line is "has a line feed" |
| `Text.ReplaceCrLfFacts` | FileLoggerLibrary/LogMessage.cs:88 | normalising CRLF keeps every line feed, drops one character per replaced pair, and drops only carriage returns |
| `Text.Split` | FileLoggerLibrary/LogMessage.cs:88 | a split has one more piece than there are separators |
| `Text.SplitPiecesFree` | FileLoggerLibrary/LogMessage.cs:88 | no piece of a split contains the separator |
| `Text.JoinSplit` | FileLoggerLibrary/LogMessage.cs:88-95 | joining the pieces of a split with the separator gives back the string |
| `Text.SplitJoin` | FileLoggerLibrary/LogMessage.cs:88-95 | splitting a join of separator-free pieces gives back the pieces |
| `LogMessages.PadMessage` | FileLoggerLibrary/LogMessage.cs:82-103 | the in-place loop over the split lines returns exactly `Padded(header, message, newLine)`, whose indent is the header's length in UTF-16 code units |
| `LogMessages.PaddedWithoutLineFeed` | FileLoggerLibrary/LogMessage.cs:86-100 | a message without line feed (hence without CRLF) is returned unchanged |
| `LogMessages.FirstLineVerbatim` | FileLoggerLibrary/LogMessage.cs:88-92 | the first line is a verbatim prefix of the message, ends where its first LF or CRLF begins, and holds no line feed |
| `LogMessages.PaddedLines` | FileLoggerLibrary/LogMessage.cs:88-95 | for a multi-line message: line count is the number of line feeds plus one, the first line is kept, every later line is the normalised line behind exactly `Utf16Length(header)` spaces, the lines are joined by the newline string, and the lines rejoined by LF give back the normalised message |
| `LogMessages.PaddedUnixLines` | FileLoggerLibrary/LogMessage.cs:88-95 | with LF as newline, splitting the padded message at LF yields exactly the indented lines, so no line is lost or added |
| `LogMessages.PaddedLength` | FileLoggerLibrary/LogMessage.cs:88-95 | padded length in characters = message length - CRLF pairs + line feeds x (UTF-16 length of the header + newline length - 1) |
| `Text.Utf16Length` | FileLoggerLibrary/LogMessage.cs:92 | `header.Length` counts between one and two code units per character |
| `Text.Utf16LengthIsCount` | FileLoggerLibrary/LogMessage.cs:92 | the code-unit count equals the character count exactly when no character lies above U+FFFF |
| `Text.Utf16LengthConcat` | FileLoggerLibrary/LogMessage.cs:30-34 | the code-unit count of a concatenation is the sum of the parts' counts |
| `LogMessages.TwoLinePadded` | FileLoggerLibrary/LogMessage.cs:86-95 | `a\nb` is padded to `a`, a line feed, the header's UTF-16 length in spaces, then `b` |
| `LogMessages.SurrogatePairWidensIndent` | FileLoggerLibrary/LogMessage.cs:88-95 | with category U+1F4E6 and a BMP timestamp, the continuation line of `a\nb` is indented by one space more than the header has characters |
| `LogMessages.PaddedDiffersIffMultiline` | FileLoggerLibrary/LogMessage.cs:86-100 | for a header of three or more characters, the padded copy differs from the message exactly when the message has a line feed |
| `LogMessages.BuildLogMessage` | FileLoggerLibrary/LogMessage.cs:21-51 | fails with `NotImplementedException` exactly for a level outside the members; otherwise the entry keeps exception, level, category, event id, scope and timestamp, and its message, header and padded message are the rendered ones |
| `LogMessages.NewLogMessage` | FileLoggerLibrary/LogMessage.cs:21-51 | the step-by-step constructor yields exactly `BuildLogMessage` |
| `LogMessages.LogMessage.ToString` | FileLoggerLibrary/LogMessage.cs:105-108 | the line is the header followed by the message |
| `LogMessages.ToStringIsUnpadded` | FileLoggerLibrary/LogMessage.cs:105-108 | `ToString` is header + message; `PaddedMessage` is always the padded message; header + padded message equals `ToString` exactly for a one-line message |
| `LogMessages.PlainEntryExample` | FileLoggerLibrary/LogMessage.cs:21-51 | `boot ok` at Information in category App renders as `timestamp|INFO|App|boot ok` |
| `LogMessages.EventIdExample` | FileLoggerLibrary/LogMessage.cs:36-39 | with event id 42 the line ends `boot ok [42]` |
| `LogMessages.EmptyMessageExceptionExample` | FileLoggerLibrary/LogMessage.cs:45-48 | an exception `disk full` on an empty message gives the message `disk full`, once |
| `FileLoggers.CheckConstructorArguments` | FileLoggerLibrary/FileLogger.cs:35-45 | accepted exactly when the provider is non-null and the name is non-null with a non-white-space character; a null provider is reported first; the accepted name is kept unchanged |
| `FileLoggers.FileLogger.Create` | FileLoggerLibrary/FileLogger.cs:35-45 | returns the `ArgumentException` that `CheckConstructorArguments` reports, or returns a fresh logger holding the provider and the name, with no scope |
| `FileLoggers.FileLogger.constructor` | FileLoggerLibrary/FileLogger.cs:35-45 | stores provider and category name; the scope slot starts empty |
| `FileLoggers.FileLogger.IsEnabled` | FileLoggerLibrary/FileLogger.cs:52-55 | holds exactly when the level is at or above the provider's minimum; a minimum at or below `Trace` enables every named level, one above `None` enables none |
| `FileLoggers.FileLoggerProvider.EnqueueMessage` | FileLoggerLibrary/FileLogger.cs:88 | the entry is appended at the end of the queue, earlier entries unchanged |
| `FileLoggers.EnabledIsUpwardClosed` | FileLoggerLibrary/FileLogger.cs:52-55 | a level at or above an enabled level is enabled |
| `FileLoggers.FileLogger.BeginScope` | FileLoggerLibrary/FileLogger.cs:63-67 | returns a fresh scope for this logger; the slot now holds the new state, whatever it held before, and a null state clears it |
| `FileLoggers.Scope.constructor` | FileLoggerLibrary/FileLogger.cs:16-20 | sets the logger's scope slot to the state, null included |
| `FileLoggers.Scope.Dispose` | FileLoggerLibrary/FileLogger.cs:22-25 | clears the logger's scope slot unconditionally |
| `FileLoggers.FileLogger.Log` | FileLoggerLibrary/FileLogger.cs:79-89 | below the minimum level nothing changes; otherwise exactly one entry is appended, built with the category, level, event id, exception, formatter output and current scope, earlier entries unchanged, or the build's exception is returned and the queue is untouched; the scope is never changed; "every queued entry is at or above the minimum level" is preserved |
| `FileLoggers.RequestScopeExample` | FileLoggerLibrary/FileLogger.cs:79-89 | begin scope `req-7`, log, dispose, log: the first entry has scope `req-7` and header fields timestamp, `INFO`, `req-7`, `App`; the second has no scope and fields timestamp, `INFO`, `App` |
| `FileLoggers.OverwrittenScopeExample` | FileLoggerLibrary/FileLogger.cs:16-25 | a second scope overwrites the first; disposing the first afterwards still clears the slot, and disposing it twice is the same as once |

## Left out

- `DateTime.Now` and its `yyyy-MM-dd--HH.mm.ss` layout (LogMessage.cs line 28): the timestamp is a parameter.
- `Environment.NewLine` (LogMessage.cs line 95): the newline string is a parameter.
- Exceptions and scope objects are reduced to the text the formatter prints. A null `Exception.Message`, and a scope object whose `ToString()` is null, are not modelled.
- The source stores the scope object itself and calls its `ToString()` each time an entry is built (LogMessage.cs line 33), so a mutable scope object can render differently in different entries. The model fixes the scope's text once, when `BeginScope` is called.
- A null message from the formatter is not modelled: the message is always a string.
- `EventId` is reduced to its `Id`, an unbounded integer. Its `Name` is never read. Ids are rendered in the invariant culture: a `-` sign, then digits.
- `ArgumentNullException.ThrowIfNull(nameof(formatter))` (FileLogger.cs line 86): it checks the constant string "formatter", so it can never fail. It is not modelled.
- `FileLoggerProvider` is not part of this model beyond its minimum level and `EnqueueMessage` appending to a sequence. Its dispatcher, file writer, rotation, console output and shutdown drain are left out.
- Concurrency and the thread-safety of the scope slot: the model is sequential.
- FileLoggerLibrary/FileLoggerExtensions.cs is not part of this model. It only registers services and binds configuration.
- `BeginScope<TState>`: `where TState : notnull` is only a compile-time hint. The model takes the state as optional text, so a null state clears the slot as it does at run time. Only the state's textual form is kept.
