/** `LogMessage`: one formatted log entry. Its constructor builds the header
    `timestamp|LEVEL|[scope|]category|`, decorates the message with the event
    id and the exception, and computes an indented copy of multi-line
    messages. The clock reading and `Environment.NewLine` are parameters. */
module LogMessages {
  import opened Wrappers
  import opened Text
  import LogLevel

  /** The exceptions the logger's members throw. */
  datatype LoggerError = ArgumentException(message: string) | NotImplementedException

  /** The init-only properties of a constructed `LogMessage`. `exception` is
      the exception's `Message` (`None` for a null exception) and
      `scopeState` the scope object's textual form (`None` for null). */
  datatype LogMessage = LogMessage(
    message: string,
    exception: Option<string>,
    logLevel: LogLevel.Level,
    categoryName: string,
    eventId: int,
    timeStamp: string,
    header: string,
    paddedMessage: string,
    scopeState: Option<string>)
  {
    /** `ToString()`: the header followed by the message as decorated, not
        its padded copy. */
    function ToString(): (s: string)
      ensures |s| == |header| + |message|
      ensures s[..|header|] == header && s[|header|..] == message
    {
      header + message
    }
  }

  // ---------------------------------------------------------------------
  // Level codes
  // ---------------------------------------------------------------------

  /** `LogLevelToString`: the four-character code of a level; a value outside
      the seven members throws `NotImplementedException`. */
  function LogLevelToString(level: LogLevel.Level): (r: Result<string, LoggerError>)
    ensures r.Success? <==> LogLevel.IsDefined(level)
    ensures r.Failure? ==> r.error == NotImplementedException
    ensures r.Success? ==> |r.value| == 4 && '|' !in r.value && '\n' !in r.value
    ensures level == LogLevel.None ==> r == Success("    ")
  {
    if level == LogLevel.Trace then Success("TRCE")
    else if level == LogLevel.Warning then Success("WARN")
    else if level == LogLevel.Debug then Success("DBUG")
    else if level == LogLevel.Information then Success("INFO")
    else if level == LogLevel.Error then Success("ERRR")
    else if level == LogLevel.Critical then Success("CRIT")
    else if level == LogLevel.None then Success("    ")
    else Failure(NotImplementedException)
  }

  /** Distinct levels have distinct codes. */
  lemma LevelCodesDistinct(a: LogLevel.Level, b: LogLevel.Level)
    requires LogLevel.IsDefined(a) && LogLevel.IsDefined(b)
    requires LogLevelToString(a) == LogLevelToString(b)
    ensures a == b
  {
    assert LogLevel.Trace <= a <= LogLevel.None;
  }

  // ---------------------------------------------------------------------
  // Header
  // ---------------------------------------------------------------------

  /** The header: timestamp, level code and category, each followed by `|`,
      with the scope text and a `|` between the code and the category when
      a scope is active. */
  function HeaderText(timeStamp: string, levelCode: string, scopeState: Option<string>, categoryName: string): (h: string)
    ensures scopeState.None? ==> |h| == |timeStamp| + |levelCode| + |categoryName| + 3
    ensures scopeState.Some? ==> |h| == |timeStamp| + |levelCode| + |scopeState.value| + |categoryName| + 4
    ensures h[..|timeStamp|] == timeStamp && h[|timeStamp|] == '|'
  {
    match scopeState
    case None => timeStamp + "|" + levelCode + "|" + categoryName + "|"
    case Some(scope) => timeStamp + "|" + levelCode + "|" + scope + "|" + categoryName + "|"
  }

  /** Read back as `|`-separated fields, a header holds the timestamp, the
      code, the scope only when one is active, the category, and an empty
      last field: the scope never lands anywhere but between code and category. */
  lemma HeaderFields(timeStamp: string, levelCode: string, scopeState: Option<string>, categoryName: string)
    requires '|' !in timeStamp && '|' !in levelCode && '|' !in categoryName
    requires scopeState.Some? ==> '|' !in scopeState.value
    ensures scopeState.None? ==>
      Split(HeaderText(timeStamp, levelCode, scopeState, categoryName), '|') == [timeStamp, levelCode, categoryName, ""]
    ensures scopeState.Some? ==>
      Split(HeaderText(timeStamp, levelCode, scopeState, categoryName), '|') == [timeStamp, levelCode, scopeState.value, categoryName, ""]
  {
    SplitWithoutSeparator(timeStamp, '|');
    SplitTrailingPiece(timeStamp, '|', levelCode);
    var front := timeStamp + "|" + levelCode;
    if scopeState.Some? {
      SplitTrailingPiece(front, '|', scopeState.value);
      front := front + "|" + scopeState.value;
    }
    SplitTrailingPiece(front, '|', categoryName);
    SplitTrailingPiece(front + "|" + categoryName, '|', "");
    assert front + "|" + categoryName + "|" == front + "|" + categoryName + ['|'] + "";
  }

  // ---------------------------------------------------------------------
  // Message text
  // ---------------------------------------------------------------------

  /** ` [id]` for a non-zero event id, nothing for event id 0. */
  function EventIdSuffix(eventId: int): (s: string)
    ensures eventId == 0 <==> s == ""
    ensures '\n' !in s
  {
    if eventId != 0 then " [" + IntToDecimal(eventId) + "]" else ""
  }

  /** The decorated message. The test for an empty message looks at the
      formatter's output, not at the text decorated so far, so an exception
      with an empty message replaces the whole text, event id suffix included. */
  function RenderMessage(message: string, eventId: int, exception: Option<string>): (r: string)
    ensures exception.None? ==> r == message + EventIdSuffix(eventId)
    ensures exception.Some? && |message| > 0 ==> r == message + EventIdSuffix(eventId) + (" [" + exception.value + "]")
    ensures exception.Some? && |message| == 0 ==> r == exception.value
  {
    var withId := message + EventIdSuffix(eventId);
    if exception.Some? && |message| > 0 then withId + (" [" + exception.value + "]")
    else if exception.Some? && |message| == 0 then exception.value
    else withId
  }


  /** The decorations never add a line: the line feeds of the result are
      those of the message and of the exception text it keeps. */
  lemma RenderedLineFeeds(message: string, eventId: int, exception: Option<string>)
    ensures CountOf(RenderMessage(message, eventId, exception), '\n')
         == if exception.Some? && |message| == 0 then CountOf(exception.value, '\n')
            else CountOf(message, '\n') + (if exception.Some? then CountOf(exception.value, '\n') else 0)
  {
    var suffix := EventIdSuffix(eventId);
    assert CountOf(message + suffix, '\n') == CountOf(message, '\n') by {
      NoOccurrence(suffix, '\n');
      CountOfConcat(message, suffix, '\n');
    }
    if exception.Some? && |message| > 0 {
      var ex := exception.value;
      NoOccurrence(" [", '\n');
      NoOccurrence("]", '\n');
      CountOfConcat(" [", ex, '\n');
      CountOfConcat(" [" + ex, "]", '\n');
      CountOfConcat(message + suffix, " [" + ex + "]", '\n');
    }
  }


  // ---------------------------------------------------------------------
  // PadMessage
  // ---------------------------------------------------------------------

  /** The lines with every line after the first prefixed by `width` spaces. */
  function IndentContinuationLines(width: nat, lines: seq<string>): seq<string> {
    seq(|lines|, i requires 0 <= i < |lines| => if i == 0 then lines[0] else Spaces(width) + lines[i])
  }

  /** What `PadMessage` returns: a message containing a line break is
      normalised from CRLF to LF, split at LF, its continuation lines indented
      by the header's `Length`, counted in UTF-16 code units, and the lines
      joined with `newLine`; any other message is returned as it is. */
  function Padded(header: string, message: string, newLine: string): string {
    if ContainsSubstring(message, "\r\n") || '\n' in message then
      Join(newLine, IndentContinuationLines(Utf16Length(header), Split(ReplaceCrLf(message), '\n')))
    else message
  }

  /** `PadMessage`, overwriting the split lines in place as the source does. */
  method PadMessage(header: string, message: string, newLine: string) returns (result: string)
    ensures result == Padded(header, message, newLine)
  {
    if ContainsSubstring(message, "\r\n") || '\n' in message {
      var lines := Split(ReplaceCrLf(message), '\n');
      var splitMsg := new string[|lines|](i requires 0 <= i < |lines| => lines[i]);
      for i := 1 to splitMsg.Length
        invariant forall k :: 0 <= k < splitMsg.Length ==>
          splitMsg[k] == if 1 <= k < i then Spaces(Utf16Length(header)) + lines[k] else lines[k]
      {
        splitMsg[i] := Spaces(Utf16Length(header)) + splitMsg[i];
      }
      assert splitMsg[..] == IndentContinuationLines(Utf16Length(header), lines);
      result := Join(newLine, splitMsg[..]);
    } else {
      result := message;
    }
  }

  /** A message without a line feed (and so without CRLF) is not padded. */
  lemma PaddedWithoutLineFeed(header: string, message: string, newLine: string)
    requires '\n' !in message
    ensures Padded(header, message, newLine) == message
  {
    if ContainsSubstring(message, "\r\n") {
      CrLfHasLineFeed(message);
    }
  }

  /** The first line of the normalised message is a verbatim prefix of the
      message, ending where the message's first LF or CRLF begins. */
  lemma {:induction false} FirstLineVerbatim(message: string)
    requires '\n' in message
    ensures var first := Split(ReplaceCrLf(message), '\n')[0];
      |first| < |message| && message[..|first|] == first && '\n' !in first &&
      (message[|first|] == '\n' ||
       (|first| + 1 < |message| && message[|first|] == '\r' && message[|first| + 1] == '\n'))
    decreases |message|
  {
    var normal := ReplaceCrLf(message);
    if |message| >= 2 && message[0] == '\r' && message[1] == '\n' {
      assert normal[0] == '\n';
    } else if message[0] == '\n' {
      assert normal[0] == '\n';
    } else {
      var rest := message[1..];
      assert normal == [message[0]] + ReplaceCrLf(rest);
      assert normal[1..] == ReplaceCrLf(rest);
      FirstLineVerbatim(rest);
      var first' := Split(ReplaceCrLf(rest), '\n')[0];
      assert Split(normal, '\n')[0] == [message[0]] + first';
      assert message[..|first'| + 1] == [message[0]] + rest[..|first'|];
    }
  }

  /** The structure of a padded multi-line message: the line count is the
      number of LFs plus one, the first line is kept, every later line is the
      corresponding line of the normalised message behind exactly
      `Utf16Length(header)` spaces, the lines are joined by `newLine`, and the lines
      joined by LF give back the normalised message. */
  lemma PaddedLines(header: string, message: string, newLine: string)
    requires '\n' in message
    ensures var lines := Split(ReplaceCrLf(message), '\n');
      var padded := IndentContinuationLines(Utf16Length(header), lines);
      Padded(header, message, newLine) == Join(newLine, padded) &&
      |padded| == |lines| == CountOf(message, '\n') + 1 >= 2 &&
      |lines[0]| < |message| &&
      padded[0] == lines[0] == message[..|lines[0]|] &&
      (forall i :: 1 <= i < |lines| ==> padded[i] == Spaces(Utf16Length(header)) + lines[i]) &&
      Join("\n", lines) == ReplaceCrLf(message)
  {
    ReplaceCrLfFacts(message);
    FirstLineVerbatim(message);
    JoinSplit(ReplaceCrLf(message), '\n');
    PositiveCount(message, '\n');
  }


  /** With LF as the platform newline, splitting the padded message at LF
      gives back exactly the indented lines: it has as many lines as the
      message, and none of them is broken further. */
  lemma PaddedUnixLines(header: string, message: string)
    requires '\n' in message
    ensures Split(Padded(header, message, "\n"), '\n')
         == IndentContinuationLines(Utf16Length(header), Split(ReplaceCrLf(message), '\n'))
  {
    var lines := Split(ReplaceCrLf(message), '\n');
    var padded := IndentContinuationLines(Utf16Length(header), lines);
    SplitPiecesFree(ReplaceCrLf(message), '\n');
    forall i | 0 <= i < |padded| ensures '\n' !in padded[i] {
      if i > 0 {
        assert padded[i] == Spaces(Utf16Length(header)) + lines[i];
      }
    }
    SplitJoin(padded, '\n');
  }

  /** The two-line message `a\nb` is padded to `a`, a line feed, the
      header's UTF-16 length in spaces and `b`. */
  lemma TwoLinePadded(header: string)
    ensures Padded(header, "a\nb", "\n") == "a" + "\n" + Spaces(Utf16Length(header)) + "b"
  {
    var width := Utf16Length(header);
    assert ReplaceCrLf("b") == "b";
    assert ReplaceCrLf("\nb") == "\n" + ReplaceCrLf("b");
    assert ReplaceCrLf("a\nb") == "a\nb";
    assert "a\nb"[1..] == "\nb" && "\nb"[1..] == "b" && "b"[1..] == "";
    assert Split("b", '\n') == ["b"];
    assert Split("\nb", '\n') == ["", "b"];
    assert ['a'] + Split("\nb", '\n')[0] == "a";
    assert Split("a\nb", '\n') == ["a", "b"];
    var lines := IndentContinuationLines(width, ["a", "b"]);
    assert lines == ["a", Spaces(width) + "b"];
    assert '\n' in "a\nb";
    assert Join("\n", lines) == "a" + "\n" + (Spaces(width) + "b");
  }

  /** A header holding a character outside the Basic Multilingual Plane
      indents by one space more than it has characters, because `Length`
      counts that character as a surrogate pair. */
  lemma SurrogatePairWidensIndent(timeStamp: string)
    requires forall i :: 0 <= i < |timeStamp| ==> timeStamp[i] as int <= 0xFFFF
    ensures var header := timeStamp + "|INFO|\U{1F4E6}|";
      Utf16Length(header) == |header| + 1 &&
      Padded(header, "a\nb", "\n") == "a" + "\n" + Spaces(|header| + 1) + "b"
  {
    var header := timeStamp + "|INFO|\U{1F4E6}|";
    var tail := "|INFO|\U{1F4E6}|";
    assert tail[1..][1..][1..][1..][1..][1..] == "\U{1F4E6}|";
    assert Utf16Length("\U{1F4E6}|") == 3;
    assert Utf16Length(tail) == 9;
    Utf16LengthConcat(timeStamp, tail);
    Utf16LengthIsCount(timeStamp);
    TwoLinePadded(header);
  }

  /** Every line prefixed by `width` spaces adds `width` characters per line. */
  lemma {:induction false} PrefixedLength(width: nat, lines: seq<string>)
    ensures TotalLength(seq(|lines|, i requires 0 <= i < |lines| => Spaces(width) + lines[i]))
         == TotalLength(lines) + |lines| * width
    decreases |lines|
  {
    var prefixed := seq(|lines|, i requires 0 <= i < |lines| => Spaces(width) + lines[i]);
    if lines != [] {
      var rest := seq(|lines| - 1, i requires 0 <= i < |lines| - 1 => Spaces(width) + lines[1..][i]);
      PrefixedLength(width, lines[1..]);
      assert prefixed[1..] == rest;
      assert prefixed[0] == Spaces(width) + lines[0];
      assert TotalLength(prefixed) == width + |lines[0]| + TotalLength(rest);
      assert TotalLength(lines) == |lines[0]| + TotalLength(lines[1..]);
      assert |lines| * width == (|lines| - 1) * width + width;
    }
  }

  /** Indenting the continuation lines adds `width` characters per line
      after the first. */
  lemma IndentedLength(width: nat, lines: seq<string>)
    requires |lines| >= 1
    ensures TotalLength(IndentContinuationLines(width, lines)) == TotalLength(lines) + (|lines| - 1) * width
  {
    var indented := IndentContinuationLines(width, lines);
    assert indented[1..] == seq(|lines| - 1, i requires 0 <= i < |lines| - 1 => Spaces(width) + lines[1..][i]);
    PrefixedLength(width, lines[1..]);
  }

  /** Joining the lines of `normal`, each after the first indented by `width`
      spaces, turns every line feed into the newline string followed by
      `width` spaces. */
  lemma IndentedJoinLength(width: nat, normal: string, newLine: string)
    ensures |Join(newLine, IndentContinuationLines(width, Split(normal, '\n')))|
         == |normal| + CountOf(normal, '\n') * (width + |newLine| - 1)
  {
    var lines := Split(normal, '\n');
    var breaks := CountOf(normal, '\n');
    SplitLength(normal, '\n');
    IndentedLength(width, lines);
    JoinLength(newLine, IndentContinuationLines(width, lines));
    assert |lines| - 1 == breaks;
    assert breaks * width + breaks * |newLine| - breaks == breaks * (width + |newLine| - 1);
  }

  /** The length of a padded multi-line message: every CRLF loses its CR, and
      every line break becomes the newline string followed by
      `Utf16Length(header)` spaces. */
  lemma PaddedLength(header: string, message: string, newLine: string)
    requires '\n' in message
    ensures |Padded(header, message, newLine)|
         == |message| - CountCrLf(message) + CountOf(message, '\n') * (Utf16Length(header) + |newLine| - 1)
  {
    var width := Utf16Length(header);
    var normal := ReplaceCrLf(message);
    var breaks := CountOf(message, '\n');
    ReplaceCrLfFacts(message);
    IndentedJoinLength(width, normal, newLine);
    assert |Padded(header, message, newLine)| == |normal| + breaks * (width + |newLine| - 1);
  }

  /** The padded copy differs from the message exactly when the message has
      more than one line, as long as the header is at least three characters
      long (every built header is at least seven). */
  lemma PaddedDiffersIffMultiline(header: string, message: string, newLine: string)
    requires |header| >= 3
    ensures Padded(header, message, newLine) != message <==> '\n' in message
  {
    if '\n' in message {
      PaddedLength(header, message, newLine);
      ReplaceCrLfFacts(message);
      PositiveCount(message, '\n');
      GrowthExceedsLoss(CountCrLf(message), CountOf(message, '\n'), Utf16Length(header) + |newLine| - 1);
    } else {
      PaddedWithoutLineFeed(header, message, newLine);
    }
  }

  /** Arithmetic step of `PaddedDiffersIffMultiline`: `breaks` line breaks
      that each grow by `growth >= 2` characters outweigh the `lost <= breaks`
      carriage returns. */
  lemma {:induction false} GrowthExceedsLoss(lost: nat, breaks: nat, growth: int)
    requires 1 <= breaks && lost <= breaks && growth >= 2
    ensures breaks * growth > lost
    decreases breaks
  {
    if breaks > 1 {
      GrowthExceedsLoss(if lost > 0 then lost - 1 else 0, breaks - 1, growth);
      assert breaks * growth == (breaks - 1) * growth + growth;
    }
  }

  /** `ToString` uses the decorated message, not its padded copy: the two
      renderings agree exactly when the message is on one line. */
  lemma ToStringIsUnpadded(m: LogMessage, message: string, exception: Option<string>, logLevel: LogLevel.Level,
                           categoryName: string, eventId: int, scopeState: Option<string>,
                           timeStamp: string, newLine: string)
    requires BuildLogMessage(message, exception, logLevel, categoryName, eventId, scopeState, timeStamp, newLine) == Success(m)
    ensures m.ToString() == m.header + m.message
    ensures m.paddedMessage == Padded(m.header, m.message, newLine)
    ensures m.ToString() == m.header + m.paddedMessage <==> '\n' !in m.message
  {
    PaddedDiffersIffMultiline(m.header, m.message, newLine);
    if m.ToString() == m.header + m.paddedMessage {
      assert m.paddedMessage == (m.header + m.paddedMessage)[|m.header|..];
    }
  }

  // ---------------------------------------------------------------------
  // The constructor
  // ---------------------------------------------------------------------

  /** The entry the constructor builds, or the exception it throws. */
  function BuildLogMessage(message: string, exception: Option<string>, logLevel: LogLevel.Level,
                           categoryName: string, eventId: int, scopeState: Option<string>,
                           timeStamp: string, newLine: string): (r: Result<LogMessage, LoggerError>)
    ensures r.Failure? <==> !LogLevel.IsDefined(logLevel)
    ensures r.Failure? ==> r.error == NotImplementedException
    ensures r.Success? ==>
      var m := r.value;
      m.exception == exception && m.logLevel == logLevel && m.categoryName == categoryName &&
      m.eventId == eventId && m.scopeState == scopeState && m.timeStamp == timeStamp &&
      m.message == RenderMessage(message, eventId, exception) &&
      m.header == HeaderText(timeStamp, LogLevelToString(logLevel).value, scopeState, categoryName) &&
      m.paddedMessage == Padded(m.header, m.message, newLine)
  {
    match LogLevelToString(logLevel)
    case Failure(e) => Failure(e)
    case Success(code) =>
      var header := HeaderText(timeStamp, code, scopeState, categoryName);
      var text := RenderMessage(message, eventId, exception);
      Success(LogMessage(text, exception, logLevel, categoryName, eventId, timeStamp,
                         header, Padded(header, text, newLine), scopeState))
  }

  /** The constructor, building the header and the message step by step. */
  method NewLogMessage(message: string, exception: Option<string>, logLevel: LogLevel.Level,
                       categoryName: string, eventId: int, scopeState: Option<string>,
                       timeStamp: string, newLine: string) returns (r: Result<LogMessage, LoggerError>)
    ensures r == BuildLogMessage(message, exception, logLevel, categoryName, eventId, scopeState, timeStamp, newLine)
  {
    var code := LogLevelToString(logLevel);
    if code.Failure? {
      return Failure(code.error);
    }
    var header := timeStamp + "|" + code.value + "|" + categoryName + "|";
    if scopeState.Some? {
      header := timeStamp + "|" + code.value + "|" + scopeState.value + "|" + categoryName + "|";
    }
    var text := message;
    if eventId != 0 {
      text := text + (" [" + IntToDecimal(eventId) + "]");
    }
    assert text == message + EventIdSuffix(eventId);
    if exception.Some? && |message| > 0 {
      text := text + (" [" + exception.value + "]");
    } else if exception.Some? && |message| == 0 {
      text := exception.value;
    }
    assert header == HeaderText(timeStamp, code.value, scopeState, categoryName);
    assert text == RenderMessage(message, eventId, exception);
    var padded := PadMessage(header, text, newLine);
    r := Success(LogMessage(text, exception, logLevel, categoryName, eventId, timeStamp,
                            header, padded, scopeState));
  }

  /** With no scope the header is `timestamp|CODE|category|`, seven characters
      longer than timestamp and category together; with a scope, the scope
      and one more separator come in before the category. */
  lemma HeaderLayout(m: LogMessage, message: string, exception: Option<string>, logLevel: LogLevel.Level,
                     categoryName: string, eventId: int, scopeState: Option<string>,
                     timeStamp: string, newLine: string)
    requires BuildLogMessage(message, exception, logLevel, categoryName, eventId, scopeState, timeStamp, newLine) == Success(m)
    ensures scopeState.None? ==> m.header == timeStamp + "|" + LogLevelToString(logLevel).value + "|" + categoryName + "|"
    ensures scopeState.None? ==> |m.header| == |timeStamp| + |categoryName| + 7
    ensures scopeState.Some? ==> m.header == timeStamp + "|" + LogLevelToString(logLevel).value + "|" + scopeState.value + "|" + categoryName + "|"
    ensures scopeState.Some? ==> |m.header| == |timeStamp| + |scopeState.value| + |categoryName| + 8
  {
  }

  /** The line `ToString` gives for an `Information` entry of category `App`
      without a scope. */
  lemma InfoAppLine(m: LogMessage, timeStamp: string, text: string)
    requires m.header == HeaderText(timeStamp, "INFO", None, "App") && m.message == text
    ensures m.ToString() == timeStamp + "|INFO|App|" + text
  {
    assert HeaderText(timeStamp, "INFO", None, "App") == timeStamp + "|" + "INFO" + "|" + "App" + "|";
  }

  /** The message of the event-id example. */
  lemma EventId42Message()
    ensures RenderMessage("boot ok", 42, None) == "boot ok [42]"
  {
    assert IntToDecimal(42) == "42" by {
      assert NatToDecimal(42) == NatToDecimal(4) + [DigitChar(2)];
    }
  }

  /** End-to-end example: a plain entry renders as `timestamp|INFO|App|boot ok`. */
  lemma PlainEntryExample(timeStamp: string, newLine: string)
    ensures var r := BuildLogMessage("boot ok", None, LogLevel.Information, "App", 0, None, timeStamp, newLine);
      r.Success? && r.value.ToString() == timeStamp + "|INFO|App|" + "boot ok"
  {
    var r := BuildLogMessage("boot ok", None, LogLevel.Information, "App", 0, None, timeStamp, newLine);
    assert LogLevelToString(LogLevel.Information) == Success("INFO");
    InfoAppLine(r.value, timeStamp, "boot ok");
  }

  /** End-to-end example: event id 42 appends ` [42]`. */
  lemma EventIdExample(timeStamp: string, newLine: string)
    ensures var r := BuildLogMessage("boot ok", None, LogLevel.Information, "App", 42, None, timeStamp, newLine);
      r.Success? && r.value.ToString() == timeStamp + "|INFO|App|" + "boot ok [42]"
  {
    var r := BuildLogMessage("boot ok", None, LogLevel.Information, "App", 42, None, timeStamp, newLine);
    assert LogLevelToString(LogLevel.Information) == Success("INFO");
    EventId42Message();
    InfoAppLine(r.value, timeStamp, "boot ok [42]");
  }

  /** End-to-end example: an exception on an empty message becomes the
      message, verbatim and only once. */
  lemma EmptyMessageExceptionExample(timeStamp: string, newLine: string)
    ensures var r := BuildLogMessage("", Some("disk full"), LogLevel.Information, "App", 0, None, timeStamp, newLine);
      r.Success? && r.value.message == "disk full" && r.value.ToString() == timeStamp + "|INFO|App|" + "disk full"
  {
    var r := BuildLogMessage("", Some("disk full"), LogLevel.Information, "App", 0, None, timeStamp, newLine);
    assert LogLevelToString(LogLevel.Information) == Success("INFO");
    InfoAppLine(r.value, timeStamp, "disk full");
  }
}
