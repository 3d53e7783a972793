/** The logger of rdiff-backup: verbosity thresholds that route each message
    to the log file and/or the terminal, the two-field verbosity state driven
    by the `termverbset` flag, and the error log that records one line per
    recoverable error. Output streams and files are modelled as the sequences
    of strings written to them. */
module Log {
  import opened Common
  import opened Numerals

  const Error: int := 1
  const Warning: int := 2
  const Note: int := 3
  const Info: int := 5
  const Debug: int := 8
  /** From this verbosity on, `_format` prefixes a timestamp, role and pid. */
  const Timestamped: int := 9

  datatype Stream = Stdout | Stderr

  /** What `__call__` can be handed: a string, a function producing the
      string (represented by what it returns), or anything else. */
  datatype Message = Text(text: string) | Producer(produces: string) | NotLoggable

  function MessageText(m: Message): string
  {
    match m
    case Text(s) => s
    case Producer(s) => s
    case NotLoggable => ""
  }

  /** The TypeError of `__call__`. */
  datatype LogError = NotText

  /** `log_to_term`'s choice of stream: errors and warnings, and everything a
      server prints, go to stderr. */
  function TermStream(level: int, isServer: bool): (s: Stream)
    ensures s == Stderr <==> level <= Warning || isServer
  {
    if level <= Warning || isServer then Stderr else Stdout
  }

  /** `_format(message, verbosity)`; the clock reading and the process id are
      parameters. */
  function Format(message: string, verbosity: int, timestamp: string, isServer: bool, pid: int): (r: string)
    ensures verbosity < Timestamped ==> r == message + "\n"
    ensures verbosity >= Timestamped ==> |r| > |timestamp| + |message| && r[..|timestamp|] == timestamp
    ensures |r| > |message| && r[|r| - |message| - 1..] == message + "\n"
  {
    var line := message + "\n";
    if verbosity < Timestamped then
      Halves([], line);
      line
    else
      var role := if isServer then "SERVER" else "CLIENT";
      var stamp := "  <" + role + "-" + IntToDecimal(pid) + ">  ";
      Halves(timestamp, stamp + line);
      Halves(timestamp + stamp, line);
      ConcatAssoc(timestamp, stamp, line);
      timestamp + (stamp + line)
  }

  /** The verbosity state: `verbosity`, `term_verbosity` and `termverbset`. */
  datatype Levels = Levels(verbosity: int, termVerbosity: int, termVerbSet: bool)

  /** A call of `setverbosity` or `setterm_verbosity` with its string argument. */
  datatype Setting = VerbosityArg(arg: string) | TermVerbosityArg(arg: string)

  function VerbosityMessage(arg: string): string
  {
    "Verbosity must be a number, received '" + arg + "' instead."
  }

  function TermVerbosityMessage(arg: string): string
  {
    "Terminal verbosity must be a number, received '" + arg + "' instead."
  }

  /** One setter call: the new state, or the message of the fatal error that
      ends the process when the argument is not a number. */
  function Apply(l: Levels, s: Setting): Result<Levels, string>
  {
    match ParseInt(s.arg)
    case None =>
      Err(if s.VerbosityArg? then VerbosityMessage(s.arg) else TermVerbosityMessage(s.arg))
    case Some(n) =>
      if s.VerbosityArg? then
        Ok(Levels(n, if l.termVerbSet then l.termVerbosity else n, l.termVerbSet))
      else
        Ok(Levels(l.verbosity, n, true))
  }

  /** Setter calls one after the other; the first fatal error ends the run. */
  function ApplyAll(l: Levels, settings: seq<Setting>): Result<Levels, string>
    decreases |settings|
  {
    if settings == [] then Ok(l)
    else match Apply(l, settings[0])
      case Err(e) => Err(e)
      case Ok(next) => ApplyAll(next, settings[1..])
  }

  /** A run of setters fails exactly when one of its arguments is not a number. */
  lemma {:induction false} ApplyAllFails(l: Levels, settings: seq<Setting>)
    ensures ApplyAll(l, settings).Err? <==>
      exists i :: 0 <= i < |settings| && ParseInt(settings[i].arg).None?
    decreases |settings|
  {
    if settings != [] {
      if ParseInt(settings[0].arg).Some? {
        ApplyAllFails(Apply(l, settings[0]).value, settings[1..]);
        assert forall i :: 1 <= i < |settings| ==> settings[i] == settings[1..][i - 1];
      }
    }
  }

  /** `termverbset` is on after a run iff it was on before or the run
      called `setterm_verbosity`. */
  lemma {:induction false} TermVerbositySetFlag(l: Levels, settings: seq<Setting>)
    requires ApplyAll(l, settings).Ok?
    ensures ApplyAll(l, settings).value.termVerbSet <==>
      l.termVerbSet || exists i :: 0 <= i < |settings| && settings[i].TermVerbosityArg?
    decreases |settings|
  {
    if settings != [] {
      TermVerbositySetFlag(Apply(l, settings[0]).value, settings[1..]);
      assert forall i :: 1 <= i < |settings| ==> settings[i] == settings[1..][i - 1];
    }
  }

  /** Once `setterm_verbosity` has been called, `setverbosity` no longer
      touches the terminal verbosity. */
  lemma {:induction false} TermVerbosityPinned(l: Levels, settings: seq<Setting>)
    requires l.termVerbSet
    requires forall i :: 0 <= i < |settings| ==> settings[i].VerbosityArg?
    requires ApplyAll(l, settings).Ok?
    ensures ApplyAll(l, settings).value.termVerbosity == l.termVerbosity
    ensures ApplyAll(l, settings).value.termVerbSet
    decreases |settings|
  {
    if settings != [] {
      TermVerbosityPinned(Apply(l, settings[0]).value, settings[1..]);
    }
  }

  /** Until then, the terminal verbosity follows every `setverbosity`. */
  lemma {:induction false} TermVerbosityFollows(l: Levels, settings: seq<Setting>)
    requires !l.termVerbSet
    requires forall i :: 0 <= i < |settings| ==> settings[i].VerbosityArg?
    requires ApplyAll(l, settings).Ok?
    ensures var r := ApplyAll(l, settings).value;
      r.termVerbosity == (if settings == [] then l.termVerbosity else r.verbosity) && !r.termVerbSet
    decreases |settings|
  {
    if settings != [] {
      TermVerbosityFollows(Apply(l, settings[0]).value, settings[1..]);
    }
  }

  /** The initial verbosity: `int(os.getenv('RDIFF_BACKUP_VERBOSITY', '3'))`;
      None where that raises ValueError. */
  function InitialVerbosity(env: Option<string>): (r: Option<int>)
    ensures env.None? ==> r == Some(Note)
    ensures env.Some? ==> (r.Some? <==> IsIntLiteral(env.value))
  {
    assert "3"[..0] == [];
    ParseInt(if env.None? then "3" else env.value)
  }

  /** `"%s %s (%d): %s"` of `conn`. */
  function ConnLine(isServer: bool, direction: string, reqNum: int, result: string): string
  {
    (if isServer then "Server" else "Client") + " " + direction + " (" + IntToDecimal(reqNum) + "): " + result
  }

  /** The exit status of `sys.exit`. */
  datatype Exit = Exit(code: int)

  /** The error raised by `open_logfile` and `open_logfile_local`. */
  datatype LogFileError = AlreadyOpen | UnableToOpen

  /** The `Log` object of one process. `fileText` is what this process wrote
      to the log file, `forwarded` what it passed on to the connection that
      owns the log file, `terminal` what it wrote to stdout and stderr. */
  class Logger {
    var verbosity: int
    var termVerbosity: int
    var termVerbSet: bool
    var logFileOpen: bool
    var logFileLocal: bool
    var fileText: seq<string>
    var forwarded: seq<string>
    var terminal: seq<(Stream, string)>
    /** `Globals.server` */
    const isServer: bool
    /** `os.getpid()` */
    const pid: int

    function State(): Levels
      reads this
    {
      Levels(verbosity, termVerbosity, termVerbSet)
    }

    /** `__init__`, given the verbosity read from the environment. */
    constructor(initial: int, isServer: bool, pid: int)
      ensures State() == Levels(initial, initial, false)
      ensures !logFileOpen && !logFileLocal
      ensures fileText == [] && forwarded == [] && terminal == []
      ensures this.isServer == isServer && this.pid == pid
    {
      verbosity, termVerbosity, termVerbSet := initial, initial, false;
      logFileOpen, logFileLocal := false, false;
      fileText, forwarded, terminal := [], [], [];
      this.isServer, this.pid := isServer, pid;
    }

    /** `log_to_file`: written here if this process holds the open log file,
        handed to its connection if another one does, dropped if none is open. */
    method LogToFile(text: string, timestamp: string)
      modifies this`fileText, this`forwarded
      ensures fileText == old(fileText) +
        if logFileOpen && logFileLocal then [Format(text, verbosity, timestamp, isServer, pid)] else []
      ensures forwarded == old(forwarded) + if logFileOpen && !logFileLocal then [text] else []
    {
      if logFileOpen {
        if logFileLocal {
          fileText := fileText + [Format(text, verbosity, timestamp, isServer, pid)];
        } else {
          forwarded := forwarded + [text];
        }
      }
    }

    /** `log_to_term`: no threshold here, the callers apply it. */
    method LogToTerm(text: string, level: int, timestamp: string)
      modifies this`terminal
      ensures terminal == old(terminal) +
        [(TermStream(level, isServer), Format(text, termVerbosity, timestamp, isServer, pid))]
    {
      var stream := if level <= Warning || isServer then Stderr else Stdout;
      terminal := terminal + [(stream, Format(text, termVerbosity, timestamp, isServer, pid))];
    }

    /** `__call__`: a message above both thresholds is dropped (even one of
        the wrong type); otherwise it goes to the file iff its level is at
        most `verbosity` and to the terminal iff it is at most
        `termVerbosity`. */
    method Log(message: Message, level: int, timestamp: string) returns (r: Result<(), LogError>)
      modifies this`fileText, this`forwarded, this`terminal
      ensures r.Err? <==> message.NotLoggable? && (level <= verbosity || level <= termVerbosity)
      ensures r.Err? || (level > verbosity && level > termVerbosity) ==>
        fileText == old(fileText) && forwarded == old(forwarded) && terminal == old(terminal)
      ensures r.Ok? ==>
        var text := MessageText(message);
        && fileText == old(fileText) +
          (if level <= verbosity && logFileOpen && logFileLocal
           then [Format(text, verbosity, timestamp, isServer, pid)] else [])
        && forwarded == old(forwarded) +
          (if level <= verbosity && logFileOpen && !logFileLocal then [text] else [])
        && terminal == old(terminal) +
          (if level <= termVerbosity
           then [(TermStream(level, isServer), Format(text, termVerbosity, timestamp, isServer, pid))] else [])
    {
      if level > verbosity && level > termVerbosity {
        return Ok(());
      }
      if message.NotLoggable? {
        return Err(NotText);
      }
      var text := MessageText(message);
      if level <= verbosity {
        LogToFile(text, timestamp);
      }
      if level <= termVerbosity {
        LogToTerm(text, level, timestamp);
      }
      r := Ok(());
    }

    /** `conn`: connection traffic is shown only from terminal verbosity 9 on,
        and only on the terminal. */
    method Conn(direction: string, result: string, reqNum: int, timestamp: string)
      modifies this`terminal
      ensures termVerbosity < Timestamped ==> terminal == old(terminal)
      ensures termVerbosity >= Timestamped ==>
        terminal == old(terminal) +
          [(if isServer then Stderr else Stdout,
            Format(ConnLine(isServer, direction, reqNum, result), termVerbosity, timestamp, isServer, pid))]
    {
      if termVerbosity < Timestamped {
        return;
      }
      LogToTerm(ConnLine(isServer, direction, reqNum, result), Timestamped, timestamp);
    }

    /** `FatalError`: printed on stderr whatever the verbosity, then the
        process exits with `returnCode`. */
    method FatalError(message: string, returnCode: int, timestamp: string) returns (e: Exit)
      modifies this`terminal
      ensures e == Exit(returnCode)
      ensures terminal == old(terminal) +
        [(Stderr, Format("Fatal Error: " + message, termVerbosity, timestamp, isServer, pid))]
    {
      LogToTerm("Fatal Error: " + message, Error, timestamp);
      e := Exit(returnCode);
    }

    /** `setverbosity`: the terminal verbosity follows unless it was set
        explicitly; a non-number ends the process with status 1. */
    method SetVerbosity(arg: string, timestamp: string) returns (r: Result<(), Exit>)
      modifies this`verbosity, this`termVerbosity, this`terminal
      ensures r.Ok? <==> Apply(old(State()), VerbosityArg(arg)).Ok?
      ensures r.Ok? ==> State() == Apply(old(State()), VerbosityArg(arg)).value && terminal == old(terminal)
      ensures r.Err? ==>
        && r.error == Exit(1) && State() == old(State())
        && terminal == old(terminal) +
          [(Stderr, Format("Fatal Error: " + VerbosityMessage(arg), termVerbosity, timestamp, isServer, pid))]
    {
      var n := ParseInt(arg);
      if n.None? {
        var e := FatalError(VerbosityMessage(arg), 1, timestamp);
        return Err(e);
      }
      verbosity := n.value;
      if !termVerbSet {
        termVerbosity := verbosity;
      }
      r := Ok(());
    }

    /** `setterm_verbosity`: sets the terminal verbosity and `termverbset`;
        a non-number ends the process with status 1. */
    method SetTermVerbosity(arg: string, timestamp: string) returns (r: Result<(), Exit>)
      modifies this`termVerbosity, this`termVerbSet, this`terminal
      ensures r.Ok? <==> Apply(old(State()), TermVerbosityArg(arg)).Ok?
      ensures r.Ok? ==> State() == Apply(old(State()), TermVerbosityArg(arg)).value && terminal == old(terminal)
      ensures r.Err? ==>
        && r.error == Exit(1) && State() == old(State())
        && terminal == old(terminal) +
          [(Stderr, Format("Fatal Error: " + TermVerbosityMessage(arg), termVerbosity, timestamp, isServer, pid))]
    {
      var n := ParseInt(arg);
      if n.None? {
        var e := FatalError(TermVerbosityMessage(arg), 1, timestamp);
        return Err(e);
      }
      termVerbosity := n.value;
      termVerbSet := true;
      r := Ok(());
    }

    /** `open_logfile` as seen by this process: refused if a log file is
        already open; the process that owns the file (this one or another)
        opens it, and if that fails nothing is marked open; otherwise every
        process marks it open. `canOpen` is whether the owner can open it. */
    method OpenLogfile(ownsFile: bool, canOpen: bool) returns (r: Result<(), LogFileError>)
      modifies this`logFileOpen, this`logFileLocal
      ensures old(logFileOpen) ==> r == Err(AlreadyOpen) && logFileOpen && logFileLocal == old(logFileLocal)
      ensures !old(logFileOpen) && !canOpen ==>
        r == Err(UnableToOpen) && !logFileOpen && logFileLocal == old(logFileLocal)
      ensures r.Ok? <==> !old(logFileOpen) && canOpen
      ensures r.Err? ==> logFileOpen == old(logFileOpen)
      ensures r.Ok? ==> logFileOpen && logFileLocal == (ownsFile || old(logFileLocal))
    {
      if logFileOpen {
        return Err(AlreadyOpen);
      }
      if ownsFile {
        var local := OpenLogfileLocal(canOpen);
        if local.Err? {
          return local;
        }
      } else if !canOpen {
        // the owner's `open_logfile_local` raises LoggerError
        return Err(UnableToOpen);
      }
      OpenLogfileAllconn();
      r := Ok(());
    }

    /** `open_logfile_allconn` */
    method OpenLogfileAllconn()
      modifies this`logFileOpen
      ensures logFileOpen
    {
      logFileOpen := true;
    }

    /** `open_logfile_local`: `canOpen` is whether opening the file for
        appending succeeds. */
    method OpenLogfileLocal(canOpen: bool) returns (r: Result<(), LogFileError>)
      modifies this`logFileLocal
      ensures r.Ok? <==> canOpen
      ensures r.Err? ==> r.error == UnableToOpen && logFileLocal == old(logFileLocal)
      ensures r.Ok? ==> logFileLocal
    {
      if !canOpen {
        return Err(UnableToOpen);
      }
      logFileLocal := true;
      r := Ok(());
    }

    /** `close_logfile`: every process marks the file closed, and the one
        that owns it closes it. */
    method CloseLogfile()
      modifies this`logFileOpen, this`logFileLocal
      ensures !logFileOpen
      ensures logFileLocal == (old(logFileLocal) && !old(logFileOpen))
    {
      if logFileOpen {
        CloseLogfileAllconn();
        if logFileLocal {
          CloseLogfileLocal();
        }
      }
    }

    /** `close_logfile_allconn` */
    method CloseLogfileAllconn()
      modifies this`logFileOpen
      ensures !logFileOpen
    {
      logFileOpen := false;
    }

    /** `close_logfile_local` */
    method CloseLogfileLocal()
      modifies this`logFileLocal
      ensures !logFileLocal
    {
      logFileLocal := false;
    }
  }

  /** A log file that was opened is refused a second time, and can be
      opened again once it has been closed. */
  method ReopenRefused(logger: Logger, ownsFile: bool) returns (first: Result<(), LogFileError>, second: Result<(), LogFileError>, third: Result<(), LogFileError>)
    requires !logger.logFileOpen
    modifies logger
    ensures first.Ok? && second == Err(AlreadyOpen) && third.Ok?
  {
    first := logger.OpenLogfile(ownsFile, true);
    second := logger.OpenLogfile(ownsFile, true);
    logger.CloseLogfile();
    third := logger.OpenLogfile(ownsFile, true);
  }

  /** Once the log file is closed, logging writes to the terminal only. */
  method LogAfterClose(logger: Logger, message: Message, level: int, timestamp: string)
    modifies logger
    ensures !logger.logFileOpen
    ensures logger.fileText == old(logger.fileText) && logger.forwarded == old(logger.forwarded)
  {
    logger.CloseLogfile();
    var _ := logger.Log(message, level, timestamp);
  }

  /** The three kinds of recoverable error. */
  predicate IsErrorType(t: string)
  {
    t == "ListError" || t == "UpdateError" || t == "SpecialFileError"
  }

  /** The AssertionErrors of `_get_log_string` and `open`, and the failed
      write on a closed error log. */
  datatype ErrorLogError = UnknownErrorType(errorType: string) | ErrorLogAlreadyOpen | ErrorLogNotOpen

  /** `_get_log_string`: `"<type>: '<path>' <exception>"`. */
  function GetLogString(errorType: string, path: string, exc: string): (r: Result<string, ErrorLogError>)
    ensures r.Ok? <==> IsErrorType(errorType)
    ensures r.Err? ==> r.error == UnknownErrorType(errorType)
    ensures r.Ok? ==>
      && |r.value| > |errorType|
      && r.value[..|errorType|] == errorType
      && r.value[|errorType|..] == ": '" + path + "' " + exc
  {
    if !IsErrorType(errorType) then Err(UnknownErrorType(errorType))
    else
      var s := errorType + ": '" + path + "' " + exc;
      assert s[..|errorType|] == errorType && s[|errorType|..] == ": '" + path + "' " + exc;
      Ok(s)
  }

  /** The line `ErrorLog.write` puts in the file: NUL-terminated as it is,
      or with every newline turned into a space and one newline appended. */
  function LogLine(s: string, nullSeparator: bool): (r: string)
    ensures nullSeparator ==> r == s + "\0"
    ensures !nullSeparator ==>
      && |r| == |s| + 1
      && (forall i :: 0 <= i < |s| ==> r[i] == if s[i] == '\n' then ' ' else s[i])
      && (forall i :: 0 <= i < |r| ==> (r[i] == '\n' <==> i == |s|))
  {
    if nullSeparator then s + "\0"
    else SpacedLine(s) + "\n"
  }

  /** The error type at the head of an error-log line: everything before the
      first colon. */
  function ErrorTypeOf(line: string): (t: string)
    ensures |t| <= |line| && t == line[..|t|]
  {
    if line == [] || line[0] == ':' then [] else [line[0]] + ErrorTypeOf(line[1..])
  }

  lemma {:induction false} ErrorTypeOfPrefix(line: string, t: string)
    requires |t| < |line| && line[..|t|] == t && line[|t|] == ':'
    requires forall i :: 0 <= i < |t| ==> t[i] != ':'
    ensures ErrorTypeOf(line) == t
  {
    if t != [] {
      assert line[1..][..|t| - 1] == t[1..];
      ErrorTypeOfPrefix(line[1..], t[1..]);
    }
  }

  /** Every line of the error log names its error type, whatever the path
      and the exception text hold and whichever separator is used. */
  lemma ErrorTypeRecovered(errorType: string, path: string, exc: string, nullSeparator: bool)
    requires IsErrorType(errorType)
    ensures ErrorTypeOf(LogLine(GetLogString(errorType, path, exc).value, nullSeparator)) == errorType
  {
    var s := GetLogString(errorType, path, exc).value;
    var line := LogLine(s, nullSeparator);
    assert s[|errorType|] == ':';
    assert forall i :: 0 <= i <= |errorType| ==> line[i] == s[i];
    ErrorTypeOfPrefix(line, errorType);
  }

  /** `ErrorLog`, for the process that writes the backup. `log` is that
      process's `Log`, `lines` what was written to the error log file. */
  class ErrorLog {
    const log: Logger
    /** `Globals.null_separator` */
    const nullSeparator: bool
    /** `_log_fileobj is not None`, which `isopen` reports */
    var fileOpen: bool
    var path: string
    var compressed: bool
    var lines: seq<string>

    constructor(log: Logger, nullSeparator: bool)
      ensures this.log == log && this.nullSeparator == nullSeparator
      ensures !fileOpen && lines == []
    {
      this.log, this.nullSeparator := log, nullSeparator;
      fileOpen, path, compressed, lines := false, "", false, [];
    }

    /** `open`: refused while the error log is open; otherwise a fresh file
        `error_log.<time>.data` in the rdiff-backup data directory. */
    method Open(timeString: string, compress: bool) returns (r: Result<(), ErrorLogError>)
      modifies this`fileOpen, this`path, this`compressed, this`lines
      ensures r.Ok? <==> !old(fileOpen)
      ensures r.Err? ==> path == old(path) && compressed == old(compressed) && lines == old(lines)
      ensures r.Ok? ==> path == "error_log." + timeString + ".data" && compressed == compress && lines == []
      ensures fileOpen
    {
      if fileOpen {
        return Err(ErrorLogAlreadyOpen);
      }
      path := "error_log." + timeString + ".data";
      compressed := compress;
      lines := [];
      fileOpen := true;
      r := Ok(());
    }

    /** `write`: the line is checked, logged at warning level, and only then
        written, which fails if the error log is not open. */
    method Write(errorType: string, path: string, exc: string, timestamp: string) returns (r: Result<(), ErrorLogError>)
      modifies this`lines, log`fileText, log`forwarded, log`terminal
      ensures !IsErrorType(errorType) ==>
        && r == Err(UnknownErrorType(errorType)) && lines == old(lines)
        && log.fileText == old(log.fileText) && log.forwarded == old(log.forwarded) && log.terminal == old(log.terminal)
      ensures IsErrorType(errorType) ==>
        var s := GetLogString(errorType, path, exc).value;
        && Logged(s, timestamp, old(log.fileText), old(log.forwarded), old(log.terminal))
        && (r.Ok? <==> fileOpen)
        && (r.Err? ==> r.error == ErrorLogNotOpen && lines == old(lines))
        && (r.Ok? ==> lines == old(lines) + [LogLine(s, nullSeparator)])
    {
      var s := GetLogString(errorType, path, exc);
      if s.Err? {
        return Err(s.error);
      }
      var _ := log.Log(Text(s.value), Warning, timestamp);
      var line := if nullSeparator then s.value + "\0" else SpacedLine(s.value) + "\n";
      if !fileOpen {
        return Err(ErrorLogNotOpen);
      }
      lines := lines + [line];
      r := Ok(());
    }

    /** `write_if_open`: written if the error log is open, otherwise only
        logged. */
    method WriteIfOpen(errorType: string, path: string, exc: string, timestamp: string) returns (r: Result<(), ErrorLogError>)
      modifies this`lines, log`fileText, log`forwarded, log`terminal
      ensures r.Ok? <==> IsErrorType(errorType)
      ensures !IsErrorType(errorType) ==>
        && r == Err(UnknownErrorType(errorType)) && lines == old(lines)
        && log.fileText == old(log.fileText) && log.forwarded == old(log.forwarded) && log.terminal == old(log.terminal)
      ensures IsErrorType(errorType) ==>
        var s := GetLogString(errorType, path, exc).value;
        && Logged(s, timestamp, old(log.fileText), old(log.forwarded), old(log.terminal))
        && lines == old(lines) + if fileOpen then [LogLine(s, nullSeparator)] else []
    {
      if fileOpen {
        r := Write(errorType, path, exc, timestamp);
      } else {
        var s := GetLogString(errorType, path, exc);
        if s.Err? {
          return Err(s.error);
        }
        var _ := log.Log(Text(s.value), Warning, timestamp);
        r := Ok(());
      }
    }

    /** `close`: afterwards the error log reports closed. */
    method Close()
      modifies this`fileOpen
      ensures !fileOpen
    {
      if fileOpen {
        fileOpen := false;
      }
    }

    /** The log now holds, after `oldFile`, `oldForwarded` and `oldTerminal`,
        what `Log(s, 2)` adds. */
    ghost predicate Logged(s: string, timestamp: string, oldFile: seq<string>, oldForwarded: seq<string>, oldTerminal: seq<(Stream, string)>)
      reads this, log
    {
      && log.fileText == oldFile +
        (if Warning <= log.verbosity && log.logFileOpen && log.logFileLocal
         then [Format(s, log.verbosity, timestamp, log.isServer, log.pid)] else [])
      && log.forwarded == oldForwarded +
        (if Warning <= log.verbosity && log.logFileOpen && !log.logFileLocal then [s] else [])
      && log.terminal == oldTerminal +
        (if Warning <= log.termVerbosity
         then [(Stderr, Format(s, log.termVerbosity, timestamp, log.isServer, log.pid))] else [])
    }
  }

  /** The newline-to-space step of `write`. */
  function SpacedLine(s: string): string
  {
    seq(|s|, i requires 0 <= i < |s| => if s[i] == '\n' then ' ' else s[i])
  }
}
