# rdiff-backup core, modelled in Dafny

This project models four pieces of rdiff-backup's sequential logic and proves properties about them:

- **the pipe connection** between client and server (`connection.py`):
  - the big-endian integer codec `_i2b` / `_b2i`;
  - the 9-byte frame header written by `_write` and parsed by `_get`, and the quit frame;
  - the pool of 256 request numbers, taken by `_get_new_req_num` and given back by `reval` and `_answer_request`;
  - the server-side table of virtual files.
- **the logger** (`log.py`):
  - the two verbosity thresholds that route a message to the log file and/or the terminal, and the choice of terminal stream;
  - the `termverbset` state machine of `setverbosity` / `setterm_verbosity`;
  - the log file's open and closed flags;
  - the error log, with its line formatting and open/close state.
- **the base action** (`actions/__init__.py`):
  - the return-code bits;
  - the decision table of `_operate_regress`;
  - `pre_check`, which accumulates errors;
  - the `connect` loop, which sets the connection status;
  - `get_desc`.
- **the backup action** (`actions/backup.py`):
  - how `check`, `setup` and `run` combine return codes;
  - the order of the `current_mirror` marker operations around `apply`;
  - the infinite-recursion heuristic.

Modules, one per file:

| file | module | models |
|---|---|---|
| `common.dfy` | `Common` | `Option` and `Result`, which stand in for exceptions; small sequence lemmas |
| `bytes.dfy` | `Bytes` | `_b2i` and `_i2b`, over bytes as integers in 0..255 |
| `framing.dfy` | `Framing` | frame encoding and parsing as pure functions on byte strings |
| `connection.dfy` | `Connection` | `PipeConnection`: the pipe as two byte buffers, plus the request-number pool. `VirtualFileTable` is the class state of `VirtualFile`. `LowLevelPipeConnection` and `PipeConnection` are merged into one class. |
| `numerals.dfy` | `Numerals` | what `int(s)` accepts and what `"%d"` prints |
| `log.dfy` | `Log` | the `Logger` and `ErrorLog` classes and the pure routing and formatting functions |
| `consts.dfy` | `Consts` | `RET_CODE_OK`, `RET_CODE_ERR`, `RET_CODE_WARN` as 0, 1 and 2 in an 8-bit vector |
| `locations.dfy` | `Locations` | the source directory and the repository as fixed answers; the calls made on them are recorded |
| `actions.dfy` | `Actions` | `BaseAction` and `_operate_regress` |
| `backup.dfy` | `Backup` | `BackupAction`, which holds its `BaseAction` instead of inheriting from it |

How the environment enters the model:

- Outside effects are inputs:
  - what the peer has sent is the connection's input buffer;
  - answers of the repository and the directory are constructor arguments;
  - whether a file can be opened, `os.path.isdir`, the clock reading, the process id and the evaluation of a remote call are parameters.
- Outputs are the sequences the model appends to:
  - bytes written to the pipe;
  - lines written to the log file, to the terminal or to the error log;
  - the trace of calls made on the repository.

## Model

| member | source | states |
|---|---|---|
| Bytes.FromBytes | src/rdiff_backup/connection.py:346-348 | `_b2i` of n bytes is below 256^n |
| Bytes.ToBytesFixed | src/rdiff_backup/connection.py:350-354 | for i < 256^size: exactly `size` bytes, most significant first, and `_b2i` of them gives back i |
| Bytes.IntToBytes | src/rdiff_backup/connection.py:350-354 | `_i2b(i, size)` succeeds iff i >= 0 and (size is 0 or i < 256^size); the result decodes to i; its length is `(bit_length+7)//8` for size 0 and `size` otherwise |
| Bytes.MinimalSizeFits | src/rdiff_backup/connection.py:352-353 | the length chosen for size 0 always holds the value and is the smallest length that does |
| Bytes.BitLengthBounds | src/rdiff_backup/connection.py:352-353 | the bit length b of i satisfies 2^(b-1) <= i < 2^b |
| Bytes.ZeroIsEmpty | src/rdiff_backup/connection.py:350-354 | `_i2b(0)` is the empty byte string |
| Bytes.FromBytesInjective | src/rdiff_backup/connection.py:346-354 | every byte string is recovered from its value and length, so the fixed-size codec is a bijection |
| Framing.ByteToKind | src/rdiff_backup/connection.py:381-403 | a header byte names a frame type iff it is that type's character; a byte that is no type's character names none |
| Framing.KindOfChar | src/rdiff_backup/connection.py:209-229 | each type's character is read back as that type |
| Framing.EncodeFrame | src/rdiff_backup/connection.py:323-337 | `_write` succeeds iff the header is one ASCII character, the request number is in 0..255 and the length fits in 7 bytes; the output is then the type byte, the request number, the 7-byte length and the data; a header of any other length is the header error |
| Framing.QuitFrame | src/rdiff_backup/connection.py:319-321 | the quit frame is 'q', request number 255, length 0 and no payload |
| Framing.ParseFrame | src/rdiff_backup/connection.py:356-406 | `_get` reports a truncated header iff fewer than 9 bytes are available; it stops on 'q' after the header alone; it reports an invalid format iff the type byte is no type's character; otherwise it returns the type, the request number and the payload read, never more than the announced length |
| Framing.ParseFrameLength | src/rdiff_backup/connection.py:366-374 | the payload of a parsed frame is exactly the announced length when that many bytes follow the header, and otherwise everything that follows it |
| Framing.FrameRoundTrip | src/rdiff_backup/connection.py:323-374 | parsing what `_write` produced gives back the type, request number and data, and consumes exactly those bytes, whatever follows |
| Framing.QuitRoundTrip | src/rdiff_backup/connection.py:319-321 | a quit frame is recognised as the quit signal after 9 bytes, whatever follows |
| Framing.FrameBytesFit | src/rdiff_backup/connection.py:323-334 | for any frame type and request byte, `_write` fails only when the payload is too long for the length field |
| Framing.WriteChunks | src/rdiff_backup/connection.py:488-490 | a run of writes goes through iff none of them is refused |
| Framing.WriteChunksAppend | src/rdiff_backup/connection.py:488-490 | after a run that went through, one more write appends its bytes or is the refusal |
| Framing.WriteChunksStop | src/rdiff_backup/connection.py:488-490 | once a write is refused, nothing later is written |
| Framing.WriteFramesFit | src/rdiff_backup/connection.py:488-490 | a run of frames is written completely iff every payload fits |
| Framing.WriteFramesCons | src/rdiff_backup/connection.py:488-490 | writing a run of frames is writing the first, then the rest |
| Connection.RequestNumbersFrom | src/rdiff_backup/connection.py:454 | the request numbers are exactly 0..255 |
| Connection.MismatchError | src/rdiff_backup/connection.py:573-576 | the corrected assertion error names both the expected and the received request number |
| Connection.MismatchMessageLosesNumbers | src/rdiff_backup/connection.py:573-576 | as written (`MismatchErrorAsWritten`), two different mismatches raise the same error; corrected, they raise different ones |
| Connection.ReadArgs | src/rdiff_backup/connection.py:569-577 | the argument loop reads no more than is on the pipe, and a successful read yields exactly `num_args` objects |
| Connection.ReadArgsErrors | src/rdiff_backup/connection.py:569-577 | the loop fails only on an unreadable frame or a frame under another request number; a mismatch names the request being answered and the different number received; zero arguments read nothing |
| Connection.AnswerOf | src/rdiff_backup/connection.py:567-584 | answering consumes what the argument loop read; a reply is written only after all arguments were read, and nothing is written on error |
| Connection.AnswerReply | src/rdiff_backup/connection.py:567-584 | a failed argument read is answered by nothing but that error; otherwise the answer succeeds iff the reply's payload fits the 7-byte length field; then one header and the payload are written, under the request number, and unless the reply is a quit frame a peer parsing those bytes reads back exactly the reply |
| Connection.ReplyRoundTrip | src/rdiff_backup/connection.py:323-374 | the bytes `_write` produced for a frame are a header and the data under its request number; unless it is a quit frame they parse back as that frame and are consumed exactly |
| Connection.ArgFrames | src/rdiff_backup/connection.py:489-490 | one frame per argument, each under the request number |
| Connection.RequestFrames | src/rdiff_backup/connection.py:487-490 | the request object first, under the request number, then one frame per argument with that argument's type and payload under the same number, in order |
| Connection.DecodeAll | src/rdiff_backup/connection.py:376-406 | one decoded object per frame, in order |
| Connection.DecodeValueInjective | src/rdiff_backup/connection.py:381-398 | `DecodeValue`, the object `_get` builds, determines the frame type and, for a given payload length, the payload: an id read by `_b2i` gives back its bytes |
| Connection.PrependNothing | src/rdiff_backup/connection.py:571-577 | reading nothing first changes nothing |
| Connection.PrependPrepend | src/rdiff_backup/connection.py:571-577 | reading in two steps is the same as reading once |
| Connection.ReadArgsStep | src/rdiff_backup/connection.py:571-577 | one step of the argument loop: an unreadable frame is its error; a frame under another request number is the mismatch error; otherwise its object is read first and the loop goes on with the rest |
| Connection.ReadArgsCons | src/rdiff_backup/connection.py:571-577 | the argument loop reads one frame written by `_write` as one argument |
| Connection.FramesRoundTrip | src/rdiff_backup/connection.py:487-490 | frames written under one request number are all written, and `_answer_request`'s loop reads them back in order, taking exactly their bytes |
| Connection.ArgumentsRoundTrip | src/rdiff_backup/connection.py:487-490 | the arguments `reval` sends arrive in order on the other side |
| Connection.PipeConnection.constructor | src/rdiff_backup/connection.py:443-455 | nothing written yet; the pool holds all 256 request numbers |
| Connection.PipeConnection.Write | src/rdiff_backup/connection.py:323-337 | appends exactly the encoded frame to the pipe, or nothing when `_write` refuses it |
| Connection.PipeConnection.PutQuit | src/rdiff_backup/connection.py:319-321 | appends exactly the quit frame |
| Connection.PipeConnection.Get | src/rdiff_backup/connection.py:356-406 | removes from the input exactly the bytes `ParseFrame` consumed and returns its frame, decoded, or its error |
| Connection.PipeConnection.GetNewReqNum | src/rdiff_backup/connection.py:609-613 | an empty pool is an error and is left unchanged; otherwise one member is returned and removed; the pool stays within 0..255 |
| Connection.PipeConnection.Put | src/rdiff_backup/connection.py:247-265 | sends an object as one frame with its type character |
| Connection.PipeConnection.SendFrames | src/rdiff_backup/connection.py:487-490 | the frames are written in order up to the first refused one, and that refusal is returned |
| Connection.PipeConnection.Reval | src/rdiff_backup/connection.py:479-492 | fails with the missing request number iff the pool is empty; a refused write fails with that refusal and leaves the number out of the pool; otherwise sends the request and its arguments under a number taken from the pool and puts the number back |
| Connection.PipeConnection.ReadArguments | src/rdiff_backup/connection.py:569-577 | the loop returns what `ReadArgs` specifies and leaves on the pipe what `ReadArgsRest` gives, which is the input after the bytes `ReadArgs` consumed |
| Connection.PipeConnection.ReadArgument | src/rdiff_backup/connection.py:572-577 | one pass of the loop body: it reads one frame; an unreadable frame or another request number ends the loop with that error, otherwise its object is the next argument and the loop goes on with the remaining input |
| Connection.ReadArgsRestIsSuffix | src/rdiff_backup/connection.py:569-577 | the input the argument loop leaves behind (`ReadArgsRest`) is exactly the input after the bytes it consumed, on success and on failure |
| Connection.PipeConnection.AnswerRequest | src/rdiff_backup/connection.py:567-584 | an unknown request number changes nothing; otherwise the number is taken, the arguments are read, the reply is written and the number is given back, and an error leaves it out of the pool |
| Connection.PipeConnection.PutFile | src/rdiff_backup/connection.py:275-277 | registers the file under the next id and sends that id, minimally encoded, in an 'f' frame |
| Connection.PutFileRoundTrip | src/rdiff_backup/connection.py:275-277 | the peer reading what `_putfile` wrote gets a virtual file with the same id |
| Connection.VirtualFileTable.constructor | src/rdiff_backup/connection.py:695-696 | an empty table with counter -1 |
| Connection.VirtualFileTable.New | src/rdiff_backup/connection.py:718-723 | the new id is one above the counter and above every id in use, and now maps to the file |
| Connection.VirtualFileTable.CloseById | src/rdiff_backup/connection.py:711-717 | removes exactly that id and returns its file; an unknown id is an error that leaves the table unchanged |
| Connection.VirtualFileIdsNeverReused | src/rdiff_backup/connection.py:711-723 | a file registered, closed and followed by another registration: the close returns the first file, and the second id is above the first |
| Numerals.ParseInt | src/rdiff_backup/log.py:154 | `int(s)` succeeds iff s is an optional sign followed by digits |
| Numerals.NatToDecimal | src/rdiff_backup/log.py:118-119 | `"%d"` prints digits only, with no leading zero |
| Numerals.DecimalValue | src/rdiff_backup/log.py:118-119 | the printed digits have the printed value |
| Numerals.DecimalRoundTrip | src/rdiff_backup/log.py:118-119 | parsing what `"%d"` printed gives back the number |
| Log.TermStream | src/rdiff_backup/log.py:88-93 | stderr iff the level is at most 2 or the process is a server |
| Log.Format | src/rdiff_backup/log.py:239-251 | below verbosity 9 the line is the message and a newline; from verbosity 9 on it starts with the timestamp; it always ends with the message and a newline |
| Log.ApplyAllFails | src/rdiff_backup/log.py:151-169 | a run of setter calls (`ApplyAll` of `Apply`) fails iff one of their arguments is not a number |
| Log.TermVerbositySetFlag | src/rdiff_backup/log.py:151-169 | `termverbset` is on afterwards iff it was on before or `setterm_verbosity` was called |
| Log.TermVerbosityPinned | src/rdiff_backup/log.py:151-169 | after `setterm_verbosity`, `setverbosity` leaves the terminal verbosity as it is |
| Log.TermVerbosityFollows | src/rdiff_backup/log.py:151-159 | until then, the terminal verbosity follows every `setverbosity` |
| Log.InitialVerbosity | src/rdiff_backup/log.py:44-50 | without the environment variable the verbosity is 3; with it, startup succeeds iff its value is a number |
| Log.Logger.constructor | src/rdiff_backup/log.py:44-50 | both verbosities start at the initial value, nothing is set explicitly, no log file is open, nothing is written |
| Log.Logger.LogToFile | src/rdiff_backup/log.py:78-86 | written here if this process holds the open log file, handed on if another process holds it, dropped if none is open |
| Log.Logger.LogToTerm | src/rdiff_backup/log.py:88-95 | one formatted line on the stream `TermStream` chooses |
| Log.Logger.Log | src/rdiff_backup/log.py:52-75 | fails iff the message is none of string or function and is not dropped; a message above both thresholds is dropped; otherwise it goes to the file iff its level is at most `verbosity` and to the terminal iff its level is at most `term_verbosity` |
| Log.Logger.Conn | src/rdiff_backup/log.py:97-119 | nothing below terminal verbosity 9; otherwise one line on the terminal only |
| Log.Logger.FatalError | src/rdiff_backup/log.py:121-124 | the message goes to stderr whatever the verbosity, and the process exits with the given code |
| Log.Logger.SetVerbosity | src/rdiff_backup/log.py:151-159 | the new state is the one `Apply` gives; a non-number is a fatal error with status 1 that changes nothing |
| Log.Logger.SetTermVerbosity | src/rdiff_backup/log.py:162-169 | the new state is the one `Apply` gives, which sets `termverbset`; a non-number is a fatal error with status 1 |
| Log.Logger.OpenLogfile | src/rdiff_backup/log.py:171-201 | fails iff a log file is already open (the assertion) or the owning process cannot open the file (LoggerError); on failure nothing new is marked open; on success the file is marked open and owned locally iff this process opened it |
| Log.Logger.OpenLogfileAllconn | src/rdiff_backup/log.py:184-187 | the log file is marked open |
| Log.Logger.OpenLogfileLocal | src/rdiff_backup/log.py:190-201 | succeeds iff the file can be opened, and then this process holds the file |
| Log.Logger.CloseLogfile | src/rdiff_backup/log.py:203-208 | the log file is closed, and this process holds it afterwards only if no log file was open |
| Log.Logger.CloseLogfileAllconn | src/rdiff_backup/log.py:211-213 | the log file is marked closed |
| Log.Logger.CloseLogfileLocal | src/rdiff_backup/log.py:216-222 | this process no longer holds the file |
| Log.ReopenRefused | src/rdiff_backup/log.py:171-208 | opening a log file twice refuses the second open; after `close_logfile` it can be opened again |
| Log.LogAfterClose | src/rdiff_backup/log.py:52-86 | after `close_logfile`, logging no longer writes to or forwards to a log file |
| Log.GetLogString | src/rdiff_backup/log.py:327-332 | succeeds iff the type is ListError, UpdateError or SpecialFileError, and is then the type followed by `: '<path>' <exception>` |
| Log.LogLine | src/rdiff_backup/log.py:297-303 | with the NUL separator the string plus a NUL; otherwise every newline becomes a space and one newline is appended, so the line holds exactly one newline, at its end |
| Log.ErrorTypeOf | src/rdiff_backup/log.py:331-332 | the error type read back from a line is a prefix of that line |
| Log.ErrorTypeOfPrefix | src/rdiff_backup/log.py:331-332 | a colon-free prefix followed by a colon is read back as the error type |
| Log.ErrorTypeRecovered | src/rdiff_backup/log.py:292-332 | the error type is recovered from every line written to the error log |
| Log.ErrorLog.constructor | src/rdiff_backup/log.py:267 | the error log starts closed and empty |
| Log.ErrorLog.Open | src/rdiff_backup/log.py:270-281 | refused while the error log is open; otherwise a fresh, empty `error_log.<time>.data`; afterwards it is open |
| Log.ErrorLog.Write | src/rdiff_backup/log.py:292-304 | an unknown type changes nothing; otherwise the line is logged at level 2, and then appended in the form `LogLine` gives, or fails if the error log is not open |
| Log.ErrorLog.WriteIfOpen | src/rdiff_backup/log.py:307-315 | like `Write` when the error log is open; otherwise only logged |
| Log.ErrorLog.Close | src/rdiff_backup/log.py:318-324 | afterwards the error log is not open |
| Actions.OperateRegress | src/rdiffbackup/actions/__init__.py:657-693 | the repository is always asked first whether it needs regressing, and at most three calls are made |
| Actions.RegressDecisions | src/rdiffbackup/actions/__init__.py:657-693 | needed but not tried: ERR and no `regress`; needed and tried: `regress() \| WARN`; forced: `regress()` when `force_regress()` holds, WARN without `regress` otherwise; neither: OK without `regress` |
| Actions.RegressErrorOrigin | src/rdiffbackup/actions/__init__.py:657-693 | the ERR bit is set iff a needed regression was not tried or `regress` reported an error |
| Actions.Unconnected | src/rdiffbackup/actions/__init__.py:597-604 | no message iff every location was connected, and at most one message per location |
| Actions.Capitalize | src/rdiffbackup/actions/__init__.py:415 | the first letter upper case, the others lower case, and the length is kept |
| Actions.Upper | src/rdiffbackup/actions/__init__.py:415 | a lower-case ASCII letter becomes the upper-case letter at the same place in the alphabet; every other character is kept |
| Actions.Lower | src/rdiffbackup/actions/__init__.py:415 | an upper-case ASCII letter becomes the lower-case letter at the same place in the alphabet; every other character is kept |
| Actions.CaseRoundTrip | src/rdiffbackup/actions/__init__.py:415 | lowering an upper-cased lower-case letter gives it back, and upper-casing a lowered upper-case letter gives it back |
| Actions.CapitalizeIdempotent | src/rdiffbackup/actions/__init__.py:415 | capitalising twice is capitalising once |
| Actions.GetDesc | src/rdiffbackup/actions/__init__.py:407-415 | a description exists iff the name is set, and it is then the name capitalised, of the same length |
| Actions.BaseAction.constructor | src/rdiffbackup/actions/__init__.py:395 | the connection status starts OK |
| Actions.BaseAction.PreCheck | src/rdiffbackup/actions/__init__.py:532-571 | all three checks run, each failing one is reported, in order; the result is OK iff none failed and ERR otherwise |
| Actions.BaseAction.Connect | src/rdiffbackup/actions/__init__.py:573-609 | keeps the connected locations, reports each location that could not be connected, and sets the status to ERR iff there is one |
| Actions.ConnectFresh | src/rdiffbackup/actions/__init__.py:573-655 | after connecting, `is_connection_ok` holds iff every location was connected, and `check` returns OK in that case and ERR otherwise, so it reports an error iff some location could not be connected |
| Backup.WarnIfInfiniteRecursion | src/rdiffbackup/actions/backup.py:157-177 | WARN iff same connection, a longer target path, and the target starts with the source path plus "/"; OK otherwise |
| Backup.NestedTargetWarns | src/rdiffbackup/actions/backup.py:157-177 | a repository anywhere below the source directory is warned about |
| Backup.SiblingTargetNotWarned | src/rdiffbackup/actions/backup.py:157-177 | a sibling whose name only extends the source's last component is not |
| Backup.OtherConnectionNotWarned | src/rdiffbackup/actions/backup.py:162-163 | a repository on another connection is never warned about |
| Backup.MarkerOrder | src/rdiffbackup/actions/backup.py:130-155 | `BackupCalls` touches the new marker and calls `apply` exactly once each, and closes statistics last; with a previous backup it touches the marker before `apply` and removes the old marker after it; for a first backup it removes nothing and touches the marker after `apply` |
| Backup.AppliesBackupConcat | src/rdiffbackup/actions/backup.py:107-128 | a call sequence applies a backup iff one of its parts does |
| Backup.RunBacksUpOnlyFromThePast | src/rdiffbackup/actions/backup.py:107-128 | with `RunCode` and `RunCalls`: `run` applies a backup iff the regression has no ERR bit and the current mirror time is in 0 .. now-1; it returns ERR iff it does not apply one |
| Backup.RunAfterRegressWarns | src/rdiffbackup/actions/backup.py:107-116 | after a needed regression, the code `RunCode` gives carries WARN |
| Backup.BackupAction.constructor | src/rdiffbackup/actions/backup.py:32-47 | nothing located, no calls made |
| Backup.BackupAction.Connect | src/rdiffbackup/actions/backup.py:59-70 | the base connection, then, iff it is fine, the directory on the first location and the repository on the second |
| Backup.BackupAction.Check | src/rdiffbackup/actions/backup.py:72-82 | the three codes ORed, ERR iff any has it; both checks are called |
| Backup.BackupAction.Setup | src/rdiffbackup/actions/backup.py:84-105 | stops at the first step with ERR and calls nothing after it; otherwise the repository's code ORed with the recursion warning |
| Backup.BackupAction.OperateBackup | src/rdiffbackup/actions/backup.py:130-155 | makes the calls `BackupCalls` lists, in order, and returns OK |
| Backup.BackupAction.Run | src/rdiffbackup/actions/backup.py:107-128 | the code and the calls are those `RunCode` and `RunCalls` give for this repository's regression |

The base action's `check` returns the connection status, and its `setup` and `run` return OK; these have no row of their own, since what they mean is stated by `ConnectFresh` and by the backup action's methods, which combine them. The base action's `setup` can only return OK in this model, so `BackupAction.Setup` drops no code of it. The directory's warning, however, is really lost: `ret_code = self.repo.setup(...)` replaces the earlier code rather than ORing with it. The model follows the code here, not a reading in which every warning of `setup` survives.

## Left out

- Pickling and unpickling: `o`, `r`, `R` and `Q` payloads stay byte strings.
- The `c` payload is decoded to its connection number, but the lookup in `specifics.connection_dict`, and its KeyError for an unknown number, are left out.
- The response loop `_get_response`: `reval` is modelled up to sending the request and giving its number back.
- The dynamic name resolution and remote dispatch of `_eval`, `LocalConnection`, `EmulateCallable*`, `RedirectedConnection` and `RedirectedRun`: they have no contract beyond the Python runtime.
- `Security.vet_request` and `_extract_exception`: the evaluation of a request is a parameter of `AnswerRequest` that returns the object to send back, exception or not.
- `_close`, `quit`, process reaping, and `VirtualFile.readfromid` / `writetoid`: these are only file I/O on the stored objects.
- Connection.PipeConnection.Put: takes the frame `_put` chose, because the choice itself depends on Python type tests of the object.
- Connection.PipeConnection.Get: a short payload read at end of input is modelled as returning fewer bytes. The `MemoryError` of an impossible length is not modelled.
- The pipe's `OSError` (ConnectionWriteError / ConnectionReadError): the pipe never fails in this model.
- Log.Logger.Log: the clock is read once per call, and the same timestamp is passed to the file and the terminal lines.
- The `log.Log.conn` calls in `_put` and `_get` (connection.py:249 and 405): they only trace at verbosity 9, as `Log.Logger.Conn` models.
- Log.Logger.Log: a `bytes` message, which `__call__` decodes first, is not modelled; messages are strings or functions returning strings.
- Log.ErrorLog.Write: the forwarding of `write`, `write_if_open`, `close` and `isopen` to `Globals.backup_writer` from a process that is not the backup writer is left out; the error log is always local.
- `exception` and `_exception_to_string`: they depend on tracebacks.
- `_to_bytes`: the UTF-8 and `backslashreplace` encoding is not modelled. Lines stay strings.
- Actions.Capitalize: ASCII letters only. Python's `str.capitalize` also maps non-ASCII letters, uses title case for the first character, and can change the length (`'ß'` becomes `'Ss'`).
- Connection.ReadArgs: a frame under another request number yields the corrected `MismatchError` (see Findings), not the AttributeError the code as written raises, which `MismatchErrorAsWritten` models.
- Connection.PipeConnection.ReadArguments: follows `ReadArgs`, so it also raises the corrected mismatch error.
- Numerals.ParseInt: ASCII digits only. `int()` also accepts surrounding whitespace, underscores between digits and non-ASCII digits.
- Log.Logger.OpenLogfile: the other connections are represented only by whether this process owns the file. This process's flags are modelled, not the remote calls to open the file on every connection.
- Log.ErrorLog.Open: the forwarding to `Globals.backup_writer` from a process that is not the backup writer, and the choice between a gzip and a plain file, are left out. Only the path and the compress flag are recorded.
- The log messages the actions emit, and the `noticeable` parameter of `_operate_regress`: they only select a log level.
- Argument parsing, `_get_subparsers`, `debug_values`, `get_runtime_info`, `__enter__` / `__exit__` and the process setup of `BaseAction.setup` (clock, tempfile, umask, signal handlers): these are command-line and OS plumbing.
- Actions.BaseAction.Connect: requires one connected location per location, where `zip` would silently drop any extra locations.
- `list_.py`, `regress.py`, `calculate.py` and the testing scripts: they forward to the repository, which is not part of this model.
- Repository and directory internals: `needs_regress`, `regress`, `get_mirror_time`, `apply`, `get_sigs` and the marker operations are fixed answers or recorded calls.
- Consts: the return codes are 8-bit vectors, because the constants module is not part of this model. Only their being 0 and two distinct bits matters.

## Findings

| source | as written | input that shows it | evidently intended | confidence | as-written member | corrected member |
|---|---|---|---|---|---|---|
| src/rdiff_backup/connection.py:573-576 | the assertion message is built with `"...".object(rnum=..., anum=...)`, and `str` has no attribute `object`, so a mismatch raises AttributeError and loses both request numbers | an argument frame with request number 2 while request 1 is being answered | `.format(...)`: an AssertionError that names both numbers | not executed | Connection.MismatchErrorAsWritten | Connection.MismatchError |
