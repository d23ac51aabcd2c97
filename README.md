# bugreportz relay, modelled in Dafny

`bugreportz` (cmds/bugreportz/bugreportz.cpp) asks init to start the
`dumpstatez` service, connects to the service's `dumpstate` socket with up to
20 attempts one second apart, sets a 10-minute receive timeout on the socket,
and then copies everything the service sends to standard output: it reads
chunks of at most 65536 bytes, writes each chunk with a `bytes_to_send`
countdown that survives partial writes, and stops at end of stream, at a read
error, or (fatally) at a write error.

This project models `main` from line 69 on. The system calls are scripted
(`ScriptedIo.Script`): a sequence of connect results, whether `setsockopt`
succeeded, a sequence of read results (`Data(chunk)`, `Eof`, `ReadError(errno)`)
and a sequence of write results (`Accepted(room)`, `WriteError(errno)`). A run
produces an `Observations.Outcome`: the exit status, what the program sends to
standard output, and the trace of system calls. Standard output is one
sequence of `printf` lines and `write(STDOUT_FILENO, ...)` payload, in the
order the program makes those calls; stdio's buffering of the `printf` lines
is not modelled (see "Left out").

- `scripted_io.dfy`: the scripted environment, the constants (buffer size 65536,
  20 attempts, Linux `EAGAIN` = 11 and `ETIMEDOUT` = 110, exit statuses 0 and 1),
  read(2) and write(2) return values, and the read into the buffer array.
- `observations.dfy`: diagnostics, output items, calls, outcomes; payload,
  diagnostic and call-count views of a run.
- `bugreportz_spec.dfy`: the program as functions: `FirstHandle` (retry loop),
  `Drain` (do-while drain loop), `Relay` (read loop), `Bugreportz` (the run).
- `bugreportz.dfy`: the program as it runs: `ConnectWithRetry`, `SendChunk`,
  `RelayLoop` (with the reused 64 KiB `array<byte>`) and `Run`, one per loop of
  `main`, each proved equal to its function.
- `drain_properties.dfy`, `run_properties.dfy`: what the source promises and
  what it actually does, as lemmas on those functions.

## Behaviour as written

The model follows the code, including where it differs from what a byte
relay is usually expected to do:

- A write that returns 0 ends the drain loop (`bytes_written != 0 && ...` at
  line 126). The unsent rest of the chunk is dropped and the next read
  follows. It is not retried (`RunProperties.ZeroWriteDropsRest`,
  `DrainProperties.DrainStall`).
- A read error is reported, and then the loop breaks, the socket is closed and
  the program returns `EXIT_SUCCESS` (lines 110, 129-130). It does not report
  failure (`RunProperties.ReadErrorExitsSuccess`, `RunProperties.TimeoutOnThirdRead`).
- Every diagnostic is printed with `printf` on standard output (lines 83, 94,
  108, 120), the stream the payload is written to, between the payload
  writes, and not on standard error
  (`RunProperties.DiagnosticsInterleaveWithPayload`).
- A failed write returns at once, without closing the socket (line 123).
- The retry loop also sleeps after the 20th failed attempt (line 79).

## Model

| member | source | states |
|---|---|---|
| `ScriptedIo.ReadReturn` | cmds/bugreportz/bugreportz.cpp:99-103 | read returns 0 exactly at end of stream, -1 exactly on an error, otherwise the chunk's length, which is between 1 and 65536 |
| `ScriptedIo.WriteReturn` | cmds/bugreportz/bugreportz.cpp:116-119 | write returns -1 exactly on an error; otherwise a count between 0 and the bytes requested, and no more than the sink had room for |
| `ScriptedIo.SysRead` | cmds/bugreportz/bugreportz.cpp:98-100 | the chunk read lands at the start of the buffer and the call returns its length, 0 or -1; the rest of the buffer after a chunk, and the whole buffer after end of stream or an error, are left unchanged |
| `BugreportzSpec.FirstHandle` | cmds/bugreportz/bugreportz.cpp:74-80 | the index it returns is the first attempt below 20 whose connect gives a handle >= 0; every earlier attempt returned -1; it is 20 when none succeeded |
| `BugreportzSpec.Handle` | cmds/bugreportz/bugreportz.cpp:73-82 | the handle the retry loop leaves in `s` is >= -1, and it is -1 exactly when all 20 attempts returned -1 |
| `BugreportzSpec.FailedAttempts` | cmds/bugreportz/bugreportz.cpp:74-80 | k failed attempts make 2k calls |
| `BugreportzSpec.ConnectCalls` | cmds/bugreportz/bugreportz.cpp:74-80 | the retry loop makes 2k + 1 calls ending with the successful connect when attempt k obtains the handle, and 40 calls ending with a sleep when none does |
| `BugreportzSpec.RetryFrom` | cmds/bugreportz/bugreportz.cpp:74-80 | run from attempt i, the retry loop only appends to the calls already made, at most two per remaining attempt |
| `BugreportzSpec.RetryFromFailed` | cmds/bugreportz/bugreportz.cpp:74-80 | the retry loop run step by step (`RetryFrom`) makes a connect and a sleep for every failed attempt and a final connect for the successful one, the calls `ConnectCalls(FirstHandle(...))` names |
| `Bugreportz.ConnectWithRetry` | cmds/bugreportz/bugreportz.cpp:73-80 | the retry loop ends with the handle of the first successful attempt (or -1) after connect/sleep pairs for each failed attempt, as `FirstHandle` and `ConnectCalls` say |
| `BugreportzSpec.DrainFromPrepends` | cmds/bugreportz/bugreportz.cpp:113-126 | the drain loop run step by step with output already accumulated (`DrainFrom`) equals that output followed by the recursive `Drain` |
| `Bugreportz.SendChunk` | cmds/bugreportz/bugreportz.cpp:113-126 | the do-while loop over the buffer does exactly what `Drain` describes |
| `BugreportzSpec.Drain` | cmds/bugreportz/bugreportz.cpp:113-126 | the drain loop consumes at least one write result, leaves no more than it was given unsent, and leaves bytes unsent whenever it fails |
| `Bugreportz.RelayLoop` | cmds/bugreportz/bugreportz.cpp:97-127 | the read loop over the reused buffer, with the EAGAIN relabelling, does exactly what `Relay` describes |
| `BugreportzSpec.Relay` | cmds/bugreportz/bugreportz.cpp:97-127 | every run of the read loop begins with a read of the socket |
| `BugreportzSpec.RelayFromPrepends` | cmds/bugreportz/bugreportz.cpp:97-127 | the read loop run step by step with output already accumulated (`RelayFrom`) equals that output followed by the recursive `Relay` |
| `Bugreportz.Run` | cmds/bugreportz/bugreportz.cpp:69-130 | one run's status, standard output and call trace are those of `Bugreportz`, about which the lemmas below hold |
| `BugreportzSpec.Bugreportz` | cmds/bugreportz/bugreportz.cpp:69-130 | a run's status is EXIT_SUCCESS or EXIT_FAILURE, and its first call starts the service |
| `DrainProperties.DrainWriteCalls` | cmds/bugreportz/bugreportz.cpp:115-118 | one write call per write result consumed; the first asks for the whole remainder; every write's offset is bytes_read - bytes_to_send for a positive bytes_to_send |
| `DrainProperties.DrainSendsContiguousPart` | cmds/bugreportz/bugreportz.cpp:113-126 | 0 <= bytes_to_send stays <= bytes_read, and the payload emitted for a chunk is the contiguous, in-order slice from the starting offset up to what is left unsent |
| `DrainProperties.DrainFailure` | cmds/bugreportz/bugreportz.cpp:116-124 | a drain fails if and only if its last write returned -1; a failed drain's only diagnostic, printed last, carries bytes_read, the bytes_to_send of that write and its errno |
| `DrainProperties.DrainSilent` | cmds/bugreportz/bugreportz.cpp:113-126 | a drain that does not fail prints payload only, no diagnostic |
| `DrainProperties.DrainStall` | cmds/bugreportz/bugreportz.cpp:125-126 | a drain that ends without failing but with bytes unsent stopped at a write that returned 0 |
| `DrainProperties.DrainProgressBefore` | cmds/bugreportz/bugreportz.cpp:113-126 | every write before the last one of a drain accepted at least one byte |
| `DrainProperties.DrainEmitsPayloadOrWriteFailure` | cmds/bugreportz/bugreportz.cpp:113-126 | the drain loop prints only payload and write-failure diagnostics |
| `DrainProperties.DrainSendsAll` | cmds/bugreportz/bugreportz.cpp:113-126 | when every write accepts at least one byte, the whole remainder is sent, in order, with no failure and no diagnostic |
| `DrainProperties.RelayShape` | cmds/bugreportz/bugreportz.cpp:97-127 | the read loop starts with a read, only reads the socket and writes, prints only payload and read/write diagnostics; it ends with a read unless a write failed, and then with that write and its diagnostic |
| `DrainProperties.RelayByteExact` | cmds/bugreportz/bugreportz.cpp:97-127 | when every write makes progress, the read loop's payload is exactly the concatenation of the chunks read, and its only diagnostic is the read-error line when the stream ended with an error |
| `DrainProperties.RelayReadCount` | cmds/bugreportz/bugreportz.cpp:97-111 | unless a write fails, the read loop issues exactly one read per chunk plus one for the end of stream or error (`EndIndex`), so read results after the first non-data one are never consumed |
| `DrainProperties.RelayEndsAtReadError` | cmds/bugreportz/bugreportz.cpp:97-127 | a read loop that ends at a read error with no failed write prints the read line, with the EAGAIN relabelling, as its last output and issues that read as its last call |
| `RunProperties.FailedAttemptsShape` | cmds/bugreportz/bugreportz.cpp:74-80 | k failed attempts are k connect/sleep pairs, alternating from a connect: k connects, no close |
| `RunProperties.StartShape` | cmds/bugreportz/bugreportz.cpp:70-80 | the start request and the retry loop issue only start, connect and sleep calls, k + 1 connects when attempt k succeeds and 20 when none does |
| `RunProperties.ConnectAttempts` | cmds/bugreportz/bugreportz.cpp:74-80 | a run makes at most 20 connection attempts, exactly k + 1 when attempt k is the first to succeed, so later scripted results are never used |
| `RunProperties.HandleUsedThroughout` | cmds/bugreportz/bugreportz.cpp:73-130 | setsockopt, every read and close use the handle of the first successful attempt |
| `RunProperties.ConnectionFailure` | cmds/bugreportz/bugreportz.cpp:74-85 | the program gives up exactly when all 20 attempts return -1, and exactly then prints the connection diagnostic; it returns EXIT_FAILURE with no setsockopt, read, write or close |
| `RunProperties.TimeoutFailureOnlyWarns` | cmds/bugreportz/bugreportz.cpp:93-95 | a failed setsockopt only puts the warning in front of the output; status, the rest of the output and all calls are unchanged |
| `RunProperties.CloseOnSuccessOnly` | cmds/bugreportz/bugreportz.cpp:119-130 | the status is 0 or 1; it is EXIT_SUCCESS exactly when a handle was obtained and no write failed, and then close runs once, last, on that handle; on EXIT_FAILURE close never runs |
| `RunProperties.WriteFailureAborts` | cmds/bugreportz/bugreportz.cpp:119-124 | on EXIT_FAILURE after connecting, the last call is the failed write, the last output is its diagnostic, and the socket is not closed |
| `RunProperties.FirstWriteFails` | cmds/bugreportz/bugreportz.cpp:113-124 | a failing first write of the first chunk gives EXIT_FAILURE, the diagnostic with bytes_read = bytes_to_send = chunk length and the write's errno, and a trace ending with that write |
| `RunProperties.EmptyStream` | cmds/bugreportz/bugreportz.cpp:97-130 | a first read returning 0 gives EXIT_SUCCESS after one read and one close, with no payload |
| `RunProperties.ReadErrorExitsSuccess` | cmds/bugreportz/bugreportz.cpp:103-130 | when the first read returns -1, it is reported with ETIMEDOUT when errno was EAGAIN and with its own errno otherwise; the socket is closed and the status is EXIT_SUCCESS |
| `RunProperties.ReadErrorEndsRun` | cmds/bugreportz/bugreportz.cpp:97-130 | whichever read returns -1, after any chunks and whatever the writes accepted (a 0-byte write included), a run that reaches it without a failed write prints the relabelled read line last, closes the handle last and exits with EXIT_SUCCESS |
| `BugreportzSpec.ReportedErrno` | cmds/bugreportz/bugreportz.cpp:104-107 | the reported errno is ETIMEDOUT exactly for EAGAIN and ETIMEDOUT; any errno other than EAGAIN is reported unchanged |
| `RunProperties.ConnectedRun` | cmds/bugreportz/bugreportz.cpp:93-130 | once connected, the output is the timeout warning (if setsockopt failed) followed by the read loop's output; the run closes the handle and succeeds unless a write failed, and then returns EXIT_FAILURE without close |
| `RunProperties.ByteExact` | cmds/bugreportz/bugreportz.cpp:97-130 | once connected, if every write accepts at least one byte: EXIT_SUCCESS, close last, payload equal to the concatenation of all chunks read in order, and no diagnostics besides the timeout warning and the read-error line |
| `RunProperties.StalledDrain` | cmds/bugreportz/bugreportz.cpp:115-126 | n bytes accepted and then a 0-byte write end the drain loop without failure, with only the first n bytes of the chunk sent |
| `RunProperties.ZeroWriteDropsRest` | cmds/bugreportz/bugreportz.cpp:113-126 | when the first chunk's drain stalls on a 0-byte write after n bytes and every later write makes progress, the rest of that chunk is missing from the output, the later chunks follow in full, and the run still exits with EXIT_SUCCESS |
| `RunProperties.StalledRelay` | cmds/bugreportz/bugreportz.cpp:97-127 | after n bytes and a 0-byte write on the first chunk, the read loop prints the chunk's first n bytes and then every later chunk in full, without failure |
| `RunProperties.DiagnosticsInterleaveWithPayload` | cmds/bugreportz/bugreportz.cpp:93-110 | the setsockopt warning is printed, the payload written and the read-timeout line printed, in that call order, on standard output, and the run succeeds |
| `RunProperties.TwoChunksThenEof` | cmds/bugreportz/bugreportz.cpp:97-130 | chunks of 1024 and 2048 bytes then end of stream put exactly those 3072 bytes on standard output and exit with EXIT_SUCCESS |
| `RunProperties.TimeoutOnThirdRead` | cmds/bugreportz/bugreportz.cpp:97-130 | two chunks and then a timed-out read write exactly the two chunks to standard output, print the ETIMEDOUT line as the last line of standard output, and the status is EXIT_SUCCESS |

## Left out

- stdio buffering of `printf`. `Outcome.stdout` records the `printf` lines and the `write(2)` payload in the order the calls are made. When standard output is not a terminal (a pipe, for example), stdio fully buffers `printf` and hands the lines to file descriptor 1 only at exit, so they can arrive after payload written later. The write-failure line (line 120) is flushed at exit to the descriptor whose write just failed, so it may not arrive at all.
- RunProperties.DiagnosticsInterleaveWithPayload, RunProperties.TimeoutOnThirdRead: the order they state is the order of the calls, not necessarily the order of the bytes on file descriptor 1, because of the buffering above.

- Argument parsing with `getopt` and the usage and version text (lines 41-64). They depend on `getopt`/`optind` behaviour outside this file and are not part of the relay.
- `property_set`, `socket_local_client`, `setsockopt`, `read`, `write` and `close` as real system calls. They are foreign calls, so each appears only as a scripted result and an entry in the call trace.
- `sleep(1)` and the 10-minute `SO_RCVTIMEO` value. Wall-clock time is not modelled: a sleep is a call in the trace, a timed-out read arrives as `ReadError(EAGAIN)`, and setsockopt is modelled only as succeeding or failing.
- `TEMP_FAILURE_RETRY`. Each scripted read or write result stands for the result after EINTR retries.
- `strerror` text and the exact `printf` formats. A diagnostic records only which line was printed, plus the numbers it prints. The connection diagnostic carries no errno, because connect results are scripted without one.
- Script exhaustion: a connect past the end of its script returns -1, a read returns end of stream, and a write accepts everything requested. Without this the finite scripts could not drive unbounded runs.
- Connect results below -1 are excluded by `ConnectResult`: socket_local_client returns only a descriptor or -1. For such a value the loop's `s >= 0` test and the later `s == -1` test would disagree.
- `int s` starts uninitialised in the source; the model starts it at -1. This is unobservable, because the loop always assigns it before it is read.
- `ssize_t` width and overflow. Counts never exceed 65536, so unbounded integers change nothing.
- Bugreportz.SendChunk, Bugreportz.RelayLoop: the drain and read loops are separate methods that hand back `DrainOutcome`/`RelayOutcome`. The source's `return EXIT_FAILURE` from inside the inner loop is modelled as a `failed` flag that `Run` turns into the return.
