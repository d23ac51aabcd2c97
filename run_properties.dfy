/**
 Properties of one whole run of bugreportz (lines 69-130 of bugreportz.cpp),
 stated on BugreportzSpec.Bugreportz and therefore, through Bugreportz.Run's
 postcondition, on the imperative program too. They describe the program as
 written, including where it differs from what a byte relay is usually
 expected to do: a write that returns 0 drops the rest of its chunk, a read error still exits with
 EXIT_SUCCESS, and every diagnostic is printed with printf on standard
 output, the stream the payload is written to, between the writes of the
 payload.
 */
module RunProperties {
  import opened ScriptedIo
  import opened Observations
  import opened BugreportzSpec
  import opened DrainProperties

  /**
   k failed attempts are k connect/sleep pairs: connects and sleeps only,
   alternating from a connect, k of them connects.
   */
  lemma {:induction false} FailedAttemptsShape(k: nat)
    ensures forall i :: 0 <= i < |FailedAttempts(k)| ==>
      FailedAttempts(k)[i] == if i % 2 == 0 then Connect else Sleep
    ensures forall c :: c in FailedAttempts(k) ==> c == Connect || c == Sleep
    ensures Count(FailedAttempts(k), IsConnect) == k
    ensures Count(FailedAttempts(k), IsClose) == 0
  {
    if k > 0 {
      FailedAttemptsShape(k - 1);
      forall i | 0 <= i < |FailedAttempts(k)|
        ensures FailedAttempts(k)[i] == if i % 2 == 0 then Connect else Sleep
      {
        if i < 2 * (k - 1) {
          assert FailedAttempts(k)[i] == FailedAttempts(k - 1)[i];
        }
      }
      CountAppend(FailedAttempts(k - 1), [Connect, Sleep], IsConnect);
      CountAppend(FailedAttempts(k - 1), [Connect, Sleep], IsClose);
    }
  }

  /** The start request and the retry loop issue no close and at most MaxAttempts connects. */
  lemma StartShape(k: nat)
    requires k <= MaxAttempts
    ensures var start := [StartService] + ConnectCalls(k);
      && (forall c :: c in start ==> c == StartService || c == Connect || c == Sleep)
      && Count(start, IsConnect) == (if k < MaxAttempts then k + 1 else MaxAttempts)
      && Count(start, IsClose) == 0
  {
    FailedAttemptsShape(k);
    CountAppend([StartService], ConnectCalls(k), IsConnect);
    CountAppend([StartService], ConnectCalls(k), IsClose);
    if k < MaxAttempts {
      CountAppend(FailedAttempts(k), [Connect], IsConnect);
      CountAppend(FailedAttempts(k), [Connect], IsClose);
    }
  }

  /** The read loop's call trace contains no connect and no close. */
  lemma RelayCountsNoConnectOrClose(s: int, rs: seq<ReadResult>, ws: seq<WriteResult>)
    ensures Count(Relay(s, rs, 0, ws, 0).eff.calls, IsConnect) == 0
    ensures Count(Relay(s, rs, 0, ws, 0).eff.calls, IsClose) == 0
  {
    var calls := Relay(s, rs, 0, ws, 0).eff.calls;
    RelayShape(s, rs, 0, ws, 0);
    assert forall i :: 0 <= i < |calls| ==> calls[i] in calls;
    CountNone(calls, IsConnect);
    CountNone(calls, IsClose);
  }

  /**
   The retry loop makes at most MaxAttempts connection attempts and stops at
   the first one that returns a handle: exactly k + 1 attempts when attempt k
   is the first to succeed, so later scripted results are never used.
   */
  lemma ConnectAttempts(script: Script)
    ensures var o := Bugreportz(script);
      var k := FirstHandle(script.connectResults, 0);
      && Count(o.calls, IsConnect) == (if k < MaxAttempts then k + 1 else MaxAttempts)
      && Count(o.calls, IsConnect) <= MaxAttempts
  {
    var o := Bugreportz(script);
    var k := FirstHandle(script.connectResults, 0);
    var start := [StartService] + ConnectCalls(k);
    StartShape(k);
    if k < MaxAttempts {
      var s := ConnectAt(script.connectResults, k);
      var r := Relay(s, script.readResults, 0, script.writeResults, 0);
      RelayCountsNoConnectOrClose(s, script.readResults, script.writeResults);
      var calls := start + [SetTimeout(s)] + r.eff.calls;
      CountAppend(start, [SetTimeout(s)], IsConnect);
      CountAppend(start + [SetTimeout(s)], r.eff.calls, IsConnect);
      CountAppend(calls, [Close(s)], IsConnect);
      assert Count(calls, IsConnect) == k + 1;
      assert Count(calls + [Close(s)], IsConnect) == k + 1;
      assert o.calls == calls || o.calls == calls + [Close(s)];
    }
  }

  /**
   The handle the retry loop obtained is the one every later setsockopt, read
   and close uses.
   */
  lemma HandleUsedThroughout(script: Script)
    ensures var o := Bugreportz(script);
      forall c :: c in o.calls && (c.SetTimeout? || c.Read? || c.Close?) ==>
        c.fd == Handle(script.connectResults) && c.fd >= 0
  {
    var o := Bugreportz(script);
    var k := FirstHandle(script.connectResults, 0);
    var start := [StartService] + ConnectCalls(k);
    StartShape(k);
    if k < MaxAttempts {
      var s := ConnectAt(script.connectResults, k);
      var r := Relay(s, script.readResults, 0, script.writeResults, 0);
      RelayShape(s, script.readResults, 0, script.writeResults, 0);
      var calls := start + [SetTimeout(s)] + r.eff.calls;
      assert o.calls == calls || o.calls == calls + [Close(s)];
      forall c | c in o.calls && (c.SetTimeout? || c.Read? || c.Close?)
        ensures c.fd == s
      {
        assert c in start || c == SetTimeout(s) || c in r.eff.calls || c == Close(s);
      }
    } else {
      assert o.calls == start;
    }
  }

  /**
   The program gives up exactly when all MaxAttempts attempts return -1. It
   then prints the connection diagnostic and returns EXIT_FAILURE before any
   setsockopt, read, write or close, having slept after every attempt.
   */
  lemma ConnectionFailure(script: Script)
    ensures var o := Bugreportz(script);
      && (Handle(script.connectResults) == -1
          <==> forall j :: 0 <= j < MaxAttempts ==> ConnectAt(script.connectResults, j) == -1)
      && (Handle(script.connectResults) == -1 <==> Diag(ConnectFailed) in o.stdout)
      && (Handle(script.connectResults) == -1 ==>
            && o.status == EXIT_FAILURE
            && o.stdout == [Diag(ConnectFailed)]
            && o.calls == [StartService] + FailedAttempts(MaxAttempts)
            && (forall c :: c in o.calls ==> c == StartService || c == Connect || c == Sleep))
  {
    var connects := script.connectResults;
    var k := FirstHandle(connects, 0);
    StartShape(k);
    if k < MaxAttempts {
      var s := ConnectAt(connects, k);
      var r := Relay(s, script.readResults, 0, script.writeResults, 0);
      RelayShape(s, script.readResults, 0, script.writeResults, 0);
      assert Diag(ConnectFailed) !in r.eff.stdout;
    }
  }

  /**
   A run that obtained a handle prints the timeout warning, if any, then what
   the read loop printed; it closes the handle and succeeds unless a write
   failed.
   */
  lemma ConnectedRun(script: Script)
    requires Handle(script.connectResults) != -1
    ensures var o := Bugreportz(script);
      var s := Handle(script.connectResults);
      var r := Relay(s, script.readResults, 0, script.writeResults, 0);
      var warning := if script.timeoutApplied then [] else [Diag(TimeoutNotSet)];
      var calls := [StartService] + ConnectCalls(FirstHandle(script.connectResults, 0)) + [SetTimeout(s)] + r.eff.calls;
      && o.stdout == warning + r.eff.stdout
      && (r.writeFailed ==> o.status == EXIT_FAILURE && o.calls == calls)
      && (!r.writeFailed ==> o.status == EXIT_SUCCESS && o.calls == calls + [Close(s)])
  {
  }

  /**
   A failed setsockopt only adds the warning line in front of the output:
   the status, the rest of standard output and every call are the same as
   when the timeout was applied.
   */
  lemma TimeoutFailureOnlyWarns(script: Script)
    requires Handle(script.connectResults) != -1
    ensures var applied := Bugreportz(script.(timeoutApplied := true));
      var failed := Bugreportz(script.(timeoutApplied := false));
      && failed.status == applied.status
      && failed.calls == applied.calls
      && failed.stdout == [Diag(TimeoutNotSet)] + applied.stdout
  {
    var r := Relay(Handle(script.connectResults), script.readResults, 0, script.writeResults, 0);
    ConnectedRun(script.(timeoutApplied := true));
    ConnectedRun(script.(timeoutApplied := false));
    assert [] + r.eff.stdout == r.eff.stdout;
  }

  /**
   The program returns EXIT_SUCCESS or EXIT_FAILURE. EXIT_SUCCESS happens
   exactly when a handle was obtained and no write failed; then `close` runs
   exactly once, as the very last call, on that handle. On EXIT_FAILURE
   `close` never runs.
   */
  lemma CloseOnSuccessOnly(script: Script)
    ensures var o := Bugreportz(script);
      var s := Handle(script.connectResults);
      && (o.status == EXIT_SUCCESS || o.status == EXIT_FAILURE)
      && (o.status == EXIT_SUCCESS
          <==> s != -1 && !Relay(s, script.readResults, 0, script.writeResults, 0).writeFailed)
      && (o.status == EXIT_SUCCESS ==> Count(o.calls, IsClose) == 1 && Last(o.calls) == Close(s))
      && (o.status == EXIT_FAILURE ==> Count(o.calls, IsClose) == 0)
  {
    var k := FirstHandle(script.connectResults, 0);
    var start := [StartService] + ConnectCalls(k);
    StartShape(k);
    if k < MaxAttempts {
      var s := ConnectAt(script.connectResults, k);
      var r := Relay(s, script.readResults, 0, script.writeResults, 0);
      RelayCountsNoConnectOrClose(s, script.readResults, script.writeResults);
      CountAppend(start, [SetTimeout(s)], IsClose);
      CountAppend(start + [SetTimeout(s)], r.eff.calls, IsClose);
      CountAppend(start + [SetTimeout(s)] + r.eff.calls, [Close(s)], IsClose);
    }
  }

  /**
   Once connected, a write returning -1 is the last thing the program does:
   it prints the write diagnostic (as its last output) and returns
   EXIT_FAILURE with no further read and without closing the handle.
   */
  lemma WriteFailureAborts(script: Script)
    requires Handle(script.connectResults) != -1
    ensures var o := Bugreportz(script);
      o.status == EXIT_FAILURE ==>
        && Last(o.calls).Write?
        && |o.stdout| > 0 && Last(o.stdout).Diag? && Last(o.stdout).diagnostic.WriteFailed?
        && Close(Handle(script.connectResults)) !in o.calls
  {
    var o := Bugreportz(script);
    var k := FirstHandle(script.connectResults, 0);
    var s := ConnectAt(script.connectResults, k);
    var r := Relay(s, script.readResults, 0, script.writeResults, 0);
    var start := [StartService] + ConnectCalls(k);
    var warning := if script.timeoutApplied then [] else [Diag(TimeoutNotSet)];
    StartShape(k);
    RelayShape(s, script.readResults, 0, script.writeResults, 0);
    if r.writeFailed {
      assert o == Outcome(EXIT_FAILURE, warning + r.eff.stdout, start + [SetTimeout(s)] + r.eff.calls);
      assert Close(s) !in start;
      assert Close(s) !in r.eff.calls;
    }
  }

  /**
   The first write of the first chunk failing: the diagnostic carries
   bytes_read and bytes_to_send (both the chunk's length) and the write's
   errno; the trace ends with that write.
   */
  lemma FirstWriteFails(script: Script, chunk: Chunk, errno: int)
    requires Handle(script.connectResults) != -1
    requires ReadAt(script.readResults, 0) == Data(chunk)
    requires WriteAt(script.writeResults, 0) == WriteError(errno)
    ensures var o := Bugreportz(script);
      var s := Handle(script.connectResults);
      var warning := if script.timeoutApplied then [] else [Diag(TimeoutNotSet)];
      && o.status == EXIT_FAILURE
      && o.stdout == warning + [Diag(WriteFailed(|chunk|, |chunk|, errno))]
      && o.calls == [StartService] + ConnectCalls(FirstHandle(script.connectResults, 0))
                    + [SetTimeout(s), Read(s), Write(0, |chunk|)]
  {
  }

  /**
   A stream that ends at once (the very first read returns 0) is still a
   success: one read, one close, no payload.
   */
  lemma EmptyStream(script: Script)
    requires Handle(script.connectResults) != -1
    requires ReadAt(script.readResults, 0) == Eof
    ensures var o := Bugreportz(script);
      var s := Handle(script.connectResults);
      var warning := if script.timeoutApplied then [] else [Diag(TimeoutNotSet)];
      && o.status == EXIT_SUCCESS
      && o.stdout == warning
      && PayloadOf(o.stdout) == []
      && o.calls == [StartService] + ConnectCalls(FirstHandle(script.connectResults, 0))
                    + [SetTimeout(s), Read(s), Close(s)]
  {
    var warning := if script.timeoutApplied then [] else [Diag(TimeoutNotSet)];
    PayloadOfDiagsOnly(warning);
  }

  /**
   A read returning -1 ends the read loop: EAGAIN (what a read that hit the
   receive timeout reports) is printed as ETIMEDOUT, any other errno as it
   is; the handle is closed and the program returns EXIT_SUCCESS.
   */
  lemma ReadErrorExitsSuccess(script: Script, errno: int)
    requires Handle(script.connectResults) != -1
    requires ReadAt(script.readResults, 0) == ReadError(errno)
    ensures var o := Bugreportz(script);
      var s := Handle(script.connectResults);
      var warning := if script.timeoutApplied then [] else [Diag(TimeoutNotSet)];
      && o.status == EXIT_SUCCESS
      && o.stdout == warning + [Diag(ReadTerminated(if errno == EAGAIN then ETIMEDOUT else errno))]
      && o.calls == [StartService] + ConnectCalls(FirstHandle(script.connectResults, 0))
                    + [SetTimeout(s), Read(s), Close(s)]
  {
  }

  /**
   Whichever read fails, after any number of chunks and whatever the writes
   accepted (a 0-byte write included), a run that reaches the read error
   without a failed write prints the relabelled read diagnostic last, closes
   the handle last and exits with EXIT_SUCCESS.
   */
  lemma ReadErrorEndsRun(script: Script)
    requires Handle(script.connectResults) != -1
    ensures var o := Bugreportz(script);
      var s := Handle(script.connectResults);
      var r := Relay(s, script.readResults, 0, script.writeResults, 0);
      var end := EndOf(script.readResults, 0);
      !r.writeFailed && end.Failed? ==>
        && o.status == EXIT_SUCCESS
        && |o.stdout| > 0
        && Last(o.stdout) == Diag(ReadTerminated(ReportedErrno(end.errno)))
        && Last(o.calls) == Close(s)
  {
    var o := Bugreportz(script);
    var s := Handle(script.connectResults);
    var r := Relay(s, script.readResults, 0, script.writeResults, 0);
    var warning := if script.timeoutApplied then [] else [Diag(TimeoutNotSet)];
    ConnectedRun(script);
    if !r.writeFailed && EndOf(script.readResults, 0).Failed? {
      RelayEndsAtReadError(s, script.readResults, 0, script.writeResults, 0);
      assert Last(warning + r.eff.stdout) == Last(r.eff.stdout);
    }
  }

  /**
   Byte-exactness: when a handle is obtained and every write accepts at least
   one byte, the program exits with EXIT_SUCCESS after closing the handle, the
   payload on standard output is exactly the concatenation of all chunks the
   channel delivered, in order, and the only other lines are the timeout
   warning and, if the stream ended with a read error, the read diagnostic.
   */
  lemma ByteExact(script: Script)
    requires Handle(script.connectResults) != -1
    requires WritesProgress(script.writeResults, 0)
    ensures var o := Bugreportz(script);
      var warning := if script.timeoutApplied then [] else [TimeoutNotSet];
      && o.status == EXIT_SUCCESS
      && Last(o.calls) == Close(Handle(script.connectResults))
      && PayloadOf(o.stdout) == StreamData(script.readResults, 0)
      && DiagsOf(o.stdout) == warning + EndDiags(EndOf(script.readResults, 0))
  {
    var o := Bugreportz(script);
    var s := Handle(script.connectResults);
    var r := Relay(s, script.readResults, 0, script.writeResults, 0);
    var warning := if script.timeoutApplied then [] else [Diag(TimeoutNotSet)];
    assert !r.writeFailed
        && PayloadOf(r.eff.stdout) == StreamData(script.readResults, 0)
        && DiagsOf(r.eff.stdout) == EndDiags(EndOf(script.readResults, 0)) by {
      RelayByteExact(s, script.readResults, 0, script.writeResults, 0);
    }
    assert o.status == EXIT_SUCCESS && o.stdout == warning + r.eff.stdout && Last(o.calls) == Close(s) by {
      ConnectedRun(script);
    }
    WarningThenRelay(o.stdout, script.timeoutApplied, r.eff.stdout);
  }

  /** The timeout warning in front of the read loop's output adds no payload and one diagnostic. */
  lemma WarningThenRelay(out: seq<Emit>, applied: bool, rest: seq<Emit>)
    requires out == (if applied then [] else [Diag(TimeoutNotSet)]) + rest
    ensures PayloadOf(out) == PayloadOf(rest)
    ensures DiagsOf(out) == (if applied then [] else [TimeoutNotSet]) + DiagsOf(rest)
  {
    var warning := if applied then [] else [Diag(TimeoutNotSet)];
    PayloadOfJoined(out, warning, rest);
    PayloadOfDiagsOnly(warning);
    DiagsOfAppend(warning, rest);
  }

  /**
   The drain loop of ZeroWriteDropsRest: `n` bytes, then a write of none,
   ends the loop without failure after the prefix of `n` bytes.
   */
  lemma StalledDrain(chunk: Chunk, n: nat, ws: seq<WriteResult>)
    requires n < |chunk|
    requires n == 0 ==> WriteAt(ws, 0) == Accepted(0)
    requires n > 0 ==> WriteAt(ws, 0) == Accepted(n) && WriteAt(ws, 1) == Accepted(0)
    ensures var d := Drain(chunk, |chunk|, ws, 0);
      && !d.failed
      && d.next == (if n == 0 then 1 else 2)
      && d.left == |chunk| - n
      && PayloadOf(d.eff.stdout) == chunk[..n]
  {
    var d := Drain(chunk, |chunk|, ws, 0);
    if n > 0 {
      var second := Drain(chunk, |chunk| - n, ws, 1);
      assert second == DrainOutcome(Effects([Payload(chunk[n..n])], [Write(n, |chunk| - n)]), 2, |chunk| - n, false);
      assert d == PrependDrain(Effects([Payload(chunk[0..n])], [Write(0, |chunk|)]), second);
      assert d.eff.stdout == [Payload(chunk[0..n])] + [Payload(chunk[n..n])];
      PayloadOfAppend([Payload(chunk[0..n])], [Payload(chunk[n..n])]);
      assert PayloadOf([Payload(chunk[0..n])]) == chunk[0..n];
      assert PayloadOf([Payload(chunk[n..n])]) == [];
      assert chunk[0..n] == chunk[..n];
    } else {
      assert d.eff.stdout == [Payload(chunk[0..0])];
    }
    assert PayloadOf(d.eff.stdout) == chunk[..n];
  }

  /**
   A write that returns 0 ends the drain loop: whatever of the chunk was not
   yet sent is dropped and the program goes on with the next read. Here the
   first write of the first chunk accepts `n` < |chunk| bytes and the
   following one accepts none; everything later is written in full.
   */
  lemma ZeroWriteDropsRest(script: Script, chunk: Chunk, n: nat)
    requires Handle(script.connectResults) != -1
    requires ReadAt(script.readResults, 0) == Data(chunk)
    requires n < |chunk|
    requires n == 0 ==> WriteAt(script.writeResults, 0) == Accepted(0)
    requires n > 0 ==> WriteAt(script.writeResults, 0) == Accepted(n) && WriteAt(script.writeResults, 1) == Accepted(0)
    requires WritesProgress(script.writeResults, if n == 0 then 1 else 2)
    ensures var o := Bugreportz(script);
      && o.status == EXIT_SUCCESS
      && PayloadOf(o.stdout) == chunk[..n] + StreamData(script.readResults, 1)
      && StreamData(script.readResults, 0) == chunk + StreamData(script.readResults, 1)
  {
    var s := Handle(script.connectResults);
    var r := Relay(s, script.readResults, 0, script.writeResults, 0);
    StalledRelay(s, script.readResults, script.writeResults, chunk, n);
    var warning := if script.timeoutApplied then [] else [Diag(TimeoutNotSet)];
    assert PayloadOf(warning + r.eff.stdout) == PayloadOf(r.eff.stdout) by {
      PayloadOfAppend(warning, r.eff.stdout);
      PayloadOfDiagsOnly(warning);
    }
  }

  /** The read loop of ZeroWriteDropsRest: the stalled chunk's prefix, then every later chunk in full. */
  lemma StalledRelay(s: int, rs: seq<ReadResult>, ws: seq<WriteResult>, chunk: Chunk, n: nat)
    requires ReadAt(rs, 0) == Data(chunk)
    requires n < |chunk|
    requires n == 0 ==> WriteAt(ws, 0) == Accepted(0)
    requires n > 0 ==> WriteAt(ws, 0) == Accepted(n) && WriteAt(ws, 1) == Accepted(0)
    requires WritesProgress(ws, if n == 0 then 1 else 2)
    ensures var r := Relay(s, rs, 0, ws, 0);
      && !r.writeFailed
      && PayloadOf(r.eff.stdout) == chunk[..n] + StreamData(rs, 1)
  {
    var d := Drain(chunk, |chunk|, ws, 0);
    var next := if n == 0 then 1 else 2;
    assert !d.failed && d.next == next && PayloadOf(d.eff.stdout) == chunk[..n] by {
      StalledDrain(chunk, n, ws);
    }
    var rest := Relay(s, rs, 1, ws, next);
    assert !rest.writeFailed && PayloadOf(rest.eff.stdout) == StreamData(rs, 1) by {
      RelayByteExact(s, rs, 1, ws, next);
    }
    var r := Relay(s, rs, 0, ws, 0);
    assert !r.writeFailed && r.eff.stdout == d.eff.stdout + rest.eff.stdout by {
      RelayOnData(s, rs, 0, ws, 0, chunk);
    }
    PayloadOfJoined(r.eff.stdout, d.eff.stdout, rest.eff.stdout);
  }

  /**
   Diagnostics and payload go to the same standard output: with a failed
   setsockopt, one chunk and a timed-out read, the program prints the
   warning, writes the chunk and prints the read-timeout line, in that call
   order, and the run still succeeds.
   */
  lemma DiagnosticsInterleaveWithPayload(script: Script, chunk: Chunk)
    requires ConnectAt(script.connectResults, 0) >= 0
    requires !script.timeoutApplied
    requires script.readResults == [Data(chunk), ReadError(EAGAIN)]
    requires script.writeResults == []
    ensures var o := Bugreportz(script);
      && o.status == EXIT_SUCCESS
      && o.stdout == [Diag(TimeoutNotSet), Payload(chunk), Diag(ReadTerminated(ETIMEDOUT))]
  {
    var s := ConnectAt(script.connectResults, 0);
    var rs, ws := script.readResults, script.writeResults;
    var d := Drain(chunk, |chunk|, ws, 0);
    assert WriteReturn(WriteAt(ws, 0), |chunk|) == |chunk|;
    assert chunk[0..|chunk|] == chunk;
    assert d == DrainOutcome(Effects([Payload(chunk)], [Write(0, |chunk|)]), 1, 0, false);
    var second := Relay(s, rs, 1, ws, 1);
    assert second.eff.stdout == [Diag(ReadTerminated(ETIMEDOUT))];
    assert Relay(s, rs, 0, ws, 0) == PrependRelay(Effects([], [Read(s)]).Then(d.eff), second);
  }

  /**
   Chunks of 1024 and 2048 bytes followed by end of stream, with every write
   making progress, put exactly those 3072 bytes on standard output in order
   and exit with EXIT_SUCCESS.
   */
  lemma TwoChunksThenEof(script: Script, c1: Chunk, c2: Chunk)
    requires Handle(script.connectResults) != -1
    requires |c1| == 1024 && |c2| == 2048
    requires script.readResults == [Data(c1), Data(c2), Eof]
    requires WritesProgress(script.writeResults, 0)
    ensures var o := Bugreportz(script);
      && o.status == EXIT_SUCCESS
      && PayloadOf(o.stdout) == c1 + c2
      && |PayloadOf(o.stdout)| == 3072
  {
    var rs := script.readResults;
    ByteExact(script);
    assert StreamData(rs, 2) == [];
    assert StreamData(rs, 1) == c2;
    assert StreamData(rs, 0) == c1 + c2;
  }

  /**
   Two chunks and then a read that times out: exactly the two chunks are
   written to standard output, and the timeout line is printed after them;
   the program exits with EXIT_SUCCESS, not with a failure status.
   */
  lemma TimeoutOnThirdRead(script: Script, c1: Chunk, c2: Chunk)
    requires Handle(script.connectResults) != -1
    requires script.readResults == [Data(c1), Data(c2), ReadError(EAGAIN)]
    requires WritesProgress(script.writeResults, 0)
    ensures var o := Bugreportz(script);
      && o.status == EXIT_SUCCESS
      && PayloadOf(o.stdout) == c1 + c2
      && DiagsOf(o.stdout) == (if script.timeoutApplied then [] else [TimeoutNotSet])
                              + [ReadTerminated(ETIMEDOUT)]
      && |o.stdout| > 0
      && Last(o.stdout) == Diag(ReadTerminated(ETIMEDOUT))
  {
    var rs := script.readResults;
    var s := Handle(script.connectResults);
    ByteExact(script);
    RelayByteExact(s, rs, 0, script.writeResults, 0);
    ReadErrorEndsRun(script);
    assert StreamData(rs, 2) == [];
    assert StreamData(rs, 1) == c2;
    assert StreamData(rs, 0) == c1 + c2;
    assert EndOf(rs, 2) == Failed(EAGAIN);
    assert EndOf(rs, 1) == Failed(EAGAIN);
    assert EndOf(rs, 0) == Failed(EAGAIN);
  }
}
