/**
 bugreportz's main after argument parsing, written as the program runs it:
 a retry loop over connection attempts, then a read loop over one reused
 64 KiB buffer whose inner loop drains each chunk to standard output. Each
 method is proved to produce what the corresponding function of
 BugreportzSpec describes.
 */
module Bugreportz {
  import opened ScriptedIo
  import opened Observations
  import opened BugreportzSpec

  /**
   Up to MaxAttempts connection attempts, sleeping one second after each
   failure; the first handle obtained ends the loop.
   */
  method ConnectWithRetry(connects: seq<ConnectResult>) returns (s: int, calls: seq<Call>)
    ensures s == Handle(connects)
    ensures calls == ConnectCalls(FirstHandle(connects, 0))
  {
    ghost var total := RetryFrom(connects, 0, []);
    s := -1;
    calls := [];
    var i := 0;
    while i < MaxAttempts
      invariant 0 <= i <= MaxAttempts
      invariant FirstHandle(connects, 0) == FirstHandle(connects, i)
      invariant RetryFrom(connects, i, calls) == total
      invariant s == -1
    {
      s := ConnectAt(connects, i);
      if s >= 0 {
        calls := calls + [Connect];
        break;
      }
      calls := calls + [Connect, Sleep];
      i := i + 1;
    }
    assert calls == ConnectCalls(FirstHandle(connects, 0)) by {
      RetryFromFailed(connects, 0);
    }
  }

  /**
   The do-while loop that writes the first `bytesRead` bytes of `buffer` to
   standard output, each write starting at offset bytesRead - bytesToSend.
   */
  method SendChunk(buffer: array<byte>, bytesRead: nat, ws: seq<WriteResult>, wi: nat)
    returns (d: DrainOutcome)
    requires buffer.Length == BufferSize
    requires 0 < bytesRead <= BufferSize
    ensures d == Drain(buffer[..bytesRead], bytesRead, ws, wi)
  {
    ghost var chunk := buffer[..bytesRead];
    ghost var total := DrainFrom(chunk, bytesRead, ws, wi, [], []);
    var out: seq<Emit> := [];
    var calls: seq<Call> := [];
    var next := wi;
    var bytesToSend := bytesRead;
    while true
      invariant 0 < bytesToSend <= bytesRead
      invariant buffer[..bytesRead] == chunk
      invariant DrainFrom(chunk, bytesToSend, ws, next, out, calls) == total
      decreases bytesToSend
    {
      var offset := bytesRead - bytesToSend;
      var w := WriteAt(ws, next);
      var bytesWritten := WriteReturn(w, bytesToSend);
      if bytesWritten == -1 {
        out := out + [Diag(WriteFailed(bytesRead, bytesToSend, w.errno))];
        calls := calls + [Write(offset, bytesToSend)];
        d := DrainOutcome(Effects(out, calls), next + 1, bytesToSend, true);
        break;
      }
      var sent := buffer[offset..offset + bytesWritten];
      assert sent == chunk[offset..offset + bytesWritten] by {
        SliceOfPrefix(buffer[..], bytesRead, offset, offset + bytesWritten);
      }
      out := out + [Payload(sent)];
      calls := calls + [Write(offset, bytesToSend)];
      bytesToSend := bytesToSend - bytesWritten;
      next := next + 1;
      if !(bytesWritten != 0 && bytesToSend > 0) {
        d := DrainOutcome(Effects(out, calls), next, bytesToSend, false);
        break;
      }
    }
    assert d == total;
    DrainFromPrepends(chunk, bytesRead, ws, wi, [], []);
    PrependDrainNothing(Drain(chunk, bytesRead, ws, wi));
  }

  /**
   The `while (1)` loop on handle `s`: read into the buffer, stop on end of
   stream or on a read error (relabelling EAGAIN as ETIMEDOUT), otherwise
   drain the chunk; a failed write ends the loop with writeFailed.
   */
  method RelayLoop(s: int, rs: seq<ReadResult>, ws: seq<WriteResult>) returns (r: RelayOutcome)
    ensures r == Relay(s, rs, 0, ws, 0)
  {
    var buffer := new byte[BufferSize];
    ghost var total := RelayFrom(s, rs, 0, ws, 0, [], []);
    var out: seq<Emit> := [];
    var calls: seq<Call> := [];
    var ri, wi := 0, 0;
    while true
      invariant ri <= |rs|
      invariant RelayFrom(s, rs, ri, ws, wi, out, calls) == total
      decreases |rs| - ri
    {
      var result := ReadAt(rs, ri);
      var bytesRead := SysRead(buffer, result);
      calls := calls + [Read(s)];
      if bytesRead == 0 {
        r := RelayOutcome(Effects(out, calls), false);
        break;
      } else if bytesRead == -1 {
        var errno := result.errno;
        if errno == EAGAIN {
          errno := ETIMEDOUT;
        }
        out := out + [Diag(ReadTerminated(errno))];
        r := RelayOutcome(Effects(out, calls), false);
        break;
      }
      var d := SendChunk(buffer, bytesRead, ws, wi);
      assert buffer[..bytesRead] == result.bytes;
      out := out + d.eff.stdout;
      calls := calls + d.eff.calls;
      if d.failed {
        r := RelayOutcome(Effects(out, calls), true);
        break;
      }
      ri, wi := ri + 1, d.next;
    }
    assert r == total;
    RelayFromPrepends(s, rs, 0, ws, 0, [], []);
    PrependRelayNothing(Relay(s, rs, 0, ws, 0));
  }

  /** One run of bugreportz without arguments, returning what it observably did. */
  method Run(script: Script) returns (o: Outcome)
    ensures o == Bugreportz(script)
  {
    var calls := [StartService];
    var s, attempts := ConnectWithRetry(script.connectResults);
    calls := calls + attempts;
    if s == -1 {
      return Outcome(EXIT_FAILURE, [Diag(ConnectFailed)], calls);
    }
    var out: seq<Emit> := [];
    calls := calls + [SetTimeout(s)];
    if !script.timeoutApplied {
      out := out + [Diag(TimeoutNotSet)];
    }
    var r := RelayLoop(s, script.readResults, script.writeResults);
    out := out + r.eff.stdout;
    calls := calls + r.eff.calls;
    if r.writeFailed {
      return Outcome(EXIT_FAILURE, out, calls);
    }
    calls := calls + [Close(s)];
    o := Outcome(EXIT_SUCCESS, out, calls);
  }
}
