/**
 The behaviour of bugreportz's main (after argument parsing) as functions of
 the script: the connect-retry loop, the read loop and the partial-write
 drain loop, each as it is written in the program.
 */
module BugreportzSpec {
  import opened ScriptedIo
  import opened Observations

  /**
   The index of the first attempt, from attempt `i` on, whose connect returns
   a handle, or MaxAttempts when none of attempts i .. MaxAttempts-1 does.
   */
  function FirstHandle(connects: seq<ConnectResult>, i: nat): (k: nat)
    requires i <= MaxAttempts
    ensures i <= k <= MaxAttempts
    ensures k < MaxAttempts ==> ConnectAt(connects, k) >= 0
    ensures forall j :: i <= j < k ==> ConnectAt(connects, j) == -1
    decreases MaxAttempts - i
  {
    if i == MaxAttempts then MaxAttempts
    else if ConnectAt(connects, i) >= 0 then i
    else FirstHandle(connects, i + 1)
  }

  /** `k` failed attempts: each connect is followed by a one-second sleep. */
  function FailedAttempts(k: nat): (calls: seq<Call>)
    ensures |calls| == 2 * k
  {
    if k == 0 then [] else FailedAttempts(k - 1) + [Connect, Sleep]
  }

  /** The calls of the retry loop when attempt `k` is the first to obtain a handle. */
  function ConnectCalls(k: nat): (calls: seq<Call>)
    requires k <= MaxAttempts
    ensures |calls| == if k < MaxAttempts then 2 * k + 1 else 2 * MaxAttempts
    ensures Last(calls) == if k < MaxAttempts then Connect else Sleep
  {
    if k < MaxAttempts then FailedAttempts(k) + [Connect] else FailedAttempts(k)
  }

  /**
   The retry loop as the program runs it, from attempt `i` with the calls
   `calls` already made: a failed connect adds a sleep and goes on, the
   first handle ends the loop.
   */
  function RetryFrom(connects: seq<ConnectResult>, i: nat, calls: seq<Call>): (all: seq<Call>)
    requires i <= MaxAttempts
    ensures calls <= all
    ensures |all| <= |calls| + 2 * (MaxAttempts - i)
    decreases MaxAttempts - i
  {
    if i == MaxAttempts then calls
    else if ConnectAt(connects, i) >= 0 then calls + [Connect]
    else RetryFrom(connects, i + 1, calls + [Connect, Sleep])
  }

  /** Run from attempt `i` after `i` failures, the retry loop makes the calls ConnectCalls names. */
  lemma {:induction false} RetryFromFailed(connects: seq<ConnectResult>, i: nat)
    requires i <= MaxAttempts
    ensures RetryFrom(connects, i, FailedAttempts(i)) == ConnectCalls(FirstHandle(connects, i))
    decreases MaxAttempts - i
  {
    if i < MaxAttempts && ConnectAt(connects, i) < 0 {
      RetryFromFailed(connects, i + 1);
    }
  }

  /** The read loop's relabelling of a read error: a timed-out read sets EAGAIN. */
  function ReportedErrno(errno: int): (reported: int)
    ensures reported == ETIMEDOUT <==> errno == EAGAIN || errno == ETIMEDOUT
    ensures errno != EAGAIN ==> reported == errno
  {
    if errno == EAGAIN then ETIMEDOUT else errno
  }

  /** How sending one chunk ended. */
  datatype DrainOutcome = DrainOutcome(
    eff: Effects,  // what the drain loop printed and called
    next: nat,     // index of the next unused write result
    left: nat,     // the final value of bytes_to_send
    failed: bool   // a write returned -1 (the program returns EXIT_FAILURE)
  )

  function PrependDrain(e: Effects, d: DrainOutcome): DrainOutcome
  {
    DrainOutcome(e.Then(d.eff), d.next, d.left, d.failed)
  }

  lemma PrependDrainNothing(d: DrainOutcome)
    ensures PrependDrain(Effects([], []), d) == d
  {
    assert [] + d.eff.stdout == d.eff.stdout;
    assert [] + d.eff.calls == d.eff.calls;
  }

  lemma PrependDrainTwice(e1: Effects, e2: Effects, d: DrainOutcome)
    ensures PrependDrain(e1, PrependDrain(e2, d)) == PrependDrain(e1.Then(e2), d)
  {
    assert (e1.stdout + e2.stdout) + d.eff.stdout == e1.stdout + (e2.stdout + d.eff.stdout);
    assert (e1.calls + e2.calls) + d.eff.calls == e1.calls + (e2.calls + d.eff.calls);
  }

  /**
   The do-while loop that sends `chunk` (bytes_read == |chunk|) when
   `toSend` bytes are still to be sent and ws[wi] answers the next write.
   */
  function Drain(chunk: seq<byte>, toSend: nat, ws: seq<WriteResult>, wi: nat): (d: DrainOutcome)
    requires 0 < toSend <= |chunk|
    ensures wi < d.next
    ensures d.left <= toSend
    ensures d.failed ==> d.left > 0
    decreases toSend
  {
    var offset := |chunk| - toSend;
    var call := Write(offset, toSend);
    match WriteAt(ws, wi)
    case WriteError(errno) =>
      DrainOutcome(Effects([Diag(WriteFailed(|chunk|, toSend, errno))], [call]), wi + 1, toSend, true)
    case Accepted(room) =>
      var written := if room < toSend then room else toSend;
      var step := WriteStep(chunk, toSend, written);
      if written != 0 && toSend - written > 0 then
        PrependDrain(step, Drain(chunk, toSend - written, ws, wi + 1))
      else
        DrainOutcome(step, wi + 1, toSend - written, false)
  }

  /**
   The same do-while loop as the program runs it: `out` and `calls` are what
   has been printed and called so far, and each write appends to them until
   the loop condition fails or a write returns -1.
   */
  function DrainFrom(chunk: seq<byte>, toSend: nat, ws: seq<WriteResult>, wi: nat,
                     out: seq<Emit>, calls: seq<Call>): DrainOutcome
    requires 0 < toSend <= |chunk|
    decreases toSend
  {
    var offset := |chunk| - toSend;
    var calls' := calls + [Write(offset, toSend)];
    match WriteAt(ws, wi)
    case WriteError(errno) =>
      DrainOutcome(Effects(out + [Diag(WriteFailed(|chunk|, toSend, errno))], calls'), wi + 1, toSend, true)
    case Accepted(room) =>
      var written := if room < toSend then room else toSend;
      var out' := out + [Payload(chunk[offset..offset + written])];
      if written != 0 && toSend - written > 0 then
        DrainFrom(chunk, toSend - written, ws, wi + 1, out', calls')
      else
        DrainOutcome(Effects(out', calls'), wi + 1, toSend - written, false)
  }

  /**
   Running the loop after `out` and `calls` is the same as putting them in
   front of what Drain says the loop does.
   */
  lemma {:induction false} DrainFromPrepends(chunk: seq<byte>, toSend: nat, ws: seq<WriteResult>, wi: nat,
                                             out: seq<Emit>, calls: seq<Call>)
    requires 0 < toSend <= |chunk|
    ensures DrainFrom(chunk, toSend, ws, wi, out, calls) == PrependDrain(Effects(out, calls), Drain(chunk, toSend, ws, wi))
    decreases toSend
  {
    var offset := |chunk| - toSend;
    match WriteAt(ws, wi)
    case WriteError(errno) =>
    case Accepted(room) =>
      var written := if room < toSend then room else toSend;
      var step := WriteStep(chunk, toSend, written);
      if written != 0 && toSend - written > 0 {
        var rest := Drain(chunk, toSend - written, ws, wi + 1);
        DrainFromPrepends(chunk, toSend - written, ws, wi + 1, out + step.stdout, calls + step.calls);
        PrependDrainTwice(Effects(out, calls), step, rest);
      }
  }

  /** One write of the drain loop: the call it makes and what it prints when it succeeds. */
  function WriteStep(chunk: seq<byte>, toSend: nat, written: nat): Effects
    requires 0 < toSend <= |chunk| && written <= toSend
  {
    var offset := |chunk| - toSend;
    Effects([Payload(chunk[offset..offset + written])], [Write(offset, toSend)])
  }

  /** Drain after a write that failed with `errno`. */
  lemma DrainOnError(chunk: seq<byte>, toSend: nat, ws: seq<WriteResult>, wi: nat)
    requires 0 < toSend <= |chunk|
    requires WriteAt(ws, wi).WriteError?
    ensures Drain(chunk, toSend, ws, wi)
         == DrainOutcome(Effects([Diag(WriteFailed(|chunk|, toSend, WriteAt(ws, wi).errno))],
                                 [Write(|chunk| - toSend, toSend)]), wi + 1, toSend, true)
  {
  }

  /** Drain after a write that returned `written` >= 0. */
  lemma DrainOnAccepted(chunk: seq<byte>, toSend: nat, ws: seq<WriteResult>, wi: nat, written: nat)
    requires 0 < toSend <= |chunk|
    requires WriteAt(ws, wi).Accepted? && written == WriteReturn(WriteAt(ws, wi), toSend)
    ensures written != 0 && toSend - written > 0 ==>
      Drain(chunk, toSend, ws, wi)
        == PrependDrain(WriteStep(chunk, toSend, written), Drain(chunk, toSend - written, ws, wi + 1))
    ensures !(written != 0 && toSend - written > 0) ==>
      Drain(chunk, toSend, ws, wi) == DrainOutcome(WriteStep(chunk, toSend, written), wi + 1, toSend - written, false)
  {
  }

  /** How the read loop ended. */
  datatype RelayOutcome = RelayOutcome(
    eff: Effects,       // what the read loop printed and called
    writeFailed: bool   // it ended by `return EXIT_FAILURE` after a failed write
  )

  function PrependRelay(e: Effects, r: RelayOutcome): RelayOutcome
  {
    RelayOutcome(e.Then(r.eff), r.writeFailed)
  }

  lemma PrependRelayTwice(e1: Effects, e2: Effects, r: RelayOutcome)
    ensures PrependRelay(e1, PrependRelay(e2, r)) == PrependRelay(e1.Then(e2), r)
  {
    assert (e1.stdout + e2.stdout) + r.eff.stdout == e1.stdout + (e2.stdout + r.eff.stdout);
    assert (e1.calls + e2.calls) + r.eff.calls == e1.calls + (e2.calls + r.eff.calls);
  }

  /**
   The `while (1)` read loop on handle `s`, from read result rs[ri] and
   write result ws[wi] on.
   */
  function Relay(s: int, rs: seq<ReadResult>, ri: nat, ws: seq<WriteResult>, wi: nat): (r: RelayOutcome)
    ensures |r.eff.calls| > 0 && r.eff.calls[0] == Read(s)
    decreases |rs| - ri
  {
    match ReadAt(rs, ri)
    case Eof =>
      RelayOutcome(Effects([], [Read(s)]), false)
    case ReadError(errno) =>
      RelayOutcome(Effects([Diag(ReadTerminated(ReportedErrno(errno)))], [Read(s)]), false)
    case Data(chunk) =>
      var d := Drain(chunk, |chunk|, ws, wi);
      var head := Effects([], [Read(s)]).Then(d.eff);
      if d.failed then RelayOutcome(head, true)
      else PrependRelay(head, Relay(s, rs, ri + 1, ws, d.next))
  }

  /** The read loop after a read that delivered `chunk`, field by field. */
  lemma RelayOnData(s: int, rs: seq<ReadResult>, ri: nat, ws: seq<WriteResult>, wi: nat, chunk: Chunk)
    requires ReadAt(rs, ri) == Data(chunk)
    ensures var d := Drain(chunk, |chunk|, ws, wi);
      var r := Relay(s, rs, ri, ws, wi);
      var rest := Relay(s, rs, ri + 1, ws, d.next);
      && (d.failed ==> r.writeFailed && r.eff.stdout == d.eff.stdout && r.eff.calls == [Read(s)] + d.eff.calls)
      && (!d.failed ==> r.writeFailed == rest.writeFailed
                        && r.eff.stdout == d.eff.stdout + rest.eff.stdout
                        && r.eff.calls == [Read(s)] + d.eff.calls + rest.eff.calls)
  {
    var d := Drain(chunk, |chunk|, ws, wi);
    assert Effects([], [Read(s)]).Then(d.eff) == Effects(d.eff.stdout, [Read(s)] + d.eff.calls);
  }

  /**
   The same read loop as the program runs it: `out` and `calls` are what has
   been printed and called so far, and each iteration appends its read and
   the drain of its chunk.
   */
  function RelayFrom(s: int, rs: seq<ReadResult>, ri: nat, ws: seq<WriteResult>, wi: nat,
                     out: seq<Emit>, calls: seq<Call>): RelayOutcome
    decreases |rs| - ri
  {
    var calls' := calls + [Read(s)];
    match ReadAt(rs, ri)
    case Eof =>
      RelayOutcome(Effects(out, calls'), false)
    case ReadError(errno) =>
      RelayOutcome(Effects(out + [Diag(ReadTerminated(ReportedErrno(errno)))], calls'), false)
    case Data(chunk) =>
      var d := Drain(chunk, |chunk|, ws, wi);
      if d.failed then RelayOutcome(Effects(out + d.eff.stdout, calls' + d.eff.calls), true)
      else RelayFrom(s, rs, ri + 1, ws, d.next, out + d.eff.stdout, calls' + d.eff.calls)
  }

  /**
   Running the read loop after `out` and `calls` is the same as putting them
   in front of what Relay says the loop does.
   */
  lemma {:induction false} RelayFromPrepends(s: int, rs: seq<ReadResult>, ri: nat, ws: seq<WriteResult>, wi: nat,
                                             out: seq<Emit>, calls: seq<Call>)
    ensures RelayFrom(s, rs, ri, ws, wi, out, calls) == PrependRelay(Effects(out, calls), Relay(s, rs, ri, ws, wi))
    decreases |rs| - ri
  {
    match ReadAt(rs, ri)
    case Eof =>
      assert out + [] == out;
    case ReadError(errno) =>
    case Data(chunk) =>
      var d := Drain(chunk, |chunk|, ws, wi);
      var head := Effects([], [Read(s)]).Then(d.eff);
      assert Effects(out, calls).Then(head) == Effects(out + d.eff.stdout, calls + [Read(s)] + d.eff.calls);
      if !d.failed {
        RelayFromPrepends(s, rs, ri + 1, ws, d.next, out + d.eff.stdout, calls + [Read(s)] + d.eff.calls);
        PrependRelayTwice(Effects(out, calls), head, Relay(s, rs, ri + 1, ws, d.next));
      }
  }

  lemma PrependRelayNothing(r: RelayOutcome)
    ensures PrependRelay(Effects([], []), r) == r
  {
    assert [] + r.eff.stdout == r.eff.stdout;
    assert [] + r.eff.calls == r.eff.calls;
  }

  /** The handle the retry loop ends with: the first one obtained, or -1. */
  function Handle(connects: seq<ConnectResult>): (s: int)
    ensures s >= -1
    ensures s == -1 <==> forall j :: 0 <= j < MaxAttempts ==> ConnectAt(connects, j) == -1
  {
    var k := FirstHandle(connects, 0);
    if k < MaxAttempts then ConnectAt(connects, k) else -1
  }

  /** One run of bugreportz without arguments, lines 69-130 of bugreportz.cpp. */
  function Bugreportz(script: Script): (o: Outcome)
    ensures o.status == EXIT_SUCCESS || o.status == EXIT_FAILURE
    ensures |o.calls| > 0 && o.calls[0] == StartService
  {
    var k := FirstHandle(script.connectResults, 0);
    var start := [StartService] + ConnectCalls(k);
    if k == MaxAttempts then
      Outcome(EXIT_FAILURE, [Diag(ConnectFailed)], start)
    else
      var s := ConnectAt(script.connectResults, k);
      var warning := if script.timeoutApplied then [] else [Diag(TimeoutNotSet)];
      var r := Relay(s, script.readResults, 0, script.writeResults, 0);
      var calls := start + [SetTimeout(s)] + r.eff.calls;
      if r.writeFailed then
        Outcome(EXIT_FAILURE, warning + r.eff.stdout, calls)
      else
        Outcome(EXIT_SUCCESS, warning + r.eff.stdout, calls + [Close(s)])
  }
}
