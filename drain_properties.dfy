/**
 Properties of the partial-write drain loop and of the read loop, stated on
 the functions of BugreportzSpec.
 */
module DrainProperties {
  import opened ScriptedIo
  import opened Observations
  import opened BugreportzSpec

  /**
   Every call is a write whose offset is bytes_read - bytes_to_send for a
   positive bytes_to_send, i.e. offset + count == bytes_read.
   */
  predicate WritesAligned(calls: seq<Call>, bytesRead: nat)
  {
    forall i :: 0 <= i < |calls| ==>
      calls[i].Write? && calls[i].offset + calls[i].count == bytesRead && calls[i].count > 0
  }

  /** From write result `wi` on, every write accepts at least one byte. */
  predicate WritesProgress(ws: seq<WriteResult>, wi: nat)
  {
    forall j :: wi <= j < |ws| ==> ws[j].Accepted? && ws[j].room > 0
  }

  /**
   One write call is made per write result consumed; the first asks for the
   whole remainder at offset bytes_read - bytes_to_send, and so does every
   later one.
   */
  lemma {:induction false} DrainWriteCalls(chunk: seq<byte>, toSend: nat, ws: seq<WriteResult>, wi: nat)
    requires 0 < toSend <= |chunk|
    ensures var d := Drain(chunk, toSend, ws, wi);
      && |d.eff.calls| == d.next - wi
      && d.eff.calls[0] == Write(|chunk| - toSend, toSend)
      && WritesAligned(d.eff.calls, |chunk|)
    decreases toSend
  {
    var w := WriteAt(ws, wi);
    if w.WriteError? {
      CallsOnError(chunk, toSend, ws, wi);
    } else {
      var written := WriteReturn(w, toSend);
      if written != 0 && toSend - written > 0 {
        DrainWriteCalls(chunk, toSend - written, ws, wi + 1);
        CallsOnContinue(chunk, toSend, ws, wi, written);
      } else {
        CallsOnLast(chunk, toSend, ws, wi, written);
      }
    }
  }

  /** The write calls of a drain, as DrainWriteCalls states them. */
  ghost predicate CallsAligned(chunk: seq<byte>, toSend: nat, wi: nat, d: DrainOutcome)
    requires toSend <= |chunk|
  {
    && |d.eff.calls| == d.next - wi
    && |d.eff.calls| > 0
    && d.eff.calls[0] == Write(|chunk| - toSend, toSend)
    && WritesAligned(d.eff.calls, |chunk|)
  }

  lemma CallsOnError(chunk: seq<byte>, toSend: nat, ws: seq<WriteResult>, wi: nat)
    requires 0 < toSend <= |chunk|
    requires WriteAt(ws, wi).WriteError?
    ensures CallsAligned(chunk, toSend, wi, Drain(chunk, toSend, ws, wi))
  {
    DrainOnError(chunk, toSend, ws, wi);
  }

  lemma CallsOnLast(chunk: seq<byte>, toSend: nat, ws: seq<WriteResult>, wi: nat, written: nat)
    requires 0 < toSend <= |chunk|
    requires WriteAt(ws, wi).Accepted? && written == WriteReturn(WriteAt(ws, wi), toSend)
    requires !(written != 0 && toSend - written > 0)
    ensures CallsAligned(chunk, toSend, wi, Drain(chunk, toSend, ws, wi))
  {
    DrainEndsFields(chunk, toSend, ws, wi, written);
  }

  lemma CallsOnContinue(chunk: seq<byte>, toSend: nat, ws: seq<WriteResult>, wi: nat, written: nat)
    requires 0 < toSend <= |chunk|
    requires WriteAt(ws, wi).Accepted? && written == WriteReturn(WriteAt(ws, wi), toSend)
    requires written != 0 && toSend - written > 0
    requires CallsAligned(chunk, toSend - written, wi + 1, Drain(chunk, toSend - written, ws, wi + 1))
    ensures CallsAligned(chunk, toSend, wi, Drain(chunk, toSend, ws, wi))
  {
    var d := Drain(chunk, toSend, ws, wi);
    var rest := Drain(chunk, toSend - written, ws, wi + 1);
    DrainContinuesFields(chunk, toSend, ws, wi, written);
    AlignedAfterWrite(|chunk| - toSend, toSend, |chunk|, d.eff.calls, rest.eff.calls);
  }

  /** A write of the whole remainder in front of aligned writes keeps them aligned. */
  lemma AlignedAfterWrite(offset: nat, count: nat, bytesRead: nat, calls: seq<Call>, rest: seq<Call>)
    requires count > 0 && offset + count == bytesRead
    requires calls == [Write(offset, count)] + rest
    requires WritesAligned(rest, bytesRead)
    ensures WritesAligned(calls, bytesRead)
  {
    forall i | 0 <= i < |calls|
      ensures calls[i].Write? && calls[i].offset + calls[i].count == bytesRead && calls[i].count > 0
    {
      if i > 0 {
        assert calls[i] == rest[i - 1];
      }
    }
  }

  /**
   Sending a chunk emits, in order, the contiguous stretch of the chunk from
   offset bytes_read - bytes_to_send up to what is still unsent when the loop
   ends.
   */
  lemma {:induction false} DrainSendsContiguousPart(chunk: seq<byte>, toSend: nat, ws: seq<WriteResult>, wi: nat)
    requires 0 < toSend <= |chunk|
    ensures SentContiguous(chunk, toSend, Drain(chunk, toSend, ws, wi))
    decreases toSend
  {
    var w := WriteAt(ws, wi);
    if w.WriteError? {
      ContiguousOnError(chunk, toSend, ws, wi);
    } else {
      var written := WriteReturn(w, toSend);
      if written != 0 && toSend - written > 0 {
        DrainSendsContiguousPart(chunk, toSend - written, ws, wi + 1);
        ContiguousOnContinue(chunk, toSend, ws, wi, written);
      } else {
        ContiguousOnLast(chunk, toSend, ws, wi, written);
      }
    }
  }

  /**
   The payload a drain printed is exactly the chunk from offset
   bytes_read - bytes_to_send up to the bytes it left unsent.
   */
  ghost predicate SentContiguous(chunk: seq<byte>, toSend: nat, d: DrainOutcome)
    requires toSend <= |chunk| && d.left <= toSend
  {
    PayloadOf(d.eff.stdout) == chunk[|chunk| - toSend .. |chunk| - d.left]
  }

  lemma ContiguousOnError(chunk: seq<byte>, toSend: nat, ws: seq<WriteResult>, wi: nat)
    requires 0 < toSend <= |chunk|
    requires WriteAt(ws, wi).WriteError?
    ensures SentContiguous(chunk, toSend, Drain(chunk, toSend, ws, wi))
  {
    DrainOnError(chunk, toSend, ws, wi);
    assert PayloadOf([Diag(WriteFailed(|chunk|, toSend, WriteAt(ws, wi).errno))]) == [];
  }

  lemma ContiguousOnLast(chunk: seq<byte>, toSend: nat, ws: seq<WriteResult>, wi: nat, written: nat)
    requires 0 < toSend <= |chunk|
    requires WriteAt(ws, wi).Accepted? && written == WriteReturn(WriteAt(ws, wi), toSend)
    requires !(written != 0 && toSend - written > 0)
    ensures SentContiguous(chunk, toSend, Drain(chunk, toSend, ws, wi))
  {
    var offset := |chunk| - toSend;
    DrainEndsFields(chunk, toSend, ws, wi, written);
    PayloadOfOne(chunk[offset..offset + written]);
  }

  lemma ContiguousOnContinue(chunk: seq<byte>, toSend: nat, ws: seq<WriteResult>, wi: nat, written: nat)
    requires 0 < toSend <= |chunk|
    requires WriteAt(ws, wi).Accepted? && written == WriteReturn(WriteAt(ws, wi), toSend)
    requires written != 0 && toSend - written > 0
    requires SentContiguous(chunk, toSend - written, Drain(chunk, toSend - written, ws, wi + 1))
    ensures SentContiguous(chunk, toSend, Drain(chunk, toSend, ws, wi))
  {
    var d := Drain(chunk, toSend, ws, wi);
    var rest := Drain(chunk, toSend - written, ws, wi + 1);
    DrainContinuesFields(chunk, toSend, ws, wi, written);
    ContiguousAfterPart(chunk, |chunk| - toSend, written, d.eff.stdout, rest.eff.stdout, rest.left);
  }

  /** Payload `part` printed before a contiguous stretch that follows it extends that stretch. */
  lemma ContiguousAfterPart(chunk: seq<byte>, offset: nat, written: nat, out: seq<Emit>, rest: seq<Emit>, left: nat)
    requires offset + written <= |chunk| - left
    requires out == [Payload(chunk[offset..offset + written])] + rest
    requires PayloadOf(rest) == chunk[offset + written..|chunk| - left]
    ensures PayloadOf(out) == chunk[offset..|chunk| - left]
  {
    var part := chunk[offset..offset + written];
    assert PayloadOf(out) == PayloadOf([Payload(part)]) + PayloadOf(rest) by {
      PayloadOfAppend([Payload(part)], rest);
    }
    assert PayloadOf([Payload(part)]) == part by {
      PayloadOfOne(part);
    }
    SliceConcat(chunk, offset, offset + written, |chunk| - left);
  }

  /** A drain whose first write leaves bytes to send, field by field. */
  lemma DrainContinuesFields(chunk: seq<byte>, toSend: nat, ws: seq<WriteResult>, wi: nat, written: nat)
    requires 0 < toSend <= |chunk|
    requires WriteAt(ws, wi).Accepted? && written == WriteReturn(WriteAt(ws, wi), toSend)
    requires written != 0 && toSend - written > 0
    ensures var d := Drain(chunk, toSend, ws, wi);
      var rest := Drain(chunk, toSend - written, ws, wi + 1);
      var offset := |chunk| - toSend;
      && d.eff.stdout == [Payload(chunk[offset..offset + written])] + rest.eff.stdout
      && d.eff.calls == [Write(offset, toSend)] + rest.eff.calls
      && d.next == rest.next
      && d.left == rest.left
      && d.failed == rest.failed
  {
    DrainOnAccepted(chunk, toSend, ws, wi, written);
  }

  /** A drain that ends after its first write, field by field. */
  lemma DrainEndsFields(chunk: seq<byte>, toSend: nat, ws: seq<WriteResult>, wi: nat, written: nat)
    requires 0 < toSend <= |chunk|
    requires WriteAt(ws, wi).Accepted? && written == WriteReturn(WriteAt(ws, wi), toSend)
    requires !(written != 0 && toSend - written > 0)
    ensures var d := Drain(chunk, toSend, ws, wi);
      var offset := |chunk| - toSend;
      && d.eff.stdout == [Payload(chunk[offset..offset + written])]
      && d.eff.calls == [Write(offset, toSend)]
      && d.next == wi + 1
      && d.left == toSend - written
      && !d.failed
  {
    DrainOnAccepted(chunk, toSend, ws, wi, written);
  }

  /**
   A drain fails exactly when its last write returned -1: a failed drain
   stopped at such a write, whose diagnostic, naming bytes_read and the
   bytes_to_send of that write, is the only one it printed and the last;
   and a write that returns -1 always makes the drain fail.
   */
  lemma {:induction false} DrainFailure(chunk: seq<byte>, toSend: nat, ws: seq<WriteResult>, wi: nat)
    requires 0 < toSend <= |chunk|
    ensures var d := Drain(chunk, toSend, ws, wi);
      d.failed ==> FailedAtLastWrite(chunk, ws, d)
    ensures var d := Drain(chunk, toSend, ws, wi);
      WriteAt(ws, d.next - 1).WriteError? ==> d.failed
    decreases toSend
  {
    var d := Drain(chunk, toSend, ws, wi);
    var offset := |chunk| - toSend;
    var w := WriteAt(ws, wi);
    if w.WriteError? {
      assert d.eff.stdout == [Diag(WriteFailed(|chunk|, toSend, w.errno))] && d.next == wi + 1 && d.left == toSend && d.failed by {
        DrainOnError(chunk, toSend, ws, wi);
      }
      assert DiagsOf(d.eff.stdout) == [WriteFailed(|chunk|, toSend, w.errno)] by {
        assert d.eff.stdout[1..] == [];
      }
    } else {
      var written := WriteReturn(w, toSend);
      if written != 0 && toSend - written > 0 {
        var step := [Payload(chunk[offset..offset + written])];
        var rest := Drain(chunk, toSend - written, ws, wi + 1);
        assert d == PrependDrain(Effects(step, [Write(offset, toSend)]), rest) by {
          DrainOnAccepted(chunk, toSend, ws, wi, written);
        }
        DrainFailure(chunk, toSend - written, ws, wi + 1);
        if d.failed {
          assert FailedAtLastWrite(chunk, ws, d) by {
            FailedAtLastWriteAfterPayload(chunk, ws, step, [Write(offset, toSend)], rest);
          }
        }
      } else {
        assert !d.failed && d.next == wi + 1 by {
          DrainOnAccepted(chunk, toSend, ws, wi, written);
        }
      }
    }
  }

  /**
   A failed drain stopped at a write that returned -1, and the diagnostic of
   that write, naming bytes_read and bytes_to_send, is the last and only one
   it printed.
   */
  predicate FailedAtLastWrite(chunk: seq<byte>, ws: seq<WriteResult>, d: DrainOutcome)
  {
    && d.next > 0
    && WriteAt(ws, d.next - 1).WriteError?
    && |d.eff.stdout| > 0
    && Last(d.eff.stdout) == Diag(WriteFailed(|chunk|, d.left, WriteAt(ws, d.next - 1).errno))
    && DiagsOf(d.eff.stdout) == [WriteFailed(|chunk|, d.left, WriteAt(ws, d.next - 1).errno)]
  }

  /** Payload printed before a failed drain changes none of FailedAtLastWrite. */
  lemma FailedAtLastWriteAfterPayload(chunk: seq<byte>, ws: seq<WriteResult>, step: seq<Emit>,
                                      calls: seq<Call>, rest: DrainOutcome)
    requires forall i :: 0 <= i < |step| ==> step[i].Payload?
    requires FailedAtLastWrite(chunk, ws, rest)
    ensures FailedAtLastWrite(chunk, ws, PrependDrain(Effects(step, calls), rest))
  {
    var d := PrependDrain(Effects(step, calls), rest);
    assert d.eff.stdout == step + rest.eff.stdout;
    assert Last(d.eff.stdout) == Last(rest.eff.stdout);
    DiagsOfPayloadOnly(step);
    DiagsOfAppend(step, rest.eff.stdout);
  }

  /** A drain that does not fail prints payload only. */
  lemma {:induction false} DrainSilent(chunk: seq<byte>, toSend: nat, ws: seq<WriteResult>, wi: nat)
    requires 0 < toSend <= |chunk|
    ensures var d := Drain(chunk, toSend, ws, wi);
      !d.failed ==> DiagsOf(d.eff.stdout) == []
    decreases toSend
  {
    var d := Drain(chunk, toSend, ws, wi);
    var offset := |chunk| - toSend;
    var w := WriteAt(ws, wi);
    if w.WriteError? {
      assert d.failed by {
        DrainOnError(chunk, toSend, ws, wi);
      }
    } else {
      var written := WriteReturn(w, toSend);
      var step := [Payload(chunk[offset..offset + written])];
      assert DiagsOf(step) == [] by {
        assert step[1..] == [];
      }
      if written != 0 && toSend - written > 0 {
        var rest := Drain(chunk, toSend - written, ws, wi + 1);
        assert d.eff.stdout == step + rest.eff.stdout && d.failed == rest.failed by {
          DrainOnAccepted(chunk, toSend, ws, wi, written);
        }
        DrainSilent(chunk, toSend - written, ws, wi + 1);
        DiagsOfAppend(step, rest.eff.stdout);
      } else {
        assert d.eff.stdout == step by {
          DrainOnAccepted(chunk, toSend, ws, wi, written);
        }
      }
    }
  }

  /**
   A drain that ends without failing and with bytes still unsent stopped at
   a write that returned 0: the rest of the chunk is dropped.
   */
  lemma {:induction false} DrainStall(chunk: seq<byte>, toSend: nat, ws: seq<WriteResult>, wi: nat)
    requires 0 < toSend <= |chunk|
    ensures var d := Drain(chunk, toSend, ws, wi);
      !d.failed && d.left > 0 ==> WriteAt(ws, d.next - 1) == Accepted(0)
    decreases toSend
  {
    match WriteAt(ws, wi)
    case WriteError(_) =>
    case Accepted(room) =>
      var written := if room < toSend then room else toSend;
      if written != 0 && toSend - written > 0 {
        DrainStall(chunk, toSend - written, ws, wi + 1);
      }
  }

  /** Every write before the last one of a drain accepted at least one byte. */
  lemma {:induction false} DrainProgressBefore(chunk: seq<byte>, toSend: nat, ws: seq<WriteResult>, wi: nat)
    requires 0 < toSend <= |chunk|
    ensures var d := Drain(chunk, toSend, ws, wi);
      forall j :: wi <= j < d.next - 1 ==> WriteAt(ws, j).Accepted? && WriteAt(ws, j).room > 0
    decreases toSend
  {
    match WriteAt(ws, wi)
    case WriteError(_) =>
    case Accepted(room) =>
      var written := if room < toSend then room else toSend;
      if written != 0 && toSend - written > 0 {
        DrainProgressBefore(chunk, toSend - written, ws, wi + 1);
      }
  }

  /**
   When every write accepts at least one byte, the drain loop sends the whole
   remainder without failing, in order, before the next read.
   */
  lemma DrainSendsAll(chunk: seq<byte>, toSend: nat, ws: seq<WriteResult>, wi: nat)
    requires 0 < toSend <= |chunk|
    requires WritesProgress(ws, wi)
    ensures var d := Drain(chunk, toSend, ws, wi);
      && !d.failed
      && d.left == 0
      && PayloadOf(d.eff.stdout) == chunk[|chunk| - toSend..]
      && DiagsOf(d.eff.stdout) == []
  {
    DrainSendsContiguousPart(chunk, toSend, ws, wi);
    DrainFailure(chunk, toSend, ws, wi);
    DrainSilent(chunk, toSend, ws, wi);
    DrainStall(chunk, toSend, ws, wi);
  }

  /** The bytes the channel delivers before it reports end of stream or an error. */
  function StreamData(rs: seq<ReadResult>, ri: nat): seq<byte>
    decreases |rs| - ri
  {
    match ReadAt(rs, ri)
    case Data(chunk) => chunk + StreamData(rs, ri + 1)
    case _ => []
  }

  /** How the channel's stream ends, from read `ri` on. */
  datatype StreamEnd = Closed | Failed(errno: int)

  function EndOf(rs: seq<ReadResult>, ri: nat): StreamEnd
    decreases |rs| - ri
  {
    match ReadAt(rs, ri)
    case Data(_) => EndOf(rs, ri + 1)
    case Eof => Closed
    case ReadError(errno) => Failed(errno)
  }

  /** The index of the first read, from read `ri` on, that delivers no data. */
  function EndIndex(rs: seq<ReadResult>, ri: nat): (k: nat)
    ensures ri <= k
    ensures !ReadAt(rs, k).Data?
    ensures forall j :: ri <= j < k ==> ReadAt(rs, j).Data?
    decreases |rs| - ri
  {
    match ReadAt(rs, ri)
    case Data(_) => EndIndex(rs, ri + 1)
    case _ => ri
  }

  /** The diagnostics the read loop prints for a stream ending as `end`. */
  function EndDiags(end: StreamEnd): seq<Diagnostic>
  {
    match end
    case Closed => []
    case Failed(errno) => [ReadTerminated(ReportedErrno(errno))]
  }

  /**
   The shape of every run of the read loop on handle `s`: it starts with a
   read, issues only reads of `s` and writes, prints only payload, read
   diagnostics and write diagnostics, and ends with the last read unless a
   write failed, in which case it ends with that write and its diagnostic.
   */
  lemma {:induction false} RelayShape(s: int, rs: seq<ReadResult>, ri: nat, ws: seq<WriteResult>, wi: nat)
    ensures var r := Relay(s, rs, ri, ws, wi);
      && |r.eff.calls| > 0 && r.eff.calls[0] == Read(s)
      && (forall c :: c in r.eff.calls ==> c == Read(s) || c.Write?)
      && (forall e :: e in r.eff.stdout ==>
            e.Payload? || e.diagnostic.ReadTerminated? || e.diagnostic.WriteFailed?)
      && (r.writeFailed ==>
            Last(r.eff.calls).Write? && |r.eff.stdout| > 0 && Last(r.eff.stdout).Diag?
            && Last(r.eff.stdout).diagnostic.WriteFailed?)
      && (!r.writeFailed ==> Last(r.eff.calls) == Read(s))
    decreases |rs| - ri
  {
    match ReadAt(rs, ri)
    case Eof =>
    case ReadError(_) =>
    case Data(chunk) =>
      var d := Drain(chunk, |chunk|, ws, wi);
      DrainWriteCalls(chunk, |chunk|, ws, wi);
      DrainFailure(chunk, |chunk|, ws, wi);
      DrainEmitsPayloadOrWriteFailure(chunk, |chunk|, ws, wi);
      var head := Effects([], [Read(s)]).Then(d.eff);
      if !d.failed {
        RelayShape(s, rs, ri + 1, ws, d.next);
      }
  }

  /**
   A read loop that ends at a read error, with no write failing on the way,
   prints the relabelled read diagnostic last and issues that read last.
   */
  lemma {:induction false} RelayEndsAtReadError(s: int, rs: seq<ReadResult>, ri: nat, ws: seq<WriteResult>, wi: nat)
    ensures var r := Relay(s, rs, ri, ws, wi);
      !r.writeFailed && EndOf(rs, ri).Failed? ==>
        && |r.eff.stdout| > 0
        && Last(r.eff.stdout) == Diag(ReadTerminated(ReportedErrno(EndOf(rs, ri).errno)))
        && Last(r.eff.calls) == Read(s)
    decreases |rs| - ri
  {
    match ReadAt(rs, ri)
    case Eof =>
    case ReadError(_) =>
    case Data(chunk) =>
      var d := Drain(chunk, |chunk|, ws, wi);
      var r := Relay(s, rs, ri, ws, wi);
      if !d.failed {
        var rest := Relay(s, rs, ri + 1, ws, d.next);
        assert r.writeFailed == rest.writeFailed
            && r.eff.stdout == d.eff.stdout + rest.eff.stdout
            && r.eff.calls == [Read(s)] + d.eff.calls + rest.eff.calls by {
          RelayOnData(s, rs, ri, ws, wi, chunk);
        }
        RelayEndsAtReadError(s, rs, ri + 1, ws, d.next);
      } else {
        assert r.writeFailed by {
          RelayOnData(s, rs, ri, ws, wi, chunk);
        }
      }
  }

  /**
   Unless a write fails, the read loop reads once per chunk and once more for
   the end of stream or the error, and never again: the read results after
   that are never used.
   */
  lemma {:induction false} RelayReadCount(s: int, rs: seq<ReadResult>, ri: nat, ws: seq<WriteResult>, wi: nat)
    ensures var r := Relay(s, rs, ri, ws, wi);
      !r.writeFailed ==> Count(r.eff.calls, IsRead) == EndIndex(rs, ri) - ri + 1
    decreases |rs| - ri
  {
    assert Count([Read(s)], IsRead) == 1 by {
      assert [Read(s)][1..] == [];
    }
    match ReadAt(rs, ri)
    case Eof =>
    case ReadError(_) =>
    case Data(chunk) =>
      var d := Drain(chunk, |chunk|, ws, wi);
      var r := Relay(s, rs, ri, ws, wi);
      if !d.failed {
        var rest := Relay(s, rs, ri + 1, ws, d.next);
        assert r.writeFailed == rest.writeFailed
            && r.eff.calls == [Read(s)] + d.eff.calls + rest.eff.calls by {
          RelayOnData(s, rs, ri, ws, wi, chunk);
        }
        assert Count(d.eff.calls, IsRead) == 0 by {
          DrainWriteCalls(chunk, |chunk|, ws, wi);
          CountNone(d.eff.calls, IsRead);
        }
        RelayReadCount(s, rs, ri + 1, ws, d.next);
        CountAppend([Read(s)], d.eff.calls, IsRead);
        CountAppend([Read(s)] + d.eff.calls, rest.eff.calls, IsRead);
      } else {
        assert r.writeFailed by {
          RelayOnData(s, rs, ri, ws, wi, chunk);
        }
      }
  }

  /** The drain loop prints only payload and the write diagnostic. */
  lemma {:induction false} DrainEmitsPayloadOrWriteFailure(chunk: seq<byte>, toSend: nat, ws: seq<WriteResult>, wi: nat)
    requires 0 < toSend <= |chunk|
    ensures var out := Drain(chunk, toSend, ws, wi).eff.stdout;
      forall e :: e in out ==> e.Payload? || e.diagnostic.WriteFailed?
    decreases toSend
  {
    var offset := |chunk| - toSend;
    match WriteAt(ws, wi)
    case WriteError(_) =>
    case Accepted(room) =>
      var written := if room < toSend then room else toSend;
      if written != 0 && toSend - written > 0 {
        var rest := Drain(chunk, toSend - written, ws, wi + 1);
        DrainEmitsPayloadOrWriteFailure(chunk, toSend - written, ws, wi + 1);
        assert Drain(chunk, toSend, ws, wi).eff.stdout
            == [Payload(chunk[offset..offset + written])] + rest.eff.stdout;
      }
  }

  /**
   Byte-exactness of the relay: when every write accepts at least one byte,
   the read loop ends without a write failure, its payload output is exactly
   the concatenation of the chunks the channel delivered, in order, and its
   only diagnostic is the read-error line if the stream ended with an error.
   */
  lemma {:induction false} RelayByteExact(s: int, rs: seq<ReadResult>, ri: nat, ws: seq<WriteResult>, wi: nat)
    requires WritesProgress(ws, wi)
    ensures var r := Relay(s, rs, ri, ws, wi);
      && !r.writeFailed
      && PayloadOf(r.eff.stdout) == StreamData(rs, ri)
      && DiagsOf(r.eff.stdout) == EndDiags(EndOf(rs, ri))
    decreases |rs| - ri
  {
    match ReadAt(rs, ri)
    case Eof =>
    case ReadError(errno) =>
      assert DiagsOf([Diag(ReadTerminated(ReportedErrno(errno)))]) == [ReadTerminated(ReportedErrno(errno))];
    case Data(chunk) =>
      var d := Drain(chunk, |chunk|, ws, wi);
      DrainSendsAll(chunk, |chunk|, ws, wi);
      var rest := Relay(s, rs, ri + 1, ws, d.next);
      RelayByteExact(s, rs, ri + 1, ws, d.next);
      PayloadOfAppend(d.eff.stdout, rest.eff.stdout);
      DiagsOfAppend(d.eff.stdout, rest.eff.stdout);
      assert Effects([], [Read(s)]).Then(d.eff).stdout == d.eff.stdout;
  }
}
