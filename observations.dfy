/**
 What can be observed of one run of bugreportz: the exit status, what the
 program sends to standard output and the sequence of system calls issued.
 Standard output is recorded as the program issues it: each printf line and
 each write(2) of payload, in call order. stdio's buffering of the printf
 lines is not modelled.
 */
module Observations {
  import opened ScriptedIo

  /** Which diagnostic line was printed; the strerror text is not modelled. */
  datatype Diagnostic =
    | ConnectFailed                                            // "Failed to connect to dumpstatez service"
    | TimeoutNotSet                                            // "WARNING: Cannot set socket timeout"
    | ReadTerminated(errno: int)                               // "Bugreport read terminated abnormally"
    | WriteFailed(bytesRead: nat, bytesToSend: nat, errno: int) // "Failed to write data to stdout"

  /** One item sent to standard output: payload by write(2), a diagnostic by printf. */
  datatype Emit = Payload(bytes: seq<byte>) | Diag(diagnostic: Diagnostic)

  /** One system call, in the order the program issues them. */
  datatype Call =
    | StartService                  // property_set("ctl.start", "dumpstatez")
    | Connect                       // socket_local_client("dumpstate", ...)
    | Sleep                         // sleep(1)
    | SetTimeout(fd: int)           // setsockopt(fd, SOL_SOCKET, SO_RCVTIMEO, ...)
    | Read(fd: int)                 // read(fd, buffer, sizeof(buffer))
    | Write(offset: nat, count: nat) // write(STDOUT_FILENO, buffer + offset, count)
    | Close(fd: int)                // close(fd)

  /** What a stretch of the program adds to standard output and to the call trace. */
  datatype Effects = Effects(stdout: seq<Emit>, calls: seq<Call>) {
    function Then(next: Effects): Effects
    {
      Effects(stdout + next.stdout, calls + next.calls)
    }
  }

  datatype Outcome = Outcome(status: int, stdout: seq<Emit>, calls: seq<Call>)

  /** The payload bytes of an output stream, in order, without the diagnostics. */
  function PayloadOf(out: seq<Emit>): seq<byte>
  {
    if out == [] then []
    else (if out[0].Payload? then out[0].bytes else []) + PayloadOf(out[1..])
  }

  /** The diagnostics of an output stream, in order, without the payload. */
  function DiagsOf(out: seq<Emit>): seq<Diagnostic>
  {
    if out == [] then []
    else (if out[0].Diag? then [out[0].diagnostic] else []) + DiagsOf(out[1..])
  }

  /** The number of calls in a trace that satisfy `p`. */
  function Count(calls: seq<Call>, p: Call -> bool): nat
  {
    if calls == [] then 0
    else (if p(calls[0]) then 1 else 0) + Count(calls[1..], p)
  }

  function Last<T>(s: seq<T>): T
    requires |s| > 0
  {
    s[|s| - 1]
  }

  predicate IsConnect(c: Call) { c.Connect? }
  predicate IsClose(c: Call) { c.Close? }
  predicate IsRead(c: Call) { c.Read? }

  lemma {:induction false} PayloadOfAppend(a: seq<Emit>, b: seq<Emit>)
    ensures PayloadOf(a + b) == PayloadOf(a) + PayloadOf(b)
  {
    if a != [] {
      assert (a + b)[1..] == a[1..] + b;
      PayloadOfAppend(a[1..], b);
    } else {
      assert a + b == b;
    }
  }

  /** PayloadOfAppend for an output stream already known to be `a + b`. */
  lemma PayloadOfJoined(out: seq<Emit>, a: seq<Emit>, b: seq<Emit>)
    requires out == a + b
    ensures PayloadOf(out) == PayloadOf(a) + PayloadOf(b)
  {
    PayloadOfAppend(a, b);
  }

  lemma {:induction false} DiagsOfAppend(a: seq<Emit>, b: seq<Emit>)
    ensures DiagsOf(a + b) == DiagsOf(a) + DiagsOf(b)
  {
    if a != [] {
      assert (a + b)[1..] == a[1..] + b;
      DiagsOfAppend(a[1..], b);
    } else {
      assert a + b == b;
    }
  }

  lemma {:induction false} CountAppend(a: seq<Call>, b: seq<Call>, p: Call -> bool)
    ensures Count(a + b, p) == Count(a, p) + Count(b, p)
  {
    if a != [] {
      assert (a + b)[1..] == a[1..] + b;
      CountAppend(a[1..], b, p);
    } else {
      assert a + b == b;
    }
  }

  /** A trace none of whose calls satisfies `p` counts zero of them. */
  lemma {:induction false} CountNone(calls: seq<Call>, p: Call -> bool)
    requires forall i :: 0 <= i < |calls| ==> !p(calls[i])
    ensures Count(calls, p) == 0
  {
    if calls != [] {
      CountNone(calls[1..], p);
    }
  }

  /** Adjacent slices of a sequence concatenate to one slice. */
  lemma SliceConcat<T>(s: seq<T>, a: nat, b: nat, c: nat)
    requires a <= b <= c <= |s|
    ensures s[a..b] + s[b..c] == s[a..c]
  {
  }

  /** A slice of a prefix is the same slice of the whole sequence. */
  lemma SliceOfPrefix<T>(s: seq<T>, n: nat, i: nat, j: nat)
    requires i <= j <= n <= |s|
    ensures s[..n][i..j] == s[i..j]
  {
  }

  /** One payload item carries exactly its bytes. */
  lemma PayloadOfOne(bytes: seq<byte>)
    ensures PayloadOf([Payload(bytes)]) == bytes
  {
    assert [Payload(bytes)][1..] == [];
  }

  /** An output stream made of payload only carries no diagnostic. */
  lemma {:induction false} DiagsOfPayloadOnly(out: seq<Emit>)
    requires forall i :: 0 <= i < |out| ==> out[i].Payload?
    ensures DiagsOf(out) == []
  {
    if out != [] {
      DiagsOfPayloadOnly(out[1..]);
    }
  }

  /** An output stream made of diagnostics only carries no payload. */
  lemma {:induction false} PayloadOfDiagsOnly(out: seq<Emit>)
    requires forall i :: 0 <= i < |out| ==> out[i].Diag?
    ensures PayloadOf(out) == []
  {
    if out != [] {
      PayloadOfDiagsOnly(out[1..]);
    }
  }
}
