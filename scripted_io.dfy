/**
 The environment of bugreportz as scripted inputs.

 Every system call the relay makes (socket_local_client, setsockopt, read,
 write) is replaced by the next entry of a script. An entry already stands for
 the result after TEMP_FAILURE_RETRY has absorbed any EINTR. A script that runs
 out behaves like a quiet environment: the service never starts listening,
 the channel reports end of stream and the standard output accepts every byte.
 */
module ScriptedIo {

  /** The capacity of the transfer buffer (`char buffer[65536]`). */
  const BufferSize: nat := 65536

  /** The connect-retry budget of the retry loop. */
  const MaxAttempts: nat := 20

  /** errno values of the Linux kernel used by the relay. */
  const EAGAIN: int := 11
  const ETIMEDOUT: int := 110

  const EXIT_SUCCESS: int := 0
  const EXIT_FAILURE: int := 1

  newtype byte = x: int | 0 <= x < 256

  /** What one successful read delivers: between 1 and BufferSize bytes. */
  type Chunk = s: seq<byte> | 0 < |s| <= BufferSize witness [0]

  /** socket_local_client returns a descriptor (>= 0) or -1. */
  type ConnectResult = x: int | -1 <= x

  /** The three outcomes of read(2) on the channel. */
  datatype ReadResult =
    | Data(bytes: Chunk)     // read returned |bytes| > 0
    | Eof                    // read returned 0
    | ReadError(errno: int)  // read returned -1 and set errno

  /** The outcome of one write(2) on standard output. */
  datatype WriteResult =
    | Accepted(room: nat)     // the sink takes at most `room` bytes of the request
    | WriteError(errno: int)  // write returned -1 and set errno

  datatype Script = Script(
    connectResults: seq<ConnectResult>,  // results of the successive connection attempts
    timeoutApplied: bool,                // whether setsockopt(SO_RCVTIMEO) succeeded
    readResults: seq<ReadResult>,        // results of the successive reads
    writeResults: seq<WriteResult>       // results of the successive writes
  )

  function ConnectAt(connects: seq<ConnectResult>, i: nat): ConnectResult
  {
    if i < |connects| then connects[i] else -1
  }

  function ReadAt(rs: seq<ReadResult>, i: nat): (r: ReadResult)
    ensures !r.Eof? ==> i < |rs|
  {
    if i < |rs| then rs[i] else Eof
  }

  function WriteAt(ws: seq<WriteResult>, i: nat): WriteResult
  {
    if i < |ws| then ws[i] else Accepted(BufferSize)
  }

  /** The value read(2) returns for a scripted read. */
  function ReadReturn(r: ReadResult): (n: int)
    ensures n == 0 <==> r.Eof?
    ensures n == -1 <==> r.ReadError?
    ensures r.Data? ==> n == |r.bytes| && 0 < n <= BufferSize
  {
    match r
    case Data(bytes) => |bytes|
    case Eof => 0
    case ReadError(_) => -1
  }

  /** The value write(2) returns when `requested` bytes are offered to the sink. */
  function WriteReturn(w: WriteResult, requested: nat): (n: int)
    ensures n == -1 <==> w.WriteError?
    ensures w.Accepted? ==> 0 <= n <= requested && n <= w.room
    ensures w.Accepted? ==> (n == requested || n == w.room)
  {
    match w
    case WriteError(_) => -1
    case Accepted(room) => if room < requested then room else requested
  }

  /**
   The effect of read(2) on the transfer buffer: the delivered bytes land at
   its start, and the call returns their number, 0 or -1.
   */
  method SysRead(buffer: array<byte>, r: ReadResult) returns (bytesRead: int)
    requires buffer.Length == BufferSize
    modifies buffer
    ensures bytesRead == ReadReturn(r)
    ensures r.Data? ==> buffer[..|r.bytes|] == r.bytes
    ensures r.Data? ==> buffer[|r.bytes|..] == old(buffer[|r.bytes|..])
    ensures !r.Data? ==> buffer[..] == old(buffer[..])
  {
    match r
    case Data(bytes) =>
      forall k | 0 <= k < |bytes| {
        buffer[k] := bytes[k];
      }
      bytesRead := |bytes|;
    case Eof =>
      bytesRead := 0;
    case ReadError(_) =>
      bytesRead := -1;
  }
}
