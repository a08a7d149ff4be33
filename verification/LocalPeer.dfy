/** The length-prefixed message between two instances, however the socket splits it. */
module LocalPeers {
  import opened Options

  type byte = x: int | 0 <= x < 256

  /** The acknowledgement is the word "ack". */
  const ACK: seq<byte> := [97, 99, 107]

  // ----- the frame -----------------------------------------------------------

  /** `quint32` in network byte order. */
  function Be32(n: nat): (b: seq<byte>)
    requires n < 0x1_0000_0000
    ensures |b| == 4
  {
    [n / 0x100_0000, n / 0x1_0000 % 256, n / 0x100 % 256, n % 256]
  }

  function Value32(b: seq<byte>): (n: nat)
    requires |b| == 4
  {
    var b0: nat, b1: nat, b2: nat, b3: nat := b[0], b[1], b[2], b[3];
    ((b0 * 256 + b1) * 256 + b2) * 256 + b3
  }

  lemma Be32RoundTrip(n: nat)
    requires n < 0x1_0000_0000
    ensures Value32(Be32(n)) == n
  {
    var a := n / 256;
    var b := a / 256;
    assert n == a * 256 + n % 256;
    assert a == b * 256 + a % 256;
    assert n / 0x1_0000 == b && n / 0x100_0000 == b / 256;
  }

  /** The most significant byte comes first. */
  lemma BigEndian(n: nat)
    requires n < 0x1_0000_0000
    ensures var b := Be32(n);
            n == b[0] as int * 0x100_0000 + b[1] as int * 0x1_0000 + b[2] as int * 0x100 + b[3] as int
  {
    Be32RoundTrip(n);
  }

  /** `QDataStream::writeBytes`; a `QByteArray` holds less than 2^31 bytes. */
  function Frame(msg: seq<byte>): seq<byte>
    requires |msg| < 0x8000_0000
  {
    Be32(|msg|) + msg
  }

  function Flatten(fragments: seq<seq<byte>>): seq<byte> {
    if fragments == [] then [] else fragments[0] + Flatten(fragments[1..])
  }

  /** The announced length as the `int` that the read call takes. */
  function ToInt32(n: nat): int
    requires n < 0x1_0000_0000
  {
    if n < 0x8000_0000 then n else n - 0x1_0000_0000
  }

  /** The announced length, once it has arrived. */
  function Announced(stream: seq<byte>): Option<nat> {
    if |stream| < 4 then None else Some(Value32(stream[..4]))
  }

  /** A length that a buffer can have. */
  predicate Readable(stream: seq<byte>) {
    Announced(stream).Some? && Announced(stream).value < 0x8000_0000
  }

  /** The message in a stream, when all of it is there. */
  function Parse(stream: seq<byte>): Option<seq<byte>> {
    if |stream| < 4 then None
    else
      var n := Value32(stream[..4]);
      if n >= 0x8000_0000 || |stream| - 4 < n then None else Some(stream[4..4 + n])
  }

  /** Whatever follows it, a framed message parses to itself. */
  lemma FrameParses(msg: seq<byte>, rest: seq<byte>)
    requires |msg| < 0x8000_0000
    ensures Readable(Frame(msg) + rest)
    ensures Parse(Frame(msg) + rest) == Some(msg)
    ensures (Frame(msg) + rest)[4 + |msg|..] == rest
  {
    Be32RoundTrip(|msg|);
    assert (Frame(msg) + rest)[..4] == Be32(|msg|);
  }

  // ----- the socket ------------------------------------------------------------

  /** What has arrived and not been read, the fragments that will arrive, one for each
      successful wait, and what was written back. */
  class LocalSocket {
    var available: seq<byte>
    var coming: seq<seq<byte>>
    var written: seq<byte>

    constructor (fragments: seq<seq<byte>>)
      ensures available == [] && coming == fragments && written == []
    {
      available, coming, written := [], fragments, [];
    }

    ghost function Stream(): seq<byte>
      reads this
    {
      available + Flatten(coming)
    }

    /** False when nothing more arrives. */
    method WaitForReadyRead() returns (ok: bool)
      modifies this`available, this`coming
      ensures ok <==> old(coming) != []
      ensures Stream() == old(Stream())
      ensures ok ==> available == old(available) + old(coming)[0] && coming == old(coming)[1..]
      ensures !ok ==> available == old(available) && coming == []
    {
      if coming == [] {
        return false;
      }
      assert available + Flatten(coming) == (available + coming[0]) + Flatten(coming[1..]);
      available, coming := available + coming[0], coming[1..];
      return true;
    }

    /** At most `len` bytes of what is available; a negative count is refused with -1. */
    method ReadRawData(buffer: array<byte>, pos: nat, len: int) returns (got: int)
      requires len < 0 || pos + len <= buffer.Length
      requires pos <= buffer.Length
      modifies this`available, buffer
      ensures len < 0 ==> got == -1 && available == old(available) && buffer[..] == old(buffer[..])
      ensures len >= 0 ==>
                got == (if len <= |old(available)| then len else |old(available)|) &&
                got <= |old(Stream())| && old(Stream())[..got] == old(available)[..got] &&
                available == old(available)[got..] &&
                buffer[..pos + got] == old(buffer[..pos]) + old(available)[..got] &&
                buffer[pos + got..] == old(buffer[pos + got..]) &&
                Stream() == old(Stream())[got..]
    {
      if len < 0 {
        return -1;
      }
      got := if len <= |available| then len else |available|;
      for k := 0 to got
        invariant available == old(available)
        invariant buffer[..pos + k] == old(buffer[..pos]) + available[..k]
        invariant buffer[pos + k..] == old(buffer[pos + k..])
      {
        buffer[pos + k] := available[k];
      }
      available := available[got..];
    }

    method Write(bytes: seq<byte>)
      modifies this`written
      ensures written == old(written) + bytes
    {
      written := written + bytes;
    }
  }

  // ----- the receiving side ---------------------------------------------------------

  /** Waits for the length field and takes it off the socket; `None` when the peer goes
      away first. */
  method ReceiveLength(socket: LocalSocket) returns (length: Option<nat>)
    modifies socket`available, socket`coming
    ensures length.None? <==> |old(socket.Stream())| < 4
    ensures length.Some? ==> length.value == Value32(old(socket.Stream())[..4]) &&
                             socket.Stream() == old(socket.Stream())[4..]
    ensures length.Some? ==> length.value < 0x1_0000_0000
  {
    while |socket.available| < 4
      invariant socket.Stream() == old(socket.Stream())
      decreases |socket.coming|
    {
      var ok := socket.WaitForReadyRead();
      if !ok {
        return None;
      }
    }
    length := Some(Value32(socket.available[..4]));
    assert old(socket.Stream())[..4] == socket.available[..4];
    assert old(socket.Stream())[4..] == socket.available[4..] + Flatten(socket.coming);
    socket.available := socket.available[4..];
  }

  lemma PrefixGrows(s: seq<byte>, k: nat, n: nat)
    requires k + n <= |s|
    ensures s[..k] + s[k..][..n] == s[..k + n]
    ensures s[k..][n..] == s[k + n..]
  {
  }

  /** One read of the loop, seen from the stream it takes its bytes off. */
  method ReadSome(socket: LocalSocket, buffer: array<byte>, pos: nat, remaining: int, ghost stream: seq<byte>)
    returns (got: int)
    requires 0 <= remaining < 0x1_0000_0000 && pos <= buffer.Length && pos <= |stream|
    requires remaining < 0x8000_0000 ==> pos + remaining <= buffer.Length
    requires buffer[..pos] == stream[..pos] && socket.Stream() == stream[pos..]
    modifies socket`available, buffer
    ensures socket.coming == old(socket.coming)
    ensures remaining >= 0x8000_0000 ==> got == -1 && socket.Stream() == old(socket.Stream())
    ensures remaining < 0x8000_0000 ==>
              0 <= got <= remaining && pos + got <= |stream| &&
              buffer[..pos + got] == stream[..pos + got] && socket.Stream() == stream[pos + got..]
    ensures remaining < 0x8000_0000 && got < remaining ==> socket.available == []
  {
    got := socket.ReadRawData(buffer, pos, ToInt32(remaining));
    if got >= 0 {
      PrefixGrows(stream, pos, got);
    }
  }

  /** The read loop. `remaining` plus the bytes read is the announced length at every
      turn, and the write position stays inside the buffer. If the rest does not arrive
      in time the buffer's tail keeps whatever it held. A length that is no `int` leaves
      the buffer empty, and the first read fails. */
  method ReceiveBody(socket: LocalSocket, length: nat) returns (uMsg: Option<seq<byte>>)
    requires length < 0x1_0000_0000
    modifies socket`available, socket`coming
    ensures uMsg.Some? <==> length < 0x8000_0000
    ensures uMsg.None? ==> socket.Stream() == old(socket.Stream())
    ensures uMsg.Some? ==>
              var stream := old(socket.Stream());
              |uMsg.value| == length &&
              if length <= |stream| then uMsg.value == stream[..length] && socket.Stream() == stream[length..]
              else uMsg.value[..|stream|] == stream && socket.Stream() == []
  {
    var remaining: int := length;
    var buffer := new byte[if ToInt32(length) < 0 then 0 else length];
    var uMsgBuf: nat := 0;
    ghost var stream := socket.Stream();
    while true
      invariant uMsgBuf + remaining == length && 0 <= remaining
      invariant length < 0x8000_0000 ==> buffer.Length == length
      invariant length >= 0x8000_0000 ==> uMsgBuf == 0
      invariant uMsgBuf <= |stream| && uMsgBuf <= buffer.Length
      invariant buffer[..uMsgBuf] == stream[..uMsgBuf]
      invariant socket.Stream() == stream[uMsgBuf..]
      decreases |socket.coming|
    {
      var got := ReadSome(socket, buffer, uMsgBuf, remaining, stream);
      if got < 0 {
        return None;
      }
      remaining := remaining - got;
      uMsgBuf := uMsgBuf + got;
      if remaining == 0 {
        break;
      }
      var ok := socket.WaitForReadyRead();
      if !ok {
        break;
      }
    }
    uMsg := Some(buffer[..]);
  }

  method ReceiveConnection(socket: LocalSocket) returns (message: Option<seq<byte>>)
    modifies socket
    ensures message.Some? <==> Readable(old(socket.Stream()))
    ensures Parse(old(socket.Stream())).Some? ==>
              message == Parse(old(socket.Stream())) &&
              socket.Stream() == old(socket.Stream())[4 + |message.value|..]
    ensures message.Some? ==>
              |message.value| == Announced(old(socket.Stream())).value &&
              forall k :: 0 <= k < |message.value| && 4 + k < |old(socket.Stream())| ==>
                message.value[k] == old(socket.Stream())[4 + k]
    ensures socket.written == old(socket.written) + if message.Some? then ACK else []
  {
    ghost var stream := socket.Stream();
    var length := ReceiveLength(socket);
    if length.None? {
      return None;
    }
    message := ReceiveBody(socket, length.value);
    if message.None? {
      return;
    }
    assert |stream| - 4 >= length.value ==>
        message.value == stream[4..][..length.value] && stream[4..][..length.value] == stream[4..4 + length.value] &&
        stream[4..][length.value..] == stream[4 + length.value..];
    assert |stream| - 4 < length.value ==> message.value[..|stream| - 4] == stream[4..];
    socket.Write(ACK);
  }

  /** The sending side: the bytes that `sendMessage` puts on the socket. */
  method SendMessage(socket: LocalSocket, message: seq<byte>)
    requires |message| < 0x8000_0000
    modifies socket`written
    ensures socket.written == old(socket.written) + Frame(message)
  {
    socket.Write(Be32(|message|));
    socket.Write(message);
    assert socket.written == old(socket.written) + Frame(message);
  }

  /** However the sent bytes are fragmented, once all of them arrive the receiver gets
      exactly the message, acknowledges it, and leaves what follows unread. */
  method RoundTrip(message: seq<byte>, fragments: seq<seq<byte>>, ghost rest: seq<byte>)
    returns (got: Option<seq<byte>>, left: LocalSocket)
    requires |message| < 0x8000_0000
    requires Flatten(fragments) == Frame(message) + rest
    ensures got == Some(message)
    ensures left.Stream() == rest && left.written == [97, 99, 107]
  {
    left := new LocalSocket(fragments);
    assert left.Stream() == Frame(message) + rest;
    FrameParses(message, rest);
    got := ReceiveConnection(left);
  }
}
