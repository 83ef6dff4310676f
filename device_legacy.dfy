/** The older firmware, ESP32FileManager.h. It answers the same commands
    as src/ESP32FileManager.h, except for PUTFILE. There are no READY/NEXT
    handshakes: the device reads the whole payload in one blocking loop
    over a 1024-byte buffer, and answers OK only if exactly the announced
    number of bytes came. */
module DeviceLegacy {
  import opened Strings
  import opened Transport
  import opened DeviceCommands

  /** `uint8_t buf[1024]`. */
  const LegacyChunk: nat := 1024

  /** The PUTFILE loop once the file is open. `pending` are the bytes the
      host still sends, and the i-th `readBytes` sees `bursts[i]` of them
      before its timeout. */
  method ReceiveFile(size: int, pending: seq<byte>, bursts: seq<nat>) returns (written: seq<byte>, reply: seq<string>)
    ensures written == Fetch(size, LegacyChunk, pending, bursts)
    ensures reply == [Println(if |written| == size then "OK" else "ERROR"), Done]
  {
    var buf := new byte[LegacyChunk];
    var received := 0;
    written := [];
    var rest := pending;
    var bs := bursts;
    while received < size
      invariant received == |written|
      invariant written + Fetch(size - received, LegacyChunk, rest, bs) == Fetch(size, LegacyChunk, pending, bursts)
      decreases |bs|
    {
      var want := Min(LegacyChunk, size - received);
      var got := if bs == [] then 0 else Grant(want, rest, bs[0]);
      if got <= 0 {
        break;
      }
      CopyInto(buf, rest[..got]);
      FetchAdvance(written, size - received, LegacyChunk, rest, bs, got, Fetch(size, LegacyChunk, pending, bursts));
      // f.write(buf, got)
      written := written + buf[..got];
      rest := rest[got..];
      bs := bs[1..];
      received := received + got;
    }
    reply := [Println(if received == size then "OK" else "ERROR"), Done];
  }

  /** `readBytes(buf, n)` once the `n` bytes are there: they fill the
      start of `buf`. */
  method CopyInto(buf: array<byte>, bytes: seq<byte>)
    requires |bytes| <= buf.Length
    modifies buf
    ensures buf[..|bytes|] == bytes
  {
    forall j | 0 <= j < |bytes| {
      buf[j] := bytes[j];
    }
  }

  /** `handleFileManager()` of the older firmware for the command `line`:
      the lines it prints, the bytes it writes to the file PUTFILE opened,
      and the bytes GETDATA streams. */
  method HandleCommand(line: string, card: Card, pending: seq<byte>, bursts: seq<nat>)
    returns (said: seq<string>, written: seq<byte>, streamed: seq<byte>)
    ensures var req := Parse(line);
      if req.PutFile? && req.path in card.writable then
        written == Fetch(req.size, LegacyChunk, pending, bursts) && streamed == []
        && said == [Println(if |written| == req.size then "OK" else "ERROR"), Done]
      else
        said == Respond(req, card) && written == [] && streamed == Streamed(req, card)
  {
    var req := Parse(line);
    if req.PutFile? && req.path in card.writable {
      written, said := ReceiveFile(req.size, pending, bursts);
      streamed := [];
    } else {
      said := Respond(req, card);
      written := [];
      streamed := Streamed(req, card);
    }
  }

  /** The file receives a prefix of what the host sent. OK is printed
      exactly when that prefix has the announced length. A negative size
      writes nothing and gets ERROR. */
  lemma LegacyPutResult(size: int, pending: seq<byte>, bursts: seq<nat>)
    ensures var w := Fetch(size, LegacyChunk, pending, bursts);
      w <= pending
      && (|w| == size <==> 0 <= size <= |pending| && w == pending[..size])
      && (size < 0 ==> w == [] && |w| != size)
  {
    FetchBounded(size, LegacyChunk, pending, bursts);
  }

  /** When every read delivers a full buffer and there are enough of them,
      the file is the first `size` bytes sent, and the reply is OK. */
  lemma LegacyPutCompletes(size: nat, pending: seq<byte>, bursts: seq<nat>)
    requires size <= |pending|
    requires forall i :: 0 <= i < |bursts| ==> bursts[i] >= LegacyChunk
    requires |bursts| * LegacyChunk >= size
    ensures Fetch(size, LegacyChunk, pending, bursts) == pending[..size]
  {
    FetchComplete(size, LegacyChunk, pending, bursts);
  }

  /** When the host sends fewer bytes than announced, the file gets all of
      them and the reply is ERROR: unlike the host's download loop, the
      device notices a short transfer. */
  lemma LegacyPutShort(size: int, pending: seq<byte>, bursts: seq<nat>)
    requires |pending| < size
    requires forall i :: 0 <= i < |bursts| ==> bursts[i] >= LegacyChunk
    requires |bursts| * LegacyChunk >= |pending|
    ensures var w := Fetch(size, LegacyChunk, pending, bursts);
      w == pending && |w| != size
  {
    FetchShort(size, LegacyChunk, pending, bursts);
  }
}
