/** The PUTFILE receiver of src/ESP32FileManager.h: after
    `READY 4096` the device collects the payload in a 4096-byte buffer,
    writes each full chunk to the open file and answers NEXT, until the
    announced size is reached (OK, DONE) or no byte has come for more than
    ten seconds (ERROR, DONE), all inside the call that took the PUTFILE.
    `Step` and `Run` say what the loop does, the lemmas say what that
    guarantees, and `FileManager` is the object that does it in place. */
module DevicePut {
  import opened Strings
  import opened Arduino
  import opened Transport
  import opened DeviceCommands

  /** `PUT_CHUNK`. */
  const PutChunk: nat := 4096

  /** Milliseconds without data after which the transfer is abandoned. */
  const Timeout: nat := 10000

  /** `unsigned long` and `size_t` are 32 bits wide on the ESP32. */
  const Wrap: nat := 0x1_0000_0000

  type u32 = x: int | 0 <= x < 0x1_0000_0000

  /** One pass of `while (_putActive)`: the bytes that reach the serial
      buffer before its `Serial.available()`, and what `millis()` reads in
      it. */
  datatype Tick = Tick(arrive: seq<byte>, now: u32)

  /** The transfer fields: `_putActive`, `_putSize`, `_putReceived`, the
      bytes of the current chunk (`_putBuf[0.._putChunkPos)`),
      `_putLastData`, and what was written to `_putFile`. */
  datatype Put = Put(active: bool, size: int, received: int, chunk: seq<byte>, lastData: u32, file: seq<byte>)

  /** The state PUTFILE starts a transfer in. */
  function Start(size: int, now: u32): Put {
    Put(true, size, 0, [], now, [])
  }

  /** `chunkWant`: the rest of the file, at most one buffer. */
  function ChunkWant(size: int, received: int): int {
    if size - received > PutChunk then PutChunk else size - received
  }

  /** `millis() - _putLastData` in unsigned arithmetic. */
  function Elapsed(now: u32, since: u32): u32 {
    (now - since) % Wrap
  }

  /** `toRead`: what is available, but no more than the chunk still lacks. */
  function ToRead(avail: nat, want: int, pos: nat): int {
    if avail > want - pos then want - pos else avail
  }

  /** How many bytes the read stores at `_putBuf + pos`, as written:
      `readBytes` takes its count as a `size_t`, so a negative `toRead`
      becomes a length near 2^32 and every available byte is taken. */
  function StoredAsWritten(avail: nat, want: int, pos: nat): nat {
    if avail == 0 then 0 else Min(ToRead(avail, want, pos) % Wrap, avail)
  }

  /** How many bytes the read stores, as the buffer size evidently intends:
      only a positive `toRead` is read, and then all of it is available. */
  function Stored(avail: nat, want: int, pos: nat): (got: nat)
    ensures got <= avail
    ensures got > 0 ==> pos + got <= want
  {
    var t := ToRead(avail, want, pos);
    if avail > 0 && t > 0 then t else 0
  }

  /** The outcome of some passes: the new fields, the serial bytes not yet
      read, and the lines printed. */
  datatype Stepped = Stepped(put: Put, rx: seq<byte>, said: seq<string>)

  /** The read of one pass when `rx` is already buffered: `toRead` bytes
      join the chunk and, if any came, the time of the last data moves. */
  function Receive(p: Put, rx: seq<byte>, t: Tick): Stepped {
    var buffered := rx + t.arrive;
    var got := Stored(|buffered|, ChunkWant(p.size, p.received), |p.chunk|);
    Stepped(p.(chunk := p.chunk + buffered[..got], lastData := if got > 0 then t.now else p.lastData),
            buffered[got..], [])
  }

  /** The rest of the pass: a full chunk is written to the file and
      answered with NEXT, or with OK, DONE once the file is complete; a
      chunk that stays short past the timeout ends the transfer with
      ERROR, DONE. */
  function Settle(p: Put, rx: seq<byte>, now: u32): Stepped {
    if |p.chunk| >= ChunkWant(p.size, p.received) then
      var q := p.(received := p.received + |p.chunk|, chunk := [], file := p.file + p.chunk);
      if q.received >= p.size then Stepped(q.(active := false), rx, [Println("OK"), Done])
      else Stepped(q, rx, [Println("NEXT")])
    else if Elapsed(now, p.lastData) > Timeout then Stepped(p.(active := false), rx, [ErrorLine, Done])
    else Stepped(p, rx, [])
  }

  /** One pass of the loop. */
  function Step(p: Put, rx: seq<byte>, t: Tick): Stepped {
    var r := Receive(p, rx, t);
    Settle(r.put, r.rx, t.now)
  }

  /** The loop over the passes `ticks`, until the transfer ends or the
      passes run out. The code loops until the transfer ends; a run that
      ends with the transfer still active is a prefix of that loop. */
  function Run(p: Put, rx: seq<byte>, ticks: seq<Tick>): Stepped
    decreases |ticks|
  {
    if !p.active || ticks == [] then Stepped(p, rx, [])
    else
      var s := Step(p, rx, ticks[0]);
      var r := Run(s.put, s.rx, ticks[1..]);
      Stepped(r.put, r.rx, s.said + r.said)
  }

  /** All bytes that arrive during `ticks`. */
  function Arrived(ticks: seq<Tick>): seq<byte> {
    if ticks == [] then [] else ticks[0].arrive + Arrived(ticks[1..])
  }

  function Max0(n: int): nat {
    if n > 0 then n else 0
  }

  /** The transfer invariant: the file holds `received` bytes, the chunk
      fits the buffer, and file and chunk together never pass the announced
      size. */
  predicate Inv(p: Put) {
    0 <= p.received && |p.file| == p.received
    && p.received + |p.chunk| <= Max0(p.size) && |p.chunk| <= PutChunk
  }

  predicate Nexts(s: seq<string>) {
    forall i :: 0 <= i < |s| ==> s[i] == Println("NEXT")
  }

  /** A finished transfer's lines: NEXTs, then OK or ERROR, then DONE. */
  predicate Closed(s: seq<string>) {
    |s| >= 2 && Nexts(s[..|s| - 2]) && s[|s| - 1] == Done
    && (s[|s| - 2] == Println("OK") || s[|s| - 2] == ErrorLine)
  }

  // ---------------------------------------------------------------- lemmas

  /** A new transfer satisfies the invariant. */
  lemma StartInv(size: int, now: u32)
    ensures Inv(Start(size, now)) && Start(size, now).active
  {
  }

  /** `0 <= _putChunkPos <= chunkWant <= PUT_CHUNK` (with a chunkWant below
      zero counting as zero): every read stays inside `_putBuf`. */
  lemma InvBounds(p: Put, avail: nat)
    requires Inv(p)
    ensures 0 <= |p.chunk| <= Max0(ChunkWant(p.size, p.received)) <= PutChunk
    ensures |p.chunk| + Stored(avail, ChunkWant(p.size, p.received), |p.chunk|) <= PutChunk
  {
  }

  lemma ReceiveInv(p: Put, rx: seq<byte>, t: Tick)
    requires Inv(p)
    ensures Inv(Receive(p, rx, t).put)
  {
  }

  lemma SettleInv(p: Put, rx: seq<byte>, now: u32)
    requires Inv(p)
    ensures Inv(Settle(p, rx, now).put)
  {
  }

  /** One pass keeps the invariant. */
  lemma StepInv(p: Put, rx: seq<byte>, t: Tick)
    requires Inv(p)
    ensures Inv(Step(p, rx, t).put)
  {
    var r := Receive(p, rx, t);
    ReceiveInv(p, rx, t);
    SettleInv(r.put, r.rx, t.now);
  }

  /** One pass loses and reorders no byte: file, chunk and unread input
      together are the old ones followed by what arrived. */
  lemma StepConserves(p: Put, rx: seq<byte>, t: Tick)
    ensures var s := Step(p, rx, t);
      s.put.file + s.put.chunk + s.rx == p.file + p.chunk + (rx + t.arrive)
  {
    var r := Receive(p, rx, t);
    ReceiveConserves(p, rx, t);
    SettleConserves(r.put, r.rx, t.now);
  }

  lemma ReceiveConserves(p: Put, rx: seq<byte>, t: Tick)
    ensures var r := Receive(p, rx, t);
      r.put.file + r.put.chunk + r.rx == p.file + p.chunk + (rx + t.arrive)
  {
    var buffered := rx + t.arrive;
    var got := Stored(|buffered|, ChunkWant(p.size, p.received), |p.chunk|);
    assert buffered[..got] + buffered[got..] == buffered;
    var r := Receive(p, rx, t);
    assert r.put.chunk == p.chunk + buffered[..got];
  }

  lemma SettleConserves(p: Put, rx: seq<byte>, now: u32)
    ensures var s := Settle(p, rx, now);
      s.put.file + s.put.chunk + s.rx == p.file + p.chunk + rx
  {
  }

  /** What one pass prints: NEXT while the transfer goes on, nothing while
      it waits, and OK, DONE or ERROR, DONE when it ends; OK exactly when the
      file has reached the announced size, and an ending pass leaves no
      chunk behind unless it timed out. ERROR, DONE exactly when no byte is
      buffered, the chunk is short and more than `Timeout` ms passed since
      the last data; NEXT exactly when the read fills the chunk and the file
      is still short. */
  lemma StepSays(p: Put, rx: seq<byte>, t: Tick)
    requires Inv(p) && p.active
    ensures var s := Step(p, rx, t);
      (s.put.active ==> Nexts(s.said) && |s.put.file| < p.size)
      && (!s.put.active ==>
            (s.said == [Println("OK"), Done] && |s.put.file| == Max0(p.size) && s.put.chunk == [])
            || (s.said == [ErrorLine, Done] && |s.put.file| < p.size))
    ensures var s := Step(p, rx, t);
      var want := ChunkWant(p.size, p.received);
      var filled := |p.chunk| + Stored(|rx + t.arrive|, want, |p.chunk|);
      var timedOut := rx + t.arrive == [] && |p.chunk| < want && Elapsed(t.now, p.lastData) > Timeout;
      (s.said == [ErrorLine, Done] <==> timedOut)
      && (s.said == [Println("NEXT")] <==> filled >= want && p.received + filled < p.size)
      && (s.said == [Println("OK"), Done] <==> filled >= want && p.received + filled >= p.size)
  {
    var r := Receive(p, rx, t);
    var want := ChunkWant(p.size, p.received);
    var got := Stored(|rx + t.arrive|, want, |p.chunk|);
    assert |r.put.chunk| == |p.chunk| + got;
    assert got > 0 ==> Elapsed(t.now, r.put.lastData) == 0;
    assert got == 0 && |p.chunk| < want ==> rx + t.arrive == [];
    ReceiveInv(p, rx, t);
    SettleSays(r.put, r.rx, t.now);
  }

  lemma SettleSays(p: Put, rx: seq<byte>, now: u32)
    requires Inv(p) && p.active
    ensures var s := Settle(p, rx, now);
      (s.put.active ==> Nexts(s.said) && |s.put.file| < p.size)
      && (!s.put.active ==>
            (s.said == [Println("OK"), Done] && |s.put.file| == Max0(p.size) && s.put.chunk == [])
            || (s.said == [ErrorLine, Done] && |s.put.file| < p.size))
    ensures var s := Settle(p, rx, now);
      var want := ChunkWant(p.size, p.received);
      (s.said == [ErrorLine, Done] <==> |p.chunk| < want && Elapsed(now, p.lastData) > Timeout)
      && (s.said == [Println("NEXT")] <==> |p.chunk| >= want && p.received + |p.chunk| < p.size)
      && (s.said == [Println("OK"), Done] <==> |p.chunk| >= want && p.received + |p.chunk| >= p.size)
  {
  }

  lemma {:induction false} RunInv(p: Put, rx: seq<byte>, ticks: seq<Tick>)
    requires Inv(p)
    ensures Inv(Run(p, rx, ticks).put)
    decreases |ticks|
  {
    if p.active && ticks != [] {
      var s := Step(p, rx, ticks[0]);
      StepInv(p, rx, ticks[0]);
      RunInv(s.put, s.rx, ticks[1..]);
    }
  }

  /** The file, the chunk and the unread input after the loop are a prefix
      of those before it followed by everything that arrives: the file
      receives the payload bytes in order, none twice. */
  lemma {:induction false} RunConserves(p: Put, rx: seq<byte>, ticks: seq<Tick>)
    ensures var r := Run(p, rx, ticks);
      r.put.file + r.put.chunk + r.rx <= p.file + p.chunk + rx + Arrived(ticks)
    decreases |ticks|
  {
    if p.active && ticks != [] {
      var s := Step(p, rx, ticks[0]);
      StepConserves(p, rx, ticks[0]);
      RunConserves(s.put, s.rx, ticks[1..]);
      assert p.file + p.chunk + rx + Arrived(ticks)
          == s.put.file + s.put.chunk + s.rx + Arrived(ticks[1..]);
    }
  }

  /** Everything the loop prints: NEXTs while the transfer goes on, then
      OK, DONE if the file reached its announced size, or ERROR, DONE if
      the transfer timed out short of it. */
  lemma {:induction false} RunSays(p: Put, rx: seq<byte>, ticks: seq<Tick>)
    requires Inv(p) && p.active
    ensures var r := Run(p, rx, ticks);
      (r.put.active ==> Nexts(r.said))
      && (!r.put.active ==>
            Closed(r.said) && (r.said[|r.said| - 2] == Println("OK") <==> |r.put.file| == Max0(p.size)))
    decreases |ticks|
  {
    if ticks != [] {
      var s := Step(p, rx, ticks[0]);
      StepSays(p, rx, ticks[0]);
      if s.put.active {
        StepInv(p, rx, ticks[0]);
        StepKeepsSize(p, rx, ticks[0]);
        RunSays(s.put, s.rx, ticks[1..]);
        var q := Run(s.put, s.rx, ticks[1..]);
        assert Run(p, rx, ticks) == Stepped(q.put, q.rx, s.said + q.said);
        if q.put.active {
          NextsAppend(s.said, q.said);
        } else {
          EndingAppend(s.said, q.said);
        }
      } else {
        assert Run(p, rx, ticks).said == s.said;
        assert Println("OK") != ErrorLine by { assert Println("OK")[0] != ErrorLine[0]; }
      }
    }
  }

  lemma StepKeepsSize(p: Put, rx: seq<byte>, t: Tick)
    ensures Step(p, rx, t).put.size == p.size
  {
  }

  lemma NextsAppend(a: seq<string>, b: seq<string>)
    requires Nexts(a) && Nexts(b)
    ensures Nexts(a + b)
  {
  }

  /** NEXTs followed by a reply that ends in two closing lines. */
  lemma EndingAppend(a: seq<string>, b: seq<string>)
    requires Nexts(a) && Closed(b)
    ensures Closed(a + b) && (a + b)[|a + b| - 2] == b[|b| - 2]
  {
    assert (a + b)[..|a + b| - 2] == a + b[..|b| - 2];
  }

  /** The payload is stored exactly: when the loop prints OK for a
      transfer started by PUTFILE, the file holds the first `size` bytes
      that came over the line after the command. */
  lemma TransferStoresPrefix(size: nat, now: u32, rx: seq<byte>, ticks: seq<Tick>)
    requires var r := Run(Start(size, now), rx, ticks);
      !r.put.active && |r.said| >= 2 && r.said[|r.said| - 2] == Println("OK")
    ensures var r := Run(Start(size, now), rx, ticks);
      size <= |rx + Arrived(ticks)| && r.put.file == (rx + Arrived(ticks))[..size]
  {
    var p := Start(size, now);
    var r := Run(p, rx, ticks);
    StartInv(size, now);
    RunSays(p, rx, ticks);
    RunConserves(p, rx, ticks);
    assert p.file + p.chunk + rx == rx;
    RunInv(p, rx, ticks);
    assert r.put.file <= r.put.file + r.put.chunk + r.rx;
  }

  /** A zero-byte PUTFILE completes on its first pass with OK, DONE and an
      empty file, whatever arrives. */
  lemma ZeroSizeCompletes(now: u32, rx: seq<byte>, ticks: seq<Tick>)
    requires ticks != []
    ensures var r := Run(Start(0, now), rx, ticks);
      !r.put.active && r.said == [Println("OK"), Done] && r.put.file == []
  {
    var s := Step(Start(0, now), rx, ticks[0]);
    assert !s.put.active;
  }

  // ---------------------------------------------------------------- finding

  /** `"-1".toInt()` is -1. */
  lemma MinusOne()
    ensures ToInt("-1") == -1
  {
    assert TrimStart("-1", Arduino.IsSpace) == "-1";
    assert LeadingDigits("1") == "1";
    assert DigitsValue("1") == 1;
  }

  /** The PUTFILE arguments of `PUTFILE "/x" -1`. */
  lemma PutMinusOne()
    ensures ParsePut("PUTFILE \"/x\" -1") == PutFile("/x", -1)
  {
    var cmd := "PUTFILE \"/x\" -1";
    assert LastIndex(cmd, ' ') == 12 by {
      assert cmd[|cmd| - 1] == '1' && cmd[|cmd| - 2] == '-' && cmd[|cmd| - 3] == ' ';
      assert cmd[..|cmd| - 1][..|cmd| - 2] == cmd[..|cmd| - 2];
    }
    assert SubstringFrom(cmd, 13) == "-1";
    MinusOne();
    GetPathOfQuoted("PUTFILE ", "/x", " -1");
    assert cmd == "PUTFILE " + "\"" + "/x" + "\"" + " -1";
  }

  /** As written, `PUTFILE "/x" -1` starts a transfer of size -1, and if
      5000 bytes are waiting, the first read stores 5000 bytes at the start
      of the 4096-byte `_putBuf`. */
  lemma NegativeSizeOverrun()
    ensures Parse("PUTFILE \"/x\" -1") == PutFile("/x", -1)
    ensures ChunkWant(-1, 0) == -1 && ToRead(5000, -1, 0) == -1
    ensures StoredAsWritten(5000, -1, 0) == 5000 > PutChunk
  {
    var cmd := "PUTFILE \"/x\" -1";
    assert TrimStart(cmd, Arduino.IsSpace) == cmd;
    assert TrimEnd(cmd, Arduino.IsSpace) == cmd;
    assert StartsWith(cmd, "PUTFILE ");
    assert !StartsWith(cmd, "LIST ") && !StartsWith(cmd, "CREATE_DIR ");
    PutMinusOne();
  }

  /** With the read restricted to a positive count, a transfer of negative
      size reads nothing and ends on its first pass with OK, DONE and an
      empty file. */
  lemma NegativeSizeEndsAtOnce(size: int, now: u32, rx: seq<byte>, t: Tick)
    requires size < 0
    ensures var s := Step(Start(size, now), rx, t);
      !s.put.active && s.said == [Println("OK"), Done] && s.put.file == [] && s.rx == rx + t.arrive
  {
  }

  /** The run over `ticks[i..]` is one pass followed by the run over the rest. */
  lemma RunFrom(p: Put, rx: seq<byte>, ticks: seq<Tick>, i: nat)
    requires p.active && i < |ticks|
    ensures var s := Step(p, rx, ticks[i]);
      var q := Run(s.put, s.rx, ticks[i + 1..]);
      Run(p, rx, ticks[i..]) == Stepped(q.put, q.rx, s.said + q.said)
  {
    assert ticks[i..][0] == ticks[i] && ticks[i..][1..] == ticks[i + 1..];
  }

  // ---------------------------------------------------------------- the object

  /** The transfer fields of `ESP32FileManager`, the serial input not yet
      read, and everything the device prints. */
  class FileManager {
    var putActive: bool
    var putSize: int
    var putReceived: int
    var putChunkPos: int
    var putLastData: u32
    const putBuf: array<byte>
    /** What was written to `_putFile` since it was opened. */
    var file: seq<byte>
    /** Serial bytes received and not yet read. */
    var rx: seq<byte>
    /** Every line printed on the serial port. */
    var out: seq<string>
    /** Every byte GETDATA wrote to the serial port. */
    var streamed: seq<byte>

    predicate Valid()
      reads this, putBuf
    {
      putBuf.Length == PutChunk && 0 <= putChunkPos <= PutChunk && Inv(State())
    }

    function State(): Put
      reads this, putBuf
      requires 0 <= putChunkPos <= putBuf.Length
    {
      Put(putActive, putSize, putReceived, putBuf[..putChunkPos], putLastData, file)
    }

    constructor ()
      ensures Valid() && !putActive && rx == [] && out == [] && streamed == []
    {
      putActive := false;
      putSize := 0;
      putReceived := 0;
      putChunkPos := 0;
      putLastData := 0;
      putBuf := new byte[PutChunk];
      file := [];
      rx := [];
      out := [];
      streamed := [];
    }

    /** The read of one pass: `readBytes(_putBuf + _putChunkPos, toRead)`. */
    method ReadPending(t: Tick)
      requires Valid()
      modifies this, putBuf
      ensures Valid()
      ensures var r := Receive(old(State()), old(rx), t);
        State() == r.put && rx == r.rx
      ensures out == old(out) && streamed == old(streamed)
    {
      ghost var p := State();
      rx := rx + t.arrive;
      var remaining := putSize - putReceived;
      var chunkWant := if remaining > PutChunk then PutChunk else remaining;
      var avail := |rx|;
      if avail > 0 {
        var toRead := if avail > chunkWant - putChunkPos then chunkWant - putChunkPos else avail;
        // The guard is the correction of the negative-size overrun: the code
        // as written calls readBytes with a negative `toRead` as well
        // (`StoredAsWritten`). A zero `toRead` reads nothing either way.
        if toRead > 0 {
          // All `toRead` bytes are already buffered, so readBytes returns them at once.
          var taken := rx[..toRead];
          Fill(taken);
          rx := rx[toRead..];
          putChunkPos := putChunkPos + toRead;
          putLastData := t.now;
        }
      }
      ReceiveInv(p, old(rx), t);
    }

    /** Copies `taken` into `_putBuf` at `_putChunkPos`. */
    method Fill(taken: seq<byte>)
      requires 0 <= putChunkPos && putChunkPos + |taken| <= putBuf.Length
      modifies putBuf
      ensures putBuf[..putChunkPos + |taken|] == old(putBuf[..putChunkPos]) + taken
    {
      forall j | 0 <= j < |taken| {
        putBuf[putChunkPos + j] := taken[j];
      }
    }

    /** The rest of the pass: the chunk check and the timeout. */
    method Conclude(now: u32)
      requires Valid()
      modifies this
      ensures Valid()
      ensures var r := Settle(old(State()), old(rx), now);
        State() == r.put && rx == r.rx && out == old(out) + r.said
      ensures streamed == old(streamed)
    {
      ghost var p := State();
      var remaining := putSize - putReceived;
      var chunkWant := if remaining > PutChunk then PutChunk else remaining;
      if putChunkPos >= chunkWant {
        file := file + putBuf[..putChunkPos];
        putReceived := putReceived + putChunkPos;
        putChunkPos := 0;
        if putReceived >= putSize {
          out := out + [Println("OK"), Done];
          putActive := false;
        } else {
          out := out + [Println("NEXT")];
        }
      } else if Elapsed(now, putLastData) > Timeout {
        out := out + [ErrorLine, Done];
        putActive := false;
      }
      SettleInv(p, rx, now);
    }

    /** One pass of the `while (_putActive)` loop of `_handlePutData`. */
    method Pass(t: Tick)
      requires Valid()
      modifies this, putBuf
      ensures Valid()
      ensures var s := Step(old(State()), old(rx), t);
        State() == s.put && rx == s.rx && out == old(out) + s.said
      ensures streamed == old(streamed)
    {
      ReadPending(t);
      Conclude(t.now);
    }

    /** `_handlePutData()` over the passes `ticks`. */
    method HandlePutData(ticks: seq<Tick>)
      requires Valid()
      modifies this, putBuf
      ensures Valid()
      ensures var r := Run(old(State()), old(rx), ticks);
        State() == r.put && rx == r.rx && out == old(out) + r.said
      ensures streamed == old(streamed)
    {
      var i := 0;
      while putActive && i < |ticks|
        invariant Valid() && 0 <= i <= |ticks|
        invariant var r := Run(State(), rx, ticks[i..]);
          var r0 := Run(old(State()), old(rx), ticks);
          r.put == r0.put && r.rx == r0.rx && old(out) + r0.said == out + r.said
        invariant streamed == old(streamed)
        decreases |ticks| - i
      {
        ghost var p := State();
        ghost var before := rx;
        ghost var said := out;
        RunFrom(p, before, ticks, i);
        Pass(ticks[i]);
        ghost var s := Step(p, before, ticks[i]);
        assert out == said + s.said;
        Regroup(said, s.said, Run(s.put, s.rx, ticks[i + 1..]).said);
        i := i + 1;
      }
      if i == |ticks| {
        assert ticks[i..] == [];
      }
    }

    /** `handleFileManager()` when `line` is the command read (None when no
        serial input is waiting), `card` says what the SD calls return,
        `now` is `millis()` at PUTFILE, and `ticks` are the passes of the
        transfer loop. A running transfer takes precedence over any command. */
    method HandleFileManager(line: Option<string>, card: Card, now: u32, ticks: seq<Tick>)
      requires Valid()
      modifies this, putBuf
      ensures Valid()
      ensures old(putActive) ==>
        var r := Run(old(State()), old(rx), ticks);
        State() == r.put && rx == r.rx && out == old(out) + r.said && streamed == old(streamed)
      ensures !old(putActive) && line.None? ==>
        State() == old(State()) && rx == old(rx) && out == old(out) && streamed == old(streamed)
      ensures !old(putActive) && line.Some? ==>
        var req := Parse(line.value);
        if req.PutFile? && req.path in card.writable then
          var r := Run(Start(req.size, now), old(rx), ticks);
          State() == r.put && rx == r.rx && out == old(out) + [PutReady] + r.said && streamed == old(streamed)
        else
          State() == old(State()) && rx == old(rx) && out == old(out) + Respond(req, card)
          && streamed == old(streamed) + Streamed(req, card)
    {
      if putActive {
        HandlePutData(ticks);
        return;
      }
      if line.None? {
        return;
      }
      var req := Parse(line.value);
      if req.PutFile? && req.path in card.writable {
        file := [];
        putSize := req.size;
        putReceived := 0;
        putChunkPos := 0;
        putLastData := now;
        putActive := true;
        out := out + [PutReady];
        assert State() == Start(req.size, now);
        HandlePutData(ticks);
      } else {
        // A PUTFILE whose open fails has already set `_putSize` in the code;
        // the model leaves it alone. Nothing reads `_putSize` before the
        // next successful PUTFILE sets it again, so the difference cannot
        // be observed.
        out := out + Respond(req, card);
        streamed := streamed + Streamed(req, card);
      }
    }
  }

  /** `printf("READY %d\n", PUT_CHUNK)`. */
  const PutReady: string := "READY 4096\n"
}
