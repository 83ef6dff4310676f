/** The host client's file browser (class `ESPFileBrowser` of
    src/ESPFileManager.py; ESPFileManager.py holds the same logic): the
    state it keeps (serial port, current folder, the rows of the folder
    view, the storage label) and the operations behind its buttons. Dialogs
    become parameters: the selected row, the name typed, the confirmation
    given. The replies the device sends within each read's timeout are
    parameters too. */
module HostClient {
  import opened Strings
  import opened Python
  import opened Transport
  import opened HostProtocol
  import opened HostPaths
  import opened HostDelete

  /** What the host writes to the serial line. */
  datatype Wire = ResetInput | Text(line: string) | Bytes(data: seq<byte>)

  /** `send(cmd)` on an open port: discard pending input, then write the
      command and a newline. */
  function Sent(cmd: string): seq<Wire> {
    [ResetInput, Text(cmd + "\n")]
  }

  /** What sending each of `cmds` in turn writes. */
  function Wires(cmds: seq<string>): seq<Wire> {
    if cmds == [] then [] else Sent(cmds[0]) + Wires(cmds[1..])
  }

  function Rendered(t: seq<Cmd>): seq<string> {
    if t == [] then [] else [Render(t[0])] + Rendered(t[1..])
  }

  lemma {:induction false} WiresAppend(a: seq<string>, b: seq<string>)
    ensures Wires(a + b) == Wires(a) + Wires(b)
  {
    if a == [] {
      assert a + b == b;
    } else {
      assert (a + b)[1..] == a[1..] + b;
      WiresAppend(a[1..], b);
    }
  }

  lemma {:induction false} RenderedAppend(a: seq<Cmd>, b: seq<Cmd>)
    ensures Rendered(a + b) == Rendered(a) + Rendered(b)
  {
    if a == [] {
      assert a + b == b;
    } else {
      assert (a + b)[1..] == a[1..] + b;
      RenderedAppend(a[1..], b);
    }
  }

  /** Bytes per `f.read` of the upload loop. */
  const UploadChunk: nat := 16384

  /** Bytes asked for per `ser.read` of the download loop. */
  const DownloadChunk: nat := 32768

  /** The chunks the upload loop writes for a file whose bytes are `data`
      and whose size was taken as `size`: `f.read(16384)` while fewer than
      `size` bytes were sent, until the file is exhausted. */
  function UploadChunks(data: seq<byte>, size: int): seq<seq<byte>>
    decreases |data|
  {
    if size <= 0 || data == [] then []
    else
      var n := Min(UploadChunk, |data|);
      [data[..n]] + UploadChunks(data[n..], size - n)
  }

  function Concat(chunks: seq<seq<byte>>): seq<byte> {
    if chunks == [] then [] else chunks[0] + Concat(chunks[1..])
  }

  function Payload(chunks: seq<seq<byte>>): seq<Wire> {
    if chunks == [] then [] else [Bytes(chunks[0])] + Payload(chunks[1..])
  }

  /** `size` rounded up to a whole number of 16384-byte reads. */
  function WholeChunks(size: int): nat {
    if size <= 0 then 0 else (size + UploadChunk - 1) / UploadChunk * UploadChunk
  }

  /** One more read covers 16384 more bytes. */
  lemma WholeChunksStep(size: int)
    requires size > UploadChunk
    ensures WholeChunks(size) == UploadChunk + WholeChunks(size - UploadChunk)
  {
    var q := (size - 1) / UploadChunk;
    var r := (size - 1) % UploadChunk;
    assert size - 1 == q * UploadChunk + r && 0 <= r < UploadChunk;
    assert size + UploadChunk - 1 == (q + 1) * UploadChunk + r;
    assert (size + UploadChunk - 1) / UploadChunk == q + 1;
    assert size - UploadChunk + UploadChunk - 1 == q * UploadChunk + r;
    assert (size - UploadChunk + UploadChunk - 1) / UploadChunk == q;
  }

  /** A positive size up to one read takes exactly one read. */
  lemma WholeChunksOne(size: int)
    requires 0 < size <= UploadChunk
    ensures WholeChunks(size) == UploadChunk
  {
    assert UploadChunk <= size + UploadChunk - 1 < 2 * UploadChunk;
  }

  /** Every chunk holds between 1 and 16384 bytes, every chunk but the last
      exactly 16384, and the chunks are the file's bytes in order: all of
      them when the file holds no more than `size` bytes, otherwise the
      first `size` rounded up to a whole number of reads. */
  lemma UploadChunksContents(data: seq<byte>, size: int)
    ensures forall i :: 0 <= i < |UploadChunks(data, size)| ==> 1 <= |UploadChunks(data, size)[i]| <= UploadChunk
    ensures forall i :: 0 <= i < |UploadChunks(data, size)| - 1 ==> |UploadChunks(data, size)[i]| == UploadChunk
    ensures var sent := Concat(UploadChunks(data, size));
      sent <= data
      && (size >= |data| ==> sent == data)
      && (size < |data| ==> (size <= 0 ==> sent == []) && (size > 0 ==> size <= |sent| < size + UploadChunk))
      && |sent| == Min(|data|, WholeChunks(size))
  {
    UploadChunkSizes(data, size);
    UploadChunksSent(data, size);
    UploadSentCount(data, size);
  }

  lemma {:induction false} UploadChunkSizes(data: seq<byte>, size: int)
    ensures forall i :: 0 <= i < |UploadChunks(data, size)| ==> 1 <= |UploadChunks(data, size)[i]| <= UploadChunk
    ensures forall i :: 0 <= i < |UploadChunks(data, size)| - 1 ==> |UploadChunks(data, size)[i]| == UploadChunk
    decreases |data|
  {
    if size > 0 && data != [] {
      var n := Min(UploadChunk, |data|);
      UploadChunkSizes(data[n..], size - n);
      var cs := UploadChunks(data, size);
      assert cs == [data[..n]] + UploadChunks(data[n..], size - n);
      assert forall i :: 1 <= i < |cs| ==> cs[i] == UploadChunks(data[n..], size - n)[i - 1];
      if |cs| > 1 {
        assert data[n..] != [] && n == UploadChunk;
      }
    }
  }

  lemma {:induction false} UploadChunksSent(data: seq<byte>, size: int)
    ensures var sent := Concat(UploadChunks(data, size));
      sent <= data
      && (size >= |data| ==> sent == data)
      && (size < |data| ==> (size <= 0 ==> sent == []) && (size > 0 ==> size <= |sent| < size + UploadChunk))
    decreases |data|
  {
    if size > 0 && data != [] {
      var n := Min(UploadChunk, |data|);
      UploadChunksSent(data[n..], size - n);
      var rest := Concat(UploadChunks(data[n..], size - n));
      assert Concat(UploadChunks(data, size)) == data[..n] + rest;
      assert data[..n] + data[n..] == data;
      assert data[..n] + rest == data[..n + |rest|] by {
        assert rest == data[n..][..|rest|];
      }
    }
  }

  /** The upload loop sends the file's length or `size` rounded up to whole
      reads, whichever is less. */
  lemma {:induction false} UploadSentCount(data: seq<byte>, size: int)
    ensures |Concat(UploadChunks(data, size))| == Min(|data|, WholeChunks(size))
    decreases |data|
  {
    if size > 0 && data != [] {
      var n := Min(UploadChunk, |data|);
      UploadSentCount(data[n..], size - n);
      assert Concat(UploadChunks(data, size)) == data[..n] + Concat(UploadChunks(data[n..], size - n));
      if size > UploadChunk {
        WholeChunksStep(size);
      } else {
        WholeChunksOne(size);
      }
    }
  }

  /** What `refresh` does, as a value: the commands it sends, the storage
      label and the rows it leaves, and the exception that stops it. */
  datatype Refreshed = Refreshed(cmds: seq<string>, storage: Option<Stats>, rows: seq<Entry>, failure: Option<PyError>)

  /** `refresh` in folder `path` when the label showed `shown`: STORAGE
      first; LIST only if the storage reply decoded; the rows are those of
      the listing up to the first malformed line. */
  function AfterRefresh(path: string, shown: Option<Stats>, storageRaw: seq<string>, listRaw: seq<string>): Refreshed {
    var st := StorageFrom(Collect(storageRaw), shown);
    if st.failure.Some? then Refreshed([StorageCommand()], st.value, [], st.failure)
    else
      var ls := ListingFrom(Collect(listRaw));
      Refreshed([StorageCommand(), ListCommand(path)], st.value, ls.value, ls.failure)
  }

  /** How a download that was asked for ends. */
  datatype Download =
    | NotStarted                          // no row, a folder, or no file chosen
    | NoSize                              // "Failed to get file size"
    | Failed(error: PyError)              // the exception shown in the error box
    | Saved(data: seq<byte>, size: int)   // `data` written, reported as `size` bytes

  /** The loop of `read_response`: strip each line the port delivers, keep
      the non-empty ones, stop after DONE. */
  method ReadLines(raw: seq<string>) returns (lines: seq<string>)
    ensures lines == Collect(raw)
  {
    lines := [];
    var i := 0;
    while i < |raw|
      invariant 0 <= i <= |raw|
      invariant lines + Collect(raw[i..]) == Collect(raw)
    {
      var line := Strip(raw[i]);
      assert raw[i..][0] == raw[i] && raw[i..][1..] == raw[i + 1..];
      if line == Sentinel {
        assert Collect(raw[i..]) == [line];
        return lines + [line];
      }
      ghost var kept := if line != "" then [line] else [];
      assert Collect(raw[i..]) == kept + Collect(raw[i + 1..]);
      Regroup(lines, kept, Collect(raw[i + 1..]));
      if line != "" {
        lines := lines + [line];
      } else {
        assert lines + kept == lines;
      }
      i := i + 1;
    }
    assert raw[i..] == [];
  }

  /** Commands appended one trace step at a time write what the whole trace
      writes. */
  lemma TraceWires(prefix: seq<Cmd>, step: seq<Cmd>)
    ensures Wires(Rendered(prefix + step)) == Wires(Rendered(prefix)) + Wires(Rendered(step))
  {
    RenderedAppend(prefix, step);
    WiresAppend(Rendered(prefix), Rendered(step));
  }

  /** One command is written as one `send`. */
  lemma OneWire(c: Cmd)
    ensures Wires(Rendered([c])) == Sent(Render(c))
  {
    assert [c][1..] == [];
    assert [Render(c)][1..] == [];
  }

  /** The trace of the reply lines from the i-th on is that of the i-th line
      followed by that of the rest. */
  lemma EntriesFrom(path: string, d: DeviceDir, lines: seq<string>, i: nat, k: nat)
    requires i < |lines|
    ensures EntriesTrace(path, d, lines[i..], k)
      == LineTrace(path, d, lines[i], k)
         + EntriesTrace(path, d, lines[i + 1..], if StartsWith(lines[i], "DIR :") then k + 1 else k)
  {
    assert lines[i..][0] == lines[i] && lines[i..][1..] == lines[i + 1..];
  }

  /** Bytes of the file that arrive before the input reset after GETDATA
      are lost; the rest arrives in full, and the download still reports
      the announced size: the saved file is the file without its head. */
  lemma {:induction false} EarlyBytesLost(size: nat, file: seq<byte>, bursts: seq<nat>, early: nat)
    requires |file| == size && 0 < early <= size
    requires forall i :: 0 <= i < |bursts| ==> bursts[i] >= DownloadChunk
    requires |bursts| * DownloadChunk >= size
    ensures Fetch(size, DownloadChunk, file[Min(early, |file|)..], bursts) == file[early..]
    ensures |file[early..]| < size
  {
    FetchShort(size, DownloadChunk, file[early..], bursts);
  }

  /** The serial port as the host sees it: everything written to it, and the
      bytes that arrive after the last input reset, where the i-th read's
      timeout lets `bursts[i]` of them through. */
  class Port {
    var tx: seq<Wire>
    var pending: seq<byte>
    var bursts: seq<nat>

    constructor (pending: seq<byte>, bursts: seq<nat>)
      ensures tx == [] && this.pending == pending && this.bursts == bursts
    {
      tx := [];
      this.pending := pending;
      this.bursts := bursts;
    }

    /** `reset_input_buffer()`, when the first `arrived` pending bytes have
        already come in: those are discarded. */
    method ResetInputBuffer(arrived: nat)
      modifies this
      ensures tx == old(tx) + [ResetInput] && bursts == old(bursts)
      ensures pending == old(pending)[Min(arrived, |old(pending)|)..]
    {
      tx := tx + [ResetInput];
      pending := pending[Min(arrived, |pending|)..];
    }

    /** `write(...)`. */
    method Write(w: Wire)
      modifies this
      ensures tx == old(tx) + [w] && pending == old(pending) && bursts == old(bursts)
    {
      tx := tx + [w];
    }

    /** `read(n)`: at most `n` bytes, fewer when the timeout elapses first. */
    method Read(n: int) returns (chunk: seq<byte>)
      modifies this
      ensures var g := Grant(n, old(pending), if old(bursts) == [] then 0 else old(bursts)[0]);
        chunk == old(pending)[..g] && pending == old(pending)[g..]
        && bursts == (if old(bursts) == [] then [] else old(bursts)[1..])
      ensures tx == old(tx)
    {
      var g := Grant(n, pending, if bursts == [] then 0 else bursts[0]);
      chunk := pending[..g];
      pending := pending[g..];
      if bursts != [] {
        bursts := bursts[1..];
      }
    }

    /** The write loop of `upload`: `f.read(16384)` and `write` while fewer
        than `size` bytes were sent and the file is not exhausted. */
    method SendChunks(content: seq<byte>, size: int)
      modifies this
      ensures tx == old(tx) + Payload(UploadChunks(content, size))
      ensures pending == old(pending) && bursts == old(bursts)
    {
      var sent := 0;
      while sent < size
        invariant 0 <= sent <= |content|
        invariant tx + Payload(UploadChunks(content[sent..], size - sent)) == old(tx) + Payload(UploadChunks(content, size))
        invariant pending == old(pending) && bursts == old(bursts)
        decreases |content| - sent
      {
        var n := Min(UploadChunk, |content| - sent);
        var chunk := content[sent..sent + n];
        if chunk == [] {
          break;
        }
        assert content[sent..][..n] == chunk && content[sent..][n..] == content[sent + n..];
        Write(Bytes(chunk));
        sent := sent + n;
      }
      if sent >= size || sent == |content| {
        assert UploadChunks(content[sent..], size - sent) == [];
      }
    }

    /** The read loop of `download_selected`: `read(min(32768, missing))`
        while fewer than `size` bytes arrived, stopping at an empty read. */
    method ReceiveUpTo(size: int) returns (data: seq<byte>)
      modifies this
      ensures data == Fetch(size, DownloadChunk, old(pending), old(bursts))
      ensures tx == old(tx)
    {
      data := [];
      while |data| < size
        invariant data + Fetch(size - |data|, DownloadChunk, pending, bursts)
               == Fetch(size, DownloadChunk, old(pending), old(bursts))
        invariant tx == old(tx)
        decreases |bursts|
      {
        ghost var rest := Fetch(size - |data|, DownloadChunk, pending, bursts);
        var chunk := ReadMissing(size - |data|);
        if chunk == [] {
          assert rest == [] && data + [] == data;
          break;
        }
        ghost var later := Fetch(size - |data| - |chunk|, DownloadChunk, pending, bursts);
        assert chunk + later == rest;
        Regroup(data, chunk, later);
        data := data + chunk;
      }
      if |data| >= size {
        assert Fetch(size - |data|, DownloadChunk, pending, bursts) == [];
        assert data + [] == data;
      }
    }

    /** One read of that loop, when `missing` bytes are still missing: what
        it returns and what the loop then still receives make up what the
        loop received from here. */
    method ReadMissing(missing: int) returns (chunk: seq<byte>)
      requires missing > 0
      modifies this
      ensures chunk == [] ==> Fetch(missing, DownloadChunk, old(pending), old(bursts)) == []
      ensures chunk != [] ==>
        chunk + Fetch(missing - |chunk|, DownloadChunk, pending, bursts)
          == Fetch(missing, DownloadChunk, old(pending), old(bursts))
        && |bursts| < |old(bursts)|
      ensures tx == old(tx)
    {
      ghost var before := pending;
      ghost var was := bursts;
      chunk := Read(Min(DownloadChunk, missing));
      if chunk != [] {
        assert was != [] && bursts == was[1..];
        assert chunk == before[..|chunk|] && pending == before[|chunk|..];
        FetchStep(missing, DownloadChunk, before, was, |chunk|);
      }
    }
  }

  class FileBrowser {
    var ser: Port?
    var currentPath: string
    /** The rows of the folder view, in insertion order. */
    var rows: seq<Entry>
    /** The figures the storage label shows; None while it reads "Not connected". */
    var storage: Option<Stats>

    constructor (ser: Port?)
      ensures this.ser == ser && currentPath == "/" && rows == [] && storage == None
    {
      this.ser := ser;
      currentPath := "/";
      rows := [];
      storage := None;
    }

    /** `send(cmd)`: nothing when not connected. */
    method Send(cmd: string)
      modifies ser
      ensures ser != null ==> ser.tx == old(ser.tx) + Sent(cmd)
      ensures ser != null ==> ser.pending == old(ser.pending) && ser.bursts == old(ser.bursts)
    {
      if ser == null {
        return;
      }
      // The pending bytes answer commands not yet written, so none has
      // arrived before this reset.
      ser.ResetInputBuffer(0);
      assert ser.pending == old(ser.pending);
      ser.Write(Text(cmd + "\n"));
    }

    /** `read_response()` when the lines `raw` arrive before the timeout;
        AttributeError when not connected. */
    method ReadResponse(raw: seq<string>) returns (r: Result<seq<string>>)
      ensures r == if ser == null then Err(AttributeError) else Ok(Collect(raw))
    {
      if ser == null {
        return Err(AttributeError);
      }
      var lines := ReadLines(raw);
      return Ok(lines);
    }

    /** `read_response()` whose lines `raw` are only logged: the exception
        it raises, if any. */
    method AwaitReply(raw: seq<string>) returns (failure: Option<PyError>)
      ensures failure == if ser == null then Some(AttributeError) else None
    {
      var r := ReadResponse(raw);
      failure := if r.Err? then Some(r.error) else None;
    }

    /** The STORAGE loop of `refresh`. */
    method ShowStorage(lines: seq<string>) returns (failure: Option<PyError>)
      modifies this
      ensures storage == StorageFrom(lines, old(storage)).value
      ensures failure == StorageFrom(lines, old(storage)).failure
      ensures ser == old(ser) && currentPath == old(currentPath) && rows == old(rows)
    {
      var i := 0;
      while i < |lines|
        invariant 0 <= i <= |lines|
        invariant StorageFrom(lines[i..], storage) == StorageFrom(lines, old(storage))
        invariant ser == old(ser) && currentPath == old(currentPath) && rows == old(rows)
      {
        assert lines[i..][0] == lines[i] && lines[i..][1..] == lines[i + 1..];
        if IsStorageLine(lines[i]) {
          match DecodeStorageLine(lines[i])
          case Err(e) => return Some(e);
          case Ok(st) => storage := Some(st);
        }
        i := i + 1;
      }
      return None;
    }

    /** The LIST loop of `refresh`: rows are appended in line order. */
    method ShowListing(lines: seq<string>) returns (failure: Option<PyError>)
      modifies this
      ensures rows == old(rows) + ListingFrom(lines).value
      ensures failure == ListingFrom(lines).failure
      ensures ser == old(ser) && currentPath == old(currentPath) && storage == old(storage)
    {
      var i := 0;
      while i < |lines|
        invariant 0 <= i <= |lines|
        invariant ListingFrom(lines).failure == ListingFrom(lines[i..]).failure
        invariant old(rows) + ListingFrom(lines).value == rows + ListingFrom(lines[i..]).value
        invariant ser == old(ser) && currentPath == old(currentPath) && storage == old(storage)
        decreases |lines| - i
      {
        assert lines[i..][0] == lines[i] && lines[i..][1..] == lines[i + 1..];
        match DecodeListLine(lines[i]) {
          case None =>
          case Some(Err(e)) => return Some(e);
          case Some(Ok(x)) =>
            assert rows + ListingFrom(lines[i..]).value == (rows + [x]) + ListingFrom(lines[i + 1..]).value;
            rows := rows + [x];
        }
        i := i + 1;
      }
      assert lines[i..] == [];
      return None;
    }

    /** `refresh()`: nothing when not connected; otherwise the view is
        cleared and rebuilt as `AfterRefresh` describes. */
    method Refresh(storageRaw: seq<string>, listRaw: seq<string>) returns (failure: Option<PyError>)
      modifies this, ser
      ensures ser == old(ser) && currentPath == old(currentPath)
      ensures old(ser) == null ==> failure == None && rows == old(rows) && storage == old(storage)
      ensures ser != null ==>
        var r := AfterRefresh(currentPath, old(storage), storageRaw, listRaw);
        ser.tx == old(ser.tx) + Wires(r.cmds) && ser.pending == old(ser.pending) && ser.bursts == old(ser.bursts)
        && storage == r.storage && rows == r.rows && failure == r.failure
    {
      if ser == null {
        return None;
      }
      rows := [];
      Send(StorageCommand());
      var reply := ReadResponse(storageRaw);
      failure := ShowStorage(reply.value);
      if failure.Some? {
        return;
      }
      Send(ListCommand(currentPath));
      reply := ReadResponse(listRaw);
      failure := ShowListing(reply.value);
      assert [] + ListingFrom(Collect(listRaw)).value == ListingFrom(Collect(listRaw)).value;
      assert [StorageCommand(), ListCommand(currentPath)][1..] == [ListCommand(currentPath)];
      assert Wires([ListCommand(currentPath)]) == Sent(ListCommand(currentPath));
    }

    /** The name a row shows once `.strip()` is applied to its text. */
    function RowName(k: nat): string
      requires k < |rows|
      reads this
    {
      Strip(" " + rows[k].name)
    }

    /** `on_double_click`: a double-clicked folder row becomes the current
        folder and the view is refreshed; anything else does nothing. */
    method OnDoubleClick(selected: Option<nat>, storageRaw: seq<string>, listRaw: seq<string>)
      returns (failure: Option<PyError>)
      requires selected.Some? ==> selected.value < |rows|
      modifies this, ser
      ensures ser == old(ser)
      ensures !(selected.Some? && old(rows)[selected.value].Directory?) ==>
        failure == None && currentPath == old(currentPath) && rows == old(rows) && storage == old(storage)
        && (ser != null ==> ser.tx == old(ser.tx))
      ensures selected.Some? && old(rows)[selected.value].Directory? ==>
        currentPath == EnterPath(old(currentPath), Strip(" " + old(rows)[selected.value].name))
        && (ser == null ==> failure == None && rows == old(rows) && storage == old(storage))
        && (ser != null ==>
          var r := AfterRefresh(currentPath, old(storage), storageRaw, listRaw);
          ser.tx == old(ser.tx) + Wires(r.cmds) && storage == r.storage && rows == r.rows && failure == r.failure)
    {
      if selected.None? || !rows[selected.value].Directory? {
        return None;
      }
      var name := RowName(selected.value);
      currentPath := EnterPath(currentPath, name);
      failure := Refresh(storageRaw, listRaw);
    }

    /** `go_up`: outside the root the parent folder becomes current and the
        view is refreshed. */
    method GoUp(storageRaw: seq<string>, listRaw: seq<string>) returns (failure: Option<PyError>)
      modifies this, ser
      ensures ser == old(ser)
      ensures old(currentPath) == "/" ==>
        failure == None && currentPath == "/" && rows == old(rows) && storage == old(storage)
        && (ser != null ==> ser.tx == old(ser.tx))
      ensures old(currentPath) != "/" ==>
        currentPath == UpPath(old(currentPath))
        && (ser == null ==> failure == None && rows == old(rows) && storage == old(storage))
        && (ser != null ==>
          var r := AfterRefresh(currentPath, old(storage), storageRaw, listRaw);
          ser.tx == old(ser.tx) + Wires(r.cmds) && storage == r.storage && rows == r.rows && failure == r.failure)
    {
      if currentPath == "/" {
        return None;
      }
      currentPath := UpPath(currentPath);
      failure := Refresh(storageRaw, listRaw);
    }

    /** `new_folder` with the name typed (None when cancelled): CREATE_DIR
        of the unquoted path, then a refresh. */
    method NewFolder(name: Option<string>, storageRaw: seq<string>, listRaw: seq<string>)
      returns (failure: Option<PyError>)
      modifies this, ser
      ensures ser == old(ser) && currentPath == old(currentPath)
      ensures (name.None? || name.value == "") ==>
        failure == None && rows == old(rows) && storage == old(storage) && (ser != null ==> ser.tx == old(ser.tx))
      ensures name.Some? && name.value != "" && ser == null ==>
        failure == Some(AttributeError) && rows == old(rows) && storage == old(storage)
      ensures name.Some? && name.value != "" && ser != null ==>
        var r := AfterRefresh(currentPath, old(storage), storageRaw, listRaw);
        ser.tx == old(ser.tx) + Sent(CreateDirCommand(currentPath, name.value)) + Wires(r.cmds)
        && storage == r.storage && rows == r.rows && failure == r.failure
    {
      if name.None? || name.value == "" {
        return None;
      }
      Send(CreateDirCommand(currentPath, name.value));
      failure := AwaitReply([]);
      if failure.Some? {
        return;
      }
      failure := Refresh(storageRaw, listRaw);
    }

    /** The `run` of `upload` for a local file `name` whose size was read
        as `size` and whose bytes are `content`: PUTFILE, then the payload in
        chunks, then a refresh. The result is the exception the error box
        shows, or None for "Uploaded". */
    method Upload(name: string, size: nat, content: seq<byte>, storageRaw: seq<string>, listRaw: seq<string>)
      returns (failure: Option<PyError>)
      modifies this, ser
      ensures ser == old(ser) && currentPath == old(currentPath)
      ensures ser == null ==> failure == Some(AttributeError) && rows == old(rows) && storage == old(storage)
      ensures ser != null ==>
        var r := AfterRefresh(currentPath, old(storage), storageRaw, listRaw);
        ser.tx == old(ser.tx) + Sent(PutFileCommand(currentPath, name, size))
          + Payload(UploadChunks(content, size)) + Wires(r.cmds)
        && storage == r.storage && rows == r.rows && failure == r.failure
    {
      if ser == null {
        return Some(AttributeError);
      }
      var port := ser;
      Send(PutFileCommand(currentPath, name, size));
      port.SendChunks(content, size);
      failure := AwaitReply([]);
      failure := Refresh(storageRaw, listRaw);
    }

    /** `download_selected` and its `run`: GETSIZE of the selected file,
        then, when a `SIZE:` line came back, GETDATA and the read loop. The
        bytes received are saved whether or not they are all of them. The
        first `early` bytes of the data arrive between the GETDATA and the
        input reset that follows it, and are lost. */
    method DownloadSelected(selected: Option<nat>, chosen: bool, sizeRaw: seq<string>, early: nat)
      returns (result: Download)
      requires selected.Some? ==> selected.value < |rows|
      modifies ser
      ensures !(selected.Some? && rows[selected.value].File? && chosen) ==>
        result == NotStarted && (ser != null ==> ser.tx == old(ser.tx))
      ensures selected.Some? && rows[selected.value].File? && chosen ==>
        var name := Strip(" " + rows[selected.value].name);
        if ser == null then result == Failed(AttributeError)
        else match DecodeSize(Collect(sizeRaw))
          case NoSizeLine => result == NoSize && ser.tx == old(ser.tx) + Sent(GetSizeCommand(currentPath, name))
          case BadSize(e) => result == Failed(e) && ser.tx == old(ser.tx) + Sent(GetSizeCommand(currentPath, name))
          case Size(n) =>
            var kept := old(ser.pending)[Min(early, |old(ser.pending)|)..];
            var data := Fetch(n, DownloadChunk, kept, old(ser.bursts));
            result == Saved(data, n)
            && ser.tx == old(ser.tx) + Sent(GetSizeCommand(currentPath, name)) + Sent(GetDataCommand(currentPath, name)) + [ResetInput]
    {
      if selected.None? || !rows[selected.value].File? || !chosen {
        return NotStarted;
      }
      var name := RowName(selected.value);
      Send(GetSizeCommand(currentPath, name));
      var resp := ReadResponse(sizeRaw);
      if resp.Err? {
        return Failed(resp.error);
      }
      var port := ser;
      match DecodeSize(resp.value)
      case NoSizeLine => return NoSize;
      case BadSize(e) => return Failed(e);
      case Size(size) =>
        Send(GetDataCommand(currentPath, name));
        port.ResetInputBuffer(early);
        var data := port.ReceiveUpTo(size);
        return Saved(data, size);
    }

    /** `delete_recursive(path)` when the device answers as `d` describes:
        the commands of `DeleteTrace`, in order. */
    method DeleteRecursive(path: string, d: DeviceDir) returns (failure: Option<PyError>)
      modifies ser
      ensures ser == null ==> failure == Some(AttributeError)
      ensures ser != null ==>
        failure == None && ser.tx == old(ser.tx) + Wires(Rendered(DeleteTrace(path, d)))
        && ser.pending == old(ser.pending) && ser.bursts == old(ser.bursts)
      decreases d, 3
    {
      if ser == null {
        return Some(AttributeError);
      }
      var port := ser;
      Send(ListCommand(path));
      OneWire(List(path));
      var resp := ReadResponse(d.reply);
      ghost var entries := EntriesTrace(path, d, resp.value, 0);
      ghost var listed := port.tx;
      failure := DeleteEntries(path, d, resp.value);
      TraceWires([List(path)], entries);
      Regroup(old(port.tx), Wires(Rendered([List(path)])), Wires(Rendered(entries)));
      Send(Render(RemoveDir(path)));
      failure := AwaitReply([]);
      TraceWires([List(path)] + entries, [RemoveDir(path)]);
      OneWire(RemoveDir(path));
      Regroup(old(port.tx), Wires(Rendered([List(path)] + entries)), Wires(Rendered([RemoveDir(path)])));
    }

    /** The loop of `delete_recursive(path)` over the reply `lines`. */
    method DeleteEntries(path: string, d: DeviceDir, lines: seq<string>) returns (failure: Option<PyError>)
      requires ser != null
      modifies ser
      ensures failure == None && ser.tx == old(ser.tx) + Wires(Rendered(EntriesTrace(path, d, lines, 0)))
      ensures ser.pending == old(ser.pending) && ser.bursts == old(ser.bursts)
      decreases d, 2
    {
      var port := ser;
      failure := None;
      ghost var done: seq<Cmd> := [];
      assert Rendered([]) == [] && Wires([]) == [];
      var i := 0;
      var k := 0;
      while i < |lines|
        invariant 0 <= i <= |lines|
        invariant done + EntriesTrace(path, d, lines[i..], k) == EntriesTrace(path, d, lines, 0)
        invariant port.tx == old(port.tx) + Wires(Rendered(done))
        invariant port.pending == old(port.pending) && port.bursts == old(port.bursts)
        invariant ser == port && failure == None
        decreases |lines| - i
      {
        ghost var step := LineTrace(path, d, lines[i], k);
        var k' := if StartsWith(lines[i], "DIR :") then k + 1 else k;
        EntriesFrom(path, d, lines, i, k);
        Regroup(done, step, EntriesTrace(path, d, lines[i + 1..], k'));
        ghost var before := port.tx;
        failure := DeleteLine(path, d, lines[i], k);
        TraceWires(done, step);
        Regroup(old(port.tx), Wires(Rendered(done)), Wires(Rendered(step)));
        done := done + step;
        k := k';
        i := i + 1;
      }
      assert lines[i..] == [];
      assert done == EntriesTrace(path, d, lines, 0);
    }

    /** One pass of the loop of `delete_recursive(path)` over the reply
        line `line`, `k` being the number of `DIR :` lines before it. */
    method DeleteLine(path: string, d: DeviceDir, line: string, k: nat) returns (failure: Option<PyError>)
      requires ser != null
      modifies ser
      ensures failure == None && ser.tx == old(ser.tx) + Wires(Rendered(LineTrace(path, d, line, k)))
      ensures ser.pending == old(ser.pending) && ser.bursts == old(ser.bursts)
      decreases d, 1
    {
      failure := None;
      if StartsWith(line, "DIR :") {
        var sub := SubdirPath(path, SubdirName(line));
        if k < |d.subdirs| {
          failure := DeleteRecursive(sub, d.subdirs[k]);
        } else {
          Send(ListCommand(sub));
          failure := AwaitReply([]);
          Send(Render(RemoveDir(sub)));
          failure := AwaitReply([]);
          TraceWires([List(sub)], [RemoveDir(sub)]);
          OneWire(List(sub));
          OneWire(RemoveDir(sub));
        }
      } else if StartsWith(line, "FILE :") {
        var target := FileTarget(path, FileName(line));
        Send(Render(DeleteFile(target)));
        failure := AwaitReply([]);
        OneWire(DeleteFile(target));
      }
    }

    /** `delete_selected` after the confirmation `confirmed`: a folder row is
        deleted with `delete_recursive` on its quoted path (the device
        answering as `d` describes), a file row with one DELETE; then the
        view is refreshed. */
    method DeleteSelected(selected: Option<nat>, confirmed: bool, d: DeviceDir,
                          storageRaw: seq<string>, listRaw: seq<string>)
      returns (failure: Option<PyError>)
      requires selected.Some? ==> selected.value < |rows|
      modifies this, ser
      ensures ser == old(ser) && currentPath == old(currentPath)
      ensures (selected.None? || !confirmed) ==>
        failure == None && rows == old(rows) && storage == old(storage) && (ser != null ==> ser.tx == old(ser.tx))
      ensures selected.Some? && confirmed && ser == null ==>
        failure == Some(AttributeError) && rows == old(rows) && storage == old(storage)
      ensures selected.Some? && confirmed && ser != null ==>
        var target := ObjectPath(currentPath, Strip(" " + old(rows)[selected.value].name));
        var r := AfterRefresh(currentPath, old(storage), storageRaw, listRaw);
        ser.tx == old(ser.tx)
          + (if old(rows)[selected.value].Directory? then Wires(Rendered(DeleteTrace(target, d)))
             else Sent("DELETE " + target))
          + Wires(r.cmds)
        && storage == r.storage && rows == r.rows && failure == r.failure
    {
      if selected.None? || !confirmed {
        return None;
      }
      var fullPath := ObjectPath(currentPath, RowName(selected.value));
      if rows[selected.value].Directory? {
        failure := DeleteRecursive(fullPath, d);
      } else {
        Send("DELETE " + fullPath);
        failure := AwaitReply([]);
      }
      if failure.Some? {
        return;
      }
      failure := Refresh(storageRaw, listRaw);
    }

    /** `rename_selected` with the new name typed (None when cancelled):
        RENAME with both quoted paths when the name is non-empty and
        differs, then a refresh. */
    method RenameSelected(selected: Option<nat>, newName: Option<string>,
                          storageRaw: seq<string>, listRaw: seq<string>)
      returns (failure: Option<PyError>)
      requires selected.Some? ==> selected.value < |rows|
      modifies this, ser
      ensures ser == old(ser) && currentPath == old(currentPath)
      ensures !(selected.Some? && newName.Some? && newName.value != ""
                && newName.value != Strip(" " + old(rows)[selected.value].name)) ==>
        failure == None && rows == old(rows) && storage == old(storage) && (ser != null ==> ser.tx == old(ser.tx))
      ensures selected.Some? && newName.Some? && newName.value != ""
              && newName.value != Strip(" " + old(rows)[selected.value].name) ==>
        if ser == null then failure == Some(AttributeError) && rows == old(rows) && storage == old(storage)
        else
          var r := AfterRefresh(currentPath, old(storage), storageRaw, listRaw);
          ser.tx == old(ser.tx)
            + Sent(RenameCommand(currentPath, Strip(" " + old(rows)[selected.value].name), newName.value))
            + Wires(r.cmds)
          && storage == r.storage && rows == r.rows && failure == r.failure
    {
      if selected.None? {
        return None;
      }
      var oldName := RowName(selected.value);
      if newName.None? || newName.value == "" || newName.value == oldName {
        return None;
      }
      Send(RenameCommand(currentPath, oldName, newName.value));
      failure := AwaitReply([]);
      if failure.Some? {
        return;
      }
      failure := Refresh(storageRaw, listRaw);
    }
  }
}
