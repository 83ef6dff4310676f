# ESP32 MMC file manager: a Dafny model of its serial protocol

ESP32-MMC-Manager lets a desktop browse the SD card of an ESP32 over a
USB serial line. Both ends of the line are modelled:

- **The host client.** `ESPFileBrowser` in `src/ESPFileManager.py`; `ESPFileManager.py` is an older copy with the same protocol code, 138 lines earlier.
  - It sends one text command per line.
  - It collects the reply lines up to `DONE` (`read_response`).
  - It decodes the STORAGE, LIST and GETSIZE replies, and builds quoted and unquoted paths.
  - It moves between folders (`on_double_click`, `go_up`).
  - It streams uploads and downloads in chunks.
  - It deletes folders recursively (`delete_recursive`).
- **The device firmware.** `ESP32FileManager` in `src/ESP32FileManager.h`.
  - It trims a command line.
  - It extracts quoted paths (`getPath`) and dispatches on the command word.
  - It prints the reply lines.
  - It receives PUTFILE payloads in 4096-byte chunks, with NEXT/OK/ERROR handshakes and a ten-second timeout. The header calls this non-blocking, but an accepted PUTFILE calls `_handlePutData`, whose `while (_putActive)` loop runs the whole transfer inside that call: `handleFileManager` returns only after OK or ERROR, DONE is printed.
- **The older firmware.** `ESP32FileManager.h` differs only in PUTFILE: one blocking loop over a 1024-byte buffer.

The modules follow that structure:

- **Text and transport helpers.**
  - `Strings` holds text helpers.
  - `Python` models `strip`, slicing and `int()` with its exceptions.
  - `Arduino` models `String::trim`, `indexOf`, the clamped `substring`, and `toInt` (which is `atol`).
  - `Transport` models a timed read that returns at most what was asked.
- **The host client.**
  - `HostProtocol` holds the reply collector and the decoders.
  - `HostPaths` holds navigation and the command strings.
  - `HostDelete` holds the command trace of `delete_recursive`, over a finite tree of device answers.
  - `HostClient` holds the `FileBrowser` and `Port` classes. Their methods change the current folder, the rows of the view, the storage label and what was written to the port.
- **The device firmware.**
  - `DeviceCommands` holds the dispatcher and the replies. The SD card is an abstract `Card` value that says what each `SD_MMC` call returns.
  - `DevicePut` holds the PUTFILE state machine. It is written twice: as functions (`Step`, `Run`) and as the `FileManager` class, whose fields and `_putBuf` array are updated in place. The class's methods are proved against those functions.
  - `DeviceLegacy` holds the older firmware's blocking loop.
- **Both ends together.**
  - `RoundTrip` proves what the device makes of each command line the host writes.
  - `Replies` proves what the host makes of each reply the device prints.

Behaviour the model reproduces as the code has it:

- **Number parsing raises.** `int()` raises ValueError or IndexError on a malformed STORAGE, LIST or SIZE line. That ends `refresh` (`StorageFailsIff`, `ListingFailsIff`).
- **A short download counts as success.** The download loop stops at the first empty read. The bytes received are saved and reported as a download of the announced size (`Transport.FetchShort`, `HostClient.FileBrowser.DownloadSelected`).
- **`go_up` from a top-level folder gives `//`, not `/`.** The check `if self.current_path == "/"` is a no-op (`HostPaths.UpFromTopLevel`).
- **GETDATA of a missing path or a folder prints nothing,** not even DONE.
- **An unknown or blank command prints nothing** (`DeviceCommands.RespondShape`, `DeviceCommands.SilentLines`).
- **STORAGE's free figure is `total - used` in unsigned 64-bit arithmetic.** It wraps when `used > total` (`DeviceCommands.FreeWraps`).
- **Nested deletes send the wrong paths.** `delete_selected` starts with the quoted path `"/a"`. The nested call then joins a sub-folder name onto that quoted path, giving `"/a"/b`. The device's `getPath` reads every command of such a nested call as one about `/a` itself (`RoundTrip.NestedDeleteHitsParent`):
  - the nested LIST is read by the device as LIST of `/a`, so `/a` is listed again;
  - its file deletes, `DELETE "/a"/b/f"`, are read by the device as DELETE of `/a`; `SD_MMC.remove` of a folder would then fail and print ERROR;
  - its REMOVE_DIR is read by the device as REMOVE_DIR of `/a`; `rmdir` of a folder that still holds `b` would then fail, and REMOVED is printed all the same.

  Deleting a folder without sub-folders is unaffected. On a real card the repeated LIST of `/a` makes the recursion unbounded. The model bounds it by the finite `DeviceDir` tree instead. `HostDelete.DeleteTraceShape` proves that every REMOVE_DIR of a trace names the innermost folder listed and not yet removed, and `HostDelete.DeleteCensus` counts one LIST and one REMOVE_DIR per folder visited and one DELETE per `FILE :` line of its reply.
- **`refresh` raises ValueError on a malformed size; it does not skip the line.**
- **`download_selected` keeps a short download; it does not raise.**
- **`download_selected` shows an error box when no `SIZE:` line comes back.**
- **`upload` writes the payload without waiting for the device's READY or NEXT lines.** Its `run` closure sends PUTFILE and then writes the file's chunks at once.
- **`download_selected` resets the input after sending GETDATA.** Data bytes the device sent before that reset are lost, and the shorter file is still reported as downloaded (`HostClient.EarlyBytesLost`).
- **Nothing keeps `free <= total` in the STORAGE reply.**

Environment inputs become parameters:

- the lines and bytes each timed read sees (`raw`, `pending`, `bursts`);
- the dialogs (the selected row, the typed name, the confirmation);
- `millis()` (one `Tick` per loop pass);
- the SD card (`Card`).

## Model

| member | source | states |
|---|---|---|
| HostClient.FileBrowser.Send | src/ESPFileManager.py:236-239 | when connected, appends an input reset and then `cmd + "\n"` to what the port was sent; when not connected, sends nothing |
| HostClient.Port.ResetInputBuffer | src/ESPFileManager.py:238 | appends one input reset to what was written and discards exactly the input bytes that had already arrived; later input is kept |
| HostClient.Port.Write | src/ESPFileManager.py:239 | appends exactly the written item to the port's output |
| HostClient.ReadLines | src/ESPFileManager.py:244-256 | the loop's lines equal `Collect(raw)`: each line stripped, empty lines dropped, and a stop right after the first DONE (also ESPFileManager.py:106-118) |
| HostClient.FileBrowser.ReadResponse | src/ESPFileManager.py:242-256 | the collected lines when connected; AttributeError when the port is None |
| HostClient.FileBrowser.AwaitReply | src/ESPFileManager.py:242-256 | `read_response` on a reply that is only logged raises AttributeError exactly when no port is open, whatever lines arrive, and raises nothing otherwise |
| HostProtocol.Collect | src/ESPFileManager.py:242-256 | defines the lines `read_response` returns for the raw lines that arrive before its timeout: each stripped, empty ones dropped, and a stop right after the first line that strips to DONE; the Collect lemmas below state what it yields, and `ReadLines` computes it |
| HostProtocol.CollectShape | src/ESPFileManager.py:248-253 | every collected line is non-empty and stripped, and DONE can only be the last one |
| HostProtocol.CollectAppend | src/ESPFileManager.py:246-251 | before any DONE, collecting `a + b` gives every non-empty stripped line of `a` in order, followed by what `b` gives |
| HostProtocol.CollectWithoutSentinel | src/ESPFileManager.py:244-256 | with no DONE line, the result is every non-empty stripped line, in order |
| HostProtocol.CollectStopsAtSentinel | src/ESPFileManager.py:252-253 | with the first DONE at index k, the result is the non-empty stripped lines before k, then DONE |
| HostProtocol.CollectIgnoresLater | src/ESPFileManager.py:252-253 | lines arriving after a DONE never change the result |
| HostProtocol.DecodeStorageLine | src/ESPFileManager.py:276-278 | defines the decoding of one `TOTAL:` line: `total` from the text after the first colon of the part before ` FREE:`, `free` from the part after it, raising IndexError for a missing part and ValueError for a malformed number, in the order the source evaluates them |
| HostProtocol.StorageFrom | src/ESPFileManager.py:273-279 | defines what the storage label shows after the loop over the STORAGE reply: each `TOTAL:` line that decodes replaces it, other lines are skipped, and the first line that raises stops the loop with that exception; `StorageFailsIff`, `StorageLastWins` and `LastStorageLine` state its meaning |
| HostProtocol.LastStorageLine | src/ESPFileManager.py:274-275 | the index of the last line containing `TOTAL:`: later lines do not contain it, and -1 means no line does |
| HostProtocol.StorageFailsIff | src/ESPFileManager.py:274-278 | decoding the STORAGE reply raises if and only if some `TOTAL:` line is malformed |
| HostProtocol.StorageLastWins | src/ESPFileManager.py:274-279 | when nothing raises, the label shows the last `TOTAL:` line's figures; with no such line it keeps what it showed |
| HostClient.FileBrowser.ShowStorage | src/ESPFileManager.py:273-279 | the storage loop leaves the label and the exception given by `StorageFrom`, and changes nothing else |
| HostProtocol.DecodeListLine | src/ESPFileManager.py:284-291 | defines the row one LIST reply line gives: a folder named `line[6:].strip()` for `DIR :`, a file named `parts[0][7:].strip()` of size `int(parts[1])` for `FILE :` (IndexError or ValueError when that fails), and nothing for any other line |
| HostProtocol.ListingFrom | src/ESPFileManager.py:283-292 | defines the rows `refresh` inserts for a LIST reply, in line order, and the exception of the first malformed line, which ends the insertion; `ListingAppend`, `ListingFailsIff` and `ListingNamesStripped` state its meaning |
| HostProtocol.ListingAppend | src/ESPFileManager.py:284-292 | rows are inserted in line order: the reply `a + b` gives the rows of `a`, then those of `b`, unless `a` raised |
| HostProtocol.ListingFailsIff | src/ESPFileManager.py:284-292 | the listing raises if and only if some `DIR :`/`FILE :` line is malformed |
| HostProtocol.DecodeListLineStripped | src/ESPFileManager.py:286-290 | a decoded row's name is stripped |
| HostProtocol.ListingNamesStripped | src/ESPFileManager.py:284-297 | every row name is stripped, so the `" " + name` text of a tree row strips back to the name |
| HostClient.FileBrowser.ShowListing | src/ESPFileManager.py:284-292 | the rows grow by the decoded listing, in line order, and the exception is the listing's; nothing else changes |
| HostClient.AfterRefresh | src/ESPFileManager.py:265-292 | defines what `refresh` does, as a value: STORAGE is sent, LIST of the folder only when the storage reply decoded, and the label, the rows and the exception are those `StorageFrom` and `ListingFrom` give; `Refresh` is proved to do it |
| HostClient.FileBrowser.Refresh | src/ESPFileManager.py:265-292 | sends STORAGE first, and LIST of the current folder only when the storage reply decoded; the label, the rows and the exception are those `AfterRefresh` gives; with no port nothing changes |
| HostProtocol.FirstSizeLine | src/ESPFileManager.py:386 | the first reply line that starts with `SIZE:`, or None exactly when no line does |
| HostProtocol.DecodeSize | src/ESPFileManager.py:386-391 | defines what `download_selected` makes of the GETSIZE reply: no `SIZE:` line, or `int` of the text after the first colon of the first `SIZE:` line, or the error `int` raises; `DecodeSizeFirstLine` states its meaning |
| HostProtocol.DecodeSizeFirstLine | src/ESPFileManager.py:386-391 | the first `SIZE:` line decides, its value is `int()` of the text after `SIZE:`, and IndexError cannot occur |
| HostPaths.EnterPath | src/ESPFileManager.py:299 | defines the path `on_double_click` enters: `cur.rstrip("/") + "/" + name + "/"` with every `//` collapsed; `EnterEndsWithSlash` and `UpUndoesEnter` state its meaning |
| HostPaths.UpPath | src/ESPFileManager.py:302-305 | defines the path `go_up` moves to: the root stays, any other path becomes `dirname(cur.rstrip("/")) + "/"`; `UpFromTopLevel` and `UpUndoesEnter` state its meaning |
| HostPaths.FolderPath | src/ESPFileManager.py:311 | defines the unquoted path `new_folder` sends: `cur.rstrip("/") + "/" + name` |
| HostPaths.StorageCommand | src/ESPFileManager.py:271 | defines the line `refresh` sends first: `STORAGE` |
| HostPaths.ListCommand | src/ESPFileManager.py:282 | defines the line `refresh` and `delete_recursive` send to list a folder: `LIST ` and the path as given |
| HostPaths.CreateDirCommand | src/ESPFileManager.py:311-312 | defines the line `new_folder` sends: `CREATE_DIR ` and the unquoted folder path; `RoundTrip.CreateDirArrives` states how the device reads it |
| HostPaths.PutFileCommand | src/ESPFileManager.py:336 | defines the line `upload` sends: `PUTFILE `, the quoted path and the decimal size; `RoundTrip.PutFileArrives` states how the device reads it |
| HostPaths.GetSizeCommand | src/ESPFileManager.py:384 | defines the line `download_selected` sends first: `GETSIZE ` and the quoted path; `RoundTrip.GetSizeArrives` states how the device reads it |
| HostPaths.GetDataCommand | src/ESPFileManager.py:396 | defines the line `download_selected` sends second: `GETDATA ` and the quoted path; `RoundTrip.GetDataArrives` states how the device reads it |
| HostPaths.DeleteCommand | src/ESPFileManager.py:451 | defines the line `delete_selected` sends for a file: `DELETE ` and the quoted path; `RoundTrip.DeleteArrives` states how the device reads it |
| HostPaths.RenameCommand | src/ESPFileManager.py:461-463 | defines the line `rename_selected` sends: `RENAME `, the quoted old path, a space and the quoted new path; `RoundTrip.RenameArrives` states how the device reads it |
| HostPaths.Dirname | src/ESPFileManager.py:304 | `os.path.dirname` returns a prefix of its argument, which is empty exactly when the argument holds no slash; it ends in a slash only when it is all slashes; it keeps everything up to the last slash except trailing slashes, and no character after that last slash |
| HostPaths.ObjectPath | src/ESPFileManager.py:321 | an object path starts and ends with a double quote |
| HostPaths.CollapseKeepsFinalSlash | src/ESPFileManager.py:299 | replacing `//` by `/` keeps a final slash |
| HostPaths.CollapseIdentity | src/ESPFileManager.py:299 | replacing `//` by `/` leaves a path without `//` unchanged |
| HostPaths.EnterEndsWithSlash | src/ESPFileManager.py:299 | entering a folder always gives a path that ends in `/` |
| HostPaths.LastSlashAfter | src/ESPFileManager.py:304 | the last slash of `a + "/" + b`, for a slash-free `b`, is the one after `a` |
| HostPaths.UpFromTopLevel | src/ESPFileManager.py:302-306 | `go_up` at `/` changes nothing, and from `/name/` it gives `//` |
| HostPaths.JoinNoDoubleSlash | src/ESPFileManager.py:299 | a path ending in one slash and free of `//` stays free of `//` when a slash-free name and a slash are appended, so the collapse leaves it alone |
| HostPaths.UpFromChild | src/ESPFileManager.py:304 | going up from sub-folder `name` of `c0/` gives `c0/` when `c0` does not end in a slash |
| HostPaths.UpUndoesEnter | src/ESPFileManager.py:299-306 | for a path other than `/` that ends in one slash and holds no `//`, entering a non-empty slash-free sub-folder and going up returns the same path (also ESPFileManager.py:161-168) |
| HostClient.FileBrowser.OnDoubleClick | src/ESPFileManager.py:294-300 | a folder row makes `EnterPath(cur, name)` current and refreshes, which with no port open changes nothing else and raises nothing; any other selection changes nothing and sends nothing |
| HostClient.FileBrowser.GoUp | src/ESPFileManager.py:302-306 | at `/` nothing changes; elsewhere `UpPath(cur)` becomes current and the view is refreshed, which with no port open changes nothing else and raises nothing |
| HostClient.FileBrowser.NewFolder | src/ESPFileManager.py:308-314 | a non-empty name sends `CREATE_DIR` with the unquoted path, then refreshes; with no port open it raises AttributeError and leaves rows and label as they were; a cancelled or empty name changes nothing |
| HostClient.FileBrowser.Upload | src/ESPFileManager.py:336-349 | the port receives PUTFILE with the quoted path and size, then the payload chunks, then the refresh commands; with no port open it raises AttributeError and leaves rows and label as they were |
| HostClient.Port.SendChunks | src/ESPFileManager.py:338-347 | the loop writes exactly the chunks `UploadChunks(content, size)`, in order, and leaves the input untouched |
| HostClient.UploadChunks | src/ESPFileManager.py:338-344 | defines the chunks the upload loop writes: `f.read(16384)` while fewer than `size` bytes were sent, until the file is exhausted; the UploadChunks lemmas below state what they hold |
| HostClient.UploadChunksContents | src/ESPFileManager.py:339-344 | every chunk holds 1 to 16384 bytes; the chunks are the file's bytes in order: all of them when the file holds at most `size` bytes, otherwise `min(len(file), size rounded up to a whole number of 16384-byte reads)` bytes; every chunk but the last holds exactly 16384 bytes |
| HostClient.UploadChunkSizes | src/ESPFileManager.py:341-344 | every chunk `f.read(16384)` returns holds between 1 and 16384 bytes, and every chunk but the last exactly 16384 |
| HostClient.UploadChunksSent | src/ESPFileManager.py:339-344 | the bytes written are a prefix of the file, exactly the file when it has no more than `size` bytes, and otherwise between `size` and `size + 16384` bytes |
| HostClient.UploadSentCount | src/ESPFileManager.py:339-344 | the number of bytes written is `min(len(file), size rounded up to whole 16384-byte reads)` |
| HostClient.WholeChunksStep | src/ESPFileManager.py:340-344 | beyond one read, each further read covers 16384 more bytes of the rounded size |
| HostClient.TraceWires | src/ESPFileManager.py:421-434 | sending the commands of two trace pieces one after the other writes what sending the joined trace writes |
| HostClient.WiresAppend | src/ESPFileManager.py:236-239 | sending `a + b` writes what sending `a` writes, then what sending `b` writes |
| HostClient.OneWire | src/ESPFileManager.py:236-239 | a one-command trace is one `send` |
| HostClient.FileBrowser.DownloadSelected | src/ESPFileManager.py:358-411 | nothing happens for no row, a folder or no chosen file; otherwise GETSIZE; no `SIZE:` line gives the error box, a bad number its exception, and a size `n` gives GETDATA, an input reset that loses the data bytes already arrived, and the bytes received after it are saved, and the download is reported as `n` bytes; the saved bytes can be fewer than `n` (`EarlyBytesLost`, `Transport.FetchShort`) |
| HostClient.EarlyBytesLost | src/ESPFileManager.py:396-406 | when the first bytes of the data arrive before the reset after GETDATA, the saved file is the rest of the file, shorter than the announced size, and the download still succeeds |
| HostClient.Port.Read | src/ESPFileManager.py:400 | returns the first `Grant(n, …)` pending bytes, consumes them and one burst, and writes nothing |
| HostClient.Port.ReceiveUpTo | src/ESPFileManager.py:398-403 | the received bytes are `Fetch(size, 32768, pending, bursts)`, and nothing is written |
| HostClient.Port.ReadMissing | src/ESPFileManager.py:400-403 | an empty read means the loop receives nothing more; otherwise this chunk and what the loop still receives make up what it receives from here |
| Transport.Fetch | src/ESPFileManager.py:398-403 | defines what the GETDATA loop receives: reads of at most `min(32768, missing)` bytes until `size` bytes came or a read returned nothing; `FetchBounded`, `FetchComplete` and `FetchShort` state its meaning, and `ReceiveUpTo` computes it |
| Transport.Grant | src/ESPFileManager.py:400 | one timed read returns no more than was asked, than is pending and than arrives before the timeout, and all that was asked when enough arrives |
| Transport.FetchAdvance | src/ESPFileManager.py:399-403 | a non-empty read keeps the loop's invariant `received + still-to-come == total` |
| Transport.FetchBounded | src/ESPFileManager.py:399-403 | the loop receives a prefix of what the line delivers and never more than it asked for |
| Transport.FetchPrefix | src/ESPFileManager.py:399-403 | the loop receives a prefix of the bytes the line delivers |
| Transport.FetchAtMost | src/ESPFileManager.py:399-403 | the loop never receives more bytes than it asked for |
| Transport.FetchComplete | src/ESPFileManager.py:399-403 | when every read is served in full and there are enough reads, the loop receives exactly the first `size` bytes |
| Transport.FetchShort | src/ESPFileManager.py:399-409 | when fewer bytes come than announced, the loop ends with all of them and no error |
| HostDelete.SubdirName | src/ESPFileManager.py:425 | defines the sub-folder name of a `DIR :` line: `line[6:].strip()` |
| HostDelete.SubdirPath | src/ESPFileManager.py:426 | defines the folder argument of the nested call: `path.rstrip("/") + "/" + subdir` |
| HostDelete.FileName | src/ESPFileManager.py:428 | defines the file name of a `FILE :` line: `line.split(" SIZE : ")[0][7:].strip()` |
| HostDelete.FileTarget | src/ESPFileManager.py:429-430 | defines the DELETE argument for a file: the path with trailing quotes and then slashes removed, a slash, the name and a closing quote; `RoundTrip.FileTargetBelow` states how it relates to the folder |
| HostDelete.DeleteTrace | src/ESPFileManager.py:419-435 | defines every command `delete_recursive(path)` sends, in order: LIST of the folder, the commands for each line of its collected reply, then REMOVE_DIR of the folder; `DeleteTraceShape`, `DeleteCensus` and `DeleteListsMatchRemoves` state its meaning |
| HostDelete.EntriesTrace | src/ESPFileManager.py:423-432 | defines the commands sent for the reply lines of one folder, in line order; `EntriesTraceNested` and `EntriesCensus` state its meaning |
| HostDelete.LineTrace | src/ESPFileManager.py:424-432 | defines the commands sent for one reply line: the whole nested call for a `DIR :` line, one DELETE for a `FILE :` line, nothing for any other; `LineTraceNested` and `SubfolderCensus` state its meaning |
| HostDelete.ReplayAppend | src/ESPFileManager.py:421-434 | replaying the commands of two consecutive calls replays the first, then the second from the folders the first left open |
| HostDelete.ReplayBelow | src/ESPFileManager.py:423-426 | folders the caller has open do not change how a nested call's commands replay |
| HostDelete.BalancedAppend | src/ESPFileManager.py:423-432 | the commands of two reply lines that each close exactly what they list, joined, still do |
| HostDelete.Bracket | src/ESPFileManager.py:421-434 | `LIST p`, balanced commands, `REMOVE_DIR p` are balanced and keep `p` the outermost open folder until its REMOVE_DIR |
| HostDelete.OpenFirst | src/ESPFileManager.py:421 | after `LIST p` the rest replays with `p` open |
| HostDelete.DeleteTraceShape | src/ESPFileManager.py:419-435 | `delete_recursive(p)` sends `LIST p` first and `REMOVE_DIR p` last; `p` stays open in between; every REMOVE_DIR names the innermost folder listed and not yet removed, and each listed folder is removed (also ESPFileManager.py:281-297) |
| HostDelete.EntriesTraceNested | src/ESPFileManager.py:423-432 | the commands for the reply lines remove every folder they list, and remove no folder but the innermost one they listed and did not yet remove |
| HostDelete.LineTraceNested | src/ESPFileManager.py:424-432 | a `DIR :` line's commands start with LIST and end with REMOVE_DIR of `path.rstrip("/") + "/" + subdir` and are balanced; a `FILE :` line gives exactly one DELETE of its file; any other line gives nothing |
| HostDelete.CensusAppend | src/ESPFileManager.py:421-434 | the commands of two consecutive runs, counted by kind, add up |
| HostDelete.DeleteCensus | src/ESPFileManager.py:419-435 | `delete_recursive(p)` sends one LIST and one REMOVE_DIR of its own, one DELETE per `FILE :` line of its reply, and otherwise exactly the commands of the nested calls for its `DIR :` lines |
| HostDelete.EntriesCensus | src/ESPFileManager.py:423-432 | the reply lines cost one DELETE per `FILE :` line plus the commands of the nested calls for the `DIR :` lines, nothing else |
| HostDelete.BracketCensus | src/ESPFileManager.py:421-434 | a LIST and a REMOVE_DIR around other commands add one of each kind |
| HostDelete.ReplayCounts | src/ESPFileManager.py:421-434 | a replay that never fails leaves as many more folders open as LISTs outnumber REMOVE_DIRs |
| HostDelete.DeleteListsMatchRemoves | src/ESPFileManager.py:419-435 | `delete_recursive` sends as many REMOVE_DIRs as LISTs |
| HostDelete.SubfolderCensus | src/ESPFileManager.py:424-426 | a `DIR :` line costs the whole nested call for that sub-folder |
| HostDelete.NestedPathsKeepQuotes | src/ESPFileManager.py:426-430 | below `"/a"` the sub-folder `b` is `"/a"/b`, and a file `f` in it is `"/a"/b/f"` |
| HostClient.FileBrowser.DeleteRecursive | src/ESPFileManager.py:419-435 | the port receives exactly the commands of `DeleteTrace(path, d)`, in order; AttributeError when not connected |
| HostClient.FileBrowser.DeleteEntries | src/ESPFileManager.py:423-432 | the loop over the reply lines sends exactly `EntriesTrace(path, d, lines, 0)` |
| HostClient.FileBrowser.DeleteLine | src/ESPFileManager.py:424-432 | one reply line sends exactly its `LineTrace`: a nested delete, one DELETE, or nothing |
| HostClient.EntriesFrom | src/ESPFileManager.py:423-432 | the trace from line i on is line i's trace followed by the rest's |
| HostClient.FileBrowser.DeleteSelected | src/ESPFileManager.py:437-453 | a confirmed folder is deleted with the recursive trace on its quoted path, a confirmed file with one DELETE, then the view is refreshed; with no port open a confirmed delete raises AttributeError and leaves rows and label as they were; otherwise nothing changes |
| HostClient.FileBrowser.RenameSelected | src/ESPFileManager.py:455-465 | a new name that is non-empty and differs sends RENAME with both quoted paths, then refreshes, or with no port open raises AttributeError and leaves rows and label as they were; otherwise nothing changes |
| Python.Strip | src/ESPFileManager.py:248 | defines `str.strip()`: Python white space removed at both ends; `StripTrimmed` and `StripIsStripped` state its meaning |
| Python.StripTrimmed | src/ESPFileManager.py:248 | `strip()` leaves a stripped text unchanged |
| Python.StripIsStripped | src/ESPFileManager.py:248 | what `strip()` returns is stripped |
| Python.SliceFrom | src/ESPFileManager.py:286 | `s[k:]` has `len(s) - k` characters and is the suffix from `k`, or is empty when k is past the end |
| Python.Int | src/ESPFileManager.py:291 | defines `int()` of a string (also at lines 277, 278 and 391): surrounding white space ignored, one optional sign, then digits with single underscores between them; anything else raises ValueError; `IntOfDecimal` states it reads back a decimal |
| Python.IntOfDecimal | src/ESPFileManager.py:291 | `int()` reads back every decimal numeral |
| Strings.Split | src/ESPFileManager.py:276 | `str.split` gives at least one part, no part holds the separator, and joining the parts with the separator gives the text back |
| Strings.Join | src/ESPFileManager.py:276 | defines the parts joined with the separator between them, the inverse `Split` is proved against |
| Strings.SplitOnce | src/ESPFileManager.py:391 | `split(":", 1)` gives one or two parts: the text itself when it holds no separator, otherwise the text before the first separator and the text after it, which joined with the separator give the text back |
| Strings.TrimRight | src/ESPFileManager.py:299 | `rstrip(c)` leaves a prefix that does not end in `c`, and it removes only `c` characters |
| Strings.FindFrom | src/ESPFileManager.py:289 | the first occurrence at or after `from`, or -1 when there is none |
| Strings.LastIndex | src/ESP32FileManager.h:106 | `lastIndexOf`: the last index holding `c`, or -1 when there is none |
| Strings.Decimal | src/ESP32FileManager.h:88 | a decimal numeral is non-empty and all digits |
| Strings.DecimalValue | src/ESP32FileManager.h:88 | the printed numeral's digits add up to the number |
| Strings.TrimPadded | src/ESP32FileManager.h:72 | trimming removes exactly the white space around a trimmed core |
| Arduino.TrimString | src/ESP32FileManager.h:72 | defines `String::trim`: C white space removed at both ends; `RoundTrip.ArrivesTrimmed` states what it keeps |
| Arduino.IndexOf | src/ESP32FileManager.h:77 | `indexOf(c, from)` is -1 or an index at or after `from` holding `c` |
| Arduino.IndexOfFirst | src/ESP32FileManager.h:77-79 | no character that `indexOf` passes over is `c` |
| Arduino.Substring | src/ESP32FileManager.h:81 | a clamped substring is no longer than the string; with the bounds in either order it is the text between them, cut at the end of the string, and empty when both lie at or past the end |
| Arduino.LeadingDigits | src/ESP32FileManager.h:113 | the longest all-digit prefix |
| Arduino.ToInt | src/ESP32FileManager.h:113 | defines `String::toInt`: leading white space skipped, one optional sign, then as many decimal digits as follow, 0 when there are none; `ToIntOfDecimal` states it reads back a decimal |
| Arduino.ToIntOfDecimal | src/ESP32FileManager.h:113 | `toInt` reads back a decimal numeral, whatever non-digit text follows |
| DeviceCommands.Parse | src/ESP32FileManager.h:72-179 | defines which request a received line is: the line is trimmed, a blank line is ignored, and the first branch whose prefix matches decides, in source order; `RoundTrip.NotPrefix` and the Parse lemmas there state how each host command is read |
| DeviceCommands.GetPath | src/ESP32FileManager.h:76-82 | defines `getPath`: with no quote at or after `start` the rest of the line, otherwise the text after that quote up to the next one or to the end of the line; `GetPathUnquoted`, `GetPathQuoted` and `GetPathOfQuoted` state its meaning |
| DeviceCommands.ParsePut | src/ESP32FileManager.h:105-113 | defines the PUTFILE branch: a last space at index 8 or before is an error, otherwise the path from `getPath(cmd, 8)` and the size `toInt` reads after the last space; `RoundTrip.PutLineFields` and `PutLineSize` state its meaning |
| DeviceCommands.ParseRename | src/ESP32FileManager.h:182-198 | defines the RENAME branch: four quote positions each searched after the previous one, an error when one is missing, otherwise the texts between the first and second and between the third and fourth, each made absolute; `RenameBranches` and `RenamePaths` state its meaning |
| DeviceCommands.Free | src/ESP32FileManager.h:86-88 | defines the FREE figure: `total - used` in unsigned 64-bit arithmetic; `FreeWraps` states its meaning |
| DeviceCommands.BaseName | src/ESP32FileManager.h:284-301 | defines the name `listDir` prints: the folder prefix removed when the folder is not the root and the name starts with it, then one leading slash; `BaseNameOfChild` states its meaning |
| DeviceCommands.ChildLine | src/ESP32FileManager.h:303-311 | defines the line printed for one entry: `DIR : ` and the name for a folder, `FILE : `, the name, ` SIZE : ` and the decimal size for a file; `ChildLineNotDone` and `Replies.ChildLineDecodes` state its meaning |
| DeviceCommands.ListLines | src/ESP32FileManager.h:275-315 | defines what `listDir` prints: one line per entry of an existing folder, or `ERROR: Invalid directory`; `Replies.ListRoundTrip` and `Replies.ListedMissing` state how the host reads it |
| DeviceCommands.Respond | src/ESP32FileManager.h:84-203 | defines the lines the dispatcher prints for each request and card state; `RespondShape` states that every non-empty reply ends with DONE and holds it only there |
| DeviceCommands.Streamed | src/ESP32FileManager.h:145-163 | defines the bytes GETDATA writes: the whole file, or nothing when the path is missing or a folder |
| DeviceCommands.GetPathUnquoted | src/ESP32FileManager.h:76-78 | with no quote at or after `start`, `getPath` returns the suffix from `start` |
| DeviceCommands.GetPathQuoted | src/ESP32FileManager.h:77-81 | otherwise it returns the quote-free text after the first quote, up to the next quote or the end of the line |
| DeviceCommands.SpanToEnd | src/ESP32FileManager.h:79-81 | the span up to the next quote, or to the end when there is none, is quote-free |
| DeviceCommands.GetPathOfQuoted | src/ESP32FileManager.h:76-82 | `getPath` of `head"p"tail` at `|head|` is `p` for any quote-free `p` (also ESP32FileManager.h:57-63) |
| DeviceCommands.Absolute | src/ESP32FileManager.h:197-198 | a RENAME path always starts with `/` |
| DeviceCommands.RespondShape | src/ESP32FileManager.h:84-203 | every reply ends with DONE and holds it only there; it is empty exactly for a blank or unknown line, a GETDATA, and an accepted PUTFILE |
| DeviceCommands.SilentLines | src/ESP32FileManager.h:69-73 | a line that is blank after trimming, or that has no known command word, prints and streams nothing |
| DeviceCommands.FreeWraps | src/ESP32FileManager.h:86-88 | FREE is `total - used`, plus 2^64 when used exceeds total |
| DeviceCommands.ChildLines | src/ESP32FileManager.h:282-313 | one line per entry, in `openNextFile` order |
| DeviceCommands.ChildLineNotDone | src/ESP32FileManager.h:303-310 | no entry line is DONE |
| DeviceCommands.BaseNameOfChild | src/ESP32FileManager.h:284-301 | `dirname + "/" + b`, `"/" + b` in the root, and bare `b` all print as `b` (also ESP32FileManager.h:199-216) |
| DeviceCommands.IndexOfCounts | src/ESP32FileManager.h:182-185 | `indexOf` fails exactly when no quote is left, and each hit leaves one fewer |
| DeviceCommands.FourFinds | src/ESP32FileManager.h:182-187 | four chained searches all succeed exactly when at least four quotes are there |
| DeviceCommands.QuoteSearch | src/ESP32FileManager.h:182-185 | the four quote positions of RENAME |
| DeviceCommands.RenameBranches | src/ESP32FileManager.h:182-198 | RENAME is rejected exactly when a search fails; otherwise both paths are the quoted spans, made absolute |
| DeviceCommands.QuoteSearchCounts | src/ESP32FileManager.h:182-187 | a search fails exactly when the line holds fewer than four quotes |
| DeviceCommands.RenameNeedsFourQuotes | src/ESP32FileManager.h:182-191 | RENAME gives ERROR, DONE exactly when the line holds fewer than four quotes |
| DeviceCommands.RenamePaths | src/ESP32FileManager.h:193-198 | both RENAME paths start with `/` and contain no quote |
| DeviceCommands.RenameFrom | src/ESP32FileManager.h:193 | the first path holds no quote |
| DeviceCommands.RenameTo | src/ESP32FileManager.h:194 | the second path holds no quote |
| DeviceCommands.SpanToQuote | src/ESP32FileManager.h:193-198 | the span up to the next quote, made absolute, holds no quote |
| DeviceCommands.QuoteFreeSpan | src/ESP32FileManager.h:193-198 | a quote-free span stays quote-free when a `/` is added |
| DevicePut.Start | src/ESP32FileManager.h:122-125 | defines the fields an accepted PUTFILE starts the transfer with; `StartInv` states the invariant holds there |
| DevicePut.ChunkWant | src/ESP32FileManager.h:226-227 | defines `chunkWant`: the rest of the file, at most 4096 bytes; `InvBounds` states its bounds under the invariant |
| DevicePut.Elapsed | src/ESP32FileManager.h:263 | defines `millis() - _putLastData` in 32-bit unsigned arithmetic; `SettleSays` states when it ends the transfer |
| DevicePut.ToRead | src/ESP32FileManager.h:232-233 | defines `toRead`: what is available, but no more than the chunk still lacks |
| DevicePut.StoredAsWritten | src/ESP32FileManager.h:230-237 | defines the read as written, where a negative `toRead` becomes a huge `size_t`; `NegativeSizeOverrun` exhibits the overrun |
| DevicePut.Receive | src/ESP32FileManager.h:229-239 | defines the read of one pass with the corrected read: `Stored` bytes join the chunk, and the time of the last data moves when any came; `ReceiveInv` and `ReceiveConserves` state its meaning |
| DevicePut.Settle | src/ESP32FileManager.h:241-268 | defines the rest of the pass: a full chunk is written and answered NEXT, or OK, DONE once the file is complete; a short chunk past the timeout ends with ERROR, DONE; `SettleInv`, `SettleConserves` and `SettleSays` state its meaning |
| DevicePut.Step | src/ESP32FileManager.h:225-268 | defines one pass of `while (_putActive)`: `Receive`, then `Settle`; `StepInv`, `StepConserves` and `StepSays` state its meaning |
| DevicePut.Run | src/ESP32FileManager.h:225-269 | defines the loop over a finite sequence of passes, until the transfer ends or the passes run out (a run that ends with the transfer still active is a prefix of the code's loop); `RunInv`, `RunConserves` and `RunSays` state its meaning, and `HandlePutData` computes it |
| DevicePut.Stored | src/ESP32FileManager.h:230-237 | the corrected read: it stores no more than is available, and never past the chunk; a non-positive `toRead` stores nothing |
| DevicePut.StartInv | src/ESP32FileManager.h:122-125 | a new transfer is active and satisfies the invariant |
| DevicePut.InvBounds | src/ESP32FileManager.h:226-236 | `0 <= _putChunkPos <= chunkWant <= 4096`, and every read stays inside `_putBuf` |
| DevicePut.ReceiveInv | src/ESP32FileManager.h:229-239 | the read of a pass keeps the invariant |
| DevicePut.SettleInv | src/ESP32FileManager.h:249-268 | the chunk check and the timeout keep the invariant |
| DevicePut.StepInv | src/ESP32FileManager.h:225-268 | one pass keeps the invariant: the file holds `_putReceived` bytes and never more than the size |
| DevicePut.ReceiveConserves | src/ESP32FileManager.h:229-239 | the read moves bytes from the input to the chunk, losing and reordering none |
| DevicePut.SettleConserves | src/ESP32FileManager.h:250-253 | writing the chunk moves its bytes to the file unchanged |
| DevicePut.StepConserves | src/ESP32FileManager.h:229-253 | file, chunk and unread input after a pass are those before it, followed by what arrived |
| DevicePut.SettleSays | src/ESP32FileManager.h:250-268 | NEXT while the transfer goes on; OK, DONE with a complete file, or ERROR, DONE with a short one; ERROR, DONE exactly when the chunk is short and more than 10000 ms passed since the last data; NEXT exactly when the chunk is full and the file still short; OK, DONE exactly when the chunk is full and completes the file |
| DevicePut.StepSays | src/ESP32FileManager.h:225-268 | what one pass prints: NEXT, nothing, OK, DONE exactly when the file is complete, or ERROR, DONE; ERROR, DONE exactly when no byte is buffered, the chunk is short and more than 10000 ms passed since the last data; NEXT exactly when the read fills the chunk and the file is still short; OK, DONE exactly when the read fills the chunk and completes the file |
| DevicePut.RunInv | src/ESP32FileManager.h:225-269 | the loop keeps the invariant |
| DevicePut.RunConserves | src/ESP32FileManager.h:225-269 | the file receives the payload bytes in order, none twice |
| DevicePut.RunSays | src/ESP32FileManager.h:225-269 | the loop prints NEXTs, then either OK, DONE (exactly when the file reached its size) or ERROR, DONE |
| DevicePut.StepKeepsSize | src/ESP32FileManager.h:226 | a pass never changes `_putSize` |
| DevicePut.NextsAppend | src/ESP32FileManager.h:261 | NEXT lines followed by NEXT lines are NEXT lines |
| DevicePut.EndingAppend | src/ESP32FileManager.h:257-266 | NEXTs before a closed reply keep it closed |
| DevicePut.RunFrom | src/ESP32FileManager.h:225 | the run from pass i is pass i followed by the run from i + 1 |
| DevicePut.TransferStoresPrefix | src/ESP32FileManager.h:250-258 | when the transfer ends with OK, the file is exactly the first `size` bytes sent after the command |
| DevicePut.ZeroSizeCompletes | src/ESP32FileManager.h:226-259 | a zero-byte PUTFILE ends on its first pass with OK, DONE and an empty file |
| DevicePut.MinusOne | src/ESP32FileManager.h:113 | `"-1".toInt()` is -1 |
| DevicePut.PutMinusOne | src/ESP32FileManager.h:106-113 | `PUTFILE "/x" -1` announces size -1 |
| DevicePut.NegativeSizeOverrun | src/ESP32FileManager.h:226-234 | as written, that transfer's first read stores 5000 bytes into the 4096-byte buffer |
| DevicePut.NegativeSizeEndsAtOnce | src/ESP32FileManager.h:226-259 | with positive reads only, a negative size reads nothing and ends at once with OK, DONE and an empty file |
| DevicePut.FileManager.constructor | src/ESP32FileManager.h:210-219 | a fresh manager is valid, inactive and has printed nothing |
| DevicePut.FileManager.ReadPending | src/ESP32FileManager.h:229-239 | the fields and `_putBuf` after the read are those `Receive` gives |
| DevicePut.FileManager.Fill | src/ESP32FileManager.h:234 | `readBytes` puts the taken bytes into `_putBuf` at `_putChunkPos`, keeping what is before |
| DevicePut.FileManager.Conclude | src/ESP32FileManager.h:249-268 | the fields and the printed lines after the chunk check are those `Settle` gives |
| DevicePut.FileManager.Pass | src/ESP32FileManager.h:226-268 | one pass changes the fields as `Step` says |
| DevicePut.FileManager.HandlePutData | src/ESP32FileManager.h:224-270 | the loop changes the fields and prints as `Run` says, keeping the invariant |
| DevicePut.FileManager.HandleFileManager | src/ESP32FileManager.h:62-203 | a transfer still active on entry is continued first (h:64-66); with no input nothing changes; an accepted PUTFILE prints READY 4096 and runs the transfer from a fresh start; any other line prints its `Respond` reply and streams its `Streamed` bytes |
| DeviceLegacy.ReceiveFile | ESP32FileManager.h:103-115 | the file receives `Fetch(size, 1024, …)`, and the reply is OK exactly when that is `size` bytes, otherwise ERROR, then DONE |
| DeviceLegacy.CopyInto | ESP32FileManager.h:107 | `readBytes` fills the start of `buf` with the bytes read |
| DeviceLegacy.HandleCommand | ESP32FileManager.h:49-183 | an accepted PUTFILE runs the blocking loop; any other line gives its `Respond` reply and `Streamed` bytes |
| DeviceLegacy.LegacyPutResult | ESP32FileManager.h:103-114 | the file receives a prefix of what was sent; OK exactly when it is the first `size` bytes; a negative size writes nothing and gets ERROR |
| DeviceLegacy.LegacyPutCompletes | ESP32FileManager.h:105-111 | reads served in full give the first `size` bytes |
| DeviceLegacy.LegacyPutShort | ESP32FileManager.h:105-114 | a short payload is written in full and answered with ERROR |
| RoundTrip.ArrivesTrimmed | src/ESP32FileManager.h:72 | a line without surrounding white space survives `trim()` |
| RoundTrip.IndexOfShift | src/ESP32FileManager.h:182-185 | searching `x + y` past `x` is searching `y` |
| RoundTrip.IndexOfSkip | src/ESP32FileManager.h:182 | a quote-free prefix is skipped by the search |
| RoundTrip.QuotedField | src/ESP32FileManager.h:182-183 | the two quotes around a quote-free path are found at 0 and `1 + |p|` |
| RoundTrip.QuotedFieldPast | src/ESP32FileManager.h:184-185 | past the closing quote, the search continues in what follows |
| RoundTrip.RenameFields | src/ESP32FileManager.h:193-194 | the substrings between the quotes of `RENAME "p" "q"` are `p` and `q` |
| RoundTrip.ObjectPathQuoted | src/ESPFileManager.py:321 | an object path followed by text is the folder path between quotes, followed by that text |
| RoundTrip.ObjectPathQuotes | src/ESPFileManager.py:370 | an object path is `FolderPath` between quotes |
| RoundTrip.QuotedAppend | src/ESPFileManager.py:336 | text after a quoted path is text after its closing quote |
| RoundTrip.QuotedPath | src/ESP32FileManager.h:76-82 | `getPath` after the command word returns the quoted path the host wrote |
| RoundTrip.LastIndexAfter | src/ESP32FileManager.h:106 | the last space of `PUTFILE "…" n` is the one before `n` |
| RoundTrip.NotPrefix | src/ESP32FileManager.h:85-179 | a line that differs from a command word at some position does not take that branch |
| RoundTrip.ParseList | src/ESP32FileManager.h:92-93 | a trimmed `LIST ` line is dispatched to LIST with `getPath(cmd, 5)` |
| RoundTrip.ParseCreateDir | src/ESP32FileManager.h:98-99 | a trimmed `CREATE_DIR ` line is dispatched with `getPath(cmd, 11)` |
| RoundTrip.ParsePutFile | src/ESP32FileManager.h:105 | a trimmed `PUTFILE ` line is dispatched to the PUTFILE branch |
| RoundTrip.ParseGetSize | src/ESP32FileManager.h:132-133 | a trimmed `GETSIZE ` line is dispatched with `getPath(cmd, 8)` |
| RoundTrip.ParseGetData | src/ESP32FileManager.h:145-146 | a trimmed `GETDATA ` line is dispatched with `getPath(cmd, 8)` |
| RoundTrip.ParseDelete | src/ESP32FileManager.h:166-167 | a trimmed `DELETE ` line is dispatched with `getPath(cmd, 7)` |
| RoundTrip.ParseRemoveDir | src/ESP32FileManager.h:172-173 | a trimmed `REMOVE_DIR ` line is dispatched with `getPath(cmd, 11)` |
| RoundTrip.ParseRenameLine | src/ESP32FileManager.h:179 | a trimmed `RENAME ` line is dispatched to the RENAME branch |
| RoundTrip.FolderPathNoQuote | src/ESPFileManager.py:311 | a folder path built from quote-free parts is quote-free |
| RoundTrip.FolderPathAbsolute | src/ESPFileManager.py:311 | a folder path inside an absolute folder is absolute |
| RoundTrip.PutFileArrives | src/ESPFileManager.py:336 | the upload command reaches the device as PUTFILE of the file in the current folder with the announced size |
| RoundTrip.PutLineArrives | src/ESP32FileManager.h:105-113 | `PUTFILE "p" n` parses to path `p` and size `n` |
| RoundTrip.PutLineDispatched | src/ESP32FileManager.h:105 | that line takes the PUTFILE branch |
| RoundTrip.PutLineFields | src/ESP32FileManager.h:106-113 | its last space lies past index 8, and its fields are `p` and `n` |
| RoundTrip.PutLineSize | src/ESP32FileManager.h:106-113 | the size field is the text after the last space, and `toInt` reads it back |
| RoundTrip.QuotedArrives | src/ESP32FileManager.h:76-82 | a command with an object path survives trimming, and `getPath` returns the folder path |
| RoundTrip.GetSizeArrives | src/ESPFileManager.py:384 | GETSIZE asks the device for the selected file in the current folder |
| RoundTrip.GetDataArrives | src/ESPFileManager.py:396 | GETDATA asks for the same file |
| RoundTrip.DeleteArrives | src/ESPFileManager.py:451 | DELETE of a file row reaches the device as DELETE of that file |
| RoundTrip.ListArrives | src/ESPFileManager.py:282 | LIST of an unquoted folder path lists that folder |
| RoundTrip.CreateDirArrives | src/ESPFileManager.py:311-312 | `new_folder` creates the folder inside the current one |
| RoundTrip.RenameArrives | src/ESPFileManager.py:461-463 | RENAME reaches the device as the rename of the old path to the new, with no slash added |
| RoundTrip.RenameLineArrives | src/ESP32FileManager.h:179-198 | `RENAME "p" "q"` with absolute quote-free paths parses to `Rename(p, q)` |
| RoundTrip.RenameLineFields | src/ESP32FileManager.h:182-198 | the RENAME branch of that line yields `p` and `q` |
| RoundTrip.RenameIsLine | src/ESPFileManager.py:461-463 | the host's RENAME command is `RENAME "from" "to"` with folder paths |
| RoundTrip.NestedDeleteHitsParent | src/ESPFileManager.py:426-431 | inside a quoted folder `"/a"`, the nested LIST, REMOVE_DIR and DELETE all address `/a` on the device |
| RoundTrip.NestedListHitsParent | src/ESPFileManager.py:421 | the nested `LIST "/a"/b` lists `/a` |
| RoundTrip.NestedRemoveHitsParent | src/ESPFileManager.py:434 | the nested `REMOVE_DIR "/a"/b` is read by the device as REMOVE_DIR of `/a` |
| RoundTrip.NestedFileHitsParent | src/ESPFileManager.py:428-431 | the nested `DELETE "/a"/b/f"` is read by the device as DELETE of `/a` |
| RoundTrip.FileTargetBelow | src/ESPFileManager.py:429-430 | the file target below `"a"/b` starts with `"a"` and ends with a quote |
| RoundTrip.TrimRightKeeps | src/ESPFileManager.py:429 | `rstrip` stops at the last other character |
| Replies.StripPrintln | src/ESPFileManager.py:248 | a line printed with `println` strips back to itself on the host |
| Replies.StrippedEnds | src/ESPFileManager.py:248 | text with non-space ends is stripped |
| Replies.FindFirst | src/ESPFileManager.py:289 | `find` returns the first occurrence |
| Replies.CollectTwo | src/ESPFileManager.py:244-253 | a printed line followed by DONE is collected as that line and DONE |
| Replies.SplitAtFree | src/ESPFileManager.py:276 | `split(" FREE:")` of the STORAGE line gives its two halves |
| Replies.SplitAtColon | src/ESPFileManager.py:277 | `split(":")` of `TOTAL:n` gives `TOTAL` and `n` |
| Replies.StorageLineDecodes | src/ESPFileManager.py:275-278 | the STORAGE line decodes to the two numbers it was printed from |
| Replies.StorageCollected | src/ESP32FileManager.h:88-89 | the STORAGE reply is collected as its `TOTAL:… FREE:…` line and DONE |
| Replies.StorageDecodedPair | src/ESPFileManager.py:274-279 | a decodable storage line followed by DONE sets the label |
| Replies.StorageRoundTrip | src/ESP32FileManager.h:85-89 | after a STORAGE reply the label shows the card's total and the free figure the firmware computed, and nothing raises |
| Replies.SizeLineRead | src/ESPFileManager.py:386-391 | the `SIZE:n` line decodes to n |
| Replies.SizeOfFile | src/ESP32FileManager.h:138-142 | the GETSIZE reply for a file decodes to its size |
| Replies.SizeOfMissing | src/ESP32FileManager.h:135-136 | the GETSIZE reply for a missing path or a folder has no size line |
| Replies.GetSizeRoundTrip | src/ESP32FileManager.h:132-142 | the host reads back the size of a regular file, and finds no size line otherwise |
| Replies.NoColonBeforeSize | src/ESPFileManager.py:289 | a colon-free name puts no colon before the size separator |
| Replies.SeparatorAfterName | src/ESPFileManager.py:289 | ` SIZE : ` is first found right after the name |
| Replies.FileLineDecodes | src/ESPFileManager.py:288-291 | `FILE : b SIZE : n` decodes to file `b` of size n |
| Replies.DirLineDecodes | src/ESPFileManager.py:285-286 | `DIR : b` decodes to folder `b` |
| Replies.ChildLineDecodes | src/ESP32FileManager.h:303-310 | the line printed for a child is not DONE and decodes to the child's row |
| Replies.ChildLinesNotDone | src/ESP32FileManager.h:303-310 | no listing line strips to DONE |
| Replies.ChildLinesDecode | src/ESP32FileManager.h:282-313 | the listing decodes to one row per child, in order |
| Replies.EntriesCons | src/ESP32FileManager.h:282-313 | the rows of a non-empty child list are the first child's row, then the rest |
| Replies.ListedFolder | src/ESP32FileManager.h:92-95 | the reply for a folder decodes to its rows, and nothing raises |
| Replies.ListedMissing | src/ESP32FileManager.h:277-279 | the device's error line for a missing folder gives no rows |
| Replies.ListRoundTrip | src/ESP32FileManager.h:92-95 | after LIST the view holds one row per child of the folder, named as `listDir` printed it; a missing folder gives no rows |

## Left out

- The GUI: tkinter widgets, styles, dialogs, progress bars and the console `log`. Dialog results are parameters.
- The ctypes dark-title-bar call and `resource_path`: platform glue.
- Serial port enumeration, `connect` and `disconnect`. The port is a `Port` object, or null when not connected.
- Threads. The `run` closures of upload, download and delete are modelled as plain sequential calls.
- Timing: `time.time`, `time.sleep`, the `read_response` timeouts, `delay()` and `Serial.flush`. Each timed read's input is given as the lines or bursts that arrive before it times out.
- `human_size`: floating-point formatting with no protocol logic.
- The SD_MMC file system (`open`, `mkdir`, `rmdir`, `remove`, `rename`, the byte counts). It is modelled only by the answers those calls give (`Card`).
- The effects of CREATE_DIR, REMOVE_DIR, DELETE and RENAME on the card: a `Card` says what each call answers and is not updated.
- The keep-alive callback and the GETDATA pump loop. `Streamed` gives the whole file in one piece.
- How the serial line splits into lines. `read_response` takes whole raw lines, and errors='ignore' decoding is not modelled.
- Unicode digits that Python's `int()` also accepts.
- `long` overflow in `toInt` and `_putReceived`. Integers are unbounded there.
- DevicePut.Receive: `readBytes` is taken to return all `toRead` bytes when they are already buffered, as `Serial.available()` promises. It reads through the corrected `Stored`, so a negative `toRead` reads nothing.
- One `millis()` value per pass (`Tick.now`), although the code reads the clock up to three times in a pass.
- HostDelete.LineTrace: a `DIR :` line beyond the sub-folders the `DeviceDir` tree describes gets the empty reply. This bounds the recursion, which on a real card can be unbounded for nested folders (see above).
- Replies.ListRoundTrip: proved only for names that are non-empty, have no surrounding white space and contain no `:`. This is weaker than "contains no ` SIZE : `", because it keeps the separator search simple. FAT names cannot hold a colon.
- DevicePut.Run and DevicePut.FileManager.HandleFileManager: the passes of the transfer loop are a finite input. In the code, `_handlePutData` loops until the transfer ends, so `handleFileManager` never returns with `_putActive` set. A run in the model that ends with the transfer still active is a prefix of that loop, not a state the code returns in. `DevicePut.FileManager.HandlePutData` is bound in the same way.
- HostClient.FileBrowser.DownloadSelected: writing the local file is represented by the `Saved(data, size)` result.
- HostClient.FileBrowser.AwaitReply: callers pass no reply lines for the answers to CREATE_DIR, PUTFILE, DELETE, REMOVE_DIR and RENAME. The code only logs them, so nothing the model states depends on them.
- DevicePut.Stored: a negative `toRead` reads nothing. This is the corrected read of the finding below; the code as written is `DevicePut.StoredAsWritten`, and `DevicePut.NegativeSizeOverrun` shows the overrun it causes.
- DevicePut.FileManager.ReadPending: it reads only when `toRead > 0`, the same correction as `DevicePut.Stored`.

## Findings

| source | as written | input that shows it | evidently intended | confidence | as-written member | corrected member |
|---|---|---|---|---|---|---|
| src/ESP32FileManager.h:226-234 | a negative size from `toInt` makes `chunkWant` negative, so `toRead` is negative, and `readBytes` takes it as a `size_t` near 2^32: every available byte is stored from `_putBuf + 0` | `PUTFILE "/x" -1` with 5000 bytes waiting stores 5000 bytes into the 4096-byte `_putBuf` | only a positive `toRead` is read, so every read stays inside `_putBuf`; a negative size ends at once with OK, DONE | not executed | DevicePut.NegativeSizeOverrun | DevicePut.InvBounds |
