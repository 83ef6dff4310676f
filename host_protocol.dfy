/** The host's reading of device replies (src/ESPFileManager.py; the older
    ESPFileManager.py holds the same code): the line collector
    `read_response`, and the decoding of STORAGE, LIST and GETSIZE replies
    done inside `refresh` and `download_selected`. */
module HostProtocol {
  import opened Strings
  import opened Python

  /** The line that ends every text reply of the device. */
  const Sentinel: string := "DONE"

  /** The lines `read_response` returns when the raw lines `raw` arrive before
      its timeout elapses: each line is stripped, empty lines are dropped, and
      reading stops right after the first line that strips to DONE. */
  function Collect(raw: seq<string>): seq<string> {
    if raw == [] then []
    else
      var line := Strip(raw[0]);
      if line == Sentinel then [line]
      else (if line != "" then [line] else []) + Collect(raw[1..])
  }

  /** Reference definition: every non-empty stripped line, in order. */
  function NonEmptyLines(raw: seq<string>): seq<string> {
    if raw == [] then []
    else (if Strip(raw[0]) != "" then [Strip(raw[0])] else []) + NonEmptyLines(raw[1..])
  }

  /** The collected lines are non-empty and stripped, and DONE can only be the
      last of them. */
  lemma {:induction false} CollectShape(raw: seq<string>)
    ensures forall i :: 0 <= i < |Collect(raw)| ==> Collect(raw)[i] != "" && Stripped(Collect(raw)[i])
    ensures forall i :: 0 <= i < |Collect(raw)| - 1 ==> Collect(raw)[i] != Sentinel
  {
    if raw != [] {
      StripIsStripped(raw[0]);
      CollectShape(raw[1..]);
    }
  }

  /** Before the first DONE line the collector keeps every non-empty line:
      collecting `a + b` gives the lines of `a` followed by what `b` gives. */
  lemma {:induction false} CollectAppend(a: seq<string>, b: seq<string>)
    requires forall i :: 0 <= i < |a| ==> Strip(a[i]) != Sentinel
    ensures Collect(a + b) == NonEmptyLines(a) + Collect(b)
  {
    if a == [] {
      assert a + b == b;
    } else {
      var head := if Strip(a[0]) != "" then [Strip(a[0])] else [];
      assert (a + b)[0] == a[0];
      assert (a + b)[1..] == a[1..] + b;
      CollectAppend(a[1..], b);
      assert head + NonEmptyLines(a[1..]) + Collect(b) == head + (NonEmptyLines(a[1..]) + Collect(b));
    }
  }

  /** Without a DONE line the collector returns every non-empty line seen. */
  lemma CollectWithoutSentinel(raw: seq<string>)
    requires forall i :: 0 <= i < |raw| ==> Strip(raw[i]) != Sentinel
    ensures Collect(raw) == NonEmptyLines(raw)
  {
    CollectAppend(raw, []);
    assert raw + [] == raw;
  }

  /** With a DONE line at index k (the first one), the collector returns the
      non-empty lines before it followed by DONE. */
  lemma CollectStopsAtSentinel(raw: seq<string>, k: nat)
    requires k < |raw| && Strip(raw[k]) == Sentinel
    requires forall i :: 0 <= i < k ==> Strip(raw[i]) != Sentinel
    ensures Collect(raw) == NonEmptyLines(raw[..k]) + [Sentinel]
  {
    assert raw == raw[..k] + raw[k..];
    assert raw[k..][0] == raw[k];
    CollectAppend(raw[..k], raw[k..]);
  }

  /** Lines that arrive after DONE are never consumed. */
  lemma {:induction false} CollectIgnoresLater(raw: seq<string>, k: nat, later: seq<string>)
    requires k < |raw| && Strip(raw[k]) == Sentinel
    ensures Collect(raw + later) == Collect(raw)
  {
    var both := raw + later;
    assert both[0] == raw[0];
    var line := Strip(raw[0]);
    if line != Sentinel {
      var head := if line != "" then [line] else [];
      assert both[1..] == raw[1..] + later;
      assert raw[1..][k - 1] == raw[k];
      CollectIgnoresLater(raw[1..], k - 1, later);
      assert Collect(raw) == head + Collect(raw[1..]);
      assert Collect(both) == head + Collect(both[1..]);
    }
  }

  // ---------------------------------------------------------------- STORAGE

  datatype Stats = Stats(total: int, free: int)

  /** The outcome of decoding a reply line by line. `value` is what the
      preceding lines produced; `failure` is the exception raised by the first
      line that could not be decoded, after which no line is looked at. */
  datatype Decoded<T> = Decoded(value: T, failure: Option<PyError>)

  /** `refresh` decodes every line that contains `TOTAL:`. */
  predicate IsStorageLine(line: string) {
    Contains(line, "TOTAL:")
  }

  /** `total = int(parts[0].split(":")[1])` and `free = int(parts[1])` where
      `parts = line.split(" FREE:")`, raising as Python does. */
  function DecodeStorageLine(line: string): Result<Stats> {
    var parts := Split(line, " FREE:");
    var fields := Split(parts[0], ":");
    if |fields| < 2 then Err(IndexError)
    else match Int(fields[1])
      case Err(e) => Err(e)
      case Ok(total) =>
        if |parts| < 2 then Err(IndexError)
        else match Int(parts[1])
          case Err(e) => Err(e)
          case Ok(free) => Ok(Stats(total, free))
  }

  /** What the storage label shows after `refresh` decodes `lines`, starting
      from `shown`: each storage line that decodes replaces it. */
  function StorageFrom(lines: seq<string>, shown: Option<Stats>): Decoded<Option<Stats>> {
    if lines == [] then Decoded(shown, None)
    else if !IsStorageLine(lines[0]) then StorageFrom(lines[1..], shown)
    else match DecodeStorageLine(lines[0])
      case Err(e) => Decoded(shown, Some(e))
      case Ok(st) => StorageFrom(lines[1..], Some(st))
  }

  /** The index of the last storage line, or -1. */
  function LastStorageLine(lines: seq<string>): (r: int)
    ensures -1 <= r < |lines|
    ensures r >= 0 ==> IsStorageLine(lines[r])
    ensures forall j :: r < j < |lines| ==> !IsStorageLine(lines[j])
  {
    if lines == [] then -1
    else
      var k := LastStorageLine(lines[1..]);
      if k >= 0 then k + 1 else if IsStorageLine(lines[0]) then 0 else -1
  }

  /** Decoding raises exactly when some storage line is malformed. */
  lemma {:induction false} StorageFailsIff(lines: seq<string>, shown: Option<Stats>)
    ensures StorageFrom(lines, shown).failure.Some?
        <==> exists i :: 0 <= i < |lines| && IsStorageLine(lines[i]) && DecodeStorageLine(lines[i]).Err?
  {
    if lines != [] {
      if IsStorageLine(lines[0]) && DecodeStorageLine(lines[0]).Ok? {
        StorageFailsIff(lines[1..], Some(DecodeStorageLine(lines[0]).value));
      } else if !IsStorageLine(lines[0]) {
        StorageFailsIff(lines[1..], shown);
      }
      if exists i :: 1 <= i < |lines| && IsStorageLine(lines[i]) && DecodeStorageLine(lines[i]).Err? {
        var i :| 1 <= i < |lines| && IsStorageLine(lines[i]) && DecodeStorageLine(lines[i]).Err?;
        assert lines[1..][i - 1] == lines[i];
      }
    }
  }

  /** When nothing raises, the last storage line wins; with no storage line
      the label keeps what it showed. */
  lemma {:induction false} StorageLastWins(lines: seq<string>, shown: Option<Stats>)
    requires StorageFrom(lines, shown).failure.None?
    ensures LastStorageLine(lines) < 0 ==> StorageFrom(lines, shown).value == shown
    ensures LastStorageLine(lines) >= 0 ==>
      var last := DecodeStorageLine(lines[LastStorageLine(lines)]);
      last.Ok? && StorageFrom(lines, shown).value == Some(last.value)
  {
    if lines != [] {
      var k := LastStorageLine(lines[1..]);
      if IsStorageLine(lines[0]) {
        StorageLastWins(lines[1..], Some(DecodeStorageLine(lines[0]).value));
      } else {
        StorageLastWins(lines[1..], shown);
      }
      if k >= 0 {
        assert lines[1..][k] == lines[k + 1];
      }
    }
  }

  // ---------------------------------------------------------------- LIST

  /** One row of the directory view: a folder, or a file with its size. */
  datatype Entry = Directory(name: string) | File(name: string, size: int)

  /** The decoding of one LIST reply line: None for a line `refresh` ignores. */
  function DecodeListLine(line: string): Option<Result<Entry>> {
    if StartsWith(line, "DIR :") then Some(Ok(Directory(Strip(SliceFrom(line, 6)))))
    else if StartsWith(line, "FILE :") then
      var parts := Split(line, " SIZE : ");
      var name := Strip(SliceFrom(parts[0], 7));
      if |parts| < 2 then Some(Err(IndexError))
      else match Int(parts[1])
        case Err(e) => Some(Err(e))
        case Ok(n) => Some(Ok(File(name, n)))
    else None
  }

  /** The rows `refresh` inserts for the LIST reply `lines`, in line order; an
      exception stops the insertion. */
  function ListingFrom(lines: seq<string>): Decoded<seq<Entry>> {
    if lines == [] then Decoded([], None)
    else match DecodeListLine(lines[0])
      case None => ListingFrom(lines[1..])
      case Some(Err(e)) => Decoded([], Some(e))
      case Some(Ok(x)) =>
        var rest := ListingFrom(lines[1..]);
        Decoded([x] + rest.value, rest.failure)
  }

  /** Decoding works line by line: the reply `a + b` gives the rows of `a`
      followed by the rows of `b`, unless `a` already raised. */
  lemma {:induction false} ListingAppend(a: seq<string>, b: seq<string>)
    ensures ListingFrom(a + b)
        == if ListingFrom(a).failure.Some? then ListingFrom(a)
           else Decoded(ListingFrom(a).value + ListingFrom(b).value, ListingFrom(b).failure)
  {
    if a == [] {
      assert a + b == b;
      assert [] + ListingFrom(b).value == ListingFrom(b).value;
    } else {
      assert (a + b)[0] == a[0];
      assert (a + b)[1..] == a[1..] + b;
      ListingAppend(a[1..], b);
      match DecodeListLine(a[0])
      case None =>
      case Some(Err(e)) =>
      case Some(Ok(x)) =>
        assert [x] + ListingFrom(a[1..]).value + ListingFrom(b).value
            == [x] + (ListingFrom(a[1..]).value + ListingFrom(b).value);
    }
  }

  /** A DIR/FILE line whose decoding raises. */
  predicate MalformedListLine(line: string) {
    DecodeListLine(line).Some? && DecodeListLine(line).value.Err?
  }

  /** Decoding raises exactly when some DIR/FILE line is malformed. */
  lemma {:induction false} ListingFailsIff(lines: seq<string>)
    ensures ListingFrom(lines).failure.Some? <==> exists i :: 0 <= i < |lines| && MalformedListLine(lines[i])
  {
    if lines != [] {
      var tail := lines[1..];
      ListingFailsIff(tail);
      assert forall i :: 1 <= i < |lines| ==> lines[i] == tail[i - 1];
      if ListingFrom(lines).failure.Some? {
        if !MalformedListLine(lines[0]) {
          var i :| 0 <= i < |tail| && MalformedListLine(tail[i]);
          assert lines[i + 1] == tail[i];
        }
      }
    }
  }

  lemma DecodeListLineStripped(line: string, x: Entry)
    requires DecodeListLine(line) == Some(Ok(x))
    ensures Stripped(x.name)
  {
    if StartsWith(line, "DIR :") {
      StripIsStripped(SliceFrom(line, 6));
    } else {
      StripIsStripped(SliceFrom(Split(line, " SIZE : ")[0], 7));
    }
  }

  /** Every row name is stripped, so the `" " + name` text of the tree view
      strips back to the name. */
  lemma {:induction false} ListingNamesStripped(lines: seq<string>)
    ensures forall i :: 0 <= i < |ListingFrom(lines).value| ==> Stripped(ListingFrom(lines).value[i].name)
  {
    if lines != [] {
      ListingNamesStripped(lines[1..]);
      match DecodeListLine(lines[0])
      case None =>
      case Some(Err(_)) =>
      case Some(Ok(x)) => DecodeListLineStripped(lines[0], x);
    }
  }

  // ---------------------------------------------------------------- GETSIZE

  /** What `download_selected` makes of the GETSIZE reply. */
  datatype SizeReply = NoSizeLine | BadSize(error: PyError) | Size(n: int)

  /** The first reply line starting with `SIZE:`. */
  function FirstSizeLine(resp: seq<string>): (r: Option<string>)
    ensures r.Some? ==> StartsWith(r.value, "SIZE:") && r.value in resp
    ensures r.None? ==> forall i :: 0 <= i < |resp| ==> !StartsWith(resp[i], "SIZE:")
  {
    if resp == [] then None
    else if StartsWith(resp[0], "SIZE:") then Some(resp[0])
    else FirstSizeLine(resp[1..])
  }

  /** `size = int(size_line[0].split(":", 1)[1])`. */
  function DecodeSize(resp: seq<string>): SizeReply {
    match FirstSizeLine(resp)
    case None => NoSizeLine
    case Some(line) =>
      var parts := SplitOnce(line, ":");
      if |parts| < 2 then BadSize(IndexError)
      else match Int(parts[1])
        case Err(e) => BadSize(e)
        case Ok(n) => Size(n)
  }

  /** The first `SIZE:` line decides, and its value is the text after `SIZE:`;
      the split can never raise IndexError. */
  lemma {:induction false} DecodeSizeFirstLine(resp: seq<string>, k: nat)
    requires k < |resp| && StartsWith(resp[k], "SIZE:")
    requires forall i :: 0 <= i < k ==> !StartsWith(resp[i], "SIZE:")
    ensures DecodeSize(resp)
        == match Int(resp[k][5..]) case Ok(n) => Size(n) case Err(e) => BadSize(e)
  {
    if k > 0 {
      DecodeSizeFirstLine(resp[1..], k - 1);
    } else {
      var line := resp[0];
      FindAfterPrefix("SIZE", ":", line[5..]);
      assert line == "SIZE" + ":" + line[5..];
    }
  }
}
