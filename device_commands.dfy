/** The firmware's command dispatcher (`handleFileManager` of
    src/ESP32FileManager.h; ESP32FileManager.h has the same dispatcher except
    for PUTFILE): one trimmed command line is parsed into a request, and the
    request is answered with the lines the device prints. The SD card is an
    abstract input that says what each SD_MMC call returns. */
module DeviceCommands {
  import opened Strings
  import opened Arduino

  // ---------------------------------------------------------------- paths

  /** `getPath(c, start)`: with no `"` at or after `start`, the rest of the
      line; otherwise the text after that quote up to the next one, or to
      the end of the line. */
  function GetPath(c: string, start: nat): string {
    var q1 := IndexOf(c, '"', start);
    if q1 == -1 then SubstringFrom(c, start)
    else
      var q2 := IndexOf(c, '"', q1 + 1);
      Substring(c, q1 + 1, if q2 == -1 then |c| else q2)
  }

  predicate NoQuote(s: string) {
    forall i :: 0 <= i < |s| ==> s[i] != '"'
  }

  /** Without a quote, `getPath` returns the suffix from `start`. */
  lemma GetPathUnquoted(c: string, start: nat)
    requires start <= |c| && forall j :: start <= j < |c| ==> c[j] != '"'
    ensures GetPath(c, start) == c[start..]
  {
  }

  /** With a quote at `q1`, the first one at or after `start`, `getPath`
      returns the quote-free text that follows it, which ends at the next
      quote or at the end of the line. */
  lemma {:induction false} GetPathQuoted(c: string, start: nat, q1: nat)
    requires start <= q1 < |c| && c[q1] == '"'
    requires forall j :: start <= j < q1 ==> c[j] != '"'
    ensures var r := GetPath(c, start);
      NoQuote(r) && q1 + 1 + |r| <= |c| && c[q1 + 1..q1 + 1 + |r|] == r
      && (q1 + 1 + |r| == |c| || c[q1 + 1 + |r|] == '"')
  {
    IndexOfFirst(c, '"', start);
    assert IndexOf(c, '"', start) == q1;
    SpanToEnd(c, q1 + 1);
    var q := IndexOf(c, '"', q1 + 1);
    var end := if q == -1 then |c| else q;
    assert GetPath(c, start) == c[q1 + 1..end];
  }

  /** The text from `from` up to the next quote, or to the end of the line
      when there is none, holds no quote. */
  lemma SpanToEnd(c: string, from: nat)
    requires from <= |c|
    ensures var q := IndexOf(c, '"', from);
      var end := if q == -1 then |c| else q;
      from <= end <= |c| && NoQuote(c[from..end]) && (end == |c| || c[end] == '"')
  {
    IndexOfFirst(c, '"', from);
    var q := IndexOf(c, '"', from);
    var end := if q == -1 then |c| else q;
    forall i | 0 <= i < end - from ensures c[from..end][i] != '"' {
      assert c[from..end][i] == c[from + i];
    }
  }

  /** `getPath` of a command whose argument is `"p"` for a quote-free `p`
      returns `p`, whatever follows the closing quote. */
  lemma GetPathOfQuoted(head: string, p: string, tail: string)
    requires NoQuote(head) && NoQuote(p)
    ensures GetPath(head + "\"" + p + "\"" + tail, |head|) == p
  {
    var c := head + "\"" + p + "\"" + tail;
    assert c[|head|] == '"';
    GetPathQuoted(c, |head|, |head|);
    var r := GetPath(c, |head|);
    IndexOfFirst(c, '"', |head| + 1);
    assert c[|head| + 1..|head| + 1 + |p|] == p;
    assert c[|head| + 1 + |p|] == '"';
    assert forall j :: 0 <= j < |p| ==> c[|head| + 1 + j] == p[j];
  }

  // ---------------------------------------------------------------- requests

  /** The command a trimmed line asks for. */
  datatype Request =
    | Blank                           // empty after trimming: ignored
    | Storage
    | ListDir(path: string)
    | CreateDir(path: string)
    | PutBadArgs                      // PUTFILE whose last space is at index 8 or less
    | PutFile(path: string, size: int)
    | GetSize(path: string)
    | GetData(path: string)
    | Delete(path: string)
    | RemoveDir(path: string)
    | RenameBadArgs                   // RENAME with fewer than four quotes
    | Rename(from: string, to: string)
    | Unknown                         // matches no branch

  /** `rename` needs absolute paths: a leading slash is added when missing. */
  function Absolute(p: string): (r: string)
    ensures StartsWith(r, "/")
  {
    if StartsWith(p, "/") then p else "/" + p
  }

  /** The RENAME branch: the four quote positions, each searched after the
      previous one. */
  function ParseRename(cmd: string): Request {
    var q1 := IndexOf(cmd, '"', 0);
    var q2 := IndexOf(cmd, '"', q1 + 1);
    var q3 := IndexOf(cmd, '"', q2 + 1);
    var q4 := IndexOf(cmd, '"', q3 + 1);
    if q1 == -1 || q2 == -1 || q3 == -1 || q4 == -1 then RenameBadArgs
    else Rename(Absolute(Substring(cmd, q1 + 1, q2)), Absolute(Substring(cmd, q3 + 1, q4)))
  }

  function ParsePut(cmd: string): Request {
    var lastSpace := LastIndex(cmd, ' ');
    if lastSpace <= 8 then PutBadArgs
    else PutFile(GetPath(cmd, 8), ToInt(SubstringFrom(cmd, lastSpace + 1)))
  }

  /** `handleFileManager` after `cmd.trim()`: the branches in source order. */
  function Parse(line: string): Request {
    var cmd := TrimString(line);
    if cmd == [] then Blank
    else if cmd == "STORAGE" then Storage
    else if StartsWith(cmd, "LIST ") then ListDir(GetPath(cmd, 5))
    else if StartsWith(cmd, "CREATE_DIR ") then CreateDir(GetPath(cmd, 11))
    else if StartsWith(cmd, "PUTFILE ") then ParsePut(cmd)
    else if StartsWith(cmd, "GETSIZE ") then GetSize(GetPath(cmd, 8))
    else if StartsWith(cmd, "GETDATA ") then GetData(GetPath(cmd, 8))
    else if StartsWith(cmd, "DELETE ") then Delete(GetPath(cmd, 7))
    else if StartsWith(cmd, "REMOVE_DIR ") then RemoveDir(GetPath(cmd, 11))
    else if StartsWith(cmd, "RENAME ") then ParseRename(cmd)
    else Unknown
  }

  // ---------------------------------------------------------------- the card

  type u64 = x: int | 0 <= x < 0x1_0000_0000_0000_0000

  /** One entry `openNextFile` yields: the name `file.name()` reports, and
      whether it is a folder. */
  datatype Child = Child(name: string, isDir: bool, size: nat)

  /** What `SD_MMC.open(path)` finds. */
  datatype Node = Folder(children: seq<Child>) | Regular(data: seq<byte>)

  /** The answers the SD_MMC calls give: the byte counts, what `open` finds
      at each path, which paths `remove` succeeds on, which `rename` pairs
      succeed, and which paths `open(path, FILE_WRITE)` can create. */
  datatype Card = Card(total: u64, used: u64, nodes: map<string, Node>,
                       removable: set<string>, renamable: set<(string, string)>,
                       writable: set<string>)

  // ---------------------------------------------------------------- replies

  /** `Serial.println(s)`. */
  function Println(s: string): string { s + "\r\n" }

  const Done: string := Println("DONE")
  const ErrorLine: string := Println("ERROR")

  /** `%llu` of the unsigned difference `total - used`. */
  function Free(card: Card): u64 {
    (card.total - card.used) % 0x1_0000_0000_0000_0000
  }

  /** `listDir` for a folder: the dirname prefix is removed when the folder
      is not the root and the name starts with it, then one leading slash. */
  function BaseName(dirname: string, fullName: string): string {
    var b := if dirname != "/" && StartsWith(fullName, dirname) then SubstringFrom(fullName, |dirname|) else fullName;
    if StartsWith(b, "/") then SubstringFrom(b, 1) else b
  }

  /** The line `listDir` prints for one entry. */
  function ChildLine(dirname: string, c: Child): string {
    var b := BaseName(dirname, c.name);
    if c.isDir then Println("DIR : " + b)
    else Println("FILE : " + b + " SIZE : " + Decimal(c.size))
  }

  function ChildLines(dirname: string, cs: seq<Child>): (r: seq<string>)
    ensures |r| == |cs|
    ensures forall i :: 0 <= i < |cs| ==> r[i] == ChildLine(dirname, cs[i])
  {
    if cs == [] then [] else [ChildLine(dirname, cs[0])] + ChildLines(dirname, cs[1..])
  }

  /** `listDir(SD_MMC, dirname, 0)`. */
  function ListLines(card: Card, dirname: string): seq<string> {
    if dirname in card.nodes && card.nodes[dirname].Folder? then ChildLines(dirname, card.nodes[dirname].children)
    else [Println("ERROR: Invalid directory")]
  }

  /** The lines the dispatcher prints for `req`. An accepted PUTFILE is
      answered by the transfer code of each header, and GETDATA of a file
      streams its bytes (see `Streamed`) and prints no line. */
  function Respond(req: Request, card: Card): seq<string> {
    match req
    case Blank => []
    case Storage => ["TOTAL:" + Decimal(card.total) + " FREE:" + Decimal(Free(card)) + "\n", Done]
    case ListDir(p) => ListLines(card, p) + [Done]
    case CreateDir(_) => [Println("DIR created"), Done]
    case PutBadArgs => [ErrorLine, Done]
    case PutFile(p, _) => if p in card.writable then [] else [ErrorLine, Done]
    case GetSize(p) =>
      (if p in card.nodes && card.nodes[p].Regular? then [Println("SIZE:" + Decimal(|card.nodes[p].data|))]
       else [ErrorLine]) + [Done]
    case GetData(_) => []
    case Delete(p) => [Println(if p in card.removable then "DELETED" else "ERROR"), Done]
    case RemoveDir(_) => [Println("REMOVED"), Done]
    case RenameBadArgs => [ErrorLine, Done]
    case Rename(f, t) => [Println(if (f, t) in card.renamable then "RENAMED" else "ERROR"), Done]
    case Unknown => []
  }

  /** The bytes GETDATA writes: the whole file, or nothing at all when the
      path is missing or a folder. */
  function Streamed(req: Request, card: Card): seq<byte> {
    if req.GetData? && req.path in card.nodes && card.nodes[req.path].Regular? then card.nodes[req.path].data
    else []
  }

  // ---------------------------------------------------------------- properties

  /** A request is answered by a reply that ends with DONE, holds DONE only
      at its end, and is empty exactly for a blank or unknown line, a GETDATA,
      and a PUTFILE whose file could be opened. */
  lemma {:induction false} RespondShape(req: Request, card: Card)
    ensures var r := Respond(req, card);
      (r == [] <==> (req.Blank? || req.Unknown? || req.GetData? || (req.PutFile? && req.path in card.writable)))
      && (r != [] ==> r[|r| - 1] == Done && forall i :: 0 <= i < |r| - 1 ==> r[i] != Done)
  {
    var r := Respond(req, card);
    match req {
      case ListDir(p) =>
        var ls := ListLines(card, p);
        assert r == ls + [Done];
        forall i | 0 <= i < |ls| ensures ls[i] != Done {
          if p in card.nodes && card.nodes[p].Folder? {
            ChildLineNotDone(p, card.nodes[p].children[i]);
          } else {
            assert ls[i] == Println("ERROR: Invalid directory");
            assert ls[i][0] != Done[0];
          }
        }
      case Storage => assert r[0][0] != Done[0];
      case CreateDir(_) => assert r[0][1] != Done[1];
      case GetSize(p) => assert r[0][0] != Done[0];
      case Delete(p) => assert r[0][1] != Done[1];
      case Rename(f, t) => assert r[0][0] != Done[0];
      case RemoveDir(_) => assert r[0][0] != Done[0];
      case PutBadArgs => assert r[0][0] != Done[0];
      case PutFile(p, _) => if r != [] { assert r[0][0] != Done[0]; }
      case RenameBadArgs => assert r[0][0] != Done[0];
      case Blank =>
      case GetData(_) =>
      case Unknown =>
    }
  }

  lemma ChildLineNotDone(dirname: string, c: Child)
    ensures ChildLine(dirname, c) != Done
  {
    assert ChildLine(dirname, c)[1] != Done[1];
  }

  /** Nothing is printed for a line that is empty after trimming or that
      starts with no known command word. */
  lemma {:induction false} SilentLines(line: string, card: Card)
    requires var cmd := TrimString(line);
      cmd == [] || (cmd != "STORAGE" && !StartsWith(cmd, "LIST ") && !StartsWith(cmd, "CREATE_DIR ")
        && !StartsWith(cmd, "PUTFILE ") && !StartsWith(cmd, "GETSIZE ") && !StartsWith(cmd, "GETDATA ")
        && !StartsWith(cmd, "DELETE ") && !StartsWith(cmd, "REMOVE_DIR ") && !StartsWith(cmd, "RENAME "))
    ensures Respond(Parse(line), card) == [] && Streamed(Parse(line), card) == []
  {
  }

  /** STORAGE reports `total` and `total - used` wrapped to 64 bits: the free
      figure is `total - used` whenever the card does not claim more used
      than total bytes. */
  lemma FreeWraps(card: Card)
    ensures card.used <= card.total ==> Free(card) == card.total - card.used
    ensures card.used > card.total ==> Free(card) == card.total - card.used + 0x1_0000_0000_0000_0000
  {
  }

  /** The quote counting behind RENAME: `indexOf` finds nothing exactly when
      no quote is left, and each quote found leaves one fewer after it. */
  lemma {:induction false} IndexOfCounts(s: string, from: nat)
    ensures var q := IndexOf(s, '"', from);
      (q == -1 <==> CountFrom(s, '"', from) == 0)
      && (q != -1 ==> CountFrom(s, '"', from) == 1 + CountFrom(s, '"', q + 1))
    decreases |s| - from
  {
    if from < |s| {
      IndexOfCounts(s, from + 1);
    }
  }

  /** Four searches, each after the quote the previous one found, all
      succeed exactly when at least four quotes are there to be found. */
  lemma FourFinds(q1: int, q2: int, q3: int, q4: int, n0: nat, n1: nat, n2: nat, n3: nat)
    requires q1 == -1 <==> n0 == 0
    requires q1 != -1 ==> n0 == 1 + n1 && (q2 == -1 <==> n1 == 0)
    requires q1 != -1 && q2 != -1 ==> n1 == 1 + n2 && (q3 == -1 <==> n2 == 0)
    requires q1 != -1 && q2 != -1 && q3 != -1 ==> n2 == 1 + n3 && (q4 == -1 <==> n3 == 0)
    ensures (q1 == -1 || q2 == -1 || q3 == -1 || q4 == -1) <==> n0 < 4
  {
  }

  /** The four searches of the RENAME branch. */
  function QuoteSearch(cmd: string): (q: seq<int>)
    ensures |q| == 4
  {
    var q1 := IndexOf(cmd, '"', 0);
    var q2 := IndexOf(cmd, '"', q1 + 1);
    var q3 := IndexOf(cmd, '"', q2 + 1);
    [q1, q2, q3, IndexOf(cmd, '"', q3 + 1)]
  }

  lemma RenameBranches(cmd: string)
    ensures var q := QuoteSearch(cmd);
      (ParseRename(cmd).RenameBadArgs? <==> (q[0] == -1 || q[1] == -1 || q[2] == -1 || q[3] == -1))
      && (ParseRename(cmd).Rename? ==>
            ParseRename(cmd) == Rename(Absolute(Substring(cmd, q[0] + 1, q[1])), Absolute(Substring(cmd, q[2] + 1, q[3]))))
  {
  }

  lemma {:induction false} QuoteSearchCounts(cmd: string)
    ensures var q := QuoteSearch(cmd);
      (q[0] == -1 || q[1] == -1 || q[2] == -1 || q[3] == -1) <==> CountFrom(cmd, '"', 0) < 4
  {
    var q1 := IndexOf(cmd, '"', 0);
    var q2 := IndexOf(cmd, '"', q1 + 1);
    var q3 := IndexOf(cmd, '"', q2 + 1);
    var q4 := IndexOf(cmd, '"', q3 + 1);
    assert QuoteSearch(cmd) == [q1, q2, q3, q4];
    var n0 := CountFrom(cmd, '"', 0);
    var n1 := CountFrom(cmd, '"', q1 + 1);
    var n2 := CountFrom(cmd, '"', q2 + 1);
    var n3 := CountFrom(cmd, '"', q3 + 1);
    IndexOfCounts(cmd, 0);
    IndexOfCounts(cmd, q1 + 1);
    IndexOfCounts(cmd, q2 + 1);
    IndexOfCounts(cmd, q3 + 1);
    FourFinds(q1, q2, q3, q4, n0, n1, n2, n3);
  }

  /** RENAME is rejected exactly when the line holds fewer than four quotes. */
  lemma RenameNeedsFourQuotes(cmd: string)
    ensures ParseRename(cmd).RenameBadArgs? <==> CountFrom(cmd, '"', 0) < 4
  {
    RenameBranches(cmd);
    QuoteSearchCounts(cmd);
  }

  /** Both RENAME paths are absolute and quote-free: the text between the
      first and second quote, and between the third and fourth. */
  lemma RenamePaths(cmd: string)
    requires ParseRename(cmd).Rename?
    ensures var r := ParseRename(cmd);
      StartsWith(r.from, "/") && StartsWith(r.to, "/") && NoQuote(r.from) && NoQuote(r.to)
  {
    RenameFrom(cmd);
    RenameTo(cmd);
  }

  lemma RenameFrom(cmd: string)
    requires ParseRename(cmd).Rename?
    ensures NoQuote(ParseRename(cmd).from)
  {
    var q1 := IndexOf(cmd, '"', 0);
    var q2 := IndexOf(cmd, '"', q1 + 1);
    assert q1 != -1 && q2 != -1;
    SpanToQuote(cmd, q1 + 1, q2);
  }

  lemma RenameTo(cmd: string)
    requires ParseRename(cmd).Rename?
    ensures NoQuote(ParseRename(cmd).to)
  {
    var q1 := IndexOf(cmd, '"', 0);
    var q2 := IndexOf(cmd, '"', q1 + 1);
    var q3 := IndexOf(cmd, '"', q2 + 1);
    var q4 := IndexOf(cmd, '"', q3 + 1);
    assert q3 != -1 && q4 != -1;
    SpanToQuote(cmd, q3 + 1, q4);
  }

  /** The text from `from` up to the next quote holds no quote. */
  lemma SpanToQuote(cmd: string, from: nat, to: int)
    requires to == IndexOf(cmd, '"', from) && to != -1
    ensures NoQuote(Absolute(Substring(cmd, from, to)))
  {
    IndexOfFirst(cmd, '"', from);
    QuoteFreeSpan(cmd, from, to);
  }

  /** A quote-free span of the line keeps no quote once made absolute. */
  lemma QuoteFreeSpan(cmd: string, lo: nat, hi: nat)
    requires lo <= hi <= |cmd| && forall j :: lo <= j < hi ==> cmd[j] != '"'
    ensures NoQuote(Absolute(Substring(cmd, lo, hi)))
  {
    var a := Substring(cmd, lo, hi);
    assert a == cmd[lo..hi];
    assert NoQuote(a) by {
      forall i | 0 <= i < |a| ensures a[i] != '"' { assert a[i] == cmd[lo + i]; }
    }
    if !StartsWith(a, "/") {
      assert forall i :: 1 <= i < |"/" + a| ==> ("/" + a)[i] == a[i - 1];
    }
  }

  /** Whichever form `file.name()` takes, the full path `dirname + "/" + b`
      or the bare name `b`, `listDir` prints `b`: for the root, for a folder
      whose path starts with a slash, and for any `b` that does not itself
      start with one. */
  lemma BaseNameOfChild(dirname: string, b: string)
    requires StartsWith(dirname, "/") && !StartsWith(b, "/")
    ensures dirname != "/" ==> BaseName(dirname, dirname + "/" + b) == b
    ensures BaseName("/", "/" + b) == b
    ensures BaseName(dirname, b) == b
  {
    var full := dirname + "/" + b;
    if dirname != "/" {
      assert full[..|dirname|] == dirname;
      assert SubstringFrom(full, |dirname|) == "/" + b;
      assert ("/" + b)[1..] == b;
    }
    assert ("/" + b)[1..] == b;
    if |b| >= |dirname| {
      assert b[0] != '/' && dirname[0] == '/';
      assert b[..|dirname|][0] == b[0];
    }
  }
}
