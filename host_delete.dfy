/** The commands `delete_recursive` sends (src/ESPFileManager.py:419-435),
    as a trace over a finite model of what the device answers. */
module HostDelete {
  import opened Strings
  import opened Python
  import opened HostProtocol
  import opened HostPaths

  /** What the device answers to the LIST of one folder: the raw reply
      lines, and for the k-th `DIR :` line of the collected reply, the
      folder that LIST of that sub-folder reaches. */
  datatype DeviceDir = DeviceDir(reply: seq<string>, subdirs: seq<DeviceDir>)

  /** `line[6:].strip()` of a `DIR :` line. */
  function SubdirName(line: string): string {
    Strip(SliceFrom(line, 6))
  }

  /** `line.split(" SIZE : ")[0][7:].strip()` of a `FILE :` line. */
  function FileName(line: string): string {
    Strip(SliceFrom(Split(line, " SIZE : ")[0], 7))
  }

  /** `path.rstrip("/") + "/" + subdir`: the folder argument of the nested
      call. */
  function SubdirPath(path: string, subdir: string): string {
    TrimRight(path, '/') + "/" + subdir
  }

  /** `path.rstrip('"').rstrip("/") + "/" + filename + '"'`. */
  function FileTarget(path: string, filename: string): string {
    TrimRight(TrimRight(path, '"'), '/') + "/" + filename + "\""
  }

  /** One command of the trace. */
  datatype Cmd = List(path: string) | DeleteFile(target: string) | RemoveDir(path: string)

  /** The command line `send` writes for `c`. */
  function Render(c: Cmd): string {
    match c
    case List(p) => ListCommand(p)
    case DeleteFile(t) => "DELETE " + t
    case RemoveDir(p) => "REMOVE_DIR " + p
  }

  /** Every command `delete_recursive(path)` sends, in order, when the
      device answers as `d` describes. */
  function DeleteTrace(path: string, d: DeviceDir): seq<Cmd>
    decreases d, 2, 0
  {
    [List(path)] + EntriesTrace(path, d, Collect(d.reply), 0) + [RemoveDir(path)]
  }

  /** The commands sent for the reply `lines` of folder `path`, where `k`
      counts the `DIR :` lines already handled. */
  function EntriesTrace(path: string, d: DeviceDir, lines: seq<string>, k: nat): seq<Cmd>
    decreases d, 1, |lines|
  {
    if lines == [] then []
    else
      var k' := if StartsWith(lines[0], "DIR :") then k + 1 else k;
      LineTrace(path, d, lines[0], k) + EntriesTrace(path, d, lines[1..], k')
  }

  /** The commands sent for one reply line: the whole nested trace for the
      k-th `DIR :` line, one DELETE for a `FILE :` line, nothing otherwise.
      A `DIR :` line beyond the sub-folders `d` describes is answered with
      nothing. */
  function LineTrace(path: string, d: DeviceDir, line: string, k: nat): seq<Cmd>
    decreases d, 0, 0
  {
    if StartsWith(line, "DIR :") then
      var sub := SubdirPath(path, SubdirName(line));
      if k < |d.subdirs| then DeleteTrace(sub, d.subdirs[k]) else [List(sub), RemoveDir(sub)]
    else if StartsWith(line, "FILE :") then [DeleteFile(FileTarget(path, FileName(line)))]
    else []
  }

  /** Replays a trace against the folders listed and not yet removed,
      innermost last: LIST opens its folder, DELETE leaves the open folders
      alone, and REMOVE_DIR must name the innermost open folder, which it
      closes. None: some REMOVE_DIR closes a folder that is not the
      innermost open one. */
  function Replay(open: seq<string>, t: seq<Cmd>): Option<seq<string>>
    decreases |t|
  {
    if t == [] then Some(open)
    else match t[0]
      case List(p) => Replay(open + [p], t[1..])
      case DeleteFile(_) => Replay(open, t[1..])
      case RemoveDir(p) =>
        if open != [] && open[|open| - 1] == p then Replay(open[..|open| - 1], t[1..]) else None
  }

  /** Every REMOVE_DIR of `t` closes the innermost folder `t` listed and
      did not yet remove, and every folder `t` lists is removed. */
  predicate Balanced(t: seq<Cmd>) {
    Replay([], t) == Some([])
  }

  /** Replaying `a + b` replays `a`, then `b` from where `a` left off. */
  lemma {:induction false} ReplayAppend(open: seq<string>, a: seq<Cmd>, b: seq<Cmd>)
    ensures Replay(open, a + b) == match Replay(open, a) case None => None case Some(m) => Replay(m, b)
    decreases |a|
  {
    if a == [] {
      assert a + b == b;
    } else {
      assert (a + b)[0] == a[0] && (a + b)[1..] == a[1..] + b;
      match a[0]
      case List(p) => ReplayAppend(open + [p], a[1..], b);
      case DeleteFile(_) => ReplayAppend(open, a[1..], b);
      case RemoveDir(p) =>
        if open != [] && open[|open| - 1] == p {
          ReplayAppend(open[..|open| - 1], a[1..], b);
        }
    }
  }

  /** Folders opened further out do not disturb a trace that never closes
      more than it opens. */
  lemma {:induction false} ReplayBelow(outer: seq<string>, open: seq<string>, t: seq<Cmd>)
    requires Replay(open, t).Some?
    ensures Replay(outer + open, t) == Some(outer + Replay(open, t).value)
    decreases |t|
  {
    if t != [] {
      match t[0]
      case List(p) =>
        assert outer + open + [p] == outer + (open + [p]);
        ReplayBelow(outer, open + [p], t[1..]);
      case DeleteFile(_) => ReplayBelow(outer, open, t[1..]);
      case RemoveDir(p) =>
        var o := outer + open;
        assert o[|o| - 1] == open[|open| - 1] && o[..|o| - 1] == outer + open[..|open| - 1];
        ReplayBelow(outer, open[..|open| - 1], t[1..]);
    }
  }

  /** Balanced traces joined are balanced. */
  lemma BalancedAppend(a: seq<Cmd>, b: seq<Cmd>)
    requires Balanced(a) && Balanced(b)
    ensures Balanced(a + b)
  {
    ReplayAppend([], a, b);
  }

  /** LIST of `p`, a balanced middle and REMOVE_DIR of `p` are balanced, and
      `p` stays the outermost open folder from the LIST to the REMOVE_DIR. */
  lemma Bracket(p: string, middle: seq<Cmd>)
    requires Balanced(middle)
    ensures var t := [List(p)] + middle + [RemoveDir(p)];
      Balanced(t)
      && forall j :: 1 <= j < |t| ==>
           Replay([], t[..j]).Some? && Replay([], t[..j]).value != [] && Replay([], t[..j]).value[0] == p
  {
    var t := [List(p)] + middle + [RemoveDir(p)];
    assert [p] + [] == [p] && [] + [p] == [p];
    ReplayBelow([p], [], middle);
    ReplayAppend([p], middle, [RemoveDir(p)]);
    assert [RemoveDir(p)][1..] == [] && [p][..0] == [];
    assert t == [List(p)] + (middle + [RemoveDir(p)]);
    OpenFirst([], p, middle + [RemoveDir(p)]);
    forall j | 1 <= j < |t|
      ensures Replay([], t[..j]).Some? && Replay([], t[..j]).value != [] && Replay([], t[..j]).value[0] == p
    {
      var m := middle[..j - 1];
      assert middle == m + middle[j - 1..];
      ReplayAppend([], m, middle[j - 1..]);
      ReplayBelow([p], [], m);
      assert t[..j] == [List(p)] + m;
      OpenFirst([], p, m);
    }
  }

  /** A trace that starts with LIST of `p` replays the rest with `p` open. */
  lemma OpenFirst(open: seq<string>, p: string, rest: seq<Cmd>)
    ensures Replay(open, [List(p)] + rest) == Replay(open + [p], rest)
  {
    assert ([List(p)] + rest)[0] == List(p) && ([List(p)] + rest)[1..] == rest;
  }

  /** `delete_recursive(path)` sends LIST of `path` first and REMOVE_DIR of
      `path` last, `path` stays open throughout, and every REMOVE_DIR in
      between closes the sub-folder most recently listed and not yet
      removed: each nested trace is complete before the rest of the
      listing, and before the parent is removed. */
  lemma {:induction false} DeleteTraceShape(path: string, d: DeviceDir)
    ensures var t := DeleteTrace(path, d);
      |t| >= 2 && t[0] == List(path) && t[|t| - 1] == RemoveDir(path) && Balanced(t)
      && forall j :: 1 <= j < |t| ==>
           Replay([], t[..j]).Some? && Replay([], t[..j]).value != [] && Replay([], t[..j]).value[0] == path
    decreases d, 2, 0
  {
    var lines := Collect(d.reply);
    EntriesTraceNested(path, d, lines, 0);
    Bracket(path, EntriesTrace(path, d, lines, 0));
  }

  /** The commands for the reply lines close every folder they list, and
      close no folder but the one most recently listed. */
  lemma {:induction false} EntriesTraceNested(path: string, d: DeviceDir, lines: seq<string>, k: nat)
    ensures Balanced(EntriesTrace(path, d, lines, k))
    decreases d, 1, |lines|
  {
    if lines != [] {
      var k' := if StartsWith(lines[0], "DIR :") then k + 1 else k;
      LineTraceNested(path, d, lines[0], k);
      EntriesTraceNested(path, d, lines[1..], k');
      BalancedAppend(LineTrace(path, d, lines[0], k), EntriesTrace(path, d, lines[1..], k'));
    }
  }

  /** A `DIR :` line gives a balanced trace from LIST to REMOVE_DIR of the
      sub-folder it names; a `FILE :` line one DELETE of that file; any
      other line nothing. */
  lemma {:induction false} LineTraceNested(path: string, d: DeviceDir, line: string, k: nat)
    ensures Balanced(LineTrace(path, d, line, k))
    ensures StartsWith(line, "DIR :") ==>
      var t := LineTrace(path, d, line, k);
      var sub := SubdirPath(path, SubdirName(line));
      |t| >= 2 && t[0] == List(sub) && t[|t| - 1] == RemoveDir(sub)
    ensures !StartsWith(line, "DIR :") && StartsWith(line, "FILE :") ==>
      LineTrace(path, d, line, k) == [DeleteFile(FileTarget(path, FileName(line)))]
    ensures !StartsWith(line, "DIR :") && !StartsWith(line, "FILE :") ==> LineTrace(path, d, line, k) == []
    decreases d, 0, 0
  {
    var t := LineTrace(path, d, line, k);
    if StartsWith(line, "DIR :") {
      var sub := SubdirPath(path, SubdirName(line));
      if k < |d.subdirs| {
        DeleteTraceShape(sub, d.subdirs[k]);
      } else {
        var e: seq<Cmd> := [];
        Bracket(sub, e);
        assert [List(sub)] + e + [RemoveDir(sub)] == t;
      }
    }
  }

  // ---------------------------------------------------------------- counts

  /** How many LIST, DELETE and REMOVE_DIR commands. */
  datatype Tally = Tally(lists: nat, deletes: nat, removes: nat)

  function Plus(a: Tally, b: Tally): Tally {
    Tally(a.lists + b.lists, a.deletes + b.deletes, a.removes + b.removes)
  }

  /** The commands of `t`, counted by kind. */
  function Census(t: seq<Cmd>): Tally {
    if t == [] then Tally(0, 0, 0)
    else
      var c := match t[0]
        case List(_) => Tally(1, 0, 0)
        case DeleteFile(_) => Tally(0, 1, 0)
        case RemoveDir(_) => Tally(0, 0, 1);
      Plus(c, Census(t[1..]))
  }

  lemma {:induction false} CensusAppend(a: seq<Cmd>, b: seq<Cmd>)
    ensures Census(a + b) == Plus(Census(a), Census(b))
  {
    if a == [] {
      assert a + b == b;
    } else {
      assert (a + b)[0] == a[0] && (a + b)[1..] == a[1..] + b;
      CensusAppend(a[1..], b);
    }
  }

  /** The `FILE :` lines of a reply. */
  function FileLines(lines: seq<string>): nat {
    if lines == [] then 0 else (if StartsWith(lines[0], "FILE :") then 1 else 0) + FileLines(lines[1..])
  }

  /** The nested traces of the `DIR :` lines of `lines`, in order, the
      first of them being the `k`-th of the reply. */
  function DirTraces(path: string, d: DeviceDir, lines: seq<string>, k: nat): seq<Cmd>
    decreases |lines|
  {
    if lines == [] then []
    else if StartsWith(lines[0], "DIR :") then
      LineTrace(path, d, lines[0], k) + DirTraces(path, d, lines[1..], k + 1)
    else DirTraces(path, d, lines[1..], k)
  }

  /** `delete_recursive(path)` sends one LIST and one REMOVE_DIR for `path`,
      one DELETE per `FILE :` line of its reply, and the commands of the
      nested calls for its `DIR :` lines; nothing else. */
  lemma DeleteCensus(path: string, d: DeviceDir)
    ensures var lines := Collect(d.reply);
      Census(DeleteTrace(path, d)) == Plus(Tally(1, FileLines(lines), 1), Census(DirTraces(path, d, lines, 0)))
  {
    var lines := Collect(d.reply);
    var e := EntriesTrace(path, d, lines, 0);
    var c := Census(DirTraces(path, d, lines, 0));
    EntriesCensus(path, d, lines, 0);
    BracketCensus(path, e);
    FolderFold(FileLines(lines), c);
    assert DeleteTrace(path, d) == [List(path)] + e + [RemoveDir(path)];
  }

  lemma BracketCensus(p: string, e: seq<Cmd>)
    ensures Census([List(p)] + e + [RemoveDir(p)]) == Plus(Tally(1, 0, 1), Census(e))
  {
    CensusAppend([List(p)] + e, [RemoveDir(p)]);
    CensusAppend([List(p)], e);
    CensusOne(List(p));
    CensusOne(RemoveDir(p));
  }

  lemma CensusOne(c: Cmd)
    ensures Census([c]) == match c
      case List(_) => Tally(1, 0, 0)
      case DeleteFile(_) => Tally(0, 1, 0)
      case RemoveDir(_) => Tally(0, 0, 1)
  {
    assert [c][0] == c && [c][1..] == [];
  }

  lemma FolderFold(n: nat, c: Tally)
    ensures Plus(Tally(1, 0, 1), Plus(Tally(0, n, 0), c)) == Plus(Tally(1, n, 1), c)
  {
  }

  lemma PlusSwap(a: Tally, b: Tally, c: Tally)
    ensures Plus(a, Plus(b, c)) == Plus(b, Plus(a, c))
  {
  }

  lemma DeleteFold(n: nat, c: Tally)
    ensures Plus(Tally(0, 1, 0), Plus(Tally(0, n, 0), c)) == Plus(Tally(0, 1 + n, 0), c)
  {
  }

  lemma PlusNone(c: Tally)
    ensures Plus(Tally(0, 0, 0), c) == c
  {
  }

  /** The reply lines of a folder cost one DELETE per `FILE :` line and the
      nested traces of their `DIR :` lines; any other line costs nothing. */
  lemma {:induction false} EntriesCensus(path: string, d: DeviceDir, lines: seq<string>, k: nat)
    ensures Census(EntriesTrace(path, d, lines, k)) == Plus(Tally(0, FileLines(lines), 0), Census(DirTraces(path, d, lines, k)))
    decreases |lines|
  {
    if lines == [] {
      assert Census([]) == Tally(0, 0, 0);
    } else {
      var line := lines[0];
      var dir := StartsWith(line, "DIR :");
      var k' := if dir then k + 1 else k;
      var here := LineTrace(path, d, line, k);
      var rest := EntriesTrace(path, d, lines[1..], k');
      var n := FileLines(lines[1..]);
      var c := Census(DirTraces(path, d, lines[1..], k'));
      assert EntriesTrace(path, d, lines, k) == here + rest;
      EntriesCensus(path, d, lines[1..], k');
      assert Census(rest) == Plus(Tally(0, n, 0), c);
      CensusAppend(here, rest);
      if dir {
        DirNotFile(line);
        assert FileLines(lines) == n;
        assert DirTraces(path, d, lines, k) == here + DirTraces(path, d, lines[1..], k');
        CensusAppend(here, DirTraces(path, d, lines[1..], k'));
        PlusSwap(Census(here), Tally(0, n, 0), c);
      } else if StartsWith(line, "FILE :") {
        assert here == [DeleteFile(FileTarget(path, FileName(line)))];
        CensusOne(DeleteFile(FileTarget(path, FileName(line))));
        assert FileLines(lines) == 1 + n;
        assert DirTraces(path, d, lines, k) == DirTraces(path, d, lines[1..], k');
        DeleteFold(n, c);
      } else {
        assert here == [];
        assert Census(here) == Tally(0, 0, 0);
        assert FileLines(lines) == n;
        assert DirTraces(path, d, lines, k) == DirTraces(path, d, lines[1..], k');
        PlusNone(Census(rest));
      }
    }
  }

  lemma DirNotFile(line: string)
    requires StartsWith(line, "DIR :")
    ensures !StartsWith(line, "FILE :")
  {
    assert line[0] == 'D';
  }

  /** Replaying a trace that does not fail changes the number of open
      folders by its LISTs minus its REMOVE_DIRs. */
  lemma {:induction false} ReplayCounts(open: seq<string>, t: seq<Cmd>)
    requires Replay(open, t).Some?
    ensures |Replay(open, t).value| == |open| + Census(t).lists - Census(t).removes
    decreases |t|
  {
    if t != [] {
      match t[0]
      case List(p) => ReplayCounts(open + [p], t[1..]);
      case DeleteFile(_) => ReplayCounts(open, t[1..]);
      case RemoveDir(p) => ReplayCounts(open[..|open| - 1], t[1..]);
    }
  }

  /** Every folder `delete_recursive` lists, it removes: as many REMOVE_DIRs
      as LISTs. */
  lemma DeleteListsMatchRemoves(path: string, d: DeviceDir)
    ensures Census(DeleteTrace(path, d)).lists == Census(DeleteTrace(path, d)).removes
  {
    DeleteTraceShape(path, d);
    ReplayCounts([], DeleteTrace(path, d));
  }

  /** A `DIR :` line costs the whole nested call for the sub-folder the
      model describes, or one LIST and one REMOVE_DIR when it describes
      none. */
  lemma SubfolderCensus(path: string, d: DeviceDir, line: string, k: nat)
    requires StartsWith(line, "DIR :")
    ensures var sub := SubdirPath(path, SubdirName(line));
      Census(LineTrace(path, d, line, k))
        == if k < |d.subdirs| then Census(DeleteTrace(sub, d.subdirs[k])) else Tally(1, 0, 1)
  {
    var sub := SubdirPath(path, SubdirName(line));
    if k >= |d.subdirs| {
      CensusAppend([List(sub)], [RemoveDir(sub)]);
      CensusOne(List(sub));
      CensusOne(RemoveDir(sub));
    }
  }

  /** The nested call keeps the quotes of an object path: below the quoted
      folder `"/a"` the sub-folder `b` is addressed as `"/a"/b`, and a file
      `f` inside `b` as `"/a"/b/f"`. */
  lemma NestedPathsKeepQuotes(a: string, b: string, f: string)
    ensures SubdirPath("\"" + a + "\"", b) == "\"" + a + "\"/" + b
    ensures b != [] && b[|b| - 1] != '/' && b[|b| - 1] != '"' ==>
      FileTarget(SubdirPath("\"" + a + "\"", b), f) == "\"" + a + "\"/" + b + "/" + f + "\""
  {
    assert TrimRight("\"" + a + "\"", '/') == "\"" + a + "\"";
    var s := "\"" + a + "\"/" + b;
    if b != [] && b[|b| - 1] != '/' && b[|b| - 1] != '"' {
      assert s[|s| - 1] == b[|b| - 1];
    }
  }
}
