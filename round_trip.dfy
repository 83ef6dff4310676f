/** The host and the device together: what the device's dispatcher makes
    of each command line the host client writes, and what the host makes
    of the device's replies. */
module RoundTrip {
  import opened Strings
  import opened Python
  import Arduino
  import opened HostProtocol
  import opened HostPaths
  import HD = HostDelete
  import DC = DeviceCommands

  // ---------------------------------------------------------------- helpers

  /** A command line without surrounding white space survives `cmd.trim()`. */
  lemma ArrivesTrimmed(cmd: string)
    requires cmd != [] && !Arduino.IsSpace(cmd[0]) && !Arduino.IsSpace(cmd[|cmd| - 1])
    ensures Arduino.TrimString(cmd) == cmd
  {
    TrimPadded([], cmd, [], Arduino.IsSpace);
    assert [] + cmd + [] == cmd;
  }

  /** A position found in `y`, seen from the start of `x + y`. */
  function After(n: nat, r: int): int {
    if r < 0 then -1 else n + r
  }

  /** Searching `x + y` past `x` is searching `y`. */
  lemma {:induction false} IndexOfShift(x: string, y: string, k: nat)
    ensures Arduino.IndexOf(x + y, '"', |x| + k) == After(|x|, Arduino.IndexOf(y, '"', k))
    decreases |y| - k
  {
    if k < |y| {
      assert (x + y)[|x| + k] == y[k];
      if y[k] != '"' {
        IndexOfShift(x, y, k + 1);
      }
    }
  }

  lemma {:induction false} IndexOfSkipFrom(x: string, y: string, j: nat)
    requires j <= |x| && DC.NoQuote(x)
    ensures Arduino.IndexOf(x + y, '"', j) == After(|x|, Arduino.IndexOf(y, '"', 0))
    decreases |x| - j
  {
    if j < |x| {
      assert (x + y)[j] == x[j];
      IndexOfSkipFrom(x, y, j + 1);
    } else {
      IndexOfShift(x, y, 0);
    }
  }

  /** Searching a quote-free `x` followed by `y` for a quote is searching `y`. */
  lemma IndexOfSkip(x: string, y: string)
    requires DC.NoQuote(x)
    ensures Arduino.IndexOf(x + y, '"', 0) == After(|x|, Arduino.IndexOf(y, '"', 0))
  {
    IndexOfSkipFrom(x, y, 0);
  }

  /** `p` between quotes, followed by `rest`. */
  function Quoted(p: string, rest: string): string {
    "\"" + (p + ("\"" + rest))
  }

  /** The two quotes around a quote-free `p`. */
  lemma QuotedField(p: string, rest: string)
    requires DC.NoQuote(p)
    ensures Arduino.IndexOf(Quoted(p, rest), '"', 0) == 0
    ensures Arduino.IndexOf(Quoted(p, rest), '"', 1) == 1 + |p|
  {
    IndexOfShift("\"", p + ("\"" + rest), 0);
    IndexOfSkip(p, "\"" + rest);
  }

  /** Past the closing quote, the search goes on in `rest`. */
  lemma QuotedFieldPast(p: string, rest: string, k: nat)
    ensures Arduino.IndexOf(Quoted(p, rest), '"', 2 + |p| + k) == After(2 + |p|, Arduino.IndexOf(rest, '"', k))
  {
    IndexOfShift("\"", p + ("\"" + rest), 1 + |p| + k);
    IndexOfShift(p, "\"" + rest, 1 + k);
    IndexOfShift("\"", rest, k);
  }

  /** `RENAME "p" "q"`. */
  function RenameLine(p: string, q: string): string {
    "RENAME " + Quoted(p, " " + Quoted(q, []))
  }

  lemma Unquoted()
    ensures DC.NoQuote("RENAME ") && DC.NoQuote(" ")
  {
  }

  lemma RenameQuote1(p: string, q: string)
    requires DC.NoQuote(p)
    ensures Arduino.IndexOf(RenameLine(p, q), '"', 0) == 7
  {
    Unquoted();
    IndexOfSkip("RENAME ", Quoted(p, " " + Quoted(q, [])));
    QuotedField(p, " " + Quoted(q, []));
  }

  lemma RenameQuote2(p: string, q: string)
    requires DC.NoQuote(p)
    ensures Arduino.IndexOf(RenameLine(p, q), '"', 8) == 8 + |p|
  {
    IndexOfShift("RENAME ", Quoted(p, " " + Quoted(q, [])), 1);
    QuotedField(p, " " + Quoted(q, []));
  }

  lemma RenameQuote3(p: string, q: string)
    requires DC.NoQuote(q)
    ensures Arduino.IndexOf(RenameLine(p, q), '"', 9 + |p|) == 10 + |p|
  {
    var rest := " " + Quoted(q, []);
    IndexOfShift("RENAME ", Quoted(p, rest), 2 + |p|);
    QuotedFieldPast(p, rest, 0);
    Unquoted();
    IndexOfSkip(" ", Quoted(q, []));
    QuotedField(q, []);
  }

  lemma RenameQuote4(p: string, q: string)
    requires DC.NoQuote(q)
    ensures Arduino.IndexOf(RenameLine(p, q), '"', 11 + |p|) == 11 + |p| + |q|
  {
    var rest := " " + Quoted(q, []);
    IndexOfShift("RENAME ", Quoted(p, rest), 4 + |p|);
    QuotedFieldPast(p, rest, 2);
    IndexOfShift(" ", Quoted(q, []), 1);
    QuotedField(q, []);
  }

  /** The paths between the quotes of a RENAME line. */
  lemma RenameFields(p: string, q: string)
    ensures var cmd := RenameLine(p, q);
      Arduino.Substring(cmd, 8, 8 + |p|) == p && Arduino.Substring(cmd, 11 + |p|, 11 + |p| + |q|) == q
  {
    var cmd := RenameLine(p, q);
    assert cmd[8..8 + |p|] == p;
    assert cmd[11 + |p|..11 + |p| + |q|] == q;
  }

  /** An object path followed by more text is a quoted folder path. */
  lemma ObjectPathQuoted(cur: string, name: string, rest: string)
    ensures ObjectPath(cur, name) + rest == Quoted(FolderPath(cur, name), rest)
  {
  }

  lemma QuotedAppend(p: string, tail: string)
    ensures Quoted(p, []) + tail == Quoted(p, tail)
  {
    assert "\"" + [] == "\"";
    Regroup(p, "\"", tail);
    Regroup("\"", p + "\"", tail);
  }

  /** `getPath` at `|verb|` returns the quoted argument found there. */
  lemma QuotedPath(verb: string, p: string, tail: string)
    requires DC.NoQuote(p)
    ensures DC.GetPath(verb + Quoted(p, []) + tail, |verb|) == p
  {
    var c := verb + Quoted(p, []) + tail;
    QuotedAppend(p, tail);
    Regroup(verb, Quoted(p, []), tail);
    assert c == verb + Quoted(p, tail);
    IndexOfShift(verb, Quoted(p, tail), 0);
    IndexOfShift(verb, Quoted(p, tail), 1);
    QuotedField(p, tail);
    assert c[|verb| + 1..|verb| + 1 + |p|] == p;
  }

  /** The last `c` of `a + [c] + b` is the one after `a` when `b` has none. */
  lemma {:induction false} LastIndexAfter(a: string, c: char, b: string)
    requires forall i :: 0 <= i < |b| ==> b[i] != c
    ensures LastIndex(a + [c] + b, c) == |a|
    decreases |b|
  {
    var s := a + [c] + b;
    if b == [] {
      assert s[|s| - 1] == c;
    } else {
      var b' := b[..|b| - 1];
      assert s[|s| - 1] == b[|b| - 1];
      assert s[..|s| - 1] == a + [c] + b';
      LastIndexAfter(a, c, b');
    }
  }

  // The dispatcher's branches, one verb at a time: a trimmed line that
  // starts with a verb reaches that verb's branch, since no earlier verb
  // is a prefix of it.

  lemma ParseList(cmd: string)
    requires Arduino.TrimString(cmd) == cmd && StartsWith(cmd, "LIST ")
    ensures DC.Parse(cmd) == DC.ListDir(DC.GetPath(cmd, 5))
  {
    NotPrefix(cmd, "STORAGE", 0);
  }

  lemma ParseCreateDir(cmd: string)
    requires Arduino.TrimString(cmd) == cmd && StartsWith(cmd, "CREATE_DIR ")
    ensures DC.Parse(cmd) == DC.CreateDir(DC.GetPath(cmd, 11))
  {
    NotPrefix(cmd, "STORAGE", 0);
    NotPrefix(cmd, "LIST ", 0);
  }

  lemma ParsePutFile(cmd: string)
    requires Arduino.TrimString(cmd) == cmd && StartsWith(cmd, "PUTFILE ")
    ensures DC.Parse(cmd) == DC.ParsePut(cmd)
  {
    NotPrefix(cmd, "STORAGE", 0);
    NotPrefix(cmd, "LIST ", 0);
    NotPrefix(cmd, "CREATE_DIR ", 0);
  }

  lemma ParseGetSize(cmd: string)
    requires Arduino.TrimString(cmd) == cmd && StartsWith(cmd, "GETSIZE ")
    ensures DC.Parse(cmd) == DC.GetSize(DC.GetPath(cmd, 8))
  {
    NotPrefix(cmd, "STORAGE", 0);
    NotPrefix(cmd, "LIST ", 0);
    NotPrefix(cmd, "CREATE_DIR ", 0);
    NotPrefix(cmd, "PUTFILE ", 0);
  }

  lemma ParseGetData(cmd: string)
    requires Arduino.TrimString(cmd) == cmd && StartsWith(cmd, "GETDATA ")
    ensures DC.Parse(cmd) == DC.GetData(DC.GetPath(cmd, 8))
  {
    NotPrefix(cmd, "STORAGE", 0);
    NotPrefix(cmd, "LIST ", 0);
    NotPrefix(cmd, "CREATE_DIR ", 0);
    NotPrefix(cmd, "PUTFILE ", 0);
    NotPrefix(cmd, "GETSIZE ", 3);
  }

  lemma ParseDelete(cmd: string)
    requires Arduino.TrimString(cmd) == cmd && StartsWith(cmd, "DELETE ")
    ensures DC.Parse(cmd) == DC.Delete(DC.GetPath(cmd, 7))
  {
    NotPrefix(cmd, "STORAGE", 0);
    NotPrefix(cmd, "LIST ", 0);
    NotPrefix(cmd, "CREATE_DIR ", 0);
    NotPrefix(cmd, "PUTFILE ", 0);
    NotPrefix(cmd, "GETSIZE ", 0);
    NotPrefix(cmd, "GETDATA ", 0);
  }

  lemma ParseRemoveDir(cmd: string)
    requires Arduino.TrimString(cmd) == cmd && StartsWith(cmd, "REMOVE_DIR ")
    ensures DC.Parse(cmd) == DC.RemoveDir(DC.GetPath(cmd, 11))
  {
    NotPrefix(cmd, "STORAGE", 0);
    NotPrefix(cmd, "LIST ", 0);
    NotPrefix(cmd, "CREATE_DIR ", 0);
    NotPrefix(cmd, "PUTFILE ", 0);
    NotPrefix(cmd, "GETSIZE ", 0);
    NotPrefix(cmd, "GETDATA ", 0);
    NotPrefix(cmd, "DELETE ", 0);
  }

  lemma ParseRenameLine(cmd: string)
    requires Arduino.TrimString(cmd) == cmd && StartsWith(cmd, "RENAME ")
    ensures DC.Parse(cmd) == DC.ParseRename(cmd)
  {
    NotPrefix(cmd, "STORAGE", 0);
    NotPrefix(cmd, "LIST ", 0);
    NotPrefix(cmd, "CREATE_DIR ", 0);
    NotPrefix(cmd, "PUTFILE ", 0);
    NotPrefix(cmd, "GETSIZE ", 0);
    NotPrefix(cmd, "GETDATA ", 0);
    NotPrefix(cmd, "DELETE ", 0);
    NotPrefix(cmd, "REMOVE_DIR ", 2);
  }

  /** A text does not start with a word it differs from at position `k`. */
  lemma NotPrefix(s: string, w: string, k: nat)
    requires k < |w| && (k < |s| ==> s[k] != w[k])
    ensures !StartsWith(s, w) && s != w
  {
  }

  lemma FolderPathNoQuote(cur: string, name: string)
    requires DC.NoQuote(cur) && DC.NoQuote(name)
    ensures DC.NoQuote(FolderPath(cur, name))
  {
    var t := TrimRight(cur, '/');
    assert forall i :: 0 <= i < |t| ==> t[i] == cur[i];
  }

  lemma FolderPathAbsolute(cur: string, name: string)
    requires StartsWith(cur, "/")
    ensures StartsWith(FolderPath(cur, name), "/")
  {
    var t := TrimRight(cur, '/');
    if t != [] {
      assert t[0] == cur[0];
    }
  }

  /** An object path names `FolderPath` between quotes. */
  lemma ObjectPathQuotes(cur: string, name: string)
    ensures ObjectPath(cur, name) == "\"" + FolderPath(cur, name) + "\""
  {
  }

  // ---------------------------------------------------------------- commands

  /** The upload command reaches the device as a PUTFILE of the file inside
      the current folder with the announced size, whatever the size. */
  lemma PutFileArrives(cur: string, name: string, size: nat)
    requires DC.NoQuote(cur) && DC.NoQuote(name)
    ensures DC.Parse(PutFileCommand(cur, name, size)) == DC.PutFile(FolderPath(cur, name), size)
  {
    FolderPathNoQuote(cur, name);
    ObjectPathQuoted(cur, name, []);
    assert ObjectPath(cur, name) + [] == ObjectPath(cur, name);
    PutLineArrives(FolderPath(cur, name), size);
  }

  /** `PUTFILE "p" n`. */
  lemma PutLineArrives(p: string, size: nat)
    requires DC.NoQuote(p)
    ensures DC.Parse("PUTFILE " + Quoted(p, []) + " " + Decimal(size)) == DC.PutFile(p, size)
  {
    PutLineDispatched(p, size);
    PutLineFields(p, size);
  }

  lemma PutLineDispatched(p: string, size: nat)
    ensures var cmd := "PUTFILE " + Quoted(p, []) + " " + Decimal(size);
      DC.Parse(cmd) == DC.ParsePut(cmd)
  {
    var d := Decimal(size);
    var cmd := "PUTFILE " + Quoted(p, []) + " " + d;
    assert cmd[0] == 'P';
    assert cmd[|cmd| - 1] == d[|d| - 1] && IsDigit(d[|d| - 1]);
    ArrivesTrimmed(cmd);
    assert cmd[..8] == "PUTFILE ";
    ParsePutFile(cmd);
  }

  lemma PutLineFields(p: string, size: nat)
    requires DC.NoQuote(p)
    ensures DC.ParsePut("PUTFILE " + Quoted(p, []) + " " + Decimal(size)) == DC.PutFile(p, size)
  {
    var d := Decimal(size);
    var head := "PUTFILE " + Quoted(p, []);
    var cmd := head + " " + d;
    PutLineSize(head, size);
    Regroup(head, " ", d);
    QuotedPath("PUTFILE ", p, " " + d);
    assert |head| > 8;
  }

  /** The size argument is the text after the last space. */
  lemma PutLineSize(head: string, size: nat)
    ensures var cmd := head + " " + Decimal(size);
      LastIndex(cmd, ' ') == |head| && Arduino.ToInt(Arduino.SubstringFrom(cmd, |head| + 1)) == size
  {
    var d := Decimal(size);
    var cmd := head + " " + d;
    assert forall i :: 0 <= i < |d| ==> d[i] != ' ' by {
      assert forall i :: 0 <= i < |d| ==> IsDigit(d[i]);
    }
    LastIndexAfter(head, ' ', d);
    assert Arduino.SubstringFrom(cmd, |head| + 1) == d;
    Arduino.ToIntOfDecimal(size, []);
    assert d + [] == d;
  }

  /** A command that quotes the folder path of `name` inside `cur`. */
  lemma QuotedArrives(verb: string, cur: string, name: string)
    requires verb != [] && !Arduino.IsSpace(verb[0])
    requires DC.NoQuote(cur) && DC.NoQuote(name)
    ensures var cmd := verb + ObjectPath(cur, name);
      Arduino.TrimString(cmd) == cmd && DC.GetPath(cmd, |verb|) == FolderPath(cur, name)
  {
    FolderPathNoQuote(cur, name);
    var cmd := verb + ObjectPath(cur, name);
    assert cmd[0] == verb[0] && cmd[|cmd| - 1] == '"';
    ArrivesTrimmed(cmd);
    ObjectPathQuoted(cur, name, []);
    assert ObjectPath(cur, name) + [] == ObjectPath(cur, name);
    QuotedPath(verb, FolderPath(cur, name), []);
    assert cmd + [] == cmd;
  }

  /** GETSIZE asks for the size of the file inside the current folder. */
  lemma GetSizeArrives(cur: string, name: string)
    requires DC.NoQuote(cur) && DC.NoQuote(name)
    ensures DC.Parse(GetSizeCommand(cur, name)) == DC.GetSize(FolderPath(cur, name))
  {
    QuotedArrives("GETSIZE ", cur, name);
    var cmd := GetSizeCommand(cur, name);
    assert cmd[..8] == "GETSIZE ";
    ParseGetSize(cmd);
  }

  /** GETDATA asks for the bytes of the file inside the current folder. */
  lemma GetDataArrives(cur: string, name: string)
    requires DC.NoQuote(cur) && DC.NoQuote(name)
    ensures DC.Parse(GetDataCommand(cur, name)) == DC.GetData(FolderPath(cur, name))
  {
    QuotedArrives("GETDATA ", cur, name);
    var cmd := GetDataCommand(cur, name);
    assert cmd[..8] == "GETDATA ";
    ParseGetData(cmd);
  }

  /** DELETE removes the file inside the current folder. */
  lemma DeleteArrives(cur: string, name: string)
    requires DC.NoQuote(cur) && DC.NoQuote(name)
    ensures DC.Parse(DeleteCommand(cur, name)) == DC.Delete(FolderPath(cur, name))
  {
    QuotedArrives("DELETE ", cur, name);
    var cmd := DeleteCommand(cur, name);
    assert cmd[..7] == "DELETE ";
    ParseDelete(cmd);
  }

  /** LIST of a folder path without quotes lists that folder. */
  lemma ListArrives(path: string)
    requires DC.NoQuote(path) && path != [] && !Arduino.IsSpace(path[|path| - 1])
    ensures DC.Parse(ListCommand(path)) == DC.ListDir(path)
  {
    var cmd := ListCommand(path);
    assert cmd[|cmd| - 1] == path[|path| - 1];
    ArrivesTrimmed(cmd);
    assert forall j :: 5 <= j < |cmd| ==> cmd[j] == path[j - 5];
    DC.GetPathUnquoted(cmd, 5);
    assert cmd[5..] == path;
    assert cmd[..5] == "LIST ";
    ParseList(cmd);
  }

  /** `new_folder` creates the folder inside the current one. */
  lemma CreateDirArrives(cur: string, name: string)
    requires DC.NoQuote(cur) && DC.NoQuote(name) && name != [] && !Arduino.IsSpace(name[|name| - 1])
    ensures DC.Parse(CreateDirCommand(cur, name)) == DC.CreateDir(FolderPath(cur, name))
  {
    var p := FolderPath(cur, name);
    FolderPathNoQuote(cur, name);
    var cmd := CreateDirCommand(cur, name);
    assert cmd[|cmd| - 1] == name[|name| - 1];
    ArrivesTrimmed(cmd);
    assert forall j :: 11 <= j < |cmd| ==> cmd[j] == p[j - 11];
    DC.GetPathUnquoted(cmd, 11);
    assert cmd[11..] == p;
    assert cmd[..11] == "CREATE_DIR ";
    ParseCreateDir(cmd);
  }

  /** RENAME moves the entry inside the current folder to its new name
      there; both paths are already absolute, so the device adds no slash. */
  lemma RenameArrives(cur: string, from: string, to: string)
    requires StartsWith(cur, "/") && DC.NoQuote(cur) && DC.NoQuote(from) && DC.NoQuote(to)
    ensures DC.Parse(RenameCommand(cur, from, to)) == DC.Rename(FolderPath(cur, from), FolderPath(cur, to))
  {
    FolderPathNoQuote(cur, from);
    FolderPathNoQuote(cur, to);
    FolderPathAbsolute(cur, from);
    FolderPathAbsolute(cur, to);
    RenameIsLine(cur, from, to);
    RenameLineArrives(FolderPath(cur, from), FolderPath(cur, to));
  }

  lemma RenameLineArrives(p: string, q: string)
    requires DC.NoQuote(p) && DC.NoQuote(q) && StartsWith(p, "/") && StartsWith(q, "/")
    ensures DC.Parse(RenameLine(p, q)) == DC.Rename(p, q)
  {
    var cmd := RenameLine(p, q);
    assert cmd[0] == 'R' && cmd[|cmd| - 1] == '"';
    ArrivesTrimmed(cmd);
    assert cmd[..7] == "RENAME ";
    ParseRenameLine(cmd);
    RenameLineFields(p, q);
  }

  lemma RenameLineFields(p: string, q: string)
    requires DC.NoQuote(p) && DC.NoQuote(q) && StartsWith(p, "/") && StartsWith(q, "/")
    ensures DC.ParseRename(RenameLine(p, q)) == DC.Rename(p, q)
  {
    RenameQuote1(p, q);
    RenameQuote2(p, q);
    RenameQuote3(p, q);
    RenameQuote4(p, q);
    RenameFields(p, q);
  }

  lemma RenameIsLine(cur: string, from: string, to: string)
    ensures RenameCommand(cur, from, to) == RenameLine(FolderPath(cur, from), FolderPath(cur, to))
  {
    ObjectPathQuoted(cur, to, []);
    assert ObjectPath(cur, to) + [] == ObjectPath(cur, to);
    ObjectPathQuoted(cur, from, " " + ObjectPath(cur, to));
    Regroup("RENAME " + ObjectPath(cur, from), " ", ObjectPath(cur, to));
    Regroup("RENAME ", ObjectPath(cur, from), " " + ObjectPath(cur, to));
  }

  /** Inside a folder sent in quotes, the nested `delete_recursive` call
      names sub-folder `b` as `"/a"/b`, and the device reads every command
      of that call as one about `/a` itself: the nested LIST, DELETE and
      REMOVE_DIR are read as LIST, DELETE and REMOVE_DIR of `/a`. */
  lemma NestedDeleteHitsParent(a: string, b: string, f: string)
    requires DC.NoQuote(a) && b != [] && !Arduino.IsSpace(b[|b| - 1])
    ensures var sub := HD.SubdirPath("\"" + a + "\"", b);
      DC.Parse(HD.Render(HD.List(sub))) == DC.ListDir(a)
      && DC.Parse(HD.Render(HD.RemoveDir(sub))) == DC.RemoveDir(a)
      && DC.Parse(HD.Render(HD.DeleteFile(HD.FileTarget(sub, f)))) == DC.Delete(a)
  {
    var qa := "\"" + a + "\"";
    var sub := HD.SubdirPath(qa, b);
    assert TrimRight(qa, '/') == qa;
    assert sub == qa + "/" + b;
    NestedListHitsParent(a, b, sub);
    NestedRemoveHitsParent(a, b, sub);
    NestedFileHitsParent(a, b, sub, f);
  }

  lemma NestedListHitsParent(a: string, b: string, sub: string)
    requires DC.NoQuote(a) && b != [] && !Arduino.IsSpace(b[|b| - 1]) && sub == "\"" + a + "\"" + "/" + b
    ensures DC.Parse(HD.Render(HD.List(sub))) == DC.ListDir(a)
  {
    var cmd := "LIST " + sub;
    assert cmd[|cmd| - 1] == b[|b| - 1];
    ArrivesTrimmed(cmd);
    DC.GetPathOfQuoted("LIST ", a, "/" + b);
    assert cmd == "LIST " + "\"" + a + "\"" + ("/" + b);
    assert cmd[..5] == "LIST ";
    ParseList(cmd);
  }

  lemma NestedRemoveHitsParent(a: string, b: string, sub: string)
    requires DC.NoQuote(a) && b != [] && !Arduino.IsSpace(b[|b| - 1]) && sub == "\"" + a + "\"" + "/" + b
    ensures DC.Parse(HD.Render(HD.RemoveDir(sub))) == DC.RemoveDir(a)
  {
    var cmd := "REMOVE_DIR " + sub;
    assert cmd[|cmd| - 1] == b[|b| - 1];
    ArrivesTrimmed(cmd);
    DC.GetPathOfQuoted("REMOVE_DIR ", a, "/" + b);
    assert cmd == "REMOVE_DIR " + "\"" + a + "\"" + ("/" + b);
    assert cmd[..11] == "REMOVE_DIR ";
    ParseRemoveDir(cmd);
  }

  /** `rstrip(c)` stops at the last character other than `c`. */
  lemma TrimRightKeeps(s: string, c: char, k: nat)
    requires k < |s| && s[k] != c
    ensures |TrimRight(s, c)| > k
  {
  }

  lemma NestedFileHitsParent(a: string, b: string, sub: string, f: string)
    requires DC.NoQuote(a) && sub == "\"" + a + "\"" + "/" + b
    ensures DC.Parse(HD.Render(HD.DeleteFile(HD.FileTarget(sub, f)))) == DC.Delete(a)
  {
    var tail := FileTargetBelow(a, b, f);
    var target := HD.FileTarget(sub, f);
    var cmd := "DELETE " + target;
    Regroup("DELETE ", Quoted(a, []), tail);
    QuotedPath("DELETE ", a, tail);
    assert cmd[0] == 'D' && cmd[|cmd| - 1] == tail[|tail| - 1];
    ArrivesTrimmed(cmd);
    assert cmd[..7] == "DELETE ";
    ParseDelete(cmd);
  }

  /** The file target below `"a"/b` is `"a"` followed by more text that ends
      with a quote. */
  lemma FileTargetBelow(a: string, b: string, f: string) returns (tail: string)
    ensures HD.FileTarget("\"" + a + "\"" + "/" + b, f) == Quoted(a, []) + tail
    ensures tail != [] && tail[|tail| - 1] == '"'
  {
    var sub := "\"" + a + "\"" + "/" + b;
    var qa := "\"" + a + "\"";
    var r1 := TrimRight(sub, '"');
    TrimRightKeeps(sub, '"', |qa|);
    var r2 := TrimRight(r1, '/');
    assert r1[|qa| - 1] == '"';
    TrimRightKeeps(r1, '/', |qa| - 1);
    assert r2 <= r1 <= sub;
    var m := r2[|qa|..];
    assert r2 == qa + m;
    assert qa == Quoted(a, []);
    tail := m + "/" + f + "\"";
    Regroup(qa, m, "/");
    Regroup(qa, m + "/", f);
    Regroup(qa, m + "/" + f, "\"");
  }
}
