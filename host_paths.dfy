/** How the host client moves through the card's directories and how it
    writes the paths and command lines it sends (src/ESPFileManager.py:
    `on_double_click`, `go_up`, and the path expressions of `new_folder`,
    `upload`, `download_selected`, `delete_selected`, `rename_selected`). */
module HostPaths {
  import opened Strings

  predicate IsSlash(c: char) {
    c == '/'
  }

  /** `s` holds no two consecutive slashes. */
  predicate NoDoubleSlash(s: string) {
    forall i :: 0 <= i < |s| - 1 ==> !(s[i] == '/' && s[i + 1] == '/')
  }

  /** `(cur.rstrip("/") + "/" + name + "/").replace("//", "/")`: the path of
      sub-folder `name` of `cur`. */
  function EnterPath(cur: string, name: string): string {
    ReplaceAll(TrimRight(cur, '/') + "/" + name + "/", "//", "/")
  }

  /** `os.path.dirname(p)`: the text up to and including the last slash,
      with its trailing slashes removed unless it is made only of slashes. */
  function Dirname(p: string): (r: string)
    ensures r <= p
    ensures r == [] <==> LastIndex(p, '/') == -1
    ensures r != [] && !AllSatisfy(r, IsSlash) ==> r[|r| - 1] != '/'
    ensures forall j :: |r| <= j <= LastIndex(p, '/') ==> p[j] == '/'
    ensures forall j :: LastIndex(p, '/') < j < |p| && 0 <= j ==> p[j] != '/'
  {
    var head := p[..LastIndex(p, '/') + 1];
    if head != [] && !AllSatisfy(head, IsSlash) then
      TrimRight(head, '/')
    else head
  }

  /** `go_up`: the parent of `cur`, with a slash appended; the root stays. */
  function UpPath(cur: string): string {
    if cur != "/" then Dirname(TrimRight(cur, '/')) + "/" else cur
  }

  /** `'"' + cur.rstrip("/") + "/" + name + '"'`: how a file or folder inside
      `cur` is named in PUTFILE, GETSIZE, GETDATA, DELETE and RENAME. */
  function ObjectPath(cur: string, name: string): (r: string)
    ensures |r| >= 2 && r[0] == '"' && r[|r| - 1] == '"'
  {
    "\"" + TrimRight(cur, '/') + "/" + name + "\""
  }

  /** `cur.rstrip("/") + "/" + name`: the unquoted path of `new_folder`. */
  function FolderPath(cur: string, name: string): string {
    TrimRight(cur, '/') + "/" + name
  }

  function ListCommand(path: string): string { "LIST " + path }
  function StorageCommand(): string { "STORAGE" }
  function CreateDirCommand(cur: string, name: string): string { "CREATE_DIR " + FolderPath(cur, name) }
  function PutFileCommand(cur: string, name: string, size: nat): string {
    "PUTFILE " + ObjectPath(cur, name) + " " + Decimal(size)
  }
  function GetSizeCommand(cur: string, name: string): string { "GETSIZE " + ObjectPath(cur, name) }
  function GetDataCommand(cur: string, name: string): string { "GETDATA " + ObjectPath(cur, name) }
  function DeleteCommand(cur: string, name: string): string { "DELETE " + ObjectPath(cur, name) }
  function RenameCommand(cur: string, from: string, to: string): string {
    "RENAME " + ObjectPath(cur, from) + " " + ObjectPath(cur, to)
  }

  /** Collapsing `//` keeps a final slash. */
  lemma {:induction false} CollapseKeepsFinalSlash(s: string)
    requires s != [] && s[|s| - 1] == '/'
    ensures var r := ReplaceAll(s, "//", "/"); r != [] && r[|r| - 1] == '/'
    decreases |s|
  {
    if StartsWith(s, "//") {
      if |s| > 2 {
        CollapseKeepsFinalSlash(s[2..]);
      }
    } else if |s| > 1 {
      CollapseKeepsFinalSlash(s[1..]);
    }
  }

  /** Collapsing `//` leaves a path without `//` as it is. */
  lemma {:induction false} CollapseIdentity(s: string)
    requires NoDoubleSlash(s)
    ensures ReplaceAll(s, "//", "/") == s
    decreases |s|
  {
    if s != [] {
      assert !StartsWith(s, "//") by {
        if |s| >= 2 { assert !(s[0] == '/' && s[1] == '/'); }
      }
      assert NoDoubleSlash(s[1..]) by {
        forall i | 0 <= i < |s[1..]| - 1 ensures !(s[1..][i] == '/' && s[1..][i + 1] == '/') {
          assert s[1..][i] == s[i + 1] && s[1..][i + 1] == s[i + 2];
        }
      }
      CollapseIdentity(s[1..]);
    }
  }

  /** Entering a folder always gives a path that ends with a slash. */
  lemma EnterEndsWithSlash(cur: string, name: string)
    ensures EndsWith(EnterPath(cur, name), "/")
  {
    var s := TrimRight(cur, '/') + "/" + name + "/";
    CollapseKeepsFinalSlash(s);
  }

  /** The last slash of `a + "/" + b` is the one after `a` when `b` has none. */
  lemma LastSlashAfter(a: string, b: string)
    requires forall i :: 0 <= i < |b| ==> b[i] != '/'
    ensures LastIndex(a + "/" + b, '/') == |a|
  {
    var s := a + "/" + b;
    assert s[|a|] == '/';
  }

  /** `go_up` at the root changes nothing, but from a top-level folder it
      gives `//`, not `/`. */
  lemma UpFromTopLevel(name: string)
    requires name != [] && forall i :: 0 <= i < |name| ==> name[i] != '/'
    ensures UpPath("/") == "/"
    ensures UpPath("/" + name + "/") == "//"
  {
    var p := "/" + name + "/";
    assert p[|p| - 1] == '/' && p[..|p| - 1] == "/" + name;
    assert TrimRight(p, '/') == "/" + name;
    assert "/" + name == [] + "/" + name;
    LastSlashAfter([], name);
    assert ("/" + name)[..1] == "/";
    assert AllSatisfy("/", IsSlash);
    assert Dirname("/" + name) == "/";
  }

  /** Appending a slash-free name and a slash to a path ending in one
      slash keeps it free of `//`. */
  lemma JoinNoDoubleSlash(c0: string, name: string)
    requires c0 != [] && c0[|c0| - 1] != '/' && NoDoubleSlash(c0 + "/")
    requires name != [] && forall i :: 0 <= i < |name| ==> name[i] != '/'
    ensures NoDoubleSlash(c0 + "/" + name + "/")
  {
    var cur := c0 + "/";
    var s := c0 + "/" + name + "/";
    forall i | 0 <= i < |s| - 1 ensures !(s[i] == '/' && s[i + 1] == '/') {
      if i < |c0| - 1 {
        assert s[i] == cur[i] && s[i + 1] == cur[i + 1];
      } else if i == |c0| - 1 {
        assert s[i] == c0[|c0| - 1];
      } else if i == |c0| {
        assert s[i + 1] == name[0];
      } else {
        assert s[i] == name[i - |c0| - 1];
      }
    }
  }

  /** Going up from sub-folder `name` of `c0 + "/"` gives `c0 + "/"`. */
  lemma UpFromChild(c0: string, name: string)
    requires c0 != [] && c0[|c0| - 1] != '/'
    requires name != [] && forall i :: 0 <= i < |name| ==> name[i] != '/'
    ensures UpPath(c0 + "/" + name + "/") == c0 + "/"
  {
    var s := c0 + "/" + name + "/";
    var t := c0 + "/" + name;
    assert s == t + "/";
    assert t[|t| - 1] == name[|name| - 1];
    assert TrimRight(s, '/') == t;
    LastSlashAfter(c0, name);
    assert t[..|c0| + 1] == c0 + "/";
    assert !AllSatisfy(c0 + "/", IsSlash) by {
      assert (c0 + "/")[|c0| - 1] == c0[|c0| - 1];
    }
    assert (c0 + "/")[..|c0|] == c0;
    assert TrimRight(c0 + "/", '/') == c0;
  }

  /** `go_up` undoes `on_double_click`: inside a folder other than the root
      whose path ends in one slash and holds no `//`, entering a sub-folder
      whose name is non-empty and has no slash and going up again returns to
      the same path. */
  lemma UpUndoesEnter(cur: string, name: string)
    requires cur != "/" && EndsWith(cur, "/") && NoDoubleSlash(cur)
    requires name != [] && forall i :: 0 <= i < |name| ==> name[i] != '/'
    ensures UpPath(EnterPath(cur, name)) == cur
  {
    var c0 := cur[..|cur| - 1];
    assert cur == c0 + "/";
    assert c0 != [];
    assert c0[|c0| - 1] != '/' by {
      assert cur[|cur| - 2] == c0[|c0| - 1] && cur[|cur| - 1] == '/';
    }
    assert TrimRight(cur, '/') == c0;
    JoinNoDoubleSlash(c0, name);
    CollapseIdentity(c0 + "/" + name + "/");
    UpFromChild(c0, name);
  }
}
