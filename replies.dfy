/** The device's replies as the host reads them: what `read_response`
    collects from the lines the firmware prints for STORAGE, GETSIZE and
    LIST, and what `refresh` and `download_selected` decode from them. */
module Replies {
  import opened Strings
  import opened Python
  import opened HostProtocol
  import DC = DeviceCommands

  // ---------------------------------------------------------------- helpers

  /** A line the firmware prints with `println` reaches the host as itself. */
  lemma StripPrintln(s: string)
    requires Stripped(s)
    ensures Strip(DC.Println(s)) == s
  {
    TrimPadded([], s, "\r\n", IsSpace);
    assert [] + s + "\r\n" == DC.Println(s);
  }

  /** Text that begins and ends with a character other than white space. */
  lemma StrippedEnds(s: string)
    requires s != [] && !IsSpace(s[0]) && !IsSpace(s[|s| - 1])
    ensures Stripped(s)
  {
  }

  lemma DoneCollected()
    ensures Collect([DC.Done]) == [Sentinel]
  {
    StripPrintln(Sentinel);
  }

  /** The first occurrence, stated by its position. */
  lemma FindFirst(s: string, sub: string, k: nat)
    requires OccursAt(s, sub, k)
    requires forall j :: 0 <= j < k ==> !OccursAt(s, sub, j)
    ensures Find(s, sub) == k
  {
  }

  /** The collected reply of two printed lines, the second one DONE. */
  lemma CollectTwo(s: string)
    requires s != [] && Stripped(s) && s != Sentinel
    ensures Collect([DC.Println(s), DC.Done]) == [s, Sentinel]
  {
    StripPrintln(s);
    StripPrintln(Sentinel);
    var raw := [DC.Println(s), DC.Done];
    assert raw[1..] == [DC.Done];
  }

  // ---------------------------------------------------------------- STORAGE

  /** `line.split(" FREE:")` of the STORAGE line. */
  lemma SplitAtFree(head: string, df: string)
    requires forall i :: 0 <= i < |head| ==> head[i] != ' '
    requires forall i :: 0 <= i < |df| ==> df[i] != ' '
    ensures Split(head + " FREE:" + df, " FREE:") == [head, df]
  {
    var line := head + " FREE:" + df;
    FindAfterPrefix(head, " FREE:", df);
    assert line[..|head|] == head;
    assert line[|head| + 6..] == df;
    FindAbsent(df, " FREE:");
  }

  /** `parts[0].split(":")` of the STORAGE line. */
  lemma SplitAtColon(dt: string)
    requires AllDigits(dt)
    ensures Split("TOTAL:" + dt, ":") == ["TOTAL", dt]
  {
    var head := "TOTAL:" + dt;
    assert "TOTAL" + ":" + dt == head;
    FindAfterPrefix("TOTAL", ":", dt);
    assert head[..5] == "TOTAL" && head[6..] == dt;
    FindAbsent(dt, ":");
  }

  /** The STORAGE line decodes to the two numbers it was printed from. */
  lemma StorageLineDecodes(total: nat, free: nat)
    ensures var line := "TOTAL:" + Decimal(total) + " FREE:" + Decimal(free);
      IsStorageLine(line) && DecodeStorageLine(line) == Ok(Stats(total, free))
  {
    var dt := Decimal(total);
    var df := Decimal(free);
    var head := "TOTAL:" + dt;
    var line := head + " FREE:" + df;
    assert line[..6] == "TOTAL:";
    assert OccursAt(line, "TOTAL:", 0);
    forall i | 0 <= i < |head| ensures head[i] != ' ' {
      if i >= 6 {
        assert head[i] == dt[i - 6];
      }
    }
    SplitAtFree(head, df);
    SplitAtColon(dt);
    IntOfDecimal(total);
    IntOfDecimal(free);
  }

  /** The STORAGE reply as `read_response` collects it. */
  lemma StorageCollected(card: DC.Card)
    ensures Collect(DC.Respond(DC.Storage, card))
        == ["TOTAL:" + Decimal(card.total) + " FREE:" + Decimal(DC.Free(card)), Sentinel]
  {
    var core := "TOTAL:" + Decimal(card.total) + " FREE:" + Decimal(DC.Free(card));
    var raw := DC.Respond(DC.Storage, card);
    assert core[|core| - 1] == Decimal(DC.Free(card))[|Decimal(DC.Free(card))| - 1];
    StrippedEnds(core);
    TrimPadded([], core, "\n", IsSpace);
    assert [] + core + "\n" == raw[0];
    DoneCollected();
    assert raw[1..] == [DC.Done];
  }

  /** A storage line that decodes, followed by DONE. */
  lemma StorageDecodedPair(core: string, st: Stats, shown: Option<Stats>)
    requires IsStorageLine(core) && DecodeStorageLine(core) == Ok(st)
    ensures StorageFrom([core, Sentinel], shown) == Decoded(Some(st), None)
  {
    assert !IsStorageLine(Sentinel);
    assert [Sentinel][1..] == [];
    assert StorageFrom([Sentinel], Some(st)) == StorageFrom([], Some(st));
    assert [core, Sentinel][1..] == [Sentinel];
  }

  /** After a STORAGE reply the storage label shows the card's total and the
      free figure the firmware computed, and nothing raises. */
  lemma StorageRoundTrip(card: DC.Card, shown: Option<Stats>)
    ensures StorageFrom(Collect(DC.Respond(DC.Storage, card)), shown)
        == Decoded(Some(Stats(card.total, DC.Free(card))), None)
  {
    StorageCollected(card);
    StorageLineDecodes(card.total, DC.Free(card));
    StorageDecodedPair("TOTAL:" + Decimal(card.total) + " FREE:" + Decimal(DC.Free(card)),
                       Stats(card.total, DC.Free(card)), shown);
  }

  // ---------------------------------------------------------------- GETSIZE

  /** The SIZE line the firmware prints decodes to the number printed. */
  lemma SizeLineRead(n: nat)
    ensures DecodeSize(["SIZE:" + Decimal(n), Sentinel]) == Size(n)
  {
    var line := "SIZE:" + Decimal(n);
    assert line[..5] == "SIZE:" && line[5..] == Decimal(n);
    DecodeSizeFirstLine([line, Sentinel], 0);
    IntOfDecimal(n);
  }

  /** The reply for a file, as collected and decoded. */
  lemma SizeOfFile(n: nat)
    ensures DecodeSize(Collect([DC.Println("SIZE:" + Decimal(n)), DC.Done])) == Size(n)
  {
    var line := "SIZE:" + Decimal(n);
    assert line[|line| - 1] == Decimal(n)[|Decimal(n)| - 1];
    StrippedEnds(line);
    CollectTwo(line);
    SizeLineRead(n);
  }

  /** The reply for a missing path or a folder, as collected and decoded. */
  lemma SizeOfMissing()
    ensures DecodeSize(Collect([DC.ErrorLine, DC.Done])) == NoSizeLine
  {
    StrippedEnds("ERROR");
    CollectTwo("ERROR");
    assert "ERROR"[..5] != "SIZE:";
    assert FirstSizeLine([Sentinel]) == None;
  }

  /** `download_selected` reads back the size the device reported for a
      file, and finds no size line when the path is missing or a folder. */
  lemma GetSizeRoundTrip(p: string, card: DC.Card)
    ensures DecodeSize(Collect(DC.Respond(DC.GetSize(p), card)))
        == if p in card.nodes && card.nodes[p].Regular? then Size(|card.nodes[p].data|) else NoSizeLine
  {
    var r := DC.Respond(DC.GetSize(p), card);
    if p in card.nodes && card.nodes[p].Regular? {
      var n := |card.nodes[p].data|;
      assert r == [DC.Println("SIZE:" + Decimal(n)), DC.Done];
      SizeOfFile(n);
    } else {
      assert r == [DC.ErrorLine, DC.Done];
      SizeOfMissing();
    }
  }

  // ---------------------------------------------------------------- LIST

  /** A name the listing carries through unchanged: not empty, without
      surrounding white space, and without a colon (which names on a FAT
      card cannot hold). */
  predicate Listable(b: string) {
    b != [] && Stripped(b) && forall i :: 0 <= i < |b| ==> b[i] != ':'
  }

  /** The row the host should show for a child of `dirname`. */
  function EntryOf(dirname: string, c: DC.Child): Entry {
    var b := DC.BaseName(dirname, c.name);
    if c.isDir then Directory(b) else File(b, c.size)
  }

  function Entries(dirname: string, cs: seq<DC.Child>): seq<Entry> {
    seq(|cs|, i requires 0 <= i < |cs| => EntryOf(dirname, cs[i]))
  }

  /** The size separator of a FILE line is found right after the name. */
  lemma SeparatorAfterName(b: string, d: string)
    requires forall i :: 0 <= i < |b| ==> b[i] != ':'
    ensures Find("FILE : " + b + " SIZE : " + d, " SIZE : ") == 7 + |b|
  {
    var sep := " SIZE : ";
    var line := "FILE : " + b + sep + d;
    assert line[7 + |b|..15 + |b|] == sep;
    forall j | 0 <= j < 7 + |b| ensures !OccursAt(line, sep, j) {
      if j + 8 <= |line| {
        var w := line[j..j + 8];
        if j == 0 {
          assert w[0] == line[0] == 'F';
        } else {
          assert w[6] == line[j + 6];
          NoColonBeforeSize(b, d, j + 6);
        }
      }
    }
    FindFirst(line, sep, 7 + |b|);
  }

  lemma NoColonBeforeSize(b: string, d: string, i: nat)
    requires forall k :: 0 <= k < |b| ==> b[k] != ':'
    requires 7 <= i < 13 + |b|
    ensures ("FILE : " + b + " SIZE : " + d)[i] != ':'
  {
    var line := "FILE : " + b + " SIZE : " + d;
    if i < 7 + |b| {
      assert line[i] == b[i - 7];
    } else {
      assert line[i] == " SIZE : "[i - 7 - |b|];
    }
  }

  /** A FILE line decodes to the name and the size it was printed from. */
  lemma FileLineDecodes(b: string, n: nat)
    requires Listable(b)
    ensures var line := "FILE : " + b + " SIZE : " + Decimal(n);
      Stripped(line) && DecodeListLine(line) == Some(Ok(File(b, n)))
  {
    var d := Decimal(n);
    var sep := " SIZE : ";
    var head := "FILE : " + b;
    var line := head + sep + d;
    assert line[|line| - 1] == d[|d| - 1];
    StrippedEnds(line);
    assert line[..5] != "DIR :";
    assert line[..6] == "FILE :";
    SeparatorAfterName(b, d);
    assert line[..|head|] == head;
    assert line[|head| + |sep|..] == d;
    FindAbsent(d, sep);
    assert Split(line, sep) == [head, d];
    assert SliceFrom(head, 7) == b;
    StripTrimmed(b);
    IntOfDecimal(n);
  }

  /** A DIR line decodes to the name it was printed from. */
  lemma DirLineDecodes(b: string)
    requires Listable(b)
    ensures var line := "DIR : " + b;
      Stripped(line) && DecodeListLine(line) == Some(Ok(Directory(b)))
  {
    var line := "DIR : " + b;
    assert line[|line| - 1] == b[|b| - 1];
    StrippedEnds(line);
    assert line[..5] == "DIR :";
    assert SliceFrom(line, 6) == b;
    StripTrimmed(b);
  }

  /** The line `listDir` prints for one child reaches the host as a line
      that is not DONE and decodes to the child's row. */
  lemma ChildLineDecodes(dirname: string, c: DC.Child)
    requires Listable(DC.BaseName(dirname, c.name))
    ensures var line := Strip(DC.ChildLine(dirname, c));
      line != "" && line != Sentinel && DecodeListLine(line) == Some(Ok(EntryOf(dirname, c)))
  {
    var b := DC.BaseName(dirname, c.name);
    if c.isDir {
      DirLineDecodes(b);
      StripPrintln("DIR : " + b);
      assert ("DIR : " + b)[1] != Sentinel[1];
    } else {
      FileLineDecodes(b, c.size);
      StripPrintln("FILE : " + b + " SIZE : " + Decimal(c.size));
    }
  }

  lemma ChildLinesNotDone(dirname: string, cs: seq<DC.Child>)
    requires forall i :: 0 <= i < |cs| ==> Listable(DC.BaseName(dirname, cs[i].name))
    ensures forall i :: 0 <= i < |cs| ==> Strip(DC.ChildLines(dirname, cs)[i]) != Sentinel
  {
    forall i | 0 <= i < |cs| ensures Strip(DC.ChildLines(dirname, cs)[i]) != Sentinel {
      ChildLineDecodes(dirname, cs[i]);
    }
  }

  /** The listing lines decode to one row per child, in order. */
  lemma {:induction false} ChildLinesDecode(dirname: string, cs: seq<DC.Child>)
    requires forall i :: 0 <= i < |cs| ==> Listable(DC.BaseName(dirname, cs[i].name))
    ensures ListingFrom(NonEmptyLines(DC.ChildLines(dirname, cs))) == Decoded(Entries(dirname, cs), None)
  {
    var ls := DC.ChildLines(dirname, cs);
    if cs != [] {
      ChildLineDecodes(dirname, cs[0]);
      ChildLinesDecode(dirname, cs[1..]);
      assert ls[1..] == DC.ChildLines(dirname, cs[1..]);
      var rest := NonEmptyLines(ls[1..]);
      assert NonEmptyLines(ls) == [Strip(ls[0])] + rest;
      assert ([Strip(ls[0])] + rest)[1..] == rest;
      EntriesCons(dirname, cs);
    } else {
      assert Entries(dirname, cs) == [];
    }
  }

  lemma EntriesCons(dirname: string, cs: seq<DC.Child>)
    requires cs != []
    ensures Entries(dirname, cs) == [EntryOf(dirname, cs[0])] + Entries(dirname, cs[1..])
  {
    var r := [EntryOf(dirname, cs[0])] + Entries(dirname, cs[1..]);
    assert forall i :: 1 <= i < |cs| ==> r[i] == Entries(dirname, cs[1..])[i - 1];
  }

  /** The reply for a folder: its listing lines, then DONE. */
  lemma {:induction false} ListedFolder(p: string, cs: seq<DC.Child>)
    requires forall i :: 0 <= i < |cs| ==> Listable(DC.BaseName(p, cs[i].name))
    ensures ListingFrom(Collect(DC.ChildLines(p, cs) + [DC.Done])) == Decoded(Entries(p, cs), None)
  {
    var ls := DC.ChildLines(p, cs);
    ChildLinesNotDone(p, cs);
    CollectAppend(ls, [DC.Done]);
    DoneCollected();
    ChildLinesDecode(p, cs);
    ListingAppend(NonEmptyLines(ls), [Sentinel]);
    assert ListingFrom([Sentinel]) == Decoded([], None);
    assert Entries(p, cs) + [] == Entries(p, cs);
  }

  /** The reply for a path that is not a folder. */
  lemma ListedMissing()
    ensures ListingFrom(Collect([DC.Println("ERROR: Invalid directory"), DC.Done])) == Decoded([], None)
  {
    var line := "ERROR: Invalid directory";
    StrippedEnds(line);
    CollectTwo(line);
    assert line[..5] != "DIR :" && line[..6] != "FILE :";
    assert ListingFrom([Sentinel]) == Decoded([], None);
  }

  /** After a LIST reply the view holds one row per child of the folder,
      named as `listDir` printed it, and nothing raises; for a missing path
      the device's error line gives no rows. */
  lemma ListRoundTrip(p: string, card: DC.Card)
    requires p in card.nodes && card.nodes[p].Folder? ==>
      forall i :: 0 <= i < |card.nodes[p].children| ==> Listable(DC.BaseName(p, card.nodes[p].children[i].name))
    ensures ListingFrom(Collect(DC.Respond(DC.ListDir(p), card)))
        == Decoded(if p in card.nodes && card.nodes[p].Folder? then Entries(p, card.nodes[p].children) else [], None)
  {
    if p in card.nodes && card.nodes[p].Folder? {
      ListedFolder(p, card.nodes[p].children);
    } else {
      ListedMissing();
    }
  }
}
