/** The byte transport under both transfer loops: a timed serial read that
    returns at most what was asked for. The host's GETDATA loop
    (src/ESPFileManager.py) and the older device's blocking PUTFILE loop
    (ESP32FileManager.h) both read "at most `cap`, at most what is still
    missing" until they have everything or a read returns nothing. */
module Transport {
  import opened Strings

  function Min(a: int, b: int): int {
    if a <= b then a else b
  }

  /** The number of bytes one timed read returns when it asks for `want`
      bytes, `pending` are the bytes the line will still deliver, and `burst`
      is how many of them arrive before the read times out. */
  function Grant(want: int, pending: seq<byte>, burst: nat): (g: nat)
    ensures g <= |pending| && g <= burst
    ensures want <= 0 ==> g == 0
    ensures want > 0 ==> g <= want
    ensures want > 0 && burst >= want && |pending| >= want ==> g == want
  {
    if want <= 0 then 0 else Min(Min(want, burst), |pending|)
  }

  /** What the loop "while fewer than `want` bytes: read min(cap, missing);
      stop on an empty read" receives, when the i-th read's timeout lets
      `bursts[i]` bytes arrive (a read past the end of `bursts` times out
      empty). */
  function Fetch(want: int, cap: nat, pending: seq<byte>, bursts: seq<nat>): (r: seq<byte>)
    decreases |bursts|
  {
    if want <= 0 || bursts == [] then []
    else
      var g := Grant(Min(cap, want), pending, bursts[0]);
      if g == 0 then [] else pending[..g] + Fetch(want - g, cap, pending[g..], bursts[1..])
  }

  /** One read that returns something, then the rest of the loop. */
  lemma FetchStep(want: int, cap: nat, pending: seq<byte>, bursts: seq<nat>, g: nat)
    requires want > 0 && bursts != [] && g == Grant(Min(cap, want), pending, bursts[0]) && g > 0
    ensures Fetch(want, cap, pending, bursts) == pending[..g] + Fetch(want - g, cap, pending[g..], bursts[1..])
  {
  }

  /** A read that returned `g` bytes keeps the invariant of a loop that
      has received `done` and still receives what `Fetch` says. */
  lemma FetchAdvance(done: seq<byte>, want: int, cap: nat, pending: seq<byte>, bursts: seq<nat>, g: nat, target: seq<byte>)
    requires done + Fetch(want, cap, pending, bursts) == target
    requires want > 0 && bursts != [] && g == Grant(Min(cap, want), pending, bursts[0]) && g > 0
    ensures done + pending[..g] + Fetch(want - g, cap, pending[g..], bursts[1..]) == target
  {
    FetchStep(want, cap, pending, bursts, g);
    assert done + (pending[..g] + Fetch(want - g, cap, pending[g..], bursts[1..]))
        == done + pending[..g] + Fetch(want - g, cap, pending[g..], bursts[1..]);
  }

  /** The loop receives a prefix of what the line delivers. */
  lemma {:induction false} FetchPrefix(want: int, cap: nat, pending: seq<byte>, bursts: seq<nat>)
    ensures var r := Fetch(want, cap, pending, bursts);
      |r| <= |pending| && r == pending[..|r|]
    decreases |bursts|
  {
    if want > 0 && bursts != [] {
      var g := Grant(Min(cap, want), pending, bursts[0]);
      if g > 0 {
        var tail := pending[g..];
        FetchPrefix(want - g, cap, tail, bursts[1..]);
        var rest := Fetch(want - g, cap, tail, bursts[1..]);
        FetchStep(want, cap, pending, bursts, g);
        assert rest == tail[..|rest|];
        assert pending[..g] + tail[..|rest|] == pending[..g + |rest|];
      }
    }
  }

  /** The loop never receives more than it asked for. */
  lemma {:induction false} FetchAtMost(want: int, cap: nat, pending: seq<byte>, bursts: seq<nat>)
    ensures |Fetch(want, cap, pending, bursts)| <= (if want > 0 then want else 0)
    decreases |bursts|
  {
    if want > 0 && bursts != [] {
      var g := Grant(Min(cap, want), pending, bursts[0]);
      if g > 0 {
        FetchAtMost(want - g, cap, pending[g..], bursts[1..]);
        FetchStep(want, cap, pending, bursts, g);
      }
    }
  }

  /** The loop receives a prefix of what the line delivers, and never more
      than it asked for. */
  lemma FetchBounded(want: int, cap: nat, pending: seq<byte>, bursts: seq<nat>)
    ensures var r := Fetch(want, cap, pending, bursts);
      |r| <= |pending| && r == pending[..|r|] && |r| <= (if want > 0 then want else 0)
  {
    FetchPrefix(want, cap, pending, bursts);
    FetchAtMost(want, cap, pending, bursts);
  }

  /** When every read gets all it asks for and there are enough reads, the
      loop receives exactly the first `want` bytes. */
  lemma {:induction false} FetchComplete(want: int, cap: nat, pending: seq<byte>, bursts: seq<nat>)
    requires cap > 0 && 0 <= want <= |pending|
    requires forall i :: 0 <= i < |bursts| ==> bursts[i] >= cap
    requires |bursts| * cap >= want
    ensures Fetch(want, cap, pending, bursts) == pending[..want]
    decreases |bursts|
  {
    if want > 0 {
      var g := Grant(Min(cap, want), pending, bursts[0]);
      assert g == Min(cap, want);
      assert (|bursts| - 1) * cap >= want - g;
      FetchComplete(want - g, cap, pending[g..], bursts[1..]);
      assert pending[..g] + pending[g..][..want - g] == pending[..want];
    }
  }

  /** When the line delivers fewer bytes than the loop wants, the loop ends
      with all of them and no error: a short transfer looks like a full one. */
  lemma {:induction false} FetchShort(want: int, cap: nat, pending: seq<byte>, bursts: seq<nat>)
    requires cap > 0 && |pending| < want
    requires forall i :: 0 <= i < |bursts| ==> bursts[i] >= cap
    requires |bursts| * cap >= |pending|
    ensures Fetch(want, cap, pending, bursts) == pending
    decreases |bursts|
  {
    if pending != [] {
      var g := Grant(Min(cap, want), pending, bursts[0]);
      assert g == Min(cap, |pending|);
      assert (|bursts| - 1) * cap >= |pending| - g;
      FetchShort(want - g, cap, pending[g..], bursts[1..]);
      assert pending[..g] + pending[g..] == pending;
    }
  }
}
