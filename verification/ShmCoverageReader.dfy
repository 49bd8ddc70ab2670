// coverage.go: SHMCoverageReader. Snapshots of the shared bitmap are arguments; everything else is as it is there.
module ShmCoverageReader {
  import opened Wrappers
  import opened CoverageBuckets
  import opened SetSizes

  // The pairs shown by any snapshot of a history.
  ghost function ObservedAll(history: seq<seq<byte>>): set<Pair> {
    if history == [] then {} else ObservedAll(history[..|history| - 1]) + Observed(history[|history| - 1])
  }

  class SHMCoverageReader {
    var open: bool
    var mapSize: int
    var seen: array<bv8>
    var edges: nat
    const countClass: array<bv8>
    // The snapshots since the last reset.
    ghost var history: seq<seq<byte>>

    ghost predicate Valid()
      reads this, seen, countClass
    {
      && countClass != seen && countClass.Length == 256 && (forall c: byte :: countClass[c] == Bucket(c))
      && Counts(Map(seen[..], edges)) && Pairs(seen[..]) == ObservedAll(history)
    }

    constructor (mapSize: nat, countClass: array<bv8>)
      requires countClass.Length == 256 && forall c: byte :: countClass[c] == Bucket(c)
      ensures Valid() && open && this.mapSize == mapSize && seen.Length == mapSize && fresh(seen)
      ensures edges == 0 && history == [] && this.countClass == countClass
    {
      open, this.mapSize, edges, history, this.countClass := true, mapSize, 0, [], countClass;
      seen := new bv8[mapSize](_ => 0);
      new;
      NothingSeen(seen[..]);
    }

    // Buffers of this length from now on.
    method StartOver(n: nat)
      requires Valid()
      modifies this
      ensures Valid() && open == old(open) && mapSize == old(mapSize) && countClass[..] == old(countClass[..])
      ensures fresh(seen) && seen.Length == n && edges == 0 && history == []
    {
      seen := new bv8[n](_ => 0);
      edges := 0;
      history := [];
      NothingSeen(seen[..]);
    }

    // Scan one snapshot of the buffers' length.
    method Absorb(buf: seq<byte>)
      requires Valid() && seen.Length == |buf|
      modifies this`edges, this`history, seen
      ensures Valid() && countClass[..] == old(countClass[..])
      ensures history == old(history) + [buf] && edges == |ObservedAll(history)|
    {
      ghost var m := Map(seen[..], edges);
      var novel := ScanInto(seen, buf, countClass);
      assert forall c: byte :: countClass[c] == Bucket(c);
      hide Observed, ObservedAll, Scan, Pairs, Bucket;
      EdgesAfter(m, buf);
      edges := edges + novel;
      ObservedMore(history, buf);
      history := history + [buf];
    }

    // The number of pairs ever observed, this snapshot included. An empty one changes nothing; one of another length
    // than before starts over.
    method GetEdges(buf: seq<byte>) returns (r: Option<nat>)
      requires Valid()
      modifies this, seen
      ensures Valid() && open == old(open) && mapSize == old(mapSize)
      ensures (seen == old(seen) || fresh(seen)) && countClass[..] == old(countClass[..])
      ensures !open || mapSize <= 0 ==> r == None && history == old(history) && seen == old(seen) && edges == old(edges)
      ensures open && mapSize > 0 && buf == [] ==>
                r == Some(edges) && history == old(history) && seen == old(seen) && edges == old(edges)
      ensures open && mapSize > 0 && buf != [] ==>
                && r == Some(edges) && seen.Length == |buf|
                && history == (if old(seen.Length) == |buf| then old(history) else []) + [buf]
                && edges == |ObservedAll(history)|
    {
      if !open || mapSize <= 0 {
        return None;
      }
      if buf == [] {
        return Some(edges);
      }
      if seen.Length != |buf| {
        StartOver(|buf|);
      }
      Absorb(buf);
      return Some(edges);
    }

    method ClearSeen()
      modifies seen
      ensures forall i | 0 <= i < seen.Length :: seen[i] == 0
    {
      for i := 0 to seen.Length
        invariant forall j | 0 <= j < i :: seen[j] == 0
      {
        seen[i] := 0;
      }
    }

    // The file is overwritten with zeros first; `broken` is how many bytes a failing write got out.
    method Reset(file: seq<byte>, broken: Option<nat>) returns (ok: bool, left: seq<byte>)
      requires Valid()
      modifies this, seen
      ensures Valid() && open == old(open) && mapSize == old(mapSize) && ok == (open && broken.None?)
      ensures seen == old(seen) && countClass[..] == old(countClass[..])
      ensures left == if !open then file else Zeroed(file, if broken.Some? then broken.value else seen.Length)
      ensures ok ==> edges == 0 && history == [] && Observed(left[..seen.Length]) == {}
      ensures !ok ==> edges == old(edges) && history == old(history) && seen[..] == old(seen[..])
    {
      if !open {
        return false, file;
      }
      if broken.Some? {
        return false, Zeroed(file, broken.value);
      }
      left := Zeroed(file, seen.Length);
      NothingShown(left[..seen.Length]);
      ClearSeen();
      assert forall c: byte :: countClass[c] == countClass[..][c];
      hide Pairs, Bucket, Observed;
      edges := 0;
      history := [];
      NothingSeen(seen[..]);
      return true, left;
    }
  }

  // The first n bytes overwritten with zeros, a shorter file extended.
  function Zeroed(file: seq<byte>, n: nat): (r: seq<byte>)
    ensures |r| >= n && (forall i | 0 <= i < n :: r[i] == 0) && (n <= |file| ==> r[n..] == file[n..])
  {
    seq(n, _ => 0) + if n <= |file| then file[n..] else []
  }

  lemma NothingShown(snapshot: seq<byte>)
    requires forall i | 0 <= i < |snapshot| :: snapshot[i] == 0
    ensures Observed(snapshot) == {}
  {
    forall p: Pair
      ensures !Shows(snapshot, p)
    {
      if p.0 < |snapshot| {
        assert snapshot[p.0] == 0;
      }
    }
  }

  lemma NothingSeen(seen: seq<bv8>)
    requires forall i | 0 <= i < |seen| :: seen[i] == 0
    ensures Pairs(seen) == {}
  {
    forall p: Pair
      ensures !Has(seen, p)
    {
      if p.0 < |seen| {
        assert seen[p.0] == 0;
      }
    }
  }

  lemma ObservedMore(history: seq<seq<byte>>, buf: seq<byte>)
    ensures ObservedAll(history + [buf]) == ObservedAll(history) + Observed(buf)
  {
    assert (history + [buf])[..|history|] == history;
  }

  // The scan counts from zero what the reader adds to its total.
  lemma EdgesAfter(m: Map, buf: seq<byte>)
    requires |m.seen| == |buf| && Counts(m)
    ensures
      var r := Scan(Map(m.seen, 0), buf, |buf|);
      && Counts(Map(r.seen, m.edges + r.edges))
      && Pairs(r.seen) == Pairs(m.seen) + Observed(buf)
  {
    ScanShift(m, buf, |buf|);
    ScanMeans(m, buf, |buf|);
    assert buf[..|buf|] == buf;
  }

  lemma {:induction false} ScanShift(m: Map, buf: seq<byte>, n: nat)
    requires |m.seen| == |buf| && n <= |buf|
    ensures
      var r, s := Scan(Map(m.seen, 0), buf, n), Scan(m, buf, n);
      s == Map(r.seen, m.edges + r.edges)
  {
    hide Bucket;
    hide Note;
    if n > 0 {
      ScanShift(m, buf, n - 1);
      NoteShift(Scan(Map(m.seen, 0), buf, n - 1), m.edges, n - 1, buf[n - 1]);
    }
  }

  lemma NoteShift(m: Map, more: nat, i: nat, c: byte)
    requires i < |m.seen|
    ensures Note(Map(m.seen, more + m.edges), i, c) == Map(Note(m, i, c).seen, more + Note(m, i, c).edges)
  {
    hide Bucket;
  }

  // ---- what the count means ----

  lemma {:induction false} ObservedBySome(history: seq<seq<byte>>, p: Pair)
    ensures p in ObservedAll(history) <==> exists i :: 0 <= i < |history| && p in Observed(history[i])
  {
    if history != [] {
      var n := |history| - 1;
      ObservedBySome(history[..n], p);
      if i :| 0 <= i < |history| && p in Observed(history[i]) {
        assert i < n ==> history[..n][i] == history[i];
      }
      if i :| 0 <= i < n && p in Observed(history[..n][i]) {
        assert history[..n][i] == history[i];
      }
    }
  }

  // The order of snapshots does not matter, nor does how often one was taken.
  lemma OrderDoesNotMatter(a: seq<seq<byte>>, b: seq<seq<byte>>)
    requires forall s :: s in a <==> s in b
    ensures ObservedAll(a) == ObservedAll(b)
  {
    forall p: Pair
      ensures p in ObservedAll(a) <==> p in ObservedAll(b)
    {
      ObservedBySome(a, p);
      ObservedBySome(b, p);
      if i :| 0 <= i < |a| && p in Observed(a[i]) {
        assert a[i] in b;
      }
      if i :| 0 <= i < |b| && p in Observed(b[i]) {
        assert b[i] in a;
      }
    }
  }

  // Scanning a bitmap again adds nothing.
  lemma RescanAddsNothing(history: seq<seq<byte>>, s: seq<byte>)
    requires s in history
    ensures ObservedAll(history + [s]) == ObservedAll(history)
  {
    OrderDoesNotMatter(history + [s], history);
  }

  // More snapshots never lower the count, and eight per byte is the most there is.
  lemma CountGrowsWithin(history: seq<seq<byte>>, s: seq<byte>, seen: seq<bv8>)
    requires Pairs(seen) == ObservedAll(history + [s])
    ensures |ObservedAll(history)| <= |ObservedAll(history + [s])| <= 8 * |seen|
  {
    assert (history + [s])[..|history|] == history;
    SubsetSize(ObservedAll(history), ObservedAll(history + [s]));
    PairsBound(seen);
  }
}
