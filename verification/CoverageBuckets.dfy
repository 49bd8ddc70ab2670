// Hit-count buckets and the virgin map: the scan shared by the Go bitmap reader and the in-process hook.
module CoverageBuckets {
  import opened SetSizes

  newtype byte = x: int | 0 <= x < 256

  // The eight bucket bits.
  predicate IsBucket(b: bv8) {
    b == 1 || b == 2 || b == 4 || b == 8 || b == 16 || b == 32 || b == 64 || b == 128
  }

  // 1, 2, 3, 4-7, 8-15, 16-31, 32-127, 128 and more
  function Bucket(c: byte): bv8 {
    if c == 0 then 0
    else if c == 1 then 1
    else if c == 2 then 2
    else if c == 3 then 4
    else if c <= 7 then 8
    else if c <= 15 then 16
    else if c <= 31 then 32
    else if c <= 127 then 64
    else 128
  }

  method BuildCountClass() returns (t: array<bv8>)
    ensures fresh(t) && t.Length == 256 && forall c: byte :: t[c] == Bucket(c)
    ensures t[0] == 0 && t[1] == 1 && t[2] == 2 && t[3] == 4
    ensures (forall c | 4 <= c <= 7 :: t[c] == 8) && (forall c | 8 <= c <= 15 :: t[c] == 16)
    ensures (forall c | 16 <= c <= 31 :: t[c] == 32) && (forall c | 32 <= c <= 127 :: t[c] == 64)
    ensures forall c | 128 <= c <= 255 :: t[c] == 128
  {
    t := new bv8[256];
    for i := 0 to 256
      invariant forall c: byte | c as int < i :: t[c] == Bucket(c)
    {
      var c := i as byte;
      if c == 0 {
        t[i] := 0;
      } else if c == 1 {
        t[i] := 1;
      } else if c == 2 {
        t[i] := 2;
      } else if c == 3 {
        t[i] := 4;
      } else if c <= 7 {
        t[i] := 8;
      } else if c <= 15 {
        t[i] := 16;
      } else if c <= 31 {
        t[i] := 32;
      } else if c <= 127 {
        t[i] := 64;
      } else {
        t[i] := 128;
      }
    }
    assert forall c: int | 0 <= c < 256 :: t[c] == Bucket(c as byte);
  }

  // ---- what a virgin map and a snapshot say ----

  type Pair = (nat, bv8)

  ghost predicate Has(seen: seq<bv8>, p: Pair) {
    p.0 < |seen| && IsBucket(p.1) && seen[p.0] & p.1 != 0
  }

  // Every pair a map of n bytes can hold.
  ghost function Grid(n: nat): (r: set<Pair>)
    ensures forall p {:trigger p in r} :: p in r <==> p.0 < n && IsBucket(p.1)
  {
    var r := set i: nat, b | i < n && b in {1 as bv8, 2, 4, 8, 16, 32, 64, 128} :: (i, b);
    assert forall p: Pair {:trigger p.0} :: p == (p.0, p.1);
    r
  }

  // The (index, bucket) pairs recorded in a virgin map.
  ghost function Pairs(seen: seq<bv8>): (r: set<Pair>)
    ensures forall p {:trigger p in r} {:trigger Has(seen, p)} :: p in r <==> Has(seen, p)
  {
    set p | p in Grid(|seen|) && Has(seen, p)
  }

  ghost predicate Shows(snapshot: seq<byte>, p: Pair) {
    p.0 < |snapshot| && snapshot[p.0] != 0 && p.1 == Bucket(snapshot[p.0])
  }

  // The pairs a snapshot of the bitmap shows.
  ghost function Observed(snapshot: seq<byte>): (r: set<Pair>)
    ensures forall p {:trigger p in r} {:trigger Shows(snapshot, p)} :: p in r <==> Shows(snapshot, p)
  {
    var r := set i: nat | i < |snapshot| && snapshot[i] != 0 :: (i, Bucket(snapshot[i]));
    assert forall p: Pair | Shows(snapshot, p) :: p == (p.0, p.1);
    r
  }

  // A byte shows one pair, in the figures of the table, and 0 none.
  lemma ObservedIs(snapshot: seq<byte>, i: nat, b: bv8)
    ensures (i, b) in Observed(snapshot) <==>
              i < |snapshot| &&
              var c := snapshot[i];
              || (c == 1 && b == 1) || (c == 2 && b == 2) || (c == 3 && b == 4) || (4 <= c <= 7 && b == 8)
              || (8 <= c <= 15 && b == 16) || (16 <= c <= 31 && b == 32) || (32 <= c <= 127 && b == 64)
              || (128 <= c && b == 128)
  {
    assert Shows(snapshot, (i, b)) <==> (i, b) in Observed(snapshot);
  }

  // ---- the plain scan, one byte after the other ----

  datatype Map = Map(seen: seq<bv8>, edges: nat)

  function Note(m: Map, i: nat, c: byte): (r: Map)
    requires i < |m.seen|
    ensures |r.seen| == |m.seen|
  {
    if c == 0 || m.seen[i] & Bucket(c) != 0 then m
    else Map(m.seen[i := m.seen[i] | Bucket(c)], m.edges + 1)
  }

  // The first n bytes.
  function Scan(m: Map, buf: seq<byte>, n: nat): (r: Map)
    requires |m.seen| == |buf| && n <= |buf|
    ensures |r.seen| == |m.seen|
  {
    if n == 0 then m else Note(Scan(m, buf, n - 1), n - 1, buf[n - 1])
  }

  ghost predicate Counts(m: Map) {
    m.edges == |Pairs(m.seen)|
  }

  lemma BitAdded(x: bv8, b: bv8, q: bv8)
    requires IsBucket(b) && IsBucket(q)
    ensures (x | b) & q != 0 <==> q == b || x & q != 0
  {
    assert q == b ==> (x | b) & q == b;
    assert q != b ==> b & q == 0;
    assert (x | b) & q == (x & q) | (b & q);
  }

  // The pair a byte shows, if any.
  function Shown(i: nat, c: byte): set<Pair> {
    if c == 0 then {} else {(i, Bucket(c))}
  }

  // Noting a byte records its pair, counts it if it is new, and nothing else.
  lemma NoteMeans(m: Map, i: nat, c: byte)
    requires i < |m.seen| && Counts(m)
    ensures Counts(Note(m, i, c))
    ensures Pairs(Note(m, i, c).seen) == Pairs(m.seen) + Shown(i, c)
  {
    hide Pairs, Grid, Bucket, IsBucket;
    if c != 0 {
      var b, p := Bucket(c), (i, Bucket(c));
      BucketIs(c);
      if m.seen[i] & b != 0 {
        assert Has(m.seen, p);
        assert Pairs(m.seen) + {p} == Pairs(m.seen);
      } else {
        assert !Has(m.seen, p);
        PairsAdded(m.seen, i, b);
      }
    }
  }

  lemma BucketIs(c: byte)
    requires c != 0
    ensures IsBucket(Bucket(c))
  {
  }

  lemma PairsAdded(seen: seq<bv8>, i: nat, b: bv8)
    requires i < |seen| && IsBucket(b)
    ensures Pairs(seen[i := seen[i] | b]) == Pairs(seen) + {(i, b)}
  {
    hide Pairs, Grid;
    var r := seen[i := seen[i] | b];
    forall p: Pair
      ensures Has(r, p) <==> Has(seen, p) || p == (i, b)
    {
      hide IsBucket;
      if p.0 == i && IsBucket(p.1) {
        BitAdded(seen[i], b, p.1);
      }
      assert p == (p.0, p.1);
    }
  }

  lemma UnionRegroup(a: set<Pair>, b: set<Pair>, c: set<Pair>)
    ensures (a + b) + c == a + (b + c)
  {
  }

  lemma NothingObserved(buf: seq<byte>, seen: set<Pair>)
    ensures seen + Observed(buf[..0]) == seen
  {
    assert Observed(buf[..0]) == {};
  }

  lemma {:induction false} ScanMeans(m: Map, buf: seq<byte>, n: nat)
    requires |m.seen| == |buf| && n <= |buf| && Counts(m)
    ensures Counts(Scan(m, buf, n)) && Pairs(Scan(m, buf, n).seen) == Pairs(m.seen) + Observed(buf[..n])
  {
    hide *;
    ScanUnfold(m, buf, n);
    if n == 0 {
      NothingObserved(buf, Pairs(m.seen));
    } else {
      var s, c := Scan(m, buf, n - 1), buf[n - 1];
      ScanMeans(m, buf, n - 1);
      NoteMeans(s, n - 1, c);
      ObservedSnoc(buf[..n - 1], c);
      UnionRegroup(Pairs(m.seen), Observed(buf[..n - 1]), Shown(n - 1, c));
    }
  }

  lemma ScanUnfold(m: Map, buf: seq<byte>, n: nat)
    requires |m.seen| == |buf| && n <= |buf|
    ensures Scan(m, buf, 0) == m
    ensures n > 0 ==> Scan(m, buf, n) == Note(Scan(m, buf, n - 1), n - 1, buf[n - 1])
    ensures n > 0 ==> buf[..n] == buf[..n - 1] + [buf[n - 1]]
  {
  }

  lemma ObservedSnoc(s: seq<byte>, c: byte)
    ensures Observed(s + [c]) == Observed(s) + Shown(|s|, c)
  {
    forall p: Pair
      ensures Shows(s + [c], p) <==> Shows(s, p) || (c != 0 && p == (|s|, Bucket(c)))
    {
      assert p == (p.0, p.1);
    }
  }

  // ---- the fast scan ----

  // Eight bytes as a little-endian word.
  function Word(buf: seq<byte>, i: nat): nat
    requires i + 8 <= |buf|
  {
    Digits(buf[i..i + 8])
  }

  function Digits(s: seq<byte>): nat {
    if s == [] then 0 else s[0] as nat + 256 * Digits(s[1..])
  }

  lemma {:induction false} ZeroWord(s: seq<byte>)
    ensures Digits(s) == 0 <==> forall i | 0 <= i < |s| :: s[i] == 0
  {
    if s != [] {
      ZeroWord(s[1..]);
      assert forall i | 0 < i < |s| :: s[i] == s[1..][i - 1];
    }
  }

  // A word of zeros changes nothing.
  lemma {:induction false} SkipZeros(m: Map, buf: seq<byte>, i: nat, k: nat)
    requires |m.seen| == |buf| && i + k <= |buf| && forall j | i <= j < i + k :: buf[j] == 0
    ensures Scan(m, buf, i + k) == Scan(m, buf, i)
  {
    if k > 0 {
      SkipZeros(m, buf, i, k - 1);
    }
  }

  // Words of zeros are skipped, the others looked at byte by byte, and so is the tail: the same as the plain scan.
  method ScanInto(seen: array<bv8>, buf: seq<byte>, countClass: array<bv8>) returns (novel: nat)
    requires seen.Length == |buf| && countClass != seen
    requires countClass.Length == 256 && forall c: byte :: countClass[c] == Bucket(c)
    modifies seen
    ensures Scan(Map(old(seen[..]), 0), buf, |buf|) == Map(seen[..], novel)
  {
    hide Bucket, Note;
    ghost var m := Map(seen[..], 0);
    novel := 0;
    var n, i := |buf|, 0;
    while i + 8 <= n
      invariant i <= n && Scan(m, buf, i) == Map(seen[..], novel)
    {
      if Word(buf, i) == 0 {
        ZeroWord(buf[i..i + 8]);
        assert forall j | i <= j < i + 8 :: buf[j] == buf[i..i + 8][j - i];
        SkipZeros(m, buf, i, 8);
        i := i + 8;
        continue;
      }
      var j := 0;
      while j < 8
        invariant j <= 8 && Scan(m, buf, i + j) == Map(seen[..], novel)
      {
        novel := NoteInto(seen, i + j, buf[i + j], countClass, novel);
        j := j + 1;
      }
      i := i + 8;
    }
    while i < n
      invariant i <= n && Scan(m, buf, i) == Map(seen[..], novel)
    {
      novel := NoteInto(seen, i, buf[i], countClass, novel);
      i := i + 1;
    }
  }

  method NoteInto(seen: array<bv8>, i: nat, c: byte, countClass: array<bv8>, before: nat) returns (novel: nat)
    requires i < seen.Length && countClass != seen
    requires countClass.Length == 256 && forall c: byte :: countClass[c] == Bucket(c)
    modifies seen
    ensures Note(Map(old(seen[..]), before), i, c) == Map(seen[..], novel)
  {
    novel := before;
    if c == 0 {
      return;
    }
    var bucket := countClass[c];
    if seen[i] & bucket == 0 {
      seen[i] := seen[i] | bucket;
      novel := novel + 1;
    }
  }

  // ---- bounds ----

  // At most eight pairs per byte.
  lemma PairsBound(seen: seq<bv8>)
    ensures |Pairs(seen)| <= 8 * |seen|
  {
    assert Pairs(seen) <= Grid(|seen|);
    SubsetSize(Pairs(seen), Grid(|seen|));
    GridSize(|seen|);
  }

  lemma {:induction false} GridSize(n: nat)
    ensures |Grid(n)| <= 8 * n
  {
    if n > 0 {
      var i := n - 1;
      GridSize(i);
      var row := {(i, 1 as bv8), (i, 2 as bv8), (i, 4 as bv8), (i, 8 as bv8)}
                 + {(i, 16 as bv8), (i, 32 as bv8), (i, 64 as bv8), (i, 128 as bv8)};
      assert Grid(n) <= Grid(i) + row;
      SubsetSize(Grid(n), Grid(i) + row);
      UnionSize(Grid(i), row);
      UnionSize({(i, 1 as bv8), (i, 2 as bv8), (i, 4 as bv8), (i, 8 as bv8)},
                {(i, 16 as bv8), (i, 32 as bv8), (i, 64 as bv8), (i, 128 as bv8)});
      AtMostFour((i, 1 as bv8), (i, 2 as bv8), (i, 4 as bv8), (i, 8 as bv8));
      AtMostFour((i, 16 as bv8), (i, 32 as bv8), (i, 64 as bv8), (i, 128 as bv8));
    }
  }

  lemma AtMostFour(a: Pair, b: Pair, c: Pair, d: Pair)
    ensures |{a, b, c, d}| <= 4
  {
    UnionSize({a, b}, {c, d});
    assert {a, b, c, d} == {a, b} + {c, d};
    UnionSize({a}, {b});
    assert {a, b} == {a} + {b};
    UnionSize({c}, {d});
    assert {c, d} == {c} + {d};
  }
}
