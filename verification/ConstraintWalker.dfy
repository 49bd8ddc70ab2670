// ConstraintWalker.cs: the closing loop of Build. Each type takes over the properties of its bases, recursively, while
// other types are being filled in by the same walk.
module ConstraintWalker {
  import opened Wrappers
  import opened TypeResolver
  import opened SetSizes

  // ---- the inheritance graph ----

  // Base number i of type a is type b.
  predicate BaseIs(ts: Types, a: string, i: nat, b: string)
    requires Filed(ts) && a in ts.all
  {
    i < |ts.all[a].baseTypes| && Resolved(ts, ts.all[a].baseTypes[i], ts.all[a].ns) == Some(b)
  }

  ghost predicate Edge(ts: Types, a: string, b: string)
    requires Filed(ts)
  {
    a in ts.all && exists i :: BaseIs(ts, a, i, b)
  }

  ghost predicate Path(ts: Types, p: seq<string>)
    requires Filed(ts)
  {
    p != [] && (forall k | k in p :: k in ts.all) && forall i | 0 <= i < |p| - 1 :: Edge(ts, p[i], p[i + 1])
  }

  // b is a or a base of it at any remove.
  ghost predicate Reaches(ts: Types, a: string, b: string)
    requires Filed(ts)
  {
    exists p :: Path(ts, p) && p[0] == a && p[|p| - 1] == b
  }

  lemma ReachesSelf(ts: Types, a: string)
    requires Filed(ts) && a in ts.all
    ensures Reaches(ts, a, a)
  {
    assert Path(ts, [a]);
  }

  lemma ReachesStep(ts: Types, a: string, b: string, c: string)
    requires Filed(ts) && Edge(ts, a, b) && Reaches(ts, b, c)
    ensures Reaches(ts, a, c)
  {
    var p :| Path(ts, p) && p[0] == b && p[|p| - 1] == c;
    var q := [a] + p;
    forall i | 0 <= i < |q| - 1
      ensures Edge(ts, q[i], q[i + 1])
    {
      if i > 0 {
        assert q[i] == p[i - 1] && q[i + 1] == p[i];
      }
    }
    assert Path(ts, q) && q[0] == a && q[|q| - 1] == c;
  }

  // Every base of a member that resolves is a member.
  ghost predicate ClosedUnder(ts: Types, s: set<string>)
    requires Filed(ts)
  {
    forall a, b | a in s && Edge(ts, a, b) :: b in s
  }

  lemma {:induction false} ClosedHoldsPath(ts: Types, s: set<string>, p: seq<string>)
    requires Filed(ts) && ClosedUnder(ts, s) && Path(ts, p) && p[0] in s
    ensures p[|p| - 1] in s
    decreases |p|
  {
    if |p| > 1 {
      var q := p[1..];
      forall i | 0 <= i < |q| - 1
        ensures Edge(ts, q[i], q[i + 1])
      {
        assert Edge(ts, p[i + 1], p[i + 2]);
      }
      assert Edge(ts, p[0], p[1]);
      ClosedHoldsPath(ts, s, q);
    }
  }

  // ---- what the types hold ----

  type Table = map<string, map<string, Constraint>>

  ghost function Held(ts: Types): (t: Table)
    reads ts.all.Values
    ensures t.Keys == ts.all.Keys
  {
    map k | k in ts.all :: ts.all[k].properties
  }

  // Own declarations are there, as declared; every other entry was declared, under that name, by a type reached.
  ghost predicate Sound(ts: Types, declared: Table, held: Table)
    requires Filed(ts)
  {
    && declared.Keys == ts.all.Keys && held.Keys == ts.all.Keys
    && (forall k, n | k in declared && n in declared[k] :: n in held[k] && held[k][n] == declared[k][n])
    && (forall k, n | k in held && n in held[k] :: DeclaredBy(ts, declared, k, n, held[k][n]))
  }

  ghost predicate DeclaredBy(ts: Types, declared: Table, k: string, n: string, c: Constraint)
    requires Filed(ts)
  {
    exists b :: b in declared && n in declared[b] && declared[b][n] == c && Reaches(ts, k, b)
  }

  // No entry is lost or replaced.
  ghost predicate Grew(before: Table, after: Table) {
    && before.Keys == after.Keys
    && forall k, n | k in before && n in before[k] :: n in after[k] && after[k][n] == before[k][n]
  }

  ghost function Names(t: Table, k: string): set<string> {
    if k in t then t[k].Keys else {}
  }

  // k holds every name declared by a type in s.
  ghost predicate Covers(declared: Table, held: Table, k: string, s: set<string>) {
    forall b, n | b in s && b in declared && n in declared[b] :: n in Names(held, k)
  }

  // All names declared by a type reached from k are there.
  ghost predicate Complete(ts: Types, declared: Table, held: Table, k: string)
    requires Filed(ts)
  {
    forall b, n | Reaches(ts, k, b) && b in declared && n in declared[b] :: n in Names(held, k)
  }

  lemma CompleteFromClosed(ts: Types, declared: Table, held: Table, k: string, s: set<string>)
    requires Filed(ts) && ClosedUnder(ts, s) && k in s && Covers(declared, held, k, s)
    ensures Complete(ts, declared, held, k)
  {
    forall b, n | Reaches(ts, k, b) && b in declared && n in declared[b]
      ensures n in Names(held, k)
    {
      var p :| Path(ts, p) && p[0] == k && p[|p| - 1] == b;
      ClosedHoldsPath(ts, s, p);
      assert b in s;
    }
  }

  // The types seen so far, apart from the ones still being worked on, have all their bases seen.
  ghost predicate Settled(ts: Types, before: set<string>, now: set<string>)
    requires Filed(ts)
  {
    forall a, b | a in now - before && Edge(ts, a, b) :: b in now
  }

  ghost predicate BasesSeen(ts: Types, k: string, i: nat, seen: set<string>)
    requires Filed(ts) && k in ts.all
  {
    forall j, b | 0 <= j < i && BaseIs(ts, k, j, b) :: b in seen
  }

  // ---- merging ----

  // What the walk promises for tc: everything newly seen is covered by tc, and no base is left out.
  ghost predicate Merged(ts: Types, declared: Table, k: string, before: set<string>, after: set<string>, held0: Table,
                         held: Table)
    requires Filed(ts) && k in ts.all
  {
    && before <= after <= ts.all.Keys
    && Sound(ts, declared, held) && Grew(held0, held)
    && Covers(declared, held, k, after - before)
    && Settled(ts, before, after) && BasesSeen(ts, k, |ts.all[k].baseTypes|, after)
  }

  // The same after the first i bases.
  ghost predicate Halfway(ts: Types, declared: Table, k: string, i: nat, before: set<string>, now: set<string>,
                          held0: Table, held: Table)
    requires Filed(ts)
  {
    && k in ts.all
    && Sound(ts, declared, held) && Grew(held0, held)
    && Covers(declared, held, k, now - before)
    && Settled(ts, before, now) && BasesSeen(ts, k, i, now)
  }

  // tc takes the entries of its base that it lacks.
  method CopyMissing(tc: TypeConstraints, resolved: TypeConstraints)
    requires tc != resolved
    modifies tc
    ensures tc.properties == resolved.properties + old(tc.properties)
  {
    var names := resolved.properties.Keys;
    while names != {}
      invariant names <= resolved.properties.Keys && resolved.properties == old(resolved.properties)
      invariant forall n :: n in tc.properties <==> n in old(tc.properties) || n in resolved.properties.Keys - names
      invariant forall n | n in tc.properties ::
                  tc.properties[n] == if n in old(tc.properties) then old(tc.properties)[n] else resolved.properties[n]
      decreases names
    {
      var n :| n in names;
      names := names - {n};
      if n !in tc.properties {
        tc.properties := tc.properties[n := resolved.properties[n]];
      }
    }
  }

  // What copying the entries of base r adds up to.
  lemma BaseMerged(ts: Types, declared: Table, k: string, i: nat, r: string, visited: set<string>, seen: set<string>,
                   now: set<string>, held0: Table, held1: Table, held2: Table, held3: Table)
    requires Filed(ts) && k in ts.all && r in ts.all && visited <= seen && k in seen && BaseIs(ts, k, i, r)
    requires Halfway(ts, declared, k, i, visited, seen, held0, held1)
    requires Merged(ts, declared, r, seen + {r}, now, held1, held2)
    requires held3 == held2[k := held2[r] + held2[k]]
    ensures Halfway(ts, declared, k, i + 1, visited, now, held0, held3)
  {
    hide Sound, Covers, Settled, Reaches, DeclaredBy, BasesSeen, Grew;
    assert Edge(ts, k, r);
    BasesSeenNext(ts, k, i, r, seen, now);
    SoundKeys(ts, declared, held2);
    GrewTwice(ts, k, r, held0, held1, held2, held3);
    TakenOverSound(ts, declared, k, r, held2, held3);
    BaseCovered(ts, declared, k, r, visited, seen, now, held1, held2, held3);
    BaseSettled(ts, r, visited, seen, now);
  }

  lemma SoundKeys(ts: Types, declared: Table, held: Table)
    requires Filed(ts) && Sound(ts, declared, held)
    ensures held.Keys == ts.all.Keys
  {
  }

  lemma BasesSeenNext(ts: Types, k: string, i: nat, r: string, seen: set<string>, now: set<string>)
    requires Filed(ts) && k in ts.all && BaseIs(ts, k, i, r) && BasesSeen(ts, k, i, seen) && seen + {r} <= now
    ensures BasesSeen(ts, k, i + 1, now)
  {
  }

  lemma GrewTwice(ts: Types, k: string, r: string, held0: Table, held1: Table, held2: Table, held3: Table)
    requires Grew(held0, held1) && Grew(held1, held2) && k in held2 && r in held2
    requires held3 == held2[k := held2[r] + held2[k]]
    ensures Grew(held0, held3)
  {
  }

  lemma BaseCovered(ts: Types, declared: Table, k: string, r: string, visited: set<string>, seen: set<string>,
                    now: set<string>, held1: Table, held2: Table, held3: Table)
    requires Filed(ts) && k in ts.all && r in ts.all && visited <= seen && Sound(ts, declared, held2)
    requires Covers(declared, held1, k, seen - visited) && Covers(declared, held2, r, now - (seen + {r}))
    requires Grew(held1, held2) && k in held2 && held3 == held2[k := held2[r] + held2[k]]
    ensures Covers(declared, held3, k, now - visited)
  {
    hide DeclaredBy;
    forall b, n | b in now - visited && b in declared && n in declared[b]
      ensures n in Names(held3, k)
    {
      if b in seen {
        assert n in Names(held1, k);
        assert n in held2[k];
      } else if b == r {
        assert n in held2[r];
      } else {
        assert b in now - (seen + {r});
        assert n in Names(held2, r);
      }
    }
  }

  lemma BaseSettled(ts: Types, r: string, visited: set<string>, seen: set<string>, now: set<string>)
    requires Filed(ts) && r in ts.all && visited <= seen && seen + {r} <= now
    requires Settled(ts, visited, seen) && Settled(ts, seen + {r}, now)
    requires BasesSeen(ts, r, |ts.all[r].baseTypes|, now)
    ensures Settled(ts, visited, now)
  {
    forall a, b | a in now - visited && Edge(ts, a, b)
      ensures b in now
    {
      if a in seen {
        assert b in seen;
      } else if a == r {
        var j :| BaseIs(ts, a, j, b);
      } else {
        assert a in now - (seen + {r});
      }
    }
  }

  // Entries taken over from a base were declared by something the base reaches.
  lemma TakenOverSound(ts: Types, declared: Table, k: string, r: string, held: Table, held2: Table)
    requires Filed(ts) && k in ts.all && r in ts.all && Edge(ts, k, r) && Sound(ts, declared, held)
    requires held2 == held[k := held[r] + held[k]]
    ensures Sound(ts, declared, held2)
  {
    forall x, n | x in held2 && n in held2[x]
      ensures DeclaredBy(ts, declared, x, n, held2[x][n])
    {
      if x == k && n !in held[k] {
        assert DeclaredBy(ts, declared, r, n, held[r][n]);
        var b :| b in declared && n in declared[b] && declared[b][n] == held[r][n] && Reaches(ts, r, b);
        ReachesStep(ts, k, r, b);
      } else {
        assert DeclaredBy(ts, declared, x, n, held[x][n]);
      }
    }
  }

  method MergeBaseProperties(ts: Types, k: string, visited: set<string>, ghost declared: Table)
    returns (seen: set<string>)
    requires Filed(ts) && k in visited && visited <= ts.all.Keys && Sound(ts, declared, Held(ts))
    modifies ts.all.Values
    ensures Merged(ts, declared, k, visited, seen, old(Held(ts)), Held(ts))
    decreases |ts.all.Keys| - |visited|, 1
  {
    hide Sound, Covers, Settled, BasesSeen;
    var tc := ts.all[k];
    ghost var held0 := Held(ts);
    seen := visited;
    NothingMerged(ts, declared, k, visited, held0);
    var i := 0;
    while i < |tc.baseTypes|
      invariant i <= |tc.baseTypes| && visited <= seen <= ts.all.Keys
      invariant Halfway(ts, declared, k, i, visited, seen, held0, Held(ts))
    {
      var resolved := Resolve(ts, tc.baseTypes[i], tc.ns);
      if resolved.None? || resolved.value in seen {  // unresolved or cycle
        NextSeen(ts, k, i, seen);
        i := i + 1;
        continue;
      }
      SubsetSize(visited, seen);
      SubsetSize(seen, ts.all.Keys);
      seen := MergeOne(ts, k, i, resolved.value, visited, seen, declared, held0);
      i := i + 1;
    }
  }

  lemma NothingMerged(ts: Types, declared: Table, k: string, visited: set<string>, held: Table)
    requires Filed(ts) && k in ts.all && Sound(ts, declared, held)
    ensures Halfway(ts, declared, k, 0, visited, visited, held, held)
  {
  }

  lemma NextSeen(ts: Types, k: string, i: nat, seen: set<string>)
    requires Filed(ts) && k in ts.all && i < |ts.all[k].baseTypes| && BasesSeen(ts, k, i, seen)
    requires
      var r := Resolved(ts, ts.all[k].baseTypes[i], ts.all[k].ns);
      r.None? || r.value in seen
    ensures BasesSeen(ts, k, i + 1, seen)
  {
  }

  // One base not seen before: its own bases first, then its entries that tc lacks.
  method MergeOne(ts: Types, k: string, i: nat, r: string, ghost visited: set<string>, seen: set<string>,
                  ghost declared: Table, ghost held0: Table)
    returns (now: set<string>)
    requires Filed(ts) && k in seen && visited <= seen <= ts.all.Keys && BaseIs(ts, k, i, r) && r in ts.all
    requires r !in seen
    requires Halfway(ts, declared, k, i, visited, seen, held0, Held(ts))
    modifies ts.all.Values
    ensures seen <= now <= ts.all.Keys && Halfway(ts, declared, k, i + 1, visited, now, held0, Held(ts))
    decreases |ts.all.Keys| - |seen|, 0
  {
    hide Sound, Grew, Covers, Settled, BasesSeen, BaseIs;
    SubsetSize(seen + {r}, ts.all.Keys);
    ghost var held1 := Held(ts);
    now := MergeBaseProperties(ts, r, seen + {r}, declared);
    ghost var held2 := Held(ts);
    KeysDiffer(ts, k, r);
    CopyMissing(ts.all[k], ts.all[r]);
    assert Held(ts) == held2[k := held2[r] + held2[k]];
    BaseMerged(ts, declared, k, i, r, visited, seen, now, held0, held1, held2, Held(ts));
  }

  lemma KeysDiffer(ts: Types, a: string, b: string)
    requires Filed(ts) && a in ts.all && b in ts.all && a != b
    ensures ts.all[a] != ts.all[b]
  {
  }

  // ---- the closing loop of Build ----

  method MergeAll(ts: Types, ghost declared: Table)
    requires Filed(ts) && declared == Held(ts)
    modifies ts.all.Values
    ensures Sound(ts, declared, Held(ts))
    ensures forall k | k in ts.all :: Complete(ts, declared, Held(ts), k)
  {
    hide Complete, Covers, Settled, BasesSeen;
    DeclaredSound(ts, declared);
    var i := 0;
    while i < |ts.order|
      invariant i <= |ts.order| && Sound(ts, declared, Held(ts))
      invariant forall k | k in ts.order[..i] :: Complete(ts, declared, Held(ts), k)
    {
      var k := ts.order[i];
      ghost var held0 := Held(ts);
      var seen := MergeBaseProperties(ts, k, {k}, declared);
      MergedIsComplete(ts, declared, k, seen, held0, Held(ts));
      forall x | x in ts.order[..i]
        ensures Complete(ts, declared, Held(ts), x)
      {
        StaysComplete(ts, declared, held0, Held(ts), x);
      }
      assert ts.order[..i + 1] == ts.order[..i] + [k];
      i := i + 1;
    }
    assert ts.order[..i] == ts.order;
  }

  lemma DeclaredSound(ts: Types, declared: Table)
    requires Filed(ts) && declared.Keys == ts.all.Keys
    ensures Sound(ts, declared, declared)
  {
    forall k, n | k in declared && n in declared[k]
      ensures DeclaredBy(ts, declared, k, n, declared[k][n])
    {
      ReachesSelf(ts, k);
    }
  }

  lemma StaysComplete(ts: Types, declared: Table, before: Table, after: Table, k: string)
    requires Filed(ts) && Complete(ts, declared, before, k) && Grew(before, after)
    ensures Complete(ts, declared, after, k)
  {
    hide Reaches;
    forall b, n | Reaches(ts, k, b) && b in declared && n in declared[b]
      ensures n in Names(after, k)
    {
      assert n in Names(before, k);
      assert n in before[k];
    }
  }

  // A walk from k alone leaves nothing reached from k out.
  lemma MergedIsComplete(ts: Types, declared: Table, k: string, seen: set<string>, held0: Table, held: Table)
    requires Filed(ts) && k in ts.all && Merged(ts, declared, k, {k}, seen, held0, held)
    ensures Complete(ts, declared, held, k)
  {
    hide Reaches, DeclaredBy;
    assert ClosedUnder(ts, seen) by {
      FromAlone(ts, k, seen);
    }
    forall b, n | b in seen && b in declared && n in declared[b]
      ensures n in Names(held, k)
    {
      if b == k {
        assert n in held[k];
      } else {
        assert b in seen - {k};
      }
    }
    CompleteFromClosed(ts, declared, held, k, seen);
  }

  lemma FromAlone(ts: Types, k: string, seen: set<string>)
    requires Filed(ts) && k in ts.all && k in seen
    requires Settled(ts, {k}, seen) && BasesSeen(ts, k, |ts.all[k].baseTypes|, seen)
    ensures ClosedUnder(ts, seen)
  {
    forall a, b | a in seen && Edge(ts, a, b)
      ensures b in seen
    {
      if a == k {
        var j :| BaseIs(ts, k, j, b);
      } else {
        assert a in seen - {k};
      }
    }
  }

  // The merge is the exact transitive closure, whatever cycles or diamonds the bases form and in whatever order the
  // types come: a type holds a name if and only if it or a type it reaches declares it.
  lemma ExactClosure(ts: Types, declared: Table, held: Table, k: string, n: string)
    requires Filed(ts) && k in ts.all && Sound(ts, declared, held) && Complete(ts, declared, held, k)
    ensures n in held[k] <==> exists b :: b in declared && n in declared[b] && Reaches(ts, k, b)
  {
    hide Reaches;
    if n in held[k] {
      assert DeclaredBy(ts, declared, k, n, held[k][n]);
    }
    if b :| b in declared && n in declared[b] && Reaches(ts, k, b) {
      assert n in Names(held, k);
    }
  }

  // The same spelled out. Along any chain in which each type is what base number js[i] of the one before resolves to,
  // the first has every name the last declares, and its own declarations as they were;
  lemma InheritsAlong(ts: Types, declared: Table, held: Table, p: seq<string>, js: seq<nat>, n: string)
    requires Filed(ts) && |p| == |js| + 1 && (forall k | k in p :: k in ts.all) && p[|js|] in declared
    requires forall i {:trigger js[i]} | 0 <= i < |js| ::
               p[i] in p && js[i] < |ts.all[p[i]].baseTypes|
               && Resolved(ts, ts.all[p[i]].baseTypes[js[i]], ts.all[p[i]].ns) == Some(p[i + 1])
    requires Sound(ts, declared, held) && Complete(ts, declared, held, p[0]) && n in declared[p[|js|]]
    ensures p[0] in held && n in held[p[0]] && (|js| == 0 ==> held[p[0]][n] == declared[p[0]][n])
  {
    hide Resolved, Reaches, DeclaredBy;
    ChainReaches(ts, p, js);
    assert p[0] in p && p[0] in held;
    assert n in Names(held, p[0]);
  }

  lemma {:induction false} ChainReaches(ts: Types, p: seq<string>, js: seq<nat>)
    requires Filed(ts) && |p| == |js| + 1 && forall k | k in p :: k in ts.all
    requires forall i {:trigger js[i]} | 0 <= i < |js| ::
               p[i] in p && js[i] < |ts.all[p[i]].baseTypes|
               && Resolved(ts, ts.all[p[i]].baseTypes[js[i]], ts.all[p[i]].ns) == Some(p[i + 1])
    ensures Reaches(ts, p[0], p[|js|])
    decreases |p|
  {
    hide Resolved, Reaches;
    if js == [] {
      ReachesSelf(ts, p[0]);
    } else {
      var q, ks := p[1..], js[1..];
      forall i | 0 <= i < |ks|
        ensures q[i] in q && ks[i] < |ts.all[q[i]].baseTypes|
                && Resolved(ts, ts.all[q[i]].baseTypes[ks[i]], ts.all[q[i]].ns) == Some(q[i + 1])
      {
        assert js[i + 1] == ks[i] && q[i] == p[i + 1] && q[i + 1] == p[i + 2];
      }
      ChainReaches(ts, q, ks);
      assert BaseIs(ts, p[0], js[0], p[1]);
      ReachesStep(ts, p[0], p[1], p[|js|]);
    }
  }

  // and whatever a type has, such a chain leads from it to a type that declares it so.
  lemma InheritedFrom(ts: Types, declared: Table, held: Table, k: string, n: string)
    returns (p: seq<string>, js: seq<nat>)
    requires Filed(ts) && k in held && n in held[k] && Sound(ts, declared, held)
    ensures |p| == |js| + 1 && p[0] == k && (forall x | x in p :: x in ts.all)
    ensures forall i {:trigger js[i]} | 0 <= i < |js| ::
              p[i] in p && js[i] < |ts.all[p[i]].baseTypes|
              && Resolved(ts, ts.all[p[i]].baseTypes[js[i]], ts.all[p[i]].ns) == Some(p[i + 1])
    ensures p[|js|] in declared && n in declared[p[|js|]] && declared[p[|js|]][n] == held[k][n]
  {
    hide Resolved;
    assert DeclaredBy(ts, declared, k, n, held[k][n]);
    var b :| b in declared && n in declared[b] && declared[b][n] == held[k][n] && Reaches(ts, k, b);
    p :| Path(ts, p) && p[0] == k && p[|p| - 1] == b;
    js := BasesAlong(ts, p);
  }

  lemma {:induction false} BasesAlong(ts: Types, p: seq<string>) returns (js: seq<nat>)
    requires Filed(ts) && Path(ts, p)
    ensures |p| == |js| + 1
    ensures forall i {:trigger js[i]} | 0 <= i < |js| :: BaseIs(ts, p[i], js[i], p[i + 1])
  {
    js := [];
    if |p| > 1 {
      assert Edge(ts, p[0], p[1]);
      var j: nat :| BaseIs(ts, p[0], j, p[1]);
      hide BaseIs;
      assert Path(ts, p[1..]) by {
        forall i | 0 <= i < |p[1..]| - 1
          ensures Edge(ts, p[1..][i], p[1..][i + 1])
        {
          assert Edge(ts, p[i + 1], p[i + 2]);
        }
      }
      var rest := BasesAlong(ts, p[1..]);
      js := [j] + rest;
      forall i | 0 <= i < |js|
        ensures BaseIs(ts, p[i], js[i], p[i + 1])
      {
        if i > 0 {
          assert BaseIs(ts, p[1..][i - 1], rest[i - 1], p[1..][i]);
        }
      }
    }
  }
}
