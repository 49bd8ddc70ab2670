// schemaHasSelfReference: does a schema node, followed through properties, items and variants, come back to itself.
module SelfReference {
  import opened Wrappers
  import opened BodyTree
  import opened BodySchema
  import opened BodyBuild
  import opened SetSizes

  const MAX_SEARCH_DEPTH := 12

  // In which order iterating over a node's property map yields its keys.
  type Iteration = SchemaNode -> seq<string>

  function PropertyTargets(names: seq<string>, properties: map<string, NodeId>): (r: seq<NodeId>)
    requires forall k | k in names :: k in properties
    ensures |r| == |names| && forall i {:trigger r[i]} | 0 <= i < |names| :: r[i] == properties[names[i]]
  {
    seq(|names|, i requires 0 <= i < |names| => assert names[i] in names; properties[names[i]])
  }

  // Everything a node points to, in search order.
  function Links(n: SchemaNode, order: Iteration): seq<NodeId> {
    PropertyTargets(Declared(order(n), n.properties), n.properties) + [n.items] + n.variants
  }

  // The answer, and the nodes visited so far: shared over the whole search.
  datatype Found = Found(yes: bool, seen: set<NodeId>)

  function Contains(g: Schema, root: NodeId, id: NodeId, depth: nat, seen: set<NodeId>, order: Iteration): Found
    requires depth <= MAX_SEARCH_DEPTH + 1
    decreases MAX_SEARCH_DEPTH + 1 - depth, 2, 0, order
  {
    if id !in g || depth > MAX_SEARCH_DEPTH || id in seen then Found(false, seen)
    else ContainsAny(g, root, Links(g[id], order), depth, seen + {id}, order)
  }

  function ContainsAny(g: Schema, root: NodeId, links: seq<NodeId>, depth: nat, seen: set<NodeId>,
                       order: Iteration): Found
    requires depth <= MAX_SEARCH_DEPTH
    decreases MAX_SEARCH_DEPTH + 1 - depth, 1, |links|, order
  {
    if links == [] then Found(false, seen)
    else if links[0] == root then Found(true, seen)
    else
      var r := Contains(g, root, links[0], depth + 1, seen, order);
      if r.yes then r else ContainsAny(g, root, links[1..], depth, r.seen, order)
  }

  function HasSelfReference(g: Schema, id: NodeId, order: Iteration): bool {
    Contains(g, id, id, 0, {}, order).yes
  }

  // ---- what a hit means ----

  predicate Linked(g: Schema, a: NodeId, b: NodeId) {
    a in g && (b in g[a].properties.Values || b == g[a].items || b in g[a].variants)
  }

  predicate Chain(g: Schema, p: seq<NodeId>) {
    forall i | 0 <= i < |p| - 1 :: Linked(g, p[i], p[i + 1])
  }

  // root lies behind id, at least one link away.
  ghost predicate LeadsTo(g: Schema, id: NodeId, root: NodeId) {
    exists p :: |p| > 1 && p[0] == id && p[|p| - 1] == root && Chain(g, p)
  }

  lemma LinksAreLinked(g: Schema, id: NodeId, order: Iteration, i: nat)
    requires id in g && i < |Links(g[id], order)|
    ensures Linked(g, id, Links(g[id], order)[i])
  {
    var n := g[id];
    var names := Declared(order(n), n.properties);
    if i < |names| {
      assert names[i] in names;
      assert n.properties[names[i]] in n.properties.Values;
    }
  }

  lemma Prepend(g: Schema, a: NodeId, b: NodeId, root: NodeId)
    requires Linked(g, a, b) && LeadsTo(g, b, root)
    ensures LeadsTo(g, a, root)
  {
    var p :| |p| > 1 && p[0] == b && p[|p| - 1] == root && Chain(g, p);
    var q := [a] + p;
    forall i | 0 <= i < |q| - 1
      ensures Linked(g, q[i], q[i + 1])
    {
      if i > 0 {
        assert q[i] == p[i - 1] && q[i + 1] == p[i];
      }
    }
    assert |q| > 1 && q[0] == a && q[|q| - 1] == root && Chain(g, q);
  }

  lemma {:induction false} ContainsIsSound(g: Schema, root: NodeId, id: NodeId, depth: nat, seen: set<NodeId>,
                                           order: Iteration)
    requires depth <= MAX_SEARCH_DEPTH + 1 && Contains(g, root, id, depth, seen, order).yes
    ensures LeadsTo(g, id, root)
    decreases MAX_SEARCH_DEPTH + 1 - depth, 2, 0
  {
    ContainsAnyIsSound(g, root, id, 0, depth, seen + {id}, order);
  }

  lemma {:induction false} ContainsAnyIsSound(g: Schema, root: NodeId, id: NodeId, k: nat, depth: nat,
                                              seen: set<NodeId>,
                                              order: Iteration)
    requires depth <= MAX_SEARCH_DEPTH && id in g && k <= |Links(g[id], order)|
    requires ContainsAny(g, root, Links(g[id], order)[k..], depth, seen, order).yes
    ensures LeadsTo(g, id, root)
    decreases MAX_SEARCH_DEPTH + 1 - depth, 1, |Links(g[id], order)| - k
  {
    var links := Links(g[id], order);
    LinksAreLinked(g, id, order, k);
    if links[k] == root {
      var p := [id, root];
      assert |p| > 1 && p[0] == id && p[|p| - 1] == root && Chain(g, p);
    } else {
      var r := Contains(g, root, links[k], depth + 1, seen, order);
      if r.yes {
        ContainsIsSound(g, root, links[k], depth + 1, seen, order);
        Prepend(g, id, links[k], root);
      } else {
        assert links[k..][1..] == links[k + 1..];
        ContainsAnyIsSound(g, root, id, k + 1, depth, r.seen, order);
      }
    }
  }

  // Only nodes on a cycle are ever called self-referential, in whatever order the maps are walked.
  lemma HitMeansCycle(g: Schema, id: NodeId, order: Iteration)
    requires HasSelfReference(g, id, order)
    ensures LeadsTo(g, id, id)
  {
    ContainsIsSound(g, id, id, 0, {}, order);
  }

  // ---- what a miss means ----

  // Walking a map yields all its keys.
  predicate Complete(g: Schema, order: Iteration) {
    forall x, k | x in g && k in g[x].properties :: k in order(g[x])
  }

  lemma LinkedIsLink(g: Schema, a: NodeId, b: NodeId, order: Iteration) returns (i: nat)
    requires Complete(g, order) && Linked(g, a, b)
    ensures i < |Links(g[a], order)| && Links(g[a], order)[i] == b
  {
    var n := g[a];
    var names := Declared(order(n), n.properties);
    if b in n.properties.Values {
      var k :| k in n.properties && n.properties[k] == b;
      assert k in order(n);
      i :| 0 <= i < |names| && names[i] == k;
      assert PropertyTargets(names, n.properties)[i] == b;
    } else if b == n.items {
      i := |names|;
    } else {
      var j :| 0 <= j < |n.variants| && n.variants[j] == b;
      i := |names| + 1 + j;
    }
  }

  // Nothing x points to is the root, and all of it has been visited.
  ghost predicate Done(g: Schema, root: NodeId, x: NodeId, seen: set<NodeId>) {
    forall y | Linked(g, x, y) :: y != root && (y in g ==> y in seen)
  }

  // A part of the schema that no link leaves.
  ghost predicate Closed(g: Schema, R: set<NodeId>) {
    forall x, y | x in R && Linked(g, x, y) && y in g :: y in R
  }

  // A search that finds nothing has finished with every node that it newly visited: each level visits one more node, so
  // the cap is not met.
  lemma {:induction false} ContainsMissed(g: Schema, root: NodeId, id: NodeId, depth: nat, seen: set<NodeId>,
                                          order: Iteration, R: set<NodeId>)
    requires depth <= MAX_SEARCH_DEPTH + 1 && |R| <= MAX_SEARCH_DEPTH + 1 && Closed(g, R) && Complete(g, order)
    requires (id in g ==> id in R) && seen <= R && depth <= |seen| && !Contains(g, root, id, depth, seen, order).yes
    ensures
      var r := Contains(g, root, id, depth, seen, order).seen;
      seen <= r <= R && (id in g ==> id in r) && forall x | x in r - seen :: Done(g, root, x, r)
    decreases MAX_SEARCH_DEPTH + 1 - depth, 2, 0
  {
    hide Links, Linked, Done, Complete;
    if id in g && id !in seen {
      SubsetSize(seen + {id}, R);
      AnyMissed(g, root, id, 0, depth, seen + {id}, order, R);
      assert Links(g[id], order)[0..] == Links(g[id], order);
      var r := Contains(g, root, id, depth, seen, order).seen;
      LinksDone(g, root, id, r, order);
    }
  }

  lemma LinksDone(g: Schema, root: NodeId, id: NodeId, seen: set<NodeId>, order: Iteration)
    requires id in g && Complete(g, order)
    requires forall j | 0 <= j < |Links(g[id], order)| ::
               Links(g[id], order)[j] != root && (Links(g[id], order)[j] in g ==> Links(g[id], order)[j] in seen)
    ensures Done(g, root, id, seen)
  {
    forall y | Linked(g, id, y)
      ensures y != root && (y in g ==> y in seen)
    {
      var i := LinkedIsLink(g, id, y, order);
    }
  }

  lemma {:induction false} AnyMissed(g: Schema, root: NodeId, id: NodeId, k: nat, depth: nat, seen: set<NodeId>,
                                     order: Iteration, R: set<NodeId>)
    requires depth <= MAX_SEARCH_DEPTH && |R| <= MAX_SEARCH_DEPTH + 1 && Closed(g, R) && Complete(g, order)
    requires id in g && id in R && k <= |Links(g[id], order)| && seen <= R && depth < |seen|
    requires !ContainsAny(g, root, Links(g[id], order)[k..], depth, seen, order).yes
    ensures
      var links, r := Links(g[id], order), ContainsAny(g, root, Links(g[id], order)[k..], depth, seen, order).seen;
      && seen <= r <= R && (forall x | x in r - seen :: Done(g, root, x, r))
      && forall j | k <= j < |links| :: links[j] != root && (links[j] in g ==> links[j] in r)
    decreases MAX_SEARCH_DEPTH + 1 - depth, 1, |Links(g[id], order)| - k
  {
    hide Links, Linked, Complete, Contains;
    var links := Links(g[id], order);
    if k < |links| {
      assert links[k..][0] == links[k] && links[k..][1..] == links[k + 1..];
      LinksAreLinked(g, id, order, k);
      var found := Contains(g, root, links[k], depth + 1, seen, order);
      ContainsMissed(g, root, links[k], depth + 1, seen, order, R);
      SubsetSize(seen, found.seen);
      AnyMissed(g, root, id, k + 1, depth, found.seen, order, R);
      var r := ContainsAny(g, root, links[k + 1..], depth, found.seen, order).seen;
      hide ContainsAny, Done;
      forall x | x in r - seen
        ensures Done(g, root, x, r)
      {
        if x in found.seen {
          DoneMore(g, root, x, found.seen, r);
        }
      }
    }
  }

  lemma DoneMore(g: Schema, root: NodeId, x: NodeId, seen: set<NodeId>, more: set<NodeId>)
    requires Done(g, root, x, seen) && seen <= more
    ensures Done(g, root, x, more)
  {
  }

  lemma {:induction false} ClosedNeverReturns(g: Schema, root: NodeId, p: seq<NodeId>, seen: set<NodeId>)
    requires |p| > 1 && p[0] in seen && Chain(g, p) && p[|p| - 1] == root
    requires forall x | x in seen :: Done(g, root, x, seen)
    ensures false
    decreases |p|
  {
    assert Linked(g, p[0], p[1]) && Done(g, root, p[0], seen);
    if |p| > 2 {
      assert Linked(g, p[1], p[2]);
      var q := p[1..];
      forall i | 0 <= i < |q| - 1
        ensures Linked(g, q[i], q[i + 1])
      {
        assert Linked(g, p[i + 1], p[i + 2]);
      }
      ClosedNeverReturns(g, root, q, seen);
    }
  }

  // Where at most thirteen nodes can be reached from a node, the search finds every cycle through it, in whatever order
  // the maps are walked.
  lemma SearchIsExact(g: Schema, id: NodeId, order: Iteration, R: set<NodeId>)
    requires id in R && Closed(g, R) && |R| <= 13 && Complete(g, order)
    ensures HasSelfReference(g, id, order) <==> LeadsTo(g, id, id)
  {
    hide Contains, Linked, Done, Complete, Closed;
    if HasSelfReference(g, id, order) {
      HitMeansCycle(g, id, order);
    } else if p :| |p| > 1 && p[0] == id && p[|p| - 1] == id && Chain(g, p) {
      ContainsMissed(g, id, id, 0, {}, order, R);
      assert id in g by {
        ChainStarts(g, p);
      }
      ClosedNeverReturns(g, id, p, Contains(g, id, id, 0, {}, order).seen);
    }
  }

  lemma ChainStarts(g: Schema, p: seq<NodeId>)
    requires |p| > 1 && Chain(g, p)
    ensures p[0] in g
  {
    assert Linked(g, p[0], p[1]);
  }

  // ---- one node more is too many ----

  const ARRAY_OF_NOTHING := SchemaNode(ArrayType, false, map[], [], [], false, Nil, None, None, [], None, StringType,
                                       "", [], "", None, None, None, None)

  function UpTo(n: nat): (r: set<NodeId>)
    ensures forall i :: i in r <==> 1 <= i <= n
  {
    if n == 0 then {} else UpTo(n - 1) + {n}
  }

  // Arrays 1, ..., n, each of the next, the last of the first.
  function Ring(n: nat): Schema {
    map i | i in UpTo(n) :: ARRAY_OF_NOTHING.(items := if i == n then 1 else i + 1)
  }

  lemma {:induction false} NothingDeclared(names: seq<string>)
    ensures Declared(names, map[]) == []
  {
    if names != [] {
      NothingDeclared(names[1..]);
    }
  }

  lemma RingLinks(n: nat, i: nat, order: Iteration)
    requires 1 <= i <= n
    ensures i in Ring(n) && Links(Ring(n)[i], order) == [if i == n then 1 else i + 1]
  {
    NothingDeclared(order(Ring(n)[i]));
  }

  lemma {:induction false} RingCut(n: nat, k: nat, order: Iteration)
    requires n > MAX_SEARCH_DEPTH + 1 && 1 <= k <= MAX_SEARCH_DEPTH + 2
    ensures !Contains(Ring(n), 1, k, k - 1, UpTo(k - 1), order).yes
    decreases MAX_SEARCH_DEPTH + 2 - k
  {
    hide Ring, Links;
    if k <= MAX_SEARCH_DEPTH + 1 {
      RingLinks(n, k, order);
      var links, next := Links(Ring(n)[k], order), k + 1;
      assert links[0] == next && links[1..] == [];
      RingCut(n, next, order);
      assert !ContainsAny(Ring(n), 1, links, k - 1, UpTo(k), order).yes;
    }
  }

  // A longer ring is a cycle that the search misses.
  lemma LongRingMissed(n: nat, order: Iteration)
    requires n > 13
    ensures |Ring(n)| == n && LeadsTo(Ring(n), 1, 1) && !HasSelfReference(Ring(n), 1, order)
  {
    assert UpTo(0) == {};
    RingCut(n, 1, order);
    RingSize(n);
    var p := seq(n + 1, i => if i == n then 1 else i + 1);
    forall i | 0 <= i < |p| - 1
      ensures Linked(Ring(n), p[i], p[i + 1])
    {
    }
    assert |p| > 1 && p[0] == 1 && p[|p| - 1] == 1 && Chain(Ring(n), p);
  }

  lemma RingSize(n: nat)
    ensures |Ring(n)| == n
  {
    CountTo(n);
    assert Ring(n).Keys == UpTo(n);
  }

  lemma {:induction false} CountTo(n: nat)
    ensures |UpTo(n)| == n
  {
    if n > 0 {
      CountTo(n - 1);
    }
  }
}
