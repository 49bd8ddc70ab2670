// The positions collectBodySites offers to an operator, and what replacing the value at one of them does to the
// conformance of the whole body.
module BodySites {
  import opened Wrappers
  import opened BodyTree
  import opened BodySchema
  import opened BodyBuild

  datatype Site = Site(path: Path, schema: NodeId)

  // Schema and value walked together, parents first; nothing is looked at below a oneOf/anyOf.
  function Sites(g: Schema, id: NodeId, t: Tree, p: Path): seq<Site>
    decreases t, 1
  {
    if id !in g then []
    else
      [Site(p, id)] +
      if IsVariant(g[id]) then []
      else
        match t
        case Obj(_, fields) => FieldSites(g, g[id], fields, 0, p)
        case Arr(_, items) => ItemSites(g, g[id].items, items, 0, p)
        case _ => []
  }

  function FieldSites(g: Schema, n: SchemaNode, fields: seq<Field>, k: nat, p: Path): seq<Site>
    requires k <= |fields|
    decreases fields, |fields| - k
  {
    if k == |fields| then []
    else
      (if fields[k].key in n.properties then Sites(g, n.properties[fields[k].key], fields[k].value, p + [k]) else [])
      + FieldSites(g, n, fields, k + 1, p)
  }

  function ItemSites(g: Schema, id: NodeId, items: seq<Tree>, k: nat, p: Path): seq<Site>
    requires k <= |items|
    decreases items, |items| - k
  {
    if k == |items| then [] else Sites(g, id, items[k], p + [k]) + ItemSites(g, id, items, k + 1, p)
  }

  // The schema node of child k.
  function KidSchema(g: Schema, n: SchemaNode, t: Tree, k: nat): Option<NodeId>
    requires k < NKids(t)
  {
    match t
    case Obj(_, fields) => if fields[k].key in n.properties then Some(n.properties[fields[k].key]) else None
    case Arr(_, _) => Some(n.items)
  }

  // The same positions, described by their paths.
  predicate IsSite(g: Schema, id: NodeId, t: Tree, p: Path, sid: NodeId)
    decreases |p|
  {
    && id in g
    && if p == [] then sid == id
       else
         && !IsVariant(g[id]) && p[0] < NKids(t)
         && KidSchema(g, g[id], t, p[0]).Some?
         && IsSite(g, KidSchema(g, g[id], t, p[0]).value, Kid(t, p[0]), p[1..], sid)
  }

  lemma {:induction false} IsSiteValid(g: Schema, id: NodeId, t: Tree, p: Path, sid: NodeId)
    requires IsSite(g, id, t, p, sid)
    ensures ValidPath(t, p) && sid in g
    decreases |p|
  {
    if p != [] {
      IsSiteValid(g, KidSchema(g, g[id], t, p[0]).value, Kid(t, p[0]), p[1..], sid);
    }
  }

  lemma {:induction false} SitesAre(g: Schema, id: NodeId, t: Tree, p: Path, s: Site)
    requires s in Sites(g, id, t, p)
    ensures |s.path| >= |p| && s.path[..|p|] == p && IsSite(g, id, t, s.path[|p|..], s.schema)
    decreases t, 1
  {
    if s != Site(p, id) {
      match t
      case Obj(_, fields) => FieldSitesAre(g, id, t, 0, p, s);
      case Arr(_, items) => ItemSitesAre(g, id, t, 0, p, s);
      case _ =>
    }
  }

  lemma {:induction false} FieldSitesAre(g: Schema, id: NodeId, t: Tree, k: nat, p: Path, s: Site)
    requires id in g && !IsVariant(g[id]) && t.Obj? && k <= |t.fields| && s in FieldSites(g, g[id], t.fields, k, p)
    ensures |s.path| >= |p| && s.path[..|p|] == p && IsSite(g, id, t, s.path[|p|..], s.schema)
    decreases t, 0, |t.fields| - k
  {
    var f := t.fields[k];
    if f.key in g[id].properties && s in Sites(g, g[id].properties[f.key], f.value, p + [k]) {
      SitesAre(g, g[id].properties[f.key], f.value, p + [k], s);
      assert s.path[..|p|] == s.path[..|p| + 1][..|p|];
      assert s.path[|p|..][1..] == s.path[|p| + 1..];
      assert s.path[|p|] == s.path[..|p| + 1][|p|];
    } else {
      FieldSitesAre(g, id, t, k + 1, p, s);
    }
  }

  lemma {:induction false} ItemSitesAre(g: Schema, id: NodeId, t: Tree, k: nat, p: Path, s: Site)
    requires id in g && !IsVariant(g[id]) && t.Arr? && k <= |t.items| && s in ItemSites(g, g[id].items, t.items, k, p)
    ensures |s.path| >= |p| && s.path[..|p|] == p && IsSite(g, id, t, s.path[|p|..], s.schema)
    decreases t, 0, |t.items| - k
  {
    if s in Sites(g, g[id].items, t.items[k], p + [k]) {
      SitesAre(g, g[id].items, t.items[k], p + [k], s);
      assert s.path[..|p|] == s.path[..|p| + 1][..|p|];
      assert s.path[|p|..][1..] == s.path[|p| + 1..];
      assert s.path[|p|] == s.path[..|p| + 1][|p|];
    } else {
      ItemSitesAre(g, id, t, k + 1, p, s);
    }
  }

  // Every position of that description is offered.
  lemma {:induction false} SitesAll(g: Schema, id: NodeId, t: Tree, p: Path, q: Path, sid: NodeId)
    requires IsSite(g, id, t, q, sid)
    ensures Site(p + q, sid) in Sites(g, id, t, p)
    decreases |q|
  {
    if q == [] {
      assert p + q == p;
    } else {
      var child := KidSchema(g, g[id], t, q[0]).value;
      SitesAll(g, child, Kid(t, q[0]), p + [q[0]], q[1..], sid);
      assert p + [q[0]] + q[1..] == p + q;
      match t
      case Obj(_, fields) => FieldSitesFrom(g, g[id], fields, 0, q[0], p, Site(p + q, sid));
      case Arr(_, items) => ItemSitesFrom(g, g[id].items, items, 0, q[0], p, Site(p + q, sid));
    }
  }

  lemma {:induction false} FieldSitesFrom(g: Schema, n: SchemaNode, fields: seq<Field>, k: nat, i: nat, p: Path,
                                          s: Site)
    requires k <= i < |fields| && fields[i].key in n.properties
    requires s in Sites(g, n.properties[fields[i].key], fields[i].value, p + [i])
    ensures s in FieldSites(g, n, fields, k, p)
    decreases i - k
  {
    hide Sites;
    if k < i {
      FieldSitesFrom(g, n, fields, k + 1, i, p, s);
    }
  }

  lemma {:induction false} ItemSitesFrom(g: Schema, id: NodeId, items: seq<Tree>, k: nat, i: nat, p: Path, s: Site)
    requires k <= i < |items| && s in Sites(g, id, items[i], p + [i])
    ensures s in ItemSites(g, id, items, k, p)
    decreases i - k
  {
    hide Sites;
    if k < i {
      ItemSitesFrom(g, id, items, k + 1, i, p, s);
    }
  }

  lemma SitesIff(g: Schema, id: NodeId, t: Tree, p: Path, sid: NodeId)
    ensures Site(p, sid) in Sites(g, id, t, []) <==> IsSite(g, id, t, p, sid)
  {
    if Site(p, sid) in Sites(g, id, t, []) {
      SitesAre(g, id, t, [], Site(p, sid));
      assert p[0..] == p;
    }
    if IsSite(g, id, t, p, sid) {
      SitesAll(g, id, t, [], p, sid);
      assert [] + p == p;
    }
  }

  // The sites, step by step: the root, if it has a schema node; then, below a node that is no oneOf/anyOf, every
  // declared field of an object and every item of an array.
  lemma SiteSnoc(g: Schema, id: NodeId, t: Tree, p: Path, k: nat, sid: NodeId)
    requires ValidPath(t, p)
    ensures IsSite(g, id, t, [], sid) <==> sid == id && id in g
    ensures IsSite(g, id, t, p + [k], sid) ==>
              exists mid :: IsSite(g, id, t, p, mid) && LeadsOn(g, mid, At(t, p), k, sid)
    ensures (exists mid :: IsSite(g, id, t, p, mid) && LeadsOn(g, mid, At(t, p), k, sid)) ==>
            IsSite(g, id, t, p + [k], sid)
  {
    assert IsSite(g, id, t, [], sid) <==> sid == id && id in g;
    hide IsSite, LeadsOn;
    if IsSite(g, id, t, p + [k], sid) {
      var mid := SiteAbove(g, id, t, p, k, sid);
    }
    forall mid | IsSite(g, id, t, p, mid) && LeadsOn(g, mid, At(t, p), k, sid)
      ensures IsSite(g, id, t, p + [k], sid)
    {
      SiteBelow(g, id, t, p, k, mid, sid);
    }
  }

  lemma {:induction false} SiteAbove(g: Schema, id: NodeId, t: Tree, p: Path, k: nat, sid: NodeId)
    returns (mid: NodeId)
    requires ValidPath(t, p) && IsSite(g, id, t, p + [k], sid)
    ensures IsSite(g, id, t, p, mid) && LeadsOn(g, mid, At(t, p), k, sid)
    decreases |p|
  {
    if p == [] {
      assert p + [k] == [k];
      OneStep(g, id, t, k, sid);
      mid := id;
    } else {
      assert (p + [k])[1..] == p[1..] + [k];
      mid := SiteAbove(g, KidSchema(g, g[id], t, p[0]).value, Kid(t, p[0]), p[1..], k, sid);
    }
  }

  lemma {:induction false} SiteBelow(g: Schema, id: NodeId, t: Tree, p: Path, k: nat, mid: NodeId, sid: NodeId)
    requires ValidPath(t, p) && IsSite(g, id, t, p, mid) && LeadsOn(g, mid, At(t, p), k, sid)
    ensures IsSite(g, id, t, p + [k], sid)
    decreases |p|
  {
    if p == [] {
      assert p + [k] == [k];
      OneStep(g, id, t, k, sid);
    } else {
      assert (p + [k])[1..] == p[1..] + [k];
      SiteBelow(g, KidSchema(g, g[id], t, p[0]).value, Kid(t, p[0]), p[1..], k, mid, sid);
    }
  }

  lemma OneStep(g: Schema, id: NodeId, t: Tree, k: nat, sid: NodeId)
    ensures IsSite(g, id, t, [k], sid) <==> LeadsOn(g, id, t, k, sid)
  {
    assert [k][1..] == [];
    if id in g && !IsVariant(g[id]) && k < NKids(t) && KidSchema(g, g[id], t, k).Some? {
      assert IsSite(g, KidSchema(g, g[id], t, k).value, Kid(t, k), [k][1..], sid)
        <==> KidSchema(g, g[id], t, k).value == sid && sid in g;
    }
  }

  predicate LeadsOn(g: Schema, mid: NodeId, u: Tree, k: nat, sid: NodeId) {
    && mid in g && sid in g && !g[mid].nodeType.OneOf? && !g[mid].nodeType.AnyOf?
    && match u
       case Obj(_, fields) =>
         k < |fields| && fields[k].key in g[mid].properties && g[mid].properties[fields[k].key] == sid
       case Arr(_, items) => k < |items| && g[mid].items == sid
       case _ => false
  }

  // No site meets P, which sees the site's schema node and its value.
  ghost predicate NoSite(g: Schema, id: NodeId, t: Tree, P: (NodeId, Tree) -> bool) {
    forall p: Path, sid: NodeId {:trigger IsSite(g, id, t, p, sid)} |
      IsSite(g, id, t, p, sid) && ValidPath(t, p) :: !P(sid, At(t, p))
  }

  // Every site that meets P is listed.
  ghost predicate Covered(g: Schema, id: NodeId, t: Tree, specs: seq<Site>, P: (NodeId, Tree) -> bool) {
    forall p: Path, sid: NodeId {:trigger IsSite(g, id, t, p, sid)} |
      IsSite(g, id, t, p, sid) && ValidPath(t, p) && P(sid, At(t, p)) :: Site(p, sid) in specs
  }

  lemma CoveredNone(g: Schema, id: NodeId, t: Tree, P: (NodeId, Tree) -> bool, Q: (NodeId, Tree) -> bool)
    requires Covered(g, id, t, [], P) && forall sid, u :: Q(sid, u) && sid in g ==> P(sid, u)
    ensures NoSite(g, id, t, Q)
  {
    forall p: Path, sid: NodeId | IsSite(g, id, t, p, sid) && ValidPath(t, p)
      ensures !Q(sid, At(t, p))
    {
      IsSiteValid(g, id, t, p, sid);
    }
  }

  // ---- one site only ----

  predicate Diverge(p: Path, q: Path) {
    p != [] && q != [] && (p[0] != q[0] || Diverge(p[1..], q[1..]))
  }

  // Replacing the value at p leaves everything that is not on the way to p or below it as it was.
  lemma {:induction false} ElsewhereUnchanged(t: Tree, p: Path, u: Tree, q: Path)
    requires ValidPath(t, p) && ValidPath(t, q) && Diverge(p, q)
    ensures ValidPath(Plug(t, p, u), q) && At(Plug(t, p, u), q) == At(t, q)
  {
    if p[0] == q[0] {
      ElsewhereUnchanged(Kid(t, p[0]), p[1..], u, q[1..]);
    }
  }

  // ---- conformance at a site decides conformance of the body ----

  lemma KeysOfWithKid(t: Tree, k: nat, u: Tree)
    requires t.Obj? && k < |t.fields|
    ensures WithKid(t, k, u).Obj? && Keys(WithKid(t, k, u).fields) == Keys(t.fields)
  {
  }

  lemma {:induction false} ParallelAt(g: Schema, id: NodeId, t: Tree, p: Path, sid: NodeId)
    requires Parallel(g, id, t) && IsSite(g, id, t, p, sid)
    ensures ValidPath(t, p) && Parallel(g, sid, At(t, p))
    decreases |p|
  {
    if p != [] {
      ParallelAt(g, KidSchema(g, g[id], t, p[0]).value, Kid(t, p[0]), p[1..], sid);
    }
  }

  lemma {:induction false} ConformsAt(g: Schema, id: NodeId, t: Tree, p: Path, sid: NodeId, h: nat)
    requires Parallel(g, id, t) && IsSite(g, id, t, p, sid) && Conforms(g, id, t, h)
    ensures ValidPath(t, p) && Conforms(g, sid, At(t, p), h)
    decreases |p|
  {
    if p != [] {
      var child, k := KidSchema(g, g[id], t, p[0]).value, Kid(t, p[0]);
      assert h > 0 && Conforms(g, child, k, h - 1);
      ConformsAt(g, child, k, p[1..], sid, h - 1);
      ConformsMore(g, sid, At(k, p[1..]), h - 1, h);
    }
  }

  // A conforming value may be put there ...
  lemma {:induction false} PlugConforms(g: Schema, id: NodeId, t: Tree, p: Path, sid: NodeId, u: Tree, h: nat)
    requires Parallel(g, id, t) && IsSite(g, id, t, p, sid) && Conforms(g, id, t, h) && Conforms(g, sid, u, h)
    ensures ValidPath(t, p) && Conforms(g, id, Plug(t, p, u), h + |p|)
    decreases |p|
  {
    if p != [] {
      var n, k := g[id], p[0];
      var child, kid := KidSchema(g, n, t, k).value, Kid(t, k);
      assert h > 0 && Conforms(g, child, kid, h - 1);
      ConformsMore(g, child, kid, h - 1, h);
      PlugConforms(g, child, kid, p[1..], sid, u, h);
      KidsConform(g, id, t, k, Plug(kid, p[1..], u), h, |p|);
    }
  }

  lemma KidsConform(g: Schema, id: NodeId, t: Tree, k: nat, v: Tree, h: nat, more: nat)
    requires id in g && !IsVariant(g[id]) && k < NKids(t) && Parallel(g, id, t) && h > 0 && Conforms(g, id, t, h)
    requires KidSchema(g, g[id], t, k).Some? && more > 0
    requires Conforms(g, KidSchema(g, g[id], t, k).value, v, h + more - 1)
    ensures Conforms(g, id, WithKid(t, k, v), h + more)
  {
    var n := g[id];
    ConformsMore(g, id, t, h, h + more);
    match t
    case Obj(_, fields) =>
      KeysOfWithKid(t, k, v);
      assert FieldsConform(g, n, fields, h + more - 1);
    case Arr(_, items) =>
      assert ItemsConform(g, n.items, items, h + more - 1);
    case _ =>
  }

  // ... and only a conforming value.
  lemma {:induction false} PlugConformsOnly(g: Schema, id: NodeId, t: Tree, p: Path, sid: NodeId, u: Tree, h: nat)
    requires Parallel(g, id, t) && IsSite(g, id, t, p, sid)
    requires ValidPath(t, p) && Conforms(g, id, Plug(t, p, u), h)
    ensures Conforms(g, sid, u, h)
    decreases |p|
  {
    if p != [] {
      var n, k := g[id], p[0];
      var child, v := KidSchema(g, n, t, k).value, Plug(Kid(t, k), p[1..], u);
      var r := WithKid(t, k, v);
      assert Kid(r, k) == v && KidSchema(g, n, r, k) == Some(child);
      assert h > 0 && Conforms(g, child, v, h - 1);
      PlugConformsOnly(g, child, Kid(t, k), p[1..], sid, u, h - 1);
      ConformsMore(g, sid, u, h - 1, h);
    }
  }

  // In a conforming body in step with its schema, replacing the value at a site keeps the body conforming if and only
  // if the new value conforms to the site's schema.
  lemma SiteDecides(g: Schema, id: NodeId, t: Tree, p: Path, sid: NodeId, u: Tree)
    requires Parallel(g, id, t) && Conforming(g, id, t) && IsSite(g, id, t, p, sid)
    ensures ValidPath(t, p)
    ensures Conforming(g, id, Plug(t, p, u)) <==> Conforming(g, sid, u)
  {
    IsSiteValid(g, id, t, p, sid);
    var h: nat :| Conforms(g, id, t, h);
    if Conforming(g, sid, u) {
      var h2: nat :| Conforms(g, sid, u, h2);
      var m := Max(h, h2);
      ConformsMore(g, id, t, h, m);
      ConformsMore(g, sid, u, h2, m);
      PlugConforms(g, id, t, p, sid, u, m);
    }
    if Conforming(g, id, Plug(t, p, u)) {
      var h2: nat :| Conforms(g, id, Plug(t, p, u), h2);
      PlugConformsOnly(g, id, t, p, sid, u, h2);
    }
  }

  lemma SiteConforms(g: Schema, id: NodeId, t: Tree, p: Path, sid: NodeId)
    requires Parallel(g, id, t) && Conforming(g, id, t) && IsSite(g, id, t, p, sid)
    ensures ValidPath(t, p) && Conforming(g, sid, At(t, p)) && Parallel(g, sid, At(t, p))
  {
    var h: nat :| Conforms(g, id, t, h);
    ConformsAt(g, id, t, p, sid, h);
    ParallelAt(g, id, t, p, sid);
  }
}
