// collectBodySites on the live tree, and the setters it hands out.
module BodyWalk {
  import opened Wrappers
  import opened BodyTree
  import opened BodyValues
  import opened BodySchema
  import opened BodySites
  import opened BodyEdits

  // Where a value hangs: what its setter overwrites. The root's setter overwrites the root node itself.
  datatype Slot = RootSlot | FieldSlot(parent: BodyValue, index: nat) | ItemSlot(parent: BodyValue, index: nat)

  datatype BodySite = BodySite(schema: NodeId, value: BodyValue, slot: Slot)

  ghost predicate Hangs(m: Heap, root: BodyValue, p: Path, parent: BodyValue, index: nat, object': bool) {
    && p != [] && p[|p| - 1] == index && IsAt(m, root, p[..|p| - 1], parent) && parent in m
    && (if object' then m[parent].kind.Object? else m[parent].kind.Array?)
    && index < |ShownKids(m[parent])|
  }

  ghost predicate SiteIs(m: Heap, root: BodyValue, s: BodySite, spec: Site) {
    && s.schema == spec.schema && IsAt(m, root, spec.path, s.value)
    && match s.slot
       case RootSlot => spec.path == []
       case FieldSlot(parent, index) => Hangs(m, root, spec.path, parent, index, true)
       case ItemSlot(parent, index) => Hangs(m, root, spec.path, parent, index, false)
  }

  ghost predicate Matching(m: Heap, root: BodyValue, sites: seq<BodySite>, specs: seq<Site>) {
    |sites| == |specs| && forall i | 0 <= i < |sites| :: SiteIs(m, root, sites[i], specs[i])
  }

  lemma NoSites(m: Heap, root: BodyValue)
    ensures Matching(m, root, [], [])
  {
  }

  lemma MatchingJoin(m: Heap, root: BodyValue, a: seq<BodySite>, x: seq<Site>, b: seq<BodySite>, y: seq<Site>)
    requires Matching(m, root, a, x) && Matching(m, root, b, y)
    ensures Matching(m, root, a + b, x + y)
  {
  }

  // A child of the node at p, as a site.
  lemma ChildSite(m: Heap, root: BodyValue, p: Path, v: BodyValue, i: nat, sid: NodeId)
    requires IsAt(m, root, p, v) && v in m && i < |ShownKids(m[v])|
    ensures
      var slot := if m[v].kind.Object? then FieldSlot(v, i) else ItemSlot(v, i);
      SiteIs(m, root, BodySite(sid, ShownKids(m[v])[i], slot), Site(p + [i], sid))
  {
    IsAtSnoc(m, root, p, v, i);
    assert (p + [i])[..|p + [i]| - 1] == p;
  }

  lemma Shift(done: seq<Site>, specs: seq<Site>, rest: seq<Site>, all: seq<Site>)
    requires done + (specs + rest) == all
    ensures (done + specs) + rest == all
  {
  }

  // ---- the walk ----

  lemma KindShown(m: Heap, v: BodyValue, h: nat)
    requires Owned(m, v, h)
    ensures v in m && (m[v].kind.Object? <==> View(m, v, h).Obj?)
    ensures m[v].kind.Array? <==> View(m, v, h).Arr?
  {
  }

  // All sites, parents first, in the order and number Sites gives for what the tree means.
  method CollectBodySites(g: Schema, schema: NodeId, tree: BodyValue, ghost S: set<BodyValue>, ghost h: nat)
    returns (sites: seq<BodySite>)
    requires Owned(Snap(S), tree, h)
    ensures Matching(Snap(S), tree, sites, Sites(g, schema, View(Snap(S), tree, h), []))
  {
    sites := Walk(g, schema, tree, RootSlot, S, h, tree, []);
  }

  method Walk(g: Schema, schema: NodeId, value: BodyValue, slot: Slot, ghost S: set<BodyValue>, ghost h: nat,
              ghost root: BodyValue, ghost p: Path)
    returns (sites: seq<BodySite>)
    requires Owned(Snap(S), value, h) && SiteIs(Snap(S), root, BodySite(schema, value, slot), Site(p, schema))
    ensures Matching(Snap(S), root, sites, Sites(g, schema, View(Snap(S), value, h), p))
    decreases h, 0
  {
    hide Owned, Foot, View, IsAt;
    KindShown(Snap(S), value, h);
    if schema !in g {
      return [];
    }
    sites := [BodySite(schema, value, slot)];
    if IsVariant(g[schema]) {
      return;
    }
    var more: seq<BodySite> := [];
    if value.kind == Object {
      more := WalkFields(g, g[schema], value, S, h, root, p);
    } else if value.kind == Array {
      more := WalkItems(g, g[schema].items, value, S, h, root, p);
    }
    sites := sites + more;
  }

  ghost function ShownFields(m: Heap, v: BodyValue, h: nat): (r: seq<Field>)
    requires v in m && Owned(m, v, h) && m[v].kind.Object?
    ensures View(m, v, h).Obj? && r == View(m, v, h).fields && |r| == |m[v].fields|
    ensures forall i {:trigger r[i]} | 0 <= i < |r| :: r[i].key == m[v].fields[i].key
  {
    View(m, v, h).fields
  }

  ghost function ShownItems(m: Heap, v: BodyValue, h: nat): (r: seq<Tree>)
    requires v in m && Owned(m, v, h) && m[v].kind.Array?
    ensures View(m, v, h).Arr? && r == View(m, v, h).items && |r| == |m[v].items|
  {
    View(m, v, h).items
  }

  method WalkFields(g: Schema, n: SchemaNode, value: BodyValue, ghost S: set<BodyValue>, ghost h: nat,
                    ghost root: BodyValue, ghost p: Path)
    returns (sites: seq<BodySite>)
    requires Owned(Snap(S), value, h) && IsAt(Snap(S), root, p, value) && value.kind == Object
    ensures Matching(Snap(S), root, sites, FieldSites(g, n, View(Snap(S), value, h).fields, 0, p))
    decreases h, 0, 2
  {
    ghost var m, fields := Snap(S), ShownFields(Snap(S), value, h);
    hide *;
    ghost var done: seq<Site> := [];
    sites := [];
    NoSites(m, root);
    var i := 0;
    while i < |value.fields|
      invariant i <= |value.fields| == |fields| && Snap(S) == m
      invariant done + FieldSites(g, n, fields, i, p) == FieldSites(g, n, fields, 0, p)
      invariant Matching(m, root, sites, done)
    {
      ghost var later := FieldSites(g, n, fields, i + 1, p);
      var more; ghost var specs;
      more, specs := WalkNext(g, n, value, i, S, h, root, p, later);
      MatchingJoin(m, root, sites, done, more, specs);
      Shift(done, specs, later, FieldSites(g, n, fields, 0, p));
      sites, done := sites + more, done + specs;
      i := i + 1;
    }
    FieldSitesEnd(g, n, fields, p);
  }

  // A field the schema declares leads on, any other is passed over.
  method WalkNext(g: Schema, n: SchemaNode, value: BodyValue, i: nat, ghost S: set<BodyValue>, ghost h: nat,
                  ghost root: BodyValue, ghost p: Path, ghost later: seq<Site>)
    returns (more: seq<BodySite>, ghost specs: seq<Site>)
    requires Owned(Snap(S), value, h) && IsAt(Snap(S), root, p, value) && value.kind == Object && i < |value.fields|
    requires |ShownFields(Snap(S), value, h)| == |value.fields|
    requires later == FieldSites(g, n, ShownFields(Snap(S), value, h), i + 1, p)
    ensures Matching(Snap(S), root, more, specs)
    ensures FieldSites(g, n, ShownFields(Snap(S), value, h), i, p) == specs + later
    decreases h, 0, 1
  {
    ghost var fields := ShownFields(Snap(S), value, h);
    hide *;
    FieldSitesNext(g, n, fields, i, p);
    more, specs := [], [];
    var propName := value.fields[i].key;
    if propName in n.properties {
      more := WalkField(g, n.properties[propName], value, i, S, h, h - 1, root, p);
      specs := Sites(g, n.properties[propName], fields[i].value, p + [i]);
    } else {
      NoSites(Snap(S), root);
    }
  }

  lemma FieldSitesNext(g: Schema, n: SchemaNode, fields: seq<Field>, i: nat, p: Path)
    requires i < |fields|
    ensures FieldSites(g, n, fields, i, p)
         == if fields[i].key in n.properties
            then Sites(g, n.properties[fields[i].key], fields[i].value, p + [i]) + FieldSites(g, n, fields, i + 1, p)
            else FieldSites(g, n, fields, i + 1, p)
  {
  }

  lemma FieldSitesEnd(g: Schema, n: SchemaNode, fields: seq<Field>, p: Path)
    ensures FieldSites(g, n, fields, |fields|, p) == []
  {
  }

  method WalkField(g: Schema, id: NodeId, value: BodyValue, i: nat, ghost S: set<BodyValue>, ghost h: nat, ghost k: nat,
                   ghost root: BodyValue, ghost p: Path)
    returns (sites: seq<BodySite>)
    requires Owned(Snap(S), value, h) && IsAt(Snap(S), root, p, value) && value.kind == Object && i < |value.fields|
    requires k == h - 1
    ensures View(Snap(S), value, h).Obj? && |View(Snap(S), value, h).fields| == |value.fields|
    ensures Matching(Snap(S), root, sites, Sites(g, id, View(Snap(S), value, h).fields[i].value, p + [i]))
    decreases h, 0, 0
  {
    ghost var m := Snap(S);
    var kid := value.fields[i].value;
    assert Owned(m, kid, k) && View(m, kid, k) == View(m, value, h).fields[i].value by {
      ShownKidOwned(m, value, h, i);
    }
    ChildSite(m, root, p, value, i, id);
    sites := Walk(g, id, kid, FieldSlot(value, i), S, k, root, p + [i]);
  }

  method WalkItem(g: Schema, id: NodeId, value: BodyValue, i: nat, ghost S: set<BodyValue>, ghost h: nat, ghost k: nat,
                  ghost root: BodyValue, ghost p: Path)
    returns (sites: seq<BodySite>)
    requires Owned(Snap(S), value, h) && IsAt(Snap(S), root, p, value) && value.kind == Array && i < |value.items|
    requires k == h - 1
    ensures View(Snap(S), value, h).Arr? && |View(Snap(S), value, h).items| == |value.items|
    ensures Matching(Snap(S), root, sites, Sites(g, id, View(Snap(S), value, h).items[i], p + [i]))
    decreases h, 0, 0
  {
    ghost var m := Snap(S);
    var kid := value.items[i];
    assert Owned(m, kid, k) && View(m, kid, k) == View(m, value, h).items[i] by {
      ShownKidOwned(m, value, h, i);
    }
    ChildSite(m, root, p, value, i, id);
    sites := Walk(g, id, kid, ItemSlot(value, i), S, k, root, p + [i]);
  }

  method WalkItems(g: Schema, id: NodeId, value: BodyValue, ghost S: set<BodyValue>, ghost h: nat,
                   ghost root: BodyValue, ghost p: Path)
    returns (sites: seq<BodySite>)
    requires Owned(Snap(S), value, h) && IsAt(Snap(S), root, p, value) && value.kind == Array
    ensures Matching(Snap(S), root, sites, ItemSites(g, id, View(Snap(S), value, h).items, 0, p))
    decreases h, 0, 1
  {
    ghost var m, items := Snap(S), ShownItems(Snap(S), value, h);
    hide Owned, Foot, View, IsAt, Sites, Matching;
    ghost var done: seq<Site> := [];
    sites := [];
    NoSites(m, root);
    var i := 0;
    while i < |value.items|
      invariant i <= |value.items| == |items| && Snap(S) == m
      invariant done + ItemSites(g, id, items, i, p) == ItemSites(g, id, items, 0, p)
      invariant Matching(m, root, sites, done)
    {
      var more := WalkItem(g, id, value, i, S, h, h - 1, root, p);
      ghost var specs := Sites(g, id, items[i], p + [i]);
      MatchingJoin(m, root, sites, done, more, specs);
      Shift(done, specs, ItemSites(g, id, items, i + 1, p), ItemSites(g, id, items, 0, p));
      sites, done := sites + more, done + specs;
      i := i + 1;
    }
  }

  // ---- setters ----

  // The body was rewritten at p only: still a tree, now meaning u there.
  ghost predicate Edited(m: Heap, tree: BodyValue, h: nat, m2: Heap, h2: nat, p: Path, u: Tree) {
    && Owned(m2, tree, h2)
    && ValidPath(View(m, tree, h), p)
    && View(m2, tree, h2) == Plug(View(m, tree, h), p, u)
  }

  // One node at p was edited.
  lemma EditedAt(m: Heap, tree: BodyValue, h: nat, p: Path, n: BodyValue, m2: Heap, h2: nat, k: nat, k2: nat)
    requires Owned(m, tree, h) && IsAt(m, tree, p, n) && Agree(m, m2, m.Keys - {n})
    requires k == h - |p| && k2 == h2 - |p| && h <= h2 && Regrown(m, n, k, m2, k2)
    ensures Edited(m, tree, h, m2, h2, p, View(m2, n, k2))
  {
    hide Owned, Regrown, Foot, View, IsAt, Plug, ValidPath;
    assert |p| < h by {
      IsAtOwned(m, tree, h, p, n);
    }
    ChangeAt(m, tree, h, p, n, m2, h2);
  }

  // site.set(nv)
  method Set(site: BodySite, nv: BodyValue, tree: BodyValue, ghost S: set<BodyValue>, ghost h: nat, ghost p: Path,
             ghost F: set<BodyValue>, ghost kf: nat, ghost h2: nat)
    requires Owned(Snap(S), tree, h) && SiteIs(Snap(S), tree, site, Site(p, site.schema))
    requires Owned(Snap(F), nv, kf) && S !! F && h2 == h + kf
    modifies S
    ensures Edited(old(Snap(S)), tree, h, Snap(S + F), h2, p, old(View(Snap(F), nv, kf)))
  {
    match site.slot
    case RootSlot => Overwrite(tree, nv, S, h, F, kf, h2);
    case FieldSlot(parent, index) => SetFieldSlot(parent, index, nv, tree, S, h, p, F, kf, h2);
    case ItemSlot(parent, index) => SetItemSlot(parent, index, nv, tree, S, h, p, F, kf, h2);
  }

  // *tree = *nv
  method Overwrite(tree: BodyValue, nv: BodyValue, ghost S: set<BodyValue>, ghost h: nat, ghost F: set<BodyValue>,
                   ghost kf: nat, ghost h2: nat)
    requires Owned(Snap(S), tree, h) && Owned(Snap(F), nv, kf) && S !! F && h2 == h + kf
    modifies tree
    ensures Edited(old(Snap(S)), tree, h, Snap(S + F), h2, [], old(View(Snap(F), nv, kf)))
  {
    ghost var mf := Snap(F);
    tree.kind, tree.fields, tree.items, tree.str, tree.flag, tree.node :=
      nv.kind, nv.fields, nv.items, nv.str, nv.flag, nv.node;
    ghost var m2 := Snap(S + F);
    Frame(mf, nv, kf, m2, kf);
    RootCopy(m2, tree, nv, kf, F);
    Frame(m2, tree, kf, m2, h2);
  }

  // A copy of the top node of a tree, from outside that tree, is the top of the same tree.
  lemma RootCopy(m: Heap, tree: BodyValue, nv: BodyValue, k: nat, F: set<BodyValue>)
    requires Owned(m, nv, k) && tree in m && m[tree] == m[nv] && Foot(m, nv, k) <= F && tree !in F
    ensures Owned(m, tree, k) && View(m, tree, k) == View(m, nv, k)
  {
    FootUnfold(m, nv, k);
  }

  lemma ParentOf(m: Heap, tree: BodyValue, h: nat, p: Path, parent: BodyValue, index: nat, object': bool)
    requires Owned(m, tree, h) && Hangs(m, tree, p, parent, index, object')
    ensures |p| - 1 < h && Owned(m, parent, h - (|p| - 1))
  {
    IsAtOwned(m, tree, h, p[..|p| - 1], parent);
  }

  // Replacing a child of the parent is replacing the value at p.
  lemma EditedBelow(m: Heap, tree: BodyValue, h: nat, p: Path, parent: BodyValue, index: nat, object': bool, m2: Heap,
                    h2: nat, k: nat, k2: nat, u: Tree)
    requires Owned(m, tree, h) && Hangs(m, tree, p, parent, index, object') && Agree(m, m2, m.Keys - {parent})
    requires k == h - (|p| - 1) && k2 == h2 - (|p| - 1) && h <= h2 && Regrown(m, parent, k, m2, k2)
    requires index < NKids(View(m, parent, k)) && View(m2, parent, k2) == WithKid(View(m, parent, k), index, u)
    ensures Edited(m, tree, h, m2, h2, p, u)
  {
    hide Owned, Foot, View, Regrown, Plug, IsAt;
    var q, t := p[..|p| - 1], View(m, tree, h);
    assert k == h - |q| && IsAt(m, tree, q, parent);
    EditedAt(m, tree, h, q, parent, m2, h2, k, k2);
    IsAtOwned(m, tree, h, q, parent);
    IsAtView(m, tree, h, q, parent);
    PlugSnoc(t, q, index, u);
    assert q + [index] == p;
  }

  method SetFieldSlot(parent: BodyValue, index: nat, nv: BodyValue, ghost tree: BodyValue, ghost S: set<BodyValue>,
                      ghost h: nat, ghost p: Path, ghost F: set<BodyValue>, ghost kf: nat, ghost h2: nat)
    requires Owned(Snap(S), tree, h) && Hangs(Snap(S), tree, p, parent, index, true)
    requires Owned(Snap(F), nv, kf) && S !! F && h2 == h + kf
    modifies parent
    ensures Edited(old(Snap(S)), tree, h, Snap(S + F), h2, p, old(View(Snap(F), nv, kf)))
  {
    ghost var m, mf, k, k2 := Snap(S), Snap(F), h - (|p| - 1), h2 - (|p| - 1);
    ParentOf(m, tree, h, p, parent, index, true);
    SetField(parent, index, nv, S, k, F, kf, k2);
    EditedBelow(m, tree, h, p, parent, index, true, Snap(S + F), h2, k, k2, View(mf, nv, kf));
  }

  method SetItemSlot(parent: BodyValue, index: nat, nv: BodyValue, ghost tree: BodyValue, ghost S: set<BodyValue>,
                     ghost h: nat, ghost p: Path, ghost F: set<BodyValue>, ghost kf: nat, ghost h2: nat)
    requires Owned(Snap(S), tree, h) && Hangs(Snap(S), tree, p, parent, index, false)
    requires Owned(Snap(F), nv, kf) && S !! F && h2 == h + kf
    modifies parent
    ensures Edited(old(Snap(S)), tree, h, Snap(S + F), h2, p, old(View(Snap(F), nv, kf)))
  {
    ghost var m, mf, k, k2 := Snap(S), Snap(F), h - (|p| - 1), h2 - (|p| - 1);
    ParentOf(m, tree, h, p, parent, index, false);
    SetItem(parent, index, nv, S, k, F, kf, k2);
    EditedBelow(m, tree, h, p, parent, index, false, Snap(S + F), h2, k, k2, View(mf, nv, kf));
  }
}
