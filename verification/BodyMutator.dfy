// body_mutate.go: the operators on the live tree. Whatever the random choices are, each either declines and leaves
// every node alone, or changes the meaning of the tree at one site in the way BodyMutate describes, and leaves a tree.
module BodyMutator {
  import opened Wrappers
  import opened BodyTree
  import opened BodyValues
  import opened BodySchema
  import opened BodyBuild
  import opened BodyConformance
  import opened BodySites
  import opened BodyMutate
  import opened BodyAdversarial
  import opened BodyEdits
  import opened BodyWalk
  import opened BodyBuilder
  import opened JsonPrinter
  import opened Decimals
  import opened SelfReference
  import opened SetSizes
  import BodyClone

  // Where an operator worked, and which nodes hold the tree now.
  datatype Done = Done(path: Path, schema: NodeId, nodes: set<BodyValue>, levels: nat)

  // The tree means what it meant, except for u at a site of its schema.
  ghost predicate Replaced(g: Schema, schema: NodeId, m: Heap, tree: BodyValue, h: nat, m2: Heap, d: Done, u: Tree) {
    && Owned(m2, tree, d.levels)
    && IsSite(g, schema, View(m, tree, h), d.path, d.schema) && ValidPath(View(m, tree, h), d.path)
    && View(m2, tree, d.levels) == Plug(View(m, tree, h), d.path, u)
  }

  ghost predicate DidValid(g: Schema, schema: NodeId, m: Heap, tree: BodyValue, h: nat, m2: Heap, d: Done, op: ValidOp,
                           tags: Tags) {
    var t := View(m, tree, h);
    && d.schema in g && ValidPath(t, d.path) && ValidEligible(g, g[d.schema], At(t, d.path), op)
    && Replaced(g, schema, m, tree, h, m2, d, ApplyValid(g, d.schema, At(t, d.path), op, tags))
  }

  ghost predicate DidAdversarial(g: Schema, schema: NodeId, m: Heap, tree: BodyValue, h: nat, m2: Heap, d: Done,
                                 op: AdversarialOp, tags: Tags) {
    var t := View(m, tree, h);
    && d.schema in g && ValidPath(t, d.path) && AdversarialEligible(g, g[d.schema], At(t, d.path), op)
    && Replaced(g, schema, m, tree, h, m2, d, ApplyAdversarial(g, d.schema, At(t, d.path), op, tags))
  }

  // ---- choosing sites ----

  ghost predicate Candidates(g: Schema, schema: NodeId, m: Heap, tree: BodyValue, h: nat, keep: SchemaNode -> bool,
                             sites: seq<BodySite>, specs: seq<Site>) {
    && Matching(m, tree, sites, specs)
    && forall i | 0 <= i < |specs| ::
         specs[i].schema in g && keep(g[specs[i].schema])
             && IsSite(g, schema, View(m, tree, h), specs[i].path, specs[i].schema)
  }

  function Kept(g: Schema, keep: SchemaNode -> bool): (NodeId, Tree) -> bool {
    (sid: NodeId, _) => sid in g && keep(g[sid])
  }

  method CollectWhere(g: Schema, schema: NodeId, tree: BodyValue, keep: SchemaNode -> bool, ghost S: set<BodyValue>,
                      ghost h: nat)
    returns (sites: seq<BodySite>, ghost specs: seq<Site>)
    requires Owned(Snap(S), tree, h)
    ensures Candidates(g, schema, Snap(S), tree, h, keep, sites, specs)
    ensures Covered(g, schema, View(Snap(S), tree, h), specs, Kept(g, keep))
  {
    hide Owned, View, IsSite, Sites, Snap;
    var all := CollectBodySites(g, schema, tree, S, h);
    ghost var m, t := Snap(S), View(Snap(S), tree, h);
    ghost var allSpecs := Sites(g, schema, t, []);
    sites, specs := [], [];
    var i := 0;
    while i < |all|
      invariant i <= |all| && Snap(S) == m
      invariant Candidates(g, schema, m, tree, h, keep, sites, specs)
      invariant forall j | 0 <= j < i :: allSpecs[j].schema in g && keep(g[allSpecs[j].schema]) ==> allSpecs[j] in specs
    {
      assert SiteIs(m, tree, all[i], allSpecs[i]);
      OfferedSite(g, schema, t, allSpecs[i]);
      if keep(g[all[i].schema]) {
        MatchingJoin(m, tree, sites, specs, [all[i]], [allSpecs[i]]);
        sites, specs := sites + [all[i]], specs + [allSpecs[i]];
      }
      i := i + 1;
    }
    AllOffered(g, schema, t, specs, keep);
  }

  lemma AllOffered(g: Schema, schema: NodeId, t: Tree, specs: seq<Site>, keep: SchemaNode -> bool)
    requires forall s | s in Sites(g, schema, t, []) :: s.schema in g && keep(g[s.schema]) ==> s in specs
    ensures Covered(g, schema, t, specs, Kept(g, keep))
  {
    forall p: Path, sid: NodeId | IsSite(g, schema, t, p, sid) && ValidPath(t, p) && sid in g && keep(g[sid])
      ensures Site(p, sid) in specs
    {
      SitesIff(g, schema, t, p, sid);
    }
  }

  lemma NothingKept(g: Schema, schema: NodeId, t: Tree, specs: seq<Site>, keep: SchemaNode -> bool)
    requires specs == [] && Covered(g, schema, t, specs, Kept(g, keep))
    ensures forall p: Path, sid: NodeId {:trigger IsSite(g, schema, t, p, sid)} |
              IsSite(g, schema, t, p, sid) && ValidPath(t, p) && sid in g :: !keep(g[sid])
  {
  }

  lemma KeptCovered(g: Schema, schema: NodeId, t: Tree, specs: seq<Site>, keep: SchemaNode -> bool,
                    P: (NodeId, Tree) -> bool)
    requires Covered(g, schema, t, specs, Kept(g, keep)) && forall sid, u :: P(sid, u) ==> sid in g && keep(g[sid])
    ensures Covered(g, schema, t, specs, P)
  {
  }

  // The sites still to be tried, less one that will not do.
  lemma CoveredLess(g: Schema, schema: NodeId, t: Tree, specs: seq<Site>, k: nat, P: (NodeId, Tree) -> bool)
    requires Covered(g, schema, t, specs, P) && k < |specs|
    requires ValidPath(t, specs[k].path) ==> !P(specs[k].schema, At(t, specs[k].path))
    ensures Covered(g, schema, t, specs[..k] + specs[k + 1..], P)
  {
    forall p: Path, sid: NodeId | IsSite(g, schema, t, p, sid) && ValidPath(t, p) && P(sid, At(t, p))
      ensures Site(p, sid) in specs[..k] + specs[k + 1..]
    {
      assert Site(p, sid) in specs && Site(p, sid) != specs[k];
      var j :| 0 <= j < |specs| && specs[j] == Site(p, sid);
      assert (specs[..k] + specs[k + 1..])[if j < k then j else j - 1] == Site(p, sid);
    }
  }

  lemma OfferedSite(g: Schema, schema: NodeId, t: Tree, s: Site)
    requires s in Sites(g, schema, t, [])
    ensures IsSite(g, schema, t, s.path, s.schema) && s.schema in g
  {
    SitesIff(g, schema, t, s.path, s.schema);
    assert s == Site(s.path, s.schema);
    IsSiteValid(g, schema, t, s.path, s.schema);
  }

  // The value of a candidate: a tree of its own, meaning the part of the body at the site's path.
  lemma Located(g: Schema, schema: NodeId, m: Heap, tree: BodyValue, h: nat, s: BodySite, spec: Site, k: int)
    requires Owned(m, tree, h) && SiteIs(m, tree, s, spec)
    requires IsSite(g, schema, View(m, tree, h), spec.path, spec.schema)
    requires k == h - |spec.path|
    ensures k > 0 && Owned(m, s.value, k) && s.value in m
    ensures ValidPath(View(m, tree, h), spec.path) && View(m, s.value, k) == At(View(m, tree, h), spec.path)
  {
    IsAtOwned(m, tree, h, spec.path, s.value);
    IsAtView(m, tree, h, spec.path, s.value);
  }

  lemma SiteHas(m: Heap, tree: BodyValue, s: BodySite, spec: Site)
    requires SiteIs(m, tree, s, spec)
    ensures s.schema == spec.schema && IsAt(m, tree, spec.path, s.value)
  {
  }

  lemma EditIsReplaced(g: Schema, schema: NodeId, m: Heap, tree: BodyValue, h: nat, m2: Heap, d: Done, u: Tree)
    requires Edited(m, tree, h, m2, d.levels, d.path, u) && IsSite(g, schema, View(m, tree, h), d.path, d.schema)
    ensures Replaced(g, schema, m, tree, h, m2, d, u)
  {
  }

  lemma ObjectFields(m: Heap, v: BodyValue, k: nat)
    requires Owned(m, v, k)
    ensures View(m, v, k).Obj? <==> m[v].kind.Object?
    ensures View(m, v, k).Obj? ==> Keys(View(m, v, k).fields) == FieldKeys(m[v].fields)
  {
  }

  function FieldKeys(fields: seq<BodyField>): (r: seq<string>)
    ensures |r| == |fields| && forall i {:trigger r[i]} | 0 <= i < |fields| :: r[i] == fields[i].key
  {
    seq(|fields|, i requires 0 <= i < |fields| => fields[i].key)
  }

  lemma InsertedLast(u: Tree, n: nat, name: string, v: Tree)
    requires u.Obj? ==> n == |u.fields|
    ensures InsertField(u, n, Field(name, v)) == WithField(u, name, v)
  {
  }

  // ---- edits inside the value at a site ----

  // A new field at position `at`.
  method InsertAt(tree: BodyValue, n: BodyValue, at: nat, key: string, v: BodyValue, ghost S: set<BodyValue>,
                  ghost h: nat, ghost p: Path, ghost F: set<BodyValue>, ghost kf: nat, ghost k: nat)
    requires Owned(Snap(S), tree, h) && IsAt(Snap(S), tree, p, n) && k == h - |p| && Owned(Snap(S), n, k)
    requires Owned(Snap(F), v, kf) && S !! F && at <= |n.fields| && n in S && k > 0
    modifies S
    ensures Edited(old(Snap(S)), tree, h, Snap(S + F), h + kf, p,
                   InsertField(old(View(Snap(S), n, k)), at, Field(key, old(View(Snap(F), v, kf)))))
  {
    hide Owned, Regrown, Edited;
    ghost var m := Snap(S);
    PutField(n, at, key, v, S, k, F, kf, k + kf);
    EditedAt(m, tree, h, p, n, Snap(S + F), h + kf, k, k + kf);
  }

  // One field gone.
  method RemoveAt(tree: BodyValue, n: BodyValue, i: nat, ghost S: set<BodyValue>, ghost h: nat, ghost p: Path,
                  ghost k: nat)
    requires Owned(Snap(S), tree, h) && IsAt(Snap(S), tree, p, n) && k == h - |p| && Owned(Snap(S), n, k) && n in S
    requires n.kind == Object && i < |n.fields|
    modifies S
    ensures i < NKids(old(View(Snap(S), n, k)))
    ensures Edited(old(Snap(S)), tree, h, Snap(S), h, p, DropKid(old(View(Snap(S), n, k)), i))
  {
    ghost var m := Snap(S);
    n.fields := n.fields[..i] + n.fields[i + 1..];
    CutNode(m, n, k, i, Snap(S));
    EditedAt(m, tree, h, p, n, Snap(S), h, k, k);
  }

  // ---- 1. add/remove field (valid only) ----

  predicate IsObjectNode(n: SchemaNode) {
    n.nodeType.ObjectType?
  }

  method FirstAbsent(names: seq<string>, fields: seq<BodyField>) returns (i: nat)
    ensures i <= |names|
    ensures i < |names| ==> names[i] !in FieldKeys(fields)
    ensures forall x | 0 <= x < i :: names[x] in FieldKeys(fields)
  {
    var present := FieldKeys(fields);
    i := 0;
    while i < |names|
      invariant i <= |names|
      invariant forall x | 0 <= x < i :: names[x] in present
    {
      if names[i] !in present {
        return;
      }
      i := i + 1;
    }
  }

  // First field whose key is required (or is not), as asked.
  method FirstField(fields: seq<BodyField>, required: seq<string>, wanted: bool) returns (i: nat)
    ensures i <= |fields|
    ensures i < |fields| ==> (fields[i].key in required) == wanted
    ensures forall j | 0 <= j < i :: (fields[j].key in required) != wanted
  {
    i := 0;
    while i < |fields|
      invariant i <= |fields|
      invariant forall j | 0 <= j < i :: (fields[j].key in required) != wanted
    {
      if (fields[i].key in required) == wanted {
        return;
      }
      i := i + 1;
    }
  }

  method AddFieldAt(g: Schema, schema: NodeId, tree: BodyValue, site: BodySite, name: string, tags: Tags,
                    ghost spec: Site, ghost S: set<BodyValue>, ghost h: nat)
    returns (ghost d: Done)
    requires Owned(Snap(S), tree, h) && SiteIs(Snap(S), tree, site, spec)
    requires IsSite(g, schema, View(Snap(S), tree, h), spec.path, spec.schema)
    requires site.schema in g && IsObjectNode(g[site.schema]) && name in g[site.schema].propertyOrder
    requires name !in FieldKeys(site.value.fields)
    modifies S
    ensures S <= d.nodes && fresh(d.nodes - S) && d.path == spec.path && d.schema == spec.schema
    ensures DidValid(g, schema, old(Snap(S)), tree, h, Snap(d.nodes), d, AddField(name), tags)
  {
    hide Owned, Foot, View, Plug, Build, Edited, Replaced, IsAt, IsSite, Resized, EdgeValue, HasScalarConstraint,
         SiteIs;
    ghost var m, k := Snap(S), h - |spec.path|;
    SiteHas(m, tree, site, spec);
    Located(g, schema, m, tree, h, site, spec, k);
    var n := g[site.schema];
    var child, F := BuildBodyValue(g, PropertyOf(n, name), Plain(0, tags), [], 0, BUILD_LEVELS);
    ghost var u, v := View(m, site.value, k), View(Snap(F), child, BUILD_LEVELS);
    ObjectFields(m, site.value, k);
    InsertedLast(u, |site.value.fields|, name, v);
    InsertAt(tree, site.value, |site.value.fields|, name, child, S, h, spec.path, F, BUILD_LEVELS, k);
    d := Done(spec.path, spec.schema, S + F, h + BUILD_LEVELS);
    EditIsReplaced(g, schema, m, tree, h, Snap(d.nodes), d, WithField(u, name, v));
  }

  method RemoveFieldAt(g: Schema, schema: NodeId, tree: BodyValue, site: BodySite, i: nat, ghost spec: Site,
                       ghost S: set<BodyValue>, ghost h: nat)
    returns (ghost d: Done)
    requires Owned(Snap(S), tree, h) && SiteIs(Snap(S), tree, site, spec)
    requires IsSite(g, schema, View(Snap(S), tree, h), spec.path, spec.schema)
    requires site.value.kind == Object && i < |site.value.fields|
    modifies S
    ensures d == Done(spec.path, spec.schema, S, h)
    ensures
      var t := old(View(Snap(S), tree, h));
      && ValidPath(t, d.path) && At(t, d.path).Obj? && i < |At(t, d.path).fields|
      && At(t, d.path).fields[i].key == old(site.value.fields[i].key)
      && Replaced(g, schema, old(Snap(S)), tree, h, Snap(S), d, DropKid(At(t, d.path), i))
  {
    ghost var m, k := Snap(S), h - |spec.path|;
    Located(g, schema, m, tree, h, site, spec, k);
    RemoveAt(tree, site.value, i, S, h, spec.path, k);
    d := Done(spec.path, spec.schema, S, h);
    EditIsReplaced(g, schema, m, tree, h, Snap(S), d, DropKid(View(m, site.value, k), i));
  }

  // What there is to do at a site: a declared name that is absent, or a field that is not required.
  ghost predicate FieldToChange(n: SchemaNode, u: Tree, tryAdd: bool) {
    n.nodeType.ObjectType? && u.Obj? &&
    if tryAdd then exists name :: name in n.propertyOrder && name !in Keys(u.fields)
    else exists i :: 0 <= i < |u.fields| && u.fields[i].key !in n.required
  }

  // The first one there is.
  ghost predicate FirstToChange(n: SchemaNode, u: Tree, op: ValidOp, tryAdd: bool) {
    if tryAdd then
      op.AddField? &&
      (u.Obj? ==> exists i :: 0 <= i < |n.propertyOrder| && n.propertyOrder[i] == op.name
                              && forall j | 0 <= j < i :: n.propertyOrder[j] in Keys(u.fields))
    else
      op.RemoveField? && u.Obj? && op.i < |u.fields| && forall j | 0 <= j < op.i :: u.fields[j].key in n.required
  }

  method OpAddRemoveFieldValid(g: Schema, schema: NodeId, tree: BodyValue, tryAdd: bool, tags: Tags,
                               ghost S: set<BodyValue>, ghost h: nat)
    returns (applied: bool, category: string, ghost d: Done, ghost op: ValidOp)
    requires Owned(Snap(S), tree, h)
    modifies S
    ensures applied ==> category == "add_remove_field" && S <= d.nodes && fresh(d.nodes - S)
                        && DidValid(g, schema, old(Snap(S)), tree, h, Snap(d.nodes), d, op, tags)
    ensures applied ==>
              FirstToChange(g[d.schema], At(old(View(Snap(S), tree, h)), d.path), op, tryAdd)
    ensures !applied ==> category == "" && Snap(S) == old(Snap(S))
    ensures !applied ==> NoSite(g, schema, old(View(Snap(S), tree, h)),
                                (sid: NodeId, u: Tree) => sid in g && FieldToChange(g[sid], u, tryAdd))
  {
    hide Owned, Foot, View, IsAt, IsSite, SiteIs, Resized, EdgeValue, HasScalarConstraint, FirstToChange,
         Covered, Snap, DidValid;
    ghost var P := (sid: NodeId, u: Tree) => sid in g && FieldToChange(g[sid], u, tryAdd);
    ghost var m, t := Snap(S), View(Snap(S), tree, h);
    var sites, specs := CollectWhere(g, schema, tree, IsObjectNode, S, h);
    KeptCovered(g, schema, t, specs, IsObjectNode, P);
    while sites != []
      invariant Snap(S) == m && Candidates(g, schema, m, tree, h, IsObjectNode, sites, specs)
      invariant Covered(g, schema, t, specs, P)
      decreases |sites|
    {
      // The order of the sites is random.
      var k :| 0 <= k < |sites|;
      var done: bool;
      done, d, op := ChangeField(g, schema, tree, sites[k], tryAdd, tags, specs[k], S, h);
      if done {
        return true, "add_remove_field", d, op;
      }
      CoveredLess(g, schema, t, specs, k, P);
      sites, specs := sites[..k] + sites[k + 1..], specs[..k] + specs[k + 1..];
    }
    CoveredNone(g, schema, t, P, P);
    return false, "", Done([], Nil, S, h), RebuildSelf;
  }

  // One site is tried.
  method ChangeField(g: Schema, schema: NodeId, tree: BodyValue, site: BodySite, tryAdd: bool, tags: Tags,
                     ghost spec: Site, ghost S: set<BodyValue>, ghost h: nat)
    returns (done: bool, ghost d: Done, ghost op: ValidOp)
    requires Owned(Snap(S), tree, h) && SiteIs(Snap(S), tree, site, spec)
    requires IsSite(g, schema, View(Snap(S), tree, h), spec.path, spec.schema)
    requires spec.schema in g && IsObjectNode(g[spec.schema])
    modifies S
    ensures done ==> S <= d.nodes && fresh(d.nodes - S)
                     && DidValid(g, schema, old(Snap(S)), tree, h, Snap(d.nodes), d, op, tags)
    ensures done ==> FirstToChange(g[d.schema], At(old(View(Snap(S), tree, h)), d.path), op, tryAdd)
    ensures !done ==> Snap(S) == old(Snap(S))
    ensures !done && ValidPath(old(View(Snap(S), tree, h)), spec.path) ==>
              !FieldToChange(g[spec.schema], At(old(View(Snap(S), tree, h)), spec.path), tryAdd)
  {
    hide Owned, Foot, View, IsAt, IsSite, SiteIs, Resized, EdgeValue, HasScalarConstraint, Snap, Plug, Build;
    SiteHas(Snap(S), tree, site, spec);
    Located(g, schema, Snap(S), tree, h, site, spec, h - |spec.path|);
    ObjectFields(Snap(S), site.value, h - |spec.path|);
    SnapCell(S, site.value);
    ghost var u := At(View(Snap(S), tree, h), spec.path);
    var n := g[site.schema];
    done, d, op := false, Done([], Nil, S, h), RebuildSelf;
    if tryAdd {
      var i := FirstAbsent(n.propertyOrder, site.value.fields);
      if i < |n.propertyOrder| {
        assert FirstToChange(n, u, AddField(n.propertyOrder[i]), true);
        d := AddFieldAt(g, schema, tree, site, n.propertyOrder[i], tags, spec, S, h);
        done, op := true, AddField(n.propertyOrder[i]);
      }
    } else if site.value.kind == Object {  // only objects have fields
      var i := FirstField(site.value.fields, n.required, false);
      AllKeys(u.fields, site.value.fields);
      if i < |site.value.fields| {
        d := RemoveFieldAt(g, schema, tree, site, i, spec, S, h);
        done, op := true, RemoveField(i);
      }
    }
  }

  lemma AllKeys(fields: seq<Field>, live: seq<BodyField>)
    requires Keys(fields) == FieldKeys(live)
    ensures |fields| == |live| && forall i | 0 <= i < |fields| :: fields[i].key == live[i].key
  {
    assert |fields| == |Keys(fields)| == |FieldKeys(live)|;
    forall i | 0 <= i < |fields|
      ensures fields[i].key == live[i].key
    {
      assert Keys(fields)[i] == FieldKeys(live)[i];
    }
  }

  // ---- 2. required-field omission (adversarial only) ----

  predicate HasRequired(n: SchemaNode) {
    n.nodeType.ObjectType? && n.required != []
  }

  method OpRequiredFieldOmission(g: Schema, schema: NodeId, tree: BodyValue, tags: Tags, ghost S: set<BodyValue>,
                                 ghost h: nat)
    returns (applied: bool, category: string, ghost d: Done, ghost op: AdversarialOp)
    requires Owned(Snap(S), tree, h)
    modifies S
    ensures applied ==> category == "required_omit" && S <= d.nodes && fresh(d.nodes - S)
    ensures applied ==> op.OmitRequired?
                        && DidAdversarial(g, schema, old(Snap(S)), tree, h, Snap(d.nodes), d, op, tags)
    ensures applied ==>
              var u := At(old(View(Snap(S), tree, h)), d.path);
              u.Obj? && op.i < |u.fields| && forall j | 0 <= j < op.i :: u.fields[j].key !in g[d.schema].required
    ensures !applied ==> category == "" && Snap(S) == old(Snap(S))
    ensures !applied ==> NoSite(g, schema, old(View(Snap(S), tree, h)), (sid: NodeId, u: Tree) =>
              sid in g && g[sid].nodeType.ObjectType? && u.Obj?
              && exists i :: 0 <= i < |u.fields| && u.fields[i].key in g[sid].required)
  {
    hide Owned, Foot, View, IsAt, IsSite, SiteIs, Covered, Snap, DidAdversarial;
    ghost var P := (sid: NodeId, u: Tree) =>
        sid in g && g[sid].nodeType.ObjectType? && u.Obj?
        && exists i :: 0 <= i < |u.fields| && u.fields[i].key in g[sid].required;
    ghost var m, t := Snap(S), View(Snap(S), tree, h);
    var sites, specs := CollectWhere(g, schema, tree, HasRequired, S, h);
    KeptCovered(g, schema, t, specs, HasRequired, P);
    while sites != []
      invariant Snap(S) == m && Candidates(g, schema, m, tree, h, HasRequired, sites, specs)
      invariant Covered(g, schema, t, specs, P)
      decreases |sites|
    {
      var k :| 0 <= k < |sites|;
      var done: bool, i: nat;
      done, d, i := OmitField(g, schema, tree, sites[k], tags, specs[k], S, h);
      if done {
        return true, "required_omit", d, OmitRequired(i);
      }
      CoveredLess(g, schema, t, specs, k, P);
      sites, specs := sites[..k] + sites[k + 1..], specs[..k] + specs[k + 1..];
    }
    CoveredNone(g, schema, t, P, P);
    return false, "", Done([], Nil, S, h), NullInjection;
  }

  // One site is tried.
  method OmitField(g: Schema, schema: NodeId, tree: BodyValue, site: BodySite, tags: Tags, ghost spec: Site,
                   ghost S: set<BodyValue>, ghost h: nat)
    returns (done: bool, ghost d: Done, i: nat)
    requires Owned(Snap(S), tree, h) && SiteIs(Snap(S), tree, site, spec)
    requires IsSite(g, schema, View(Snap(S), tree, h), spec.path, spec.schema)
    requires spec.schema in g && HasRequired(g[spec.schema])
    modifies S
    ensures done ==> d.nodes == S
                     && DidAdversarial(g, schema, old(Snap(S)), tree, h, Snap(S), d, OmitRequired(i), tags)
    ensures done ==>
              var u := At(old(View(Snap(S), tree, h)), d.path);
              u.Obj? && i < |u.fields| && forall j | 0 <= j < i :: u.fields[j].key !in g[d.schema].required
    ensures !done ==> Snap(S) == old(Snap(S))
    ensures !done && ValidPath(old(View(Snap(S), tree, h)), spec.path) ==>
              var u := At(old(View(Snap(S), tree, h)), spec.path);
              u.Obj? ==> forall j | 0 <= j < |u.fields| :: u.fields[j].key !in g[spec.schema].required
  {
    hide Owned, Foot, View, IsAt, IsSite, SiteIs, Snap, Plug, Build;
    SiteHas(Snap(S), tree, site, spec);
    Located(g, schema, Snap(S), tree, h, site, spec, h - |spec.path|);
    ObjectFields(Snap(S), site.value, h - |spec.path|);
    SnapCell(S, site.value);
    ghost var u := At(View(Snap(S), tree, h), spec.path);
    done, d, i := false, Done([], Nil, S, h), 0;
    if site.value.kind == Object {
      i := FirstField(site.value.fields, g[site.schema].required, true);
      AllKeys(u.fields, site.value.fields);
      if i < |site.value.fields| {
        d := RemoveFieldAt(g, schema, tree, site, i, spec, S, h);
        done := true;
      }
    }
  }

  // ---- values set at a site ----

  // A childless value for the site.
  method NewNode(kind: Kind, id: NodeId, str: string, flag: bool) returns (v: BodyValue, ghost F: set<BodyValue>)
    ensures fresh(F) && Owned(Snap(F), v, 1) && View(Snap(F), v, 1) == TreeOf(Cell(kind, [], [], str, flag, id), [], [])
  {
    v := new BodyValue(kind, id, str, flag);
    F := {v};
    LeafOver(v, Snap(F), 1);
  }

  method SetAt(g: Schema, schema: NodeId, tree: BodyValue, site: BodySite, nv: BodyValue, ghost spec: Site,
               ghost S: set<BodyValue>, ghost h: nat, ghost F: set<BodyValue>, ghost kf: nat)
    returns (ghost d: Done)
    requires Owned(Snap(S), tree, h) && SiteIs(Snap(S), tree, site, spec)
    requires IsSite(g, schema, View(Snap(S), tree, h), spec.path, spec.schema)
    requires Owned(Snap(F), nv, kf) && S !! F
    modifies S
    ensures d == Done(spec.path, spec.schema, S + F, h + kf)
    ensures Replaced(g, schema, old(Snap(S)), tree, h, Snap(d.nodes), d, old(View(Snap(F), nv, kf)))
  {
    ghost var m, mf := Snap(S), Snap(F);
    assert spec == Site(spec.path, site.schema);
    Set(site, nv, tree, S, h, spec.path, F, kf, h + kf);
    d := Done(spec.path, spec.schema, S + F, h + kf);
    EditIsReplaced(g, schema, m, tree, h, Snap(d.nodes), d, View(mf, nv, kf));
  }

  // ---- 3. array resize ----

  predicate IsArrayNode(n: SchemaNode) {
    n.nodeType.ArrayType?
  }

  predicate HasLengthBound(n: SchemaNode) {
    n.nodeType.ArrayType? && (n.minItems.Some? || n.maxItems.Some?)
  }

  method ResizeArray(g: Schema, schema: NodeId, tree: BodyValue, site: BodySite, length: int, tags: Tags,
                     ghost spec: Site, ghost S: set<BodyValue>, ghost h: nat)
    returns (ghost d: Done)
    requires Owned(Snap(S), tree, h) && SiteIs(Snap(S), tree, site, spec)
    requires IsSite(g, schema, View(Snap(S), tree, h), spec.path, spec.schema)
    modifies S
    ensures S <= d.nodes && fresh(d.nodes - S) && d.path == spec.path && d.schema == spec.schema
    ensures
      var t := old(View(Snap(S), tree, h));
      && ValidPath(t, d.path)
      && Replaced(g, schema, old(Snap(S)), tree, h, Snap(d.nodes), d, Resized(g, At(t, d.path), length, tags))
  {
    hide Owned, Foot, View, Plug, Edited, Replaced, IsAt, IsSite, SiteIs, Regrown, Resized, Resized, SwitchedTag,
         Wrapped, Truncate, WrongTypeValue, ViolatingValue, HasScalarConstraint;
    ghost var m, k := Snap(S), h - |spec.path|;
    SiteHas(m, tree, site, spec);
    Located(g, schema, m, tree, h, site, spec, k);
    ghost var u := View(m, site.value, k);
    ghost var T := ResizeNode(g, site.value, length, tags, S, k);
    d := Done(spec.path, spec.schema, S + T, h + BUILD_LEVELS);
    EditedAt(m, tree, h, spec.path, site.value, Snap(S + T), h + BUILD_LEVELS, k, k + BUILD_LEVELS);
    EditIsReplaced(g, schema, m, tree, h, Snap(S + T), d, Resized(g, u, length, tags));
  }

  // The items with more behind them, cut to length n.
  method Regrow(arr: BodyValue, items: seq<BodyValue>, n: nat, ghost keep: nat, ghost S: set<BodyValue>,
                ghost T: set<BodyValue>)
    requires arr in S && S !! T && keep <= |arr.items| && keep == (if |arr.items| < n then |arr.items| else n)
    requires keep + |items| <= n && (items != [] ==> keep == |arr.items|)
    modifies arr`items
    ensures Extends(old(Snap(S)), arr, old(Snap(T)), Snap(S + T))
    ensures Agree(old(Snap(S)), Snap(S + T), S - {arr})
    ensures Snap(S + T)[arr] == old(CellOf(arr)).(items := old(arr.items)[..keep] + items)
  {
    ghost var was := arr.items;
    arr.items := arr.items + items;
    if |arr.items| > n {
      arr.items := arr.items[..n];
    }
    assert arr.items == was[..keep] + items;
  }

  lemma SnapCell(S: set<BodyValue>, arr: BodyValue)
    requires arr in S
    ensures Snap(S)[arr] == CellOf(arr)
  {
  }

  // resizeArray: cut off, or grown by freshly built items as long as the value's own schema node says how. Below the
  // build cap a string may stand where the schema has an array: it gets the items too, but does not show them.
  method ResizeNode(g: Schema, arr: BodyValue, length: int, tags: Tags, ghost S: set<BodyValue>, ghost k: nat)
    returns (ghost T: set<BodyValue>)
    requires Owned(Snap(S), arr, k) && arr in S && k > 0
    modifies arr`items
    ensures fresh(T) && Agree(old(Snap(S)), Snap(S + T), S - {arr})
    ensures Regrown(old(Snap(S)), arr, k, Snap(S + T), k + BUILD_LEVELS)
    ensures View(Snap(S + T), arr, k + BUILD_LEVELS) == Resized(g, old(View(Snap(S), arr, k)), length, tags)
  {
    hide Owned, Foot, View, Build, Regrown, Resized, NewItems, Forest, ViewItems;
    ghost var m := Snap(S);
    ArrayItems(m, arr, k);
    ResizedParts(g, View(m, arr, k), length, tags);
    T := {};
    var n: nat := if length < 0 then 0 else length;
    ghost var keep: nat := if |arr.items| < n then |arr.items| else n;
    var items: seq<BodyValue> := [];
    ghost var u := View(m, arr, k);
    if |arr.items| < n && arr.node in g && g[arr.node].items in g {
      items, T := NewItemList(g, g[arr.node].items, |arr.items|, n - |arr.items|, tags);
    }
    ghost var mf := Snap(T);
    SnapCell(S, arr);
    Regrow(arr, items, n, keep, S, T);
    hide Snap, Extends, Agree;
    ChangeItems(m, arr, k, keep, mf, items, BUILD_LEVELS, Snap(S + T), k + BUILD_LEVELS);
  }

  lemma ResizedParts(g: Schema, u: Tree, length: int, tags: Tags)
    ensures
      var n: nat := if length < 0 then 0 else length;
      Resized(g, u, length, tags) ==
        if !u.Arr? then u
        else if |u.items| < n && u.node in g && g[u.node].items in g then
          Arr(u.node, u.items[..|u.items|] + NewItems(g, g[u.node].items, |u.items|, n - |u.items|, tags))
        else Arr(u.node, u.items[..if |u.items| < n then |u.items| else n] + [])
  {
    if u.Arr? {
      assert u.items[..|u.items|] == u.items;
    }
  }

  lemma ArrayItems(m: Heap, v: BodyValue, k: nat)
    requires Owned(m, v, k)
    ensures View(m, v, k).Arr? <==> m[v].kind.Array?
    ensures View(m, v, k).node == m[v].node
    ensures View(m, v, k).Arr? ==> |View(m, v, k).items| == |m[v].items|
  {
  }

  method NewItemList(g: Schema, id: NodeId, from: nat, count: nat, tags: Tags)
    returns (items: seq<BodyValue>, ghost T: set<BodyValue>)
    ensures fresh(T) && Forest(Snap(T), items, BUILD_LEVELS)
    ensures ViewItems(Snap(T), items, BUILD_LEVELS) == NewItems(g, id, from, count, tags)
  {
    hide Owned, Foot, View, Build;
    items, T := [], {};
    for i := 0 to count
      invariant |items| == i && fresh(T) && Forest(Snap(T), items, BUILD_LEVELS)
      invariant ViewItems(Snap(T), items, BUILD_LEVELS) == NewItems(g, id, from, i, tags)
    {
      ghost var m := Snap(T);
      var item, U := BuildBodyValue(g, id, Plain(0, tags), [from + i], 0, BUILD_LEVELS);
      ItemsSnoc(m, items, Snap(U), item, Snap(T + U), BUILD_LEVELS);
      items, T := items + [item], T + U;
    }
  }

  method OpArrayResizeValid(g: Schema, schema: NodeId, tree: BodyValue, tags: Tags, ghost S: set<BodyValue>,
                            ghost h: nat)
    returns (applied: bool, category: string, ghost d: Done, ghost op: ValidOp)
    requires Owned(Snap(S), tree, h)
    modifies S
    ensures applied ==> category == "array_resize" && S <= d.nodes && fresh(d.nodes - S) && op.ResizeTo?
                        && DidValid(g, schema, old(Snap(S)), tree, h, Snap(d.nodes), d, op, tags)
    ensures !applied ==> category == "" && Snap(S) == old(Snap(S))
    ensures !applied ==> NoSite(g, schema, old(View(Snap(S), tree, h)),
                                (sid, _) => sid in g && g[sid].nodeType.ArrayType?)
  {
    hide Owned, Foot, View, Plug, Build, Replaced, IsAt, IsSite, SiteIs, Resized, EdgeValue, HasScalarConstraint;
    var sites, specs := CollectWhere(g, schema, tree, IsArrayNode, S, h);
    if sites == [] {
      NothingKept(g, schema, View(Snap(S), tree, h), specs, IsArrayNode);
      return false, "", Done([], Nil, S, h), RebuildSelf;
    }
    var i :| 0 <= i < |sites|;
    var site := sites[i];
    ghost var spec, k := specs[i], h - |specs[i].path|;
    SiteHas(Snap(S), tree, site, spec);
    Located(g, schema, Snap(S), tree, h, site, spec, k);
    ArrayItems(Snap(S), site.value, k);
    var n := g[site.schema];
    var length := |site.value.items|;
    var min, max := 0, length + 2;
    if n.minItems.Some? {
      min := n.minItems.value;
    }
    if n.maxItems.Some? {
      max := n.maxItems.value;
    }
    if max < min {
      max := min;
    }
    var target: int :| min <= target <= max;
    d := ResizeArray(g, schema, tree, site, target, tags, spec, S, h);
    op := ResizeTo(target);
    return true, "array_resize", d, op;
  }

  method OpArrayResizeAdversarial(g: Schema, schema: NodeId, tree: BodyValue, tags: Tags, ghost S: set<BodyValue>,
                                  ghost h: nat)
    returns (applied: bool, category: string, ghost d: Done, ghost op: AdversarialOp)
    requires Owned(Snap(S), tree, h)
    modifies S
    ensures applied ==> category == "array_resize" && S <= d.nodes && fresh(d.nodes - S) && op == ResizeOut
                        && DidAdversarial(g, schema, old(Snap(S)), tree, h, Snap(d.nodes), d, op, tags)
    ensures !applied ==> category == "" && Snap(S) == old(Snap(S))
    ensures !applied ==> NoSite(g, schema, old(View(Snap(S), tree, h)), (sid, _) =>
              sid in g && g[sid].nodeType.ArrayType?
              && (g[sid].maxItems.Some? || (g[sid].minItems.Some? && g[sid].minItems.value > 0)))
  {
    hide Owned, Foot, View, Plug, Build, Replaced, IsAt, IsSite, SiteIs, Resized, SwitchedTag, Wrapped, Truncate,
         WrongTypeValue, ViolatingValue, HasScalarConstraint, Covered, Snap;
    op := ResizeOut;
    ghost var P := (sid: NodeId, u: Tree) =>
        sid in g && g[sid].nodeType.ArrayType?
        && (g[sid].maxItems.Some? || (g[sid].minItems.Some? && g[sid].minItems.value > 0));
    ghost var m, t := Snap(S), View(Snap(S), tree, h);
    var sites, specs := CollectWhere(g, schema, tree, HasLengthBound, S, h);
    KeptCovered(g, schema, t, specs, HasLengthBound, P);
    while sites != []
      invariant Snap(S) == m && Candidates(g, schema, m, tree, h, HasLengthBound, sites, specs)
      invariant Covered(g, schema, t, specs, P)
      decreases |sites|
    {
      var k :| 0 <= k < |sites|;
      var site := sites[k];
      ghost var spec := specs[k];
      SiteHas(m, tree, site, spec);
      var n := g[site.schema];
      if n.minItems.Some? && n.minItems.value > 0 {
        d := ResizeArray(g, schema, tree, site, n.minItems.value - 1, tags, spec, S, h);
        return true, "array_resize", d, op;
      }
      if n.maxItems.Some? {
        d := ResizeArray(g, schema, tree, site, n.maxItems.value + 1, tags, spec, S, h);
        return true, "array_resize", d, op;
      }
      CoveredLess(g, schema, t, specs, k, P);
      sites, specs := sites[..k] + sites[k + 1..], specs[..k] + specs[k + 1..];
    }
    CoveredNone(g, schema, t, P, P);
    return false, "", Done([], Nil, S, h), op;
  }

  // ---- 4. variant/discriminator switch ----

  predicate HasBranches(n: SchemaNode) {
    IsVariant(n) && |n.variants| > 1
  }

  method OpVariantSwitchValid(g: Schema, schema: NodeId, tree: BodyValue, tags: Tags, ghost S: set<BodyValue>,
                              ghost h: nat)
    returns (applied: bool, category: string, ghost d: Done, ghost op: ValidOp)
    requires Owned(Snap(S), tree, h)
    modifies S
    ensures applied ==> category == "variant_switch" && S <= d.nodes && fresh(d.nodes - S) && op.SwitchTo?
                        && DidValid(g, schema, old(Snap(S)), tree, h, Snap(d.nodes), d, op, tags)
    ensures !applied ==> category == "" && Snap(S) == old(Snap(S))
    ensures !applied ==> NoSite(g, schema, old(View(Snap(S), tree, h)), (sid, _) =>
              sid in g && (g[sid].nodeType.OneOf? || g[sid].nodeType.AnyOf?) && |g[sid].variants| > 1)
  {
    hide Owned, Foot, View, Plug, Build, Replaced, IsAt, IsSite, SiteIs;
    var sites, specs := CollectWhere(g, schema, tree, HasBranches, S, h);
    if sites == [] {
      NothingKept(g, schema, View(Snap(S), tree, h), specs, HasBranches);
      return false, "", Done([], Nil, S, h), RebuildSelf;
    }
    var i :| 0 <= i < |sites|;
    var site := sites[i];
    ghost var spec := specs[i];
    SiteHas(Snap(S), tree, site, spec);
    var branch: nat :| branch < |g[site.schema].variants|;
    var nv, F := BuildBodyValue(g, site.schema, Plain(branch, tags), [], 0, BUILD_LEVELS);
    d := SetAt(g, schema, tree, site, nv, spec, S, h, F, BUILD_LEVELS);
    return true, "variant_switch", d, SwitchTo(branch);
  }

  // Every field with the discriminator's name gets the other branch's tag.
  lemma ObjectIs(m: Heap, v: BodyValue, k: nat)
    requires Owned(m, v, k) && m[v].kind.Object?
    ensures View(m, v, k).Obj? && View(m, v, k) == Obj(m[v].node, [] + View(m, v, k).fields)
  {
  }

  method RetagAt(built: BodyValue, i: nat, tag: string, ghost S: set<BodyValue>, ghost k: nat)
    returns (ghost T: set<BodyValue>)
    requires Owned(Snap(S), built, k) && built in S && built.kind == Object && k > 1 && i < |built.fields|
    modifies built`fields
    ensures S <= T && fresh(T - S) && Owned(Snap(T), built, k)
    ensures FieldKeys(built.fields) == old(FieldKeys(built.fields))
    ensures i < NKids(old(View(Snap(S), built, k)))
    ensures View(Snap(T), built, k) == WithKid(old(View(Snap(S), built, k)), i, Str(Nil, tag))
  {
    hide Owned, Foot, View;
    ObjectFields(Snap(S), built, k);
    var s, F := NewText(tag);
    SetField(built, i, s, S, k, F, 1, k);
    T := S + F;
  }

  method Retag(built: BodyValue, property: string, tag: string, ghost S: set<BodyValue>, ghost k: nat)
    returns (ghost T: set<BodyValue>)
    requires Owned(Snap(S), built, k) && built in S && built.kind == Object && k > 1
    modifies built`fields
    ensures S <= T && fresh(T - S) && Owned(Snap(T), built, k)
    ensures old(View(Snap(S), built, k)).Obj?
    ensures View(Snap(T), built, k)
         == Obj(built.node, RetagFields(old(View(Snap(S), built, k)).fields, property, tag))
  {
    hide Owned, Foot, View, Snap;
    SnapCell(S, built);
    ObjectFields(Snap(S), built, k);
    ObjectIs(Snap(S), built, k);
    T := S;
    ghost var fields := View(Snap(S), built, k).fields;
    var i := 0;
    while i < |built.fields|
      invariant i <= |built.fields| && S <= T && fresh(T - S) && built in T && built.kind == Object
      invariant FieldKeys(built.fields) == Keys(fields)
      invariant Owned(Snap(T), built, k) && built.node == old(built.node)
      invariant View(Snap(T), built, k)
             == Obj(built.node, RetagFields(fields[..i], property, tag) + fields[i..])
    {
      if built.fields[i].key == property {
        assert FieldKeys(built.fields)[i] == Keys(fields)[i];
        T := RetagAt(built, i, tag, T, k);
      }
      assert FieldKeys(built.fields)[i] == Keys(fields)[i];
      RetagStep(fields, i, property, tag);
      i := i + 1;
    }
    assert |FieldKeys(built.fields)| == |Keys(fields)|;
    assert fields[..i] == fields && fields[i..] == [];
  }

  lemma RetagStep(fields: seq<Field>, i: nat, property: string, tag: string)
    requires i < |fields|
    ensures
      var now, next := RetagFields(fields[..i], property, tag) + fields[i..],
                       RetagFields(fields[..i + 1], property, tag) + fields[i + 1..];
      next == if fields[i].key == property then now[i := Field(property, Str(Nil, tag))] else now
  {
  }

  method OpVariantSwitchAdversarial(g: Schema, schema: NodeId, tree: BodyValue, tags: Tags, ghost S: set<BodyValue>,
                                    ghost h: nat)
    returns (applied: bool, category: string, ghost d: Done, ghost op: AdversarialOp)
    requires Owned(Snap(S), tree, h)
    modifies S
    ensures applied ==> category == "variant_switch" && S <= d.nodes && fresh(d.nodes - S) && op.SwitchTag?
                        && DidAdversarial(g, schema, old(Snap(S)), tree, h, Snap(d.nodes), d, op, tags)
    ensures !applied ==> category == "" && Snap(S) == old(Snap(S))
    ensures !applied ==> NoSite(g, schema, old(View(Snap(S), tree, h)), (sid, _) =>
              sid in g && (g[sid].nodeType.OneOf? || g[sid].nodeType.AnyOf?) && |g[sid].variants| > 1)
  {
    hide Owned, Foot, View, Plug, Build, Replaced, IsAt, IsSite, SiteIs, Resized, SwitchedTag, Wrapped, Truncate,
         WrongTypeValue, ViolatingValue, HasScalarConstraint;
    var sites, specs := CollectWhere(g, schema, tree, HasBranches, S, h);
    if sites == [] {
      NothingKept(g, schema, View(Snap(S), tree, h), specs, HasBranches);
      return false, "", Done([], Nil, S, h), NullInjection;
    }
    var i :| 0 <= i < |sites|;
    var site := sites[i];
    ghost var spec := specs[i];
    SiteHas(Snap(S), tree, site, spec);
    var branch: nat :| branch < |g[site.schema].variants|;
    var built, F := BuildSwitched(g, site.schema, branch, tags);
    d := SetAt(g, schema, tree, site, built, spec, S, h, F, BUILD_LEVELS);
    return true, "variant_switch", d, SwitchTag(branch);
  }

  method BuildSwitched(g: Schema, id: NodeId, branch: nat, tags: Tags)
    returns (built: BodyValue, ghost F: set<BodyValue>)
    requires id in g && g[id].variants != []
    ensures fresh(F) && Owned(Snap(F), built, BUILD_LEVELS)
    ensures View(Snap(F), built, BUILD_LEVELS) == SwitchedTag(g, id, branch, tags)
  {
    var n := g[id];
    built, F := BuildBodyValue(g, id, Plain(branch, tags), [], 0, BUILD_LEVELS);
    ObjectFields(Snap(F), built, BUILD_LEVELS);
    if n.discriminator.Some? && built.kind == Object {
      var wrongTag := tags([], n.discriminator.value, NextBranch(n, branch));
      if wrongTag != "" {
        F := Retag(built, n.discriminator.value.property, wrongTag, F, BUILD_LEVELS);
      }
    }
  }

  // ---- 5. type substitution (adversarial only) ----

  predicate IsScalarNode(n: SchemaNode) {
    n.nodeType.ScalarNode?
  }

  method NewWrongType(id: NodeId, n: SchemaNode, choice: nat) returns (v: BodyValue, ghost F: set<BodyValue>)
    ensures fresh(F) && Owned(Snap(F), v, 1) && View(Snap(F), v, 1) == WrongTypeValue(id, n, choice)
  {
    match n.scalarType
    case IntegerType => v, F := NewNode(String, id, "not-a-number", false);
    case NumberType => v, F := NewNode(String, id, "not-a-number", false);
    case BooleanType => v, F := NewNode(String, id, "not-a-bool", false);
    case _ =>
      if choice == 0 {
        v, F := NewNode(Number, id, "12345", false);
      } else if choice == 1 {
        v, F := NewNode(Boolean, id, "", true);
      } else if choice == 2 {
        v, F := NewNode(Array, id, "", false);
      } else {
        v, F := NewNode(Object, id, "", false);
      }
  }

  method OpTypeSubstitution(g: Schema, schema: NodeId, tree: BodyValue, tags: Tags, ghost S: set<BodyValue>,
                            ghost h: nat)
    returns (applied: bool, category: string, ghost d: Done, ghost op: AdversarialOp)
    requires Owned(Snap(S), tree, h)
    modifies S
    ensures applied ==> category == "type_substitution" && S <= d.nodes && fresh(d.nodes - S) && op.WrongType?
                        && DidAdversarial(g, schema, old(Snap(S)), tree, h, Snap(d.nodes), d, op, tags)
    ensures !applied ==> category == "" && Snap(S) == old(Snap(S))
    ensures !applied ==> NoSite(g, schema, old(View(Snap(S), tree, h)),
                                (sid, _) => sid in g && g[sid].nodeType.ScalarNode?)
  {
    hide Owned, Foot, View, Plug, Build, Replaced, IsAt, IsSite, SiteIs, Resized, SwitchedTag, Wrapped, Truncate,
         ViolatingValue, HasScalarConstraint;
    var sites, specs := CollectWhere(g, schema, tree, IsScalarNode, S, h);
    if sites == [] {
      NothingKept(g, schema, View(Snap(S), tree, h), specs, IsScalarNode);
      return false, "", Done([], Nil, S, h), NullInjection;
    }
    var i :| 0 <= i < |sites|;
    var site := sites[i];
    ghost var spec := specs[i];
    SiteHas(Snap(S), tree, site, spec);
    var choice: nat :| choice < 4;
    var nv, F := NewWrongType(site.schema, g[site.schema], choice);
    d := SetAt(g, schema, tree, site, nv, spec, S, h, F, 1);
    return true, "type_substitution", d, WrongType(choice);
  }

  // ---- 6. null injection (adversarial only) ----

  predicate NotNullable(n: SchemaNode) {
    !n.nullable && n.nodeType != OtherType("")
  }

  method OpNullInjection(g: Schema, schema: NodeId, tree: BodyValue, tags: Tags, ghost S: set<BodyValue>, ghost h: nat)
    returns (applied: bool, category: string, ghost d: Done, ghost op: AdversarialOp)
    requires Owned(Snap(S), tree, h)
    modifies S
    ensures applied ==> category == "null_injection" && S <= d.nodes && fresh(d.nodes - S) && op == NullInjection
                        && DidAdversarial(g, schema, old(Snap(S)), tree, h, Snap(d.nodes), d, op, tags)
    ensures !applied ==> category == "" && Snap(S) == old(Snap(S))
    ensures !applied ==> NoSite(g, schema, old(View(Snap(S), tree, h)),
                                (sid, _) => sid in g && !g[sid].nullable && g[sid].nodeType != OtherType(""))
  {
    hide Owned, Foot, View, Plug, Build, Replaced, IsAt, IsSite, SiteIs, Resized, SwitchedTag, Wrapped, Truncate,
         WrongTypeValue, ViolatingValue, HasScalarConstraint;
    var sites, specs := CollectWhere(g, schema, tree, NotNullable, S, h);
    if sites == [] {
      NothingKept(g, schema, View(Snap(S), tree, h), specs, NotNullable);
      return false, "", Done([], Nil, S, h), NullInjection;
    }
    var i :| 0 <= i < |sites|;
    var site := sites[i];
    ghost var spec := specs[i];
    SiteHas(Snap(S), tree, site, spec);
    var nv, F := NewNode(NullKind, site.schema, "", false);
    d := SetAt(g, schema, tree, site, nv, spec, S, h, F, 1);
    return true, "null_injection", d, NullInjection;
  }

  // ---- 7. undeclared property (adversarial only) ----

  const EXTRA := "__structFuzzExtra"

  function ExtraKey(i: nat): string {
    EXTRA + Digits(i)
  }

  lemma ExtraKeysDiffer(i: nat, j: nat)
    requires i != j
    ensures ExtraKey(i) != ExtraKey(j)
  {
    DigitsMean(i);
    DigitsMean(j);
    assert ExtraKey(i)[|EXTRA|..] == Digits(i) && ExtraKey(j)[|EXTRA|..] == Digits(j);
  }

  lemma ExtraKeyStarts(i: nat)
    ensures "__structFuzzExtra" <= ExtraKey(i)
  {
  }

  // The search has no bound of its own: it ends because the property map is finite.
  method UndeclaredKeyFor(n: SchemaNode) returns (key: string)
    ensures key !in n.properties && "__structFuzzExtra" <= key
    ensures "__structFuzzExtra" !in n.properties ==> key == "__structFuzzExtra"
  {
    hide ExtraKey;
    if EXTRA !in n.properties {
      return EXTRA;
    }
    var i := 0;
    ghost var taken: set<string> := {};
    while ExtraKey(i) in n.properties
      invariant taken <= n.properties.Keys && |taken| == i
      invariant forall k :: k in taken <==> exists j :: 0 <= j < i && k == ExtraKey(j)
      decreases |n.properties| - i
    {
      forall j | 0 <= j < i
        ensures ExtraKey(j) != ExtraKey(i)
      {
        ExtraKeysDiffer(j, i);
      }
      SubsetSize(taken + {ExtraKey(i)}, n.properties.Keys);
      taken := taken + {ExtraKey(i)};
      i := i + 1;
    }
    key := ExtraKey(i);
    ExtraKeyStarts(i);
  }

  method NewScalar(c: Scalar) returns (v: BodyValue, ghost F: set<BodyValue>)
    ensures fresh(F) && Owned(Snap(F), v, 1) && View(Snap(F), v, 1) == SyntheticScalar(c)
  {
    match c
    case TextScalar => v, F := NewNode(String, Nil, "structfuzz", false);
    case NumberScalar => v, F := NewNode(Number, Nil, "1337", false);
    case BoolScalar => v, F := NewNode(Boolean, Nil, "", true);
  }

  // A field of the synthetic pool put into the value of a site.
  method PutScalar(g: Schema, schema: NodeId, tree: BodyValue, site: BodySite, at: nat, key: string, c: Scalar,
                   ghost spec: Site, ghost S: set<BodyValue>, ghost h: nat)
    returns (ghost d: Done)
    requires Owned(Snap(S), tree, h) && SiteIs(Snap(S), tree, site, spec)
    requires IsSite(g, schema, View(Snap(S), tree, h), spec.path, spec.schema) && at <= |site.value.fields|
    modifies S
    ensures S <= d.nodes && fresh(d.nodes - S) && d.path == spec.path && d.schema == spec.schema
    ensures
      var t := old(View(Snap(S), tree, h));
      && ValidPath(t, d.path)
      && (At(t, d.path).Obj? ==> Keys(At(t, d.path).fields) == FieldKeys(old(site.value.fields)))
      && Replaced(g, schema, old(Snap(S)), tree, h, Snap(d.nodes), d,
                  InsertField(At(t, d.path), at, Field(key, SyntheticScalar(c))))
  {
    hide Owned, Foot, View, Plug, Edited, Replaced, IsAt, IsSite, SiteIs;
    ghost var m, k := Snap(S), h - |spec.path|;
    SiteHas(m, tree, site, spec);
    Located(g, schema, m, tree, h, site, spec, k);
    ObjectFields(m, site.value, k);
    ghost var u := View(m, site.value, k);
    var v, F := NewScalar(c);
    InsertAt(tree, site.value, at, key, v, S, h, spec.path, F, 1, k);
    d := Done(spec.path, spec.schema, S + F, h + 1);
    EditIsReplaced(g, schema, m, tree, h, Snap(d.nodes), d, InsertField(u, at, Field(key, SyntheticScalar(c))));
  }

  method OpUndeclaredProperty(g: Schema, schema: NodeId, tree: BodyValue, tags: Tags, ghost S: set<BodyValue>,
                              ghost h: nat)
    returns (applied: bool, category: string, ghost d: Done, ghost op: AdversarialOp)
    requires Owned(Snap(S), tree, h)
    modifies S
    ensures applied ==> category == "undeclared_property" && S <= d.nodes && fresh(d.nodes - S) && op.Undeclared?
                        && DidAdversarial(g, schema, old(Snap(S)), tree, h, Snap(d.nodes), d, op, tags)
    ensures !applied ==> category == "" && Snap(S) == old(Snap(S))
    ensures !applied ==> NoSite(g, schema, old(View(Snap(S), tree, h)),
                                (sid, _) => sid in g && g[sid].nodeType.ObjectType?)
  {
    hide Owned, Foot, View, Plug, Build, Replaced, IsAt, IsSite, SiteIs;
    var sites, specs := CollectWhere(g, schema, tree, IsObjectNode, S, h);
    if sites == [] {
      NothingKept(g, schema, View(Snap(S), tree, h), specs, IsObjectNode);
      return false, "", Done([], Nil, S, h), NullInjection;
    }
    var i :| 0 <= i < |sites|;
    var site := sites[i];
    ghost var spec := specs[i];
    SiteHas(Snap(S), tree, site, spec);
    var key := UndeclaredKeyFor(g[site.schema]);
    var c: Scalar := *;
    var pos: nat :| pos <= |site.value.fields|;
    d := PutScalar(g, schema, tree, site, pos, key, c, spec, S, h);
    op := Undeclared(key, pos, c);
    ghost var u := At(old(View(Snap(S), tree, h)), d.path);
    assert u.Obj? ==> |u.fields| == |Keys(u.fields)|;
    return true, "undeclared_property", d, op;
  }

  // ---- 8. duplicate key (adversarial only) ----

  method OpDuplicateKey(g: Schema, schema: NodeId, tree: BodyValue, tags: Tags, ghost S: set<BodyValue>, ghost h: nat)
    returns (applied: bool, category: string, ghost d: Done, ghost op: AdversarialOp)
    requires Owned(Snap(S), tree, h)
    modifies S
    ensures applied ==> category == "dup_key" && S <= d.nodes && fresh(d.nodes - S) && op.DuplicateKey?
                        && DidAdversarial(g, schema, old(Snap(S)), tree, h, Snap(d.nodes), d, op, tags)
    ensures !applied ==> category == "" && Snap(S) == old(Snap(S))
    ensures !applied ==> NoSite(g, schema, old(View(Snap(S), tree, h)), (sid: NodeId, u: Tree) =>
              sid in g && g[sid].nodeType.ObjectType? && u.Obj? && u.fields != [])
  {
    hide Owned, Foot, View, Plug, Build, Replaced, IsAt, IsSite, SiteIs;
    var all, allSpecs := CollectWhere(g, schema, tree, IsObjectNode, S, h);
    var sites, specs := WithFields(g, schema, tree, all, allSpecs, S, h);
    if sites == [] {
      CoveredNone(g, schema, View(Snap(S), tree, h), HoldsFields(g), (sid: NodeId, u: Tree) =>
        sid in g && g[sid].nodeType.ObjectType? && u.Obj? && u.fields != []);
      return false, "", Done([], Nil, S, h), NullInjection;
    }
    var k :| 0 <= k < |sites|;
    var site := sites[k];
    ghost var spec := specs[k];
    SiteHas(Snap(S), tree, site, spec);
    Located(g, schema, Snap(S), tree, h, site, spec, h - |spec.path|);
    ObjectFields(Snap(S), site.value, h - |spec.path|);
    var i: nat :| i < |site.value.fields|;
    var key := site.value.fields[i].key;
    ghost var n := |site.value.fields|;
    ghost var u := View(Snap(S), site.value, h - |spec.path|);
    assert Keys(u.fields)[i] == FieldKeys(site.value.fields)[i];
    var c: Scalar := *;
    d := PutScalar(g, schema, tree, site, |site.value.fields|, key, c, spec, S, h);
    op := DuplicateKey(i, c);
    InsertedLast(u, n, key, SyntheticScalar(c));
    return true, "dup_key", d, op;
  }

  function HoldsFields(g: Schema): (NodeId, Tree) -> bool {
    (sid: NodeId, u: Tree) => sid in g && g[sid].nodeType.ObjectType? && u.Obj? && u.fields != []
  }

  // The object sites that have a field to repeat.
  method WithFields(g: Schema, schema: NodeId, tree: BodyValue, all: seq<BodySite>, ghost allSpecs: seq<Site>,
                    ghost S: set<BodyValue>, ghost h: nat)
    returns (sites: seq<BodySite>, ghost specs: seq<Site>)
    requires Owned(Snap(S), tree, h) && Candidates(g, schema, Snap(S), tree, h, IsObjectNode, all, allSpecs)
    requires Covered(g, schema, View(Snap(S), tree, h), allSpecs, Kept(g, IsObjectNode))
    ensures Candidates(g, schema, Snap(S), tree, h, IsObjectNode, sites, specs)
    ensures forall i | 0 <= i < |sites| :: sites[i].value.kind == Object && sites[i].value.fields != []
    ensures Covered(g, schema, View(Snap(S), tree, h), specs, HoldsFields(g))
  {
    hide Owned, View, SiteIs, IsSite, Covered, Foot, IsAt;
    ghost var m, t := Snap(S), View(Snap(S), tree, h);
    sites, specs := [], [];
    var i := 0;
    while i < |all|
      invariant i <= |all| && Snap(S) == m
      invariant Candidates(g, schema, m, tree, h, IsObjectNode, sites, specs)
      invariant forall i | 0 <= i < |sites| :: sites[i].value.kind == Object && sites[i].value.fields != []
      invariant FieldsListed(t, allSpecs[..i], specs)
    {
      ghost var k := h - |allSpecs[i].path|;
      Located(g, schema, m, tree, h, all[i], allSpecs[i], k);
      ObjectFields(m, all[i].value, k);
      SnapCell(S, all[i].value);
      ListedNext(t, allSpecs, i, specs);
      if all[i].value.kind == Object && all[i].value.fields != [] {
        sites, specs := sites + [all[i]], specs + [allSpecs[i]];
      }
      i := i + 1;
    }
    assert allSpecs[..i] == allSpecs;
    FieldsCovered(g, schema, t, allSpecs, specs);
  }

  // Of these sites, the ones whose value shows a field are listed.
  ghost predicate FieldsListed(t: Tree, all: seq<Site>, specs: seq<Site>) {
    forall s | s in all :: ValidPath(t, s.path) && At(t, s.path).Obj? && At(t, s.path).fields != [] ==> s in specs
  }

  lemma ListedNext(t: Tree, all: seq<Site>, i: nat, specs: seq<Site>)
    requires i < |all| && FieldsListed(t, all[..i], specs)
    ensures FieldsListed(t, all[..i + 1], specs + [all[i]])
    ensures (ValidPath(t, all[i].path) && At(t, all[i].path).Obj? && At(t, all[i].path).fields != [])
            || FieldsListed(t, all[..i + 1], specs)
  {
    assert all[..i + 1] == all[..i] + [all[i]];
  }

  lemma FieldsCovered(g: Schema, schema: NodeId, t: Tree, all: seq<Site>, specs: seq<Site>)
    requires Covered(g, schema, t, all, Kept(g, IsObjectNode)) && FieldsListed(t, all, specs)
    ensures Covered(g, schema, t, specs, HoldsFields(g))
  {
    forall p: Path, sid: NodeId | IsSite(g, schema, t, p, sid) && ValidPath(t, p) && HoldsFields(g)(sid, At(t, p))
      ensures Site(p, sid) in specs
    {
      var keep := IsObjectNode;
      assert keep(g[sid]) && Kept(g, keep)(sid, At(t, p));
      assert Site(p, sid) in all;
    }
  }

  // ---- 9. nesting-depth stress ----

  predicate AnyNode(n: SchemaNode) {
    true
  }

  function Circular(g: Schema, order: Iteration): (NodeId, Tree) -> bool {
    (sid, _) => sid in g && HasSelfReference(g, sid, order)
  }

  // The candidates whose schema node comes back to itself.
  method SelfReferential(g: Schema, schema: NodeId, tree: BodyValue, all: seq<BodySite>, order: Iteration,
                         ghost allSpecs: seq<Site>, ghost S: set<BodyValue>, ghost h: nat)
    returns (sites: seq<BodySite>, ghost specs: seq<Site>)
    requires Owned(Snap(S), tree, h) && Candidates(g, schema, Snap(S), tree, h, AnyNode, all, allSpecs)
    requires Covered(g, schema, View(Snap(S), tree, h), allSpecs, Kept(g, AnyNode))
    ensures Candidates(g, schema, Snap(S), tree, h, AnyNode, sites, specs)
    ensures forall i | 0 <= i < |sites| :: HasSelfReference(g, sites[i].schema, order)
    ensures Covered(g, schema, View(Snap(S), tree, h), specs, Circular(g, order))
  {
    hide Owned, View, SiteIs, IsSite, HasSelfReference, Covered, IsAt;
    ghost var m, t := Snap(S), View(Snap(S), tree, h);
    sites, specs := [], [];
    var i := 0;
    while i < |all|
      invariant i <= |all| && Snap(S) == m
      invariant Candidates(g, schema, m, tree, h, AnyNode, sites, specs)
      invariant forall i | 0 <= i < |sites| :: HasSelfReference(g, sites[i].schema, order)
      invariant forall j | 0 <= j < i && HasSelfReference(g, allSpecs[j].schema, order) :: allSpecs[j] in specs
    {
      SiteHas(m, tree, all[i], allSpecs[i]);
      if HasSelfReference(g, all[i].schema, order) {
        sites, specs := sites + [all[i]], specs + [allSpecs[i]];
      }
      i := i + 1;
    }
    CircularCovered(g, schema, t, allSpecs, specs, order);
  }

  lemma CircularCovered(g: Schema, schema: NodeId, t: Tree, all: seq<Site>, specs: seq<Site>, order: Iteration)
    requires Covered(g, schema, t, all, Kept(g, AnyNode))
    requires forall j | 0 <= j < |all| && HasSelfReference(g, all[j].schema, order) :: all[j] in specs
    ensures Covered(g, schema, t, specs, Circular(g, order))
  {
    hide HasSelfReference;
    forall p: Path, sid: NodeId | IsSite(g, schema, t, p, sid) && ValidPath(t, p) && Circular(g, order)(sid, At(t, p))
      ensures Site(p, sid) in specs
    {
      var keep := AnyNode;
      assert keep(g[sid]) && Kept(g, keep)(sid, At(t, p));
      assert Site(p, sid) in all;
    }
  }

  method OpNestingDepthStressValid(g: Schema, schema: NodeId, tree: BodyValue, order: Iteration, tags: Tags,
                                   ghost S: set<BodyValue>, ghost h: nat)
    returns (applied: bool, category: string, ghost d: Done, ghost op: ValidOp)
    requires Owned(Snap(S), tree, h)
    modifies S
    ensures applied ==> category == "nesting_depth" && S <= d.nodes && fresh(d.nodes - S) && op == RebuildSelf
                        && DidValid(g, schema, old(Snap(S)), tree, h, Snap(d.nodes), d, op, tags)
                        && LeadsTo(g, d.schema, d.schema)
    ensures !applied ==> category == "" && Snap(S) == old(Snap(S))
    ensures !applied ==> NoSite(g, schema, old(View(Snap(S), tree, h)),
                                (sid, _) => sid in g && HasSelfReference(g, sid, order))
  {
    hide Owned, Foot, View, Plug, Build, Replaced, IsAt, IsSite, SiteIs, HasSelfReference, LeadsTo, Resized,
         EdgeValue, HasScalarConstraint, Covered;
    var all, allSpecs := CollectWhere(g, schema, tree, AnyNode, S, h);
    var sites, specs := SelfReferential(g, schema, tree, all, order, allSpecs, S, h);
    if sites == [] {
      CoveredNone(g, schema, View(Snap(S), tree, h), Circular(g, order),
                  (sid, _) => sid in g && HasSelfReference(g, sid, order));
      return false, "", Done([], Nil, S, h), RebuildSelf;
    }
    var i :| 0 <= i < |sites|;
    var site := sites[i];
    ghost var spec := specs[i];
    SiteHas(Snap(S), tree, site, spec);
    HitMeansCycle(g, site.schema, order);
    var nv, F := BuildBodyValue(g, site.schema, Plain(0, tags), [], 0, BUILD_LEVELS);
    d := SetAt(g, schema, tree, site, nv, spec, S, h, F, BUILD_LEVELS);
    return true, "nesting_depth", d, RebuildSelf;
  }

  // Synthetic layers around a copy of the value, never around the value itself.
  method WrapCopy(v: BodyValue, layers: nat, ghost S: set<BodyValue>, ghost k: nat)
    returns (w: BodyValue, ghost F: set<BodyValue>)
    requires Owned(Snap(S), v, k)
    ensures fresh(F) && Owned(Snap(F), w, k + layers)
    ensures View(Snap(F), w, k + layers) == Wrapped(Truncate(View(Snap(S), v, k), 0), layers)
  {
    hide Owned, Foot, View;
    ghost var t := Truncate(View(Snap(S), v, k), 0);
    w, F := BodyClone.Clone(v, S, k);
    for i := 0 to layers
      invariant fresh(F) && Owned(Snap(F), w, k + i) && View(Snap(F), w, k + i) == Wrapped(t, i)
    {
      w, F := WrapOnce(w, F, k + i, k + i + 1);
    }
  }

  method WrapOnce(v: BodyValue, ghost S: set<BodyValue>, ghost k: nat, ghost k2: nat)
    returns (w: BodyValue, ghost F: set<BodyValue>)
    requires Owned(Snap(S), v, k) && k2 == k + 1
    ensures S <= F && fresh(F - S) && Owned(Snap(F), w, k2)
    ensures View(Snap(F), w, k2) == Obj(Nil, [Field("wrapped", View(Snap(S), v, k))])
  {
    hide Owned, Foot, View;
    w := new BodyValue(Object, Nil, "", false);
    ghost var m := Snap(S);
    var fields := [BodyField("wrapped", v)];
    w.fields := fields;
    F := S + {w};
    BodyClone.SingleForest(m, v, k);
    assert FieldValues(fields) == [v];
    ObjectOver(m, fields, w, Snap(F), k2, Nil);
    OneField(m, fields, k);
  }

  lemma OneField(m: Heap, fields: seq<BodyField>, k: nat)
    requires |fields| == 1
    ensures ViewFields(m, fields, k) == [Field(fields[0].key, View(m, fields[0].value, k))]
  {
  }

  method OpNestingDepthStressAdversarial(g: Schema, schema: NodeId, tree: BodyValue, tags: Tags,
                                         ghost S: set<BodyValue>, ghost h: nat)
    returns (applied: bool, category: string, ghost d: Done, ghost op: AdversarialOp)
    requires Owned(Snap(S), tree, h)
    modifies S
    ensures applied ==> category == "nesting_depth" && S <= d.nodes && fresh(d.nodes - S) && op == Nest
                        && DidAdversarial(g, schema, old(Snap(S)), tree, h, Snap(d.nodes), d, op, tags)
    ensures !applied ==> category == "" && Snap(S) == old(Snap(S))
    ensures !applied ==> NoSite(g, schema, old(View(Snap(S), tree, h)),
                                (sid, _) => sid in g)
  {
    hide Owned, Foot, View, Plug, Build, Replaced, IsAt, IsSite, SiteIs;
    var sites, specs := CollectWhere(g, schema, tree, AnyNode, S, h);
    if sites == [] {
      NothingKept(g, schema, View(Snap(S), tree, h), specs, AnyNode);
      return false, "", Done([], Nil, S, h), NullInjection;
    }
    var i :| 0 <= i < |sites|;
    var site := sites[i];
    ghost var spec := specs[i];
    SiteHas(Snap(S), tree, site, spec);
    ghost var k := h - |spec.path|;
    Located(g, schema, Snap(S), tree, h, site, spec, k);
    var nv, F := WrapCopy(site.value, NESTING_EXTRA_LAYERS, S, k);
    d := SetAt(g, schema, tree, site, nv, spec, S, h, F, k + NESTING_EXTRA_LAYERS);
    return true, "nesting_depth", d, Nest;
  }

  // ---- 10. constraint boundary ----

  method NewEdgeValue(id: NodeId, n: SchemaNode) returns (v: BodyValue, ghost F: set<BodyValue>)
    ensures fresh(F) && Owned(Snap(F), v, 1) && View(Snap(F), v, 1) == EdgeValue(id, n)
  {
    if n.enumValues != [] {
      v, F := NewNode(String, id, n.enumValues[0], false);
    } else if IsNumeric(n) {
      var x := OfInt(0);
      if n.minimum.Some? {
        x := n.minimum.value;
      } else if n.maximum.Some? {
        x := n.maximum.value;
      }
      v, F := NewNode(Number, id, FormatNumber(n.scalarType, x), false);
    } else if n.minLength.Some? {
      v, F := NewNode(String, id, Repeat('a', n.minLength.value), false);
    } else if n.maxLength.Some? {
      v, F := NewNode(String, id, Repeat('a', n.maxLength.value), false);
    } else {
      v, F := NewNode(String, id, "", false);
    }
  }

  method NewViolatingValue(id: NodeId, n: SchemaNode) returns (v: BodyValue, ghost F: set<BodyValue>)
    ensures fresh(F) && Owned(Snap(F), v, 1) && View(Snap(F), v, 1) == ViolatingValue(id, n)
  {
    if IsNumeric(n) {
      if n.minimum.Some? {
        v, F := NewNode(Number, id, FormatNumber(n.scalarType, Plus(n.minimum.value, -1)), false);
        return;
      }
      if n.maximum.Some? {
        v, F := NewNode(Number, id, FormatNumber(n.scalarType, Plus(n.maximum.value, 1)), false);
        return;
      }
    }
    if n.maxLength.Some? {
      v, F := NewNode(String, id, Repeat('a', n.maxLength.value + 1), false);
    } else if n.minLength.Some? && n.minLength.value > 0 {
      v, F := NewNode(String, id, Repeat('a', n.minLength.value - 1), false);
    } else if n.enumValues != [] {
      v, F := NewNode(String, id, n.enumValues[0] + SUFFIX, false);
    } else {
      v, F := NewNode(String, id, "", false);
    }
  }

  method OpConstraintBoundaryValid(g: Schema, schema: NodeId, tree: BodyValue, tags: Tags, ghost S: set<BodyValue>,
                                   ghost h: nat)
    returns (applied: bool, category: string, ghost d: Done, ghost op: ValidOp)
    requires Owned(Snap(S), tree, h)
    modifies S
    ensures applied ==> category == "constraint_boundary" && S <= d.nodes && fresh(d.nodes - S) && op == Edge
                        && DidValid(g, schema, old(Snap(S)), tree, h, Snap(d.nodes), d, op, tags)
    ensures !applied ==> category == "" && Snap(S) == old(Snap(S))
    ensures !applied ==> NoSite(g, schema, old(View(Snap(S), tree, h)),
                                (sid, _) => sid in g && g[sid].nodeType.ScalarNode?
                                      && (g[sid].minLength.Some? || g[sid].maxLength.Some? || g[sid].minimum.Some?
                                          || g[sid].maximum.Some? || g[sid].enumValues != [] || g[sid].pattern != ""))
  {
    hide Owned, Foot, View, Plug, Build, Replaced, IsAt, IsSite, SiteIs;
    var sites, specs := CollectWhere(g, schema, tree, HasScalarConstraint, S, h);
    if sites == [] {
      NothingKept(g, schema, View(Snap(S), tree, h), specs, HasScalarConstraint);
      return false, "", Done([], Nil, S, h), RebuildSelf;
    }
    var i :| 0 <= i < |sites|;
    var site := sites[i];
    ghost var spec := specs[i];
    SiteHas(Snap(S), tree, site, spec);
    var nv, F := NewEdgeValue(site.schema, g[site.schema]);
    d := SetAt(g, schema, tree, site, nv, spec, S, h, F, 1);
    return true, "constraint_boundary", d, Edge;
  }

  method OpConstraintBoundaryAdversarial(g: Schema, schema: NodeId, tree: BodyValue, tags: Tags,
                                         ghost S: set<BodyValue>, ghost h: nat)
    returns (applied: bool, category: string, ghost d: Done, ghost op: AdversarialOp)
    requires Owned(Snap(S), tree, h)
    modifies S
    ensures applied ==> category == "constraint_boundary" && S <= d.nodes && fresh(d.nodes - S) && op == Violate
                        && DidAdversarial(g, schema, old(Snap(S)), tree, h, Snap(d.nodes), d, op, tags)
    ensures !applied ==> category == "" && Snap(S) == old(Snap(S))
    ensures !applied ==> NoSite(g, schema, old(View(Snap(S), tree, h)),
                                (sid, _) => sid in g && g[sid].nodeType.ScalarNode?
                                      && (g[sid].minLength.Some? || g[sid].maxLength.Some? || g[sid].minimum.Some?
                                          || g[sid].maximum.Some? || g[sid].enumValues != [] || g[sid].pattern != ""))
  {
    hide Owned, Foot, View, Plug, Build, Replaced, IsAt, IsSite, SiteIs;
    var sites, specs := CollectWhere(g, schema, tree, HasScalarConstraint, S, h);
    if sites == [] {
      NothingKept(g, schema, View(Snap(S), tree, h), specs, HasScalarConstraint);
      return false, "", Done([], Nil, S, h), NullInjection;
    }
    var i :| 0 <= i < |sites|;
    var site := sites[i];
    ghost var spec := specs[i];
    SiteHas(Snap(S), tree, site, spec);
    var nv, F := NewViolatingValue(site.schema, g[site.schema]);
    d := SetAt(g, schema, tree, site, nv, spec, S, h, F, 1);
    return true, "constraint_boundary", d, Violate;
  }

  // ---- entry point ----

  // At most one operator worked, at one site of the freshly built tree t; r is what the body means now.
  ghost predicate ValidOutcome(g: Schema, schema: NodeId, t: Tree, r: Tree, d: Done, op: ValidOp, tags: Tags) {
    && d.schema in g && IsSite(g, schema, t, d.path, d.schema) && ValidPath(t, d.path)
    && ValidEligible(g, g[d.schema], At(t, d.path), op)
    && r == Plug(t, d.path, ApplyValid(g, d.schema, At(t, d.path), op, tags))
  }

  ghost predicate AdversarialOutcome(g: Schema, schema: NodeId, t: Tree, r: Tree, d: Done, op: AdversarialOp,
                                     tags: Tags) {
    && d.schema in g && IsSite(g, schema, t, d.path, d.schema) && ValidPath(t, d.path)
    && AdversarialEligible(g, g[d.schema], At(t, d.path), op)
    && r == Plug(t, d.path, ApplyAdversarial(g, d.schema, At(t, d.path), op, tags))
  }

  // The outcome of a render, as ghost data: no operator, or the one that worked.
  datatype Outcome = Untouched | OneValid(d: Done, vop: ValidOp) | OneAdversarial(d: Done, aop: AdversarialOp)

  ghost predicate OutcomeIs(g: Schema, schema: NodeId, t: Tree, r: Tree, o: Outcome, tags: Tags) {
    match o
    case Untouched => r == t
    case OneValid(d, op) => ValidOutcome(g, schema, t, r, d, op, tags)
    case OneAdversarial(d, op) => AdversarialOutcome(g, schema, t, r, d, op, tags)
  }

  // structuralOps, by name.
  datatype Operator =
    | AddRemoveField | RequiredOmit | ArrayResize | VariantSwitch | TypeSubstitution | InjectNull
    | UndeclaredProperty | DupKey | NestingDepth | ConstraintBoundary

  function OperatorName(pick: Operator): string {
    match pick
    case AddRemoveField => "add_remove_field"
    case RequiredOmit => "required_omit"
    case ArrayResize => "array_resize"
    case VariantSwitch => "variant_switch"
    case TypeSubstitution => "type_substitution"
    case InjectNull => "null_injection"
    case UndeclaredProperty => "undeclared_property"
    case DupKey => "dup_key"
    case NestingDepth => "nesting_depth"
    case ConstraintBoundary => "constraint_boundary"
  }

  predicate HasValidFn(pick: Operator) {
    pick.AddRemoveField? || pick.ArrayResize? || pick.VariantSwitch? || pick.NestingDepth? || pick.ConstraintBoundary?
  }

  predicate HasAdversarialFn(pick: Operator) {
    !pick.AddRemoveField?
  }

  predicate IsValidOf(pick: Operator, op: ValidOp) {
    match pick
    case AddRemoveField => op.AddField? || op.RemoveField?
    case ArrayResize => op.ResizeTo?
    case VariantSwitch => op.SwitchTo?
    case NestingDepth => op.RebuildSelf?
    case ConstraintBoundary => op.Edge?
    case _ => false
  }

  predicate IsAdversarialOf(pick: Operator, op: AdversarialOp) {
    match pick
    case AddRemoveField => false
    case RequiredOmit => op.OmitRequired?
    case ArrayResize => op.ResizeOut?
    case VariantSwitch => op.SwitchTag?
    case TypeSubstitution => op.WrongType?
    case InjectNull => op.NullInjection?
    case UndeclaredProperty => op.Undeclared?
    case DupKey => op.DuplicateKey?
    case NestingDepth => op.Nest?
    case ConstraintBoundary => op.Violate?
  }

  // There is work for the operator at this site, as its node and its value say.
  ghost predicate ValidWork(g: Schema, pick: Operator, tryAdd: bool, order: Iteration, sid: NodeId, u: Tree) {
    sid in g &&
    var n := g[sid];
    match pick
    case AddRemoveField =>
      n.nodeType.ObjectType? && u.Obj?
      && if tryAdd then exists name :: name in n.propertyOrder && name !in Keys(u.fields)
         else exists i :: 0 <= i < |u.fields| && u.fields[i].key !in n.required
    case ArrayResize => n.nodeType.ArrayType?
    case VariantSwitch => (n.nodeType.OneOf? || n.nodeType.AnyOf?) && |n.variants| > 1
    case NestingDepth => HasSelfReference(g, sid, order)
    case ConstraintBoundary => n.nodeType.ScalarNode? && Constrained(n)
    case _ => false
  }

  ghost predicate AdversarialWork(g: Schema, pick: Operator, sid: NodeId, u: Tree) {
    sid in g &&
    var n := g[sid];
    match pick
    case RequiredOmit =>
      n.nodeType.ObjectType? && u.Obj? && exists i :: 0 <= i < |u.fields| && u.fields[i].key in n.required
    case ArrayResize =>
      n.nodeType.ArrayType? && (n.maxItems.Some? || (n.minItems.Some? && n.minItems.value > 0))
    case VariantSwitch => (n.nodeType.OneOf? || n.nodeType.AnyOf?) && |n.variants| > 1
    case TypeSubstitution => n.nodeType.ScalarNode?
    case InjectNull => !n.nullable && n.nodeType != OtherType("")
    case UndeclaredProperty => n.nodeType.ObjectType?
    case DupKey => n.nodeType.ObjectType? && u.Obj? && u.fields != []
    case NestingDepth => true
    case ConstraintBoundary => n.nodeType.ScalarNode? && Constrained(n)
    case _ => false
  }

  predicate Constrained(n: SchemaNode) {
    || n.minLength.Some? || n.maxLength.Some? || n.minimum.Some? || n.maximum.Some?
    || n.enumValues != [] || n.pattern != ""
  }

  // Builds a body and lets at most one operator at it. The result is a tree of fresh nodes. A valid render is mutated
  // if the dice say so; then, and in every adversarial render, the operator picked does its work at some site, and is
  // named in the label, or there is no site with work for it.
  method BuildAndMutateBodyTree(g: Schema, schema: NodeId, valid: bool, mutate: bool, pick: Operator, tryAdd: bool,
                                src: Source, order: Iteration, tags: Tags)
    returns (tree: BodyValue, mark: string, ghost T: set<BodyValue>, ghost h: nat, ghost o: Outcome)
    requires if valid then HasValidFn(pick) else HasAdversarialFn(pick)
    ensures fresh(T) && Owned(Snap(T), tree, h)
    ensures OutcomeIs(g, schema, Build(g, schema, src, [], 0), View(Snap(T), tree, h), o, tags)
    ensures mark == if o.Untouched? then "" else "mcat_struct_" + OperatorName(pick)
    ensures o.OneValid? ==> valid && mutate && IsValidOf(pick, o.vop)
    ensures o.OneAdversarial? ==> !valid && IsAdversarialOf(pick, o.aop)
    ensures valid && mutate && o.Untouched? ==>
              NoSite(g, schema, Build(g, schema, src, [], 0),
                     (sid: NodeId, u: Tree) => ValidWork(g, pick, tryAdd, order, sid, u))
    ensures !valid && o.Untouched? ==>
              NoSite(g, schema, Build(g, schema, src, [], 0),
                     (sid: NodeId, u: Tree) => AdversarialWork(g, pick, sid, u))
  {
    hide Owned, Build, Plug, IsSite, ApplyValid, ApplyAdversarial, ValidEligible, AdversarialEligible, NoSite;
    tree, T := BuildBodyValue(g, schema, src, [], 0, BUILD_LEVELS);
    h := BUILD_LEVELS;
    mark, o := "", Untouched;
    var applied: bool, category: string;
    ghost var d: Done;
    if valid {
      if mutate {
        ghost var op: ValidOp;
        applied, category, d, op := ApplyValidOperator(g, schema, tree, pick, tryAdd, order, tags, T, h);
        if applied {
          mark, T, h, o := "mcat_struct_" + category, d.nodes, d.levels, OneValid(d, op);
        }
      }
    } else {
      ghost var op: AdversarialOp;
      applied, category, d, op := ApplyAdversarialOperator(g, schema, tree, pick, tags, T, h);
      if applied {
        mark, T, h, o := "mcat_struct_" + category, d.nodes, d.levels, OneAdversarial(d, op);
      }
    }
  }

  method ApplyValidOperator(g: Schema, schema: NodeId, tree: BodyValue, pick: Operator, tryAdd: bool,
                            order: Iteration, tags: Tags, ghost S: set<BodyValue>, ghost h: nat)
    returns (applied: bool, category: string, ghost d: Done, ghost op: ValidOp)
    requires Owned(Snap(S), tree, h) && HasValidFn(pick)
    modifies S
    ensures applied ==> S <= d.nodes && fresh(d.nodes - S)
                        && DidValid(g, schema, old(Snap(S)), tree, h, Snap(d.nodes), d, op, tags)
                        && category == OperatorName(pick) && IsValidOf(pick, op)
    ensures !applied ==> Snap(S) == old(Snap(S))
    ensures !applied ==> NoSite(g, schema, old(View(Snap(S), tree, h)),
                                (sid: NodeId, u: Tree) => ValidWork(g, pick, tryAdd, order, sid, u))
  {
    hide Owned, DidValid, IsSite, HasSelfReference, Snap, View;
    match pick
    case ArrayResize => applied, category, d, op := OpArrayResizeValid(g, schema, tree, tags, S, h);
    case VariantSwitch => applied, category, d, op := OpVariantSwitchValid(g, schema, tree, tags, S, h);
    case NestingDepth => applied, category, d, op := OpNestingDepthStressValid(g, schema, tree, order, tags, S, h);
    case ConstraintBoundary => applied, category, d, op := OpConstraintBoundaryValid(g, schema, tree, tags, S, h);
    case AddRemoveField => applied, category, d, op := OpAddRemoveFieldValid(g, schema, tree, tryAdd, tags, S, h);
  }

  method ApplyAdversarialOperator(g: Schema, schema: NodeId, tree: BodyValue, pick: Operator, tags: Tags,
                                  ghost S: set<BodyValue>, ghost h: nat)
    returns (applied: bool, category: string, ghost d: Done, ghost op: AdversarialOp)
    requires Owned(Snap(S), tree, h) && HasAdversarialFn(pick)
    modifies S
    ensures applied ==> S <= d.nodes && fresh(d.nodes - S)
                        && DidAdversarial(g, schema, old(Snap(S)), tree, h, Snap(d.nodes), d, op, tags)
                        && category == OperatorName(pick) && IsAdversarialOf(pick, op)
    ensures !applied ==> Snap(S) == old(Snap(S))
    ensures !applied ==> NoSite(g, schema, old(View(Snap(S), tree, h)),
                                (sid: NodeId, u: Tree) => AdversarialWork(g, pick, sid, u))
  {
    hide Owned, DidAdversarial, IsSite, Snap, View;
    match pick
    case RequiredOmit => applied, category, d, op := OpRequiredFieldOmission(g, schema, tree, tags, S, h);
    case ArrayResize => applied, category, d, op := OpArrayResizeAdversarial(g, schema, tree, tags, S, h);
    case VariantSwitch => applied, category, d, op := OpVariantSwitchAdversarial(g, schema, tree, tags, S, h);
    case TypeSubstitution => applied, category, d, op := OpTypeSubstitution(g, schema, tree, tags, S, h);
    case InjectNull => applied, category, d, op := OpNullInjection(g, schema, tree, tags, S, h);
    case UndeclaredProperty => applied, category, d, op := OpUndeclaredProperty(g, schema, tree, tags, S, h);
    case DupKey => applied, category, d, op := OpDuplicateKey(g, schema, tree, tags, S, h);
    case NestingDepth => applied, category, d, op := OpNestingDepthStressAdversarial(g, schema, tree, tags, S, h);
    case ConstraintBoundary => applied, category, d, op := OpConstraintBoundaryAdversarial(g, schema, tree, tags, S, h);
  }

  // A valid render of a schema whose parts all fit conforms; whatever happened, what was built elsewhere is as built.
  lemma ValidRenderConforms(g: Schema, schema: NodeId, src: Source, r: Tree, o: Outcome, tags: Tags)
    requires Buildable(g, schema, src, [], 0, [])
    requires var t := Build(g, schema, src, [], 0); OutcomeIs(g, schema, t, r, o, tags)
    requires
      var t := Build(g, schema, src, [], 0);
      o.OneValid? ==> ValidFits(g, o.d.schema, At(t, o.d.path), o.vop, tags)
    requires !o.OneAdversarial?
    ensures Conforming(g, schema, r)
  {
    var t := Build(g, schema, src, [], 0);
    BuiltConforms(g, schema, src, [], 0, []);
    BuiltParallel(g, schema, src, [], 0);
    if o.OneValid? {
      ValidKeepsConforming(g, schema, t, o.d.path, o.d.schema, o.vop, tags);
    }
  }

  // The nodes suit the valid operators as well.
  predicate OperatorsFit(g: Schema, nodes: set<NodeId>) {
    && DefaultsFit(g, nodes)
    && (forall x | x in nodes && x in g && HasScalarConstraint(g[x]) :: EdgeFits(g[x]))
    && (forall x, name | x in nodes && x in g && name in g[x].propertyOrder ::
          name in g[x].properties || g[x].allowAdditional)
  }

  // Read off the schema node by node: whatever valid mode renders, it conforms.
  lemma FittingRenderConforms(g: Schema, schema: NodeId, src: Source, r: Tree, o: Outcome, tags: Tags,
                              nodes: set<NodeId>)
    requires MeetsOnly(g, schema, 0, nodes) && AllFit(g, nodes) && LeavesFit(g, nodes, src) && OperatorsFit(g, nodes)
    requires OffersTags(src) && forall i :: OffersTags(Plain(i, tags))
    requires var t := Build(g, schema, src, [], 0); OutcomeIs(g, schema, t, r, o, tags)
    requires !o.OneAdversarial?
    ensures Conforming(g, schema, r)
  {
    hide MeetsOnly, AllFit, LeavesFit, OperatorsFit, OffersTags, Build, Buildable, Conforming, ValidFits;
    var t := Build(g, schema, src, [], 0);
    FittingIsBuildable(g, schema, src, [], 0, nodes, []);
    if o.OneValid? {
      BuiltParallel(g, schema, src, [], 0);
      SiteMet(g, schema, t, o.d.path, o.d.schema, 0, nodes);
      MeetsOnlyMore(g, o.d.schema, |o.d.path|, nodes, 0);
      SiteFits(g, o.d.schema, At(t, o.d.path), o.vop, tags, nodes);
    }
    ValidRenderConforms(g, schema, src, r, o, tags);
  }

  lemma {:induction false} SiteMet(g: Schema, id: NodeId, t: Tree, p: Path, sid: NodeId, depth: nat, nodes: set<NodeId>)
    requires Parallel(g, id, t) && IsSite(g, id, t, p, sid) && MeetsOnly(g, id, depth, nodes)
    ensures MeetsOnly(g, sid, depth + |p|, nodes)
    decreases |p|
  {
    if p != [] {
      SiteMet(g, KidSchema(g, g[id], t, p[0]).value, Kid(t, p[0]), p[1..], sid, depth + 1, nodes);
    }
  }

  lemma SiteFits(g: Schema, sid: NodeId, u: Tree, op: ValidOp, tags: Tags, nodes: set<NodeId>)
    requires sid in g && MeetsOnly(g, sid, 0, nodes) && AllFit(g, nodes) && OperatorsFit(g, nodes)
    requires ValidEligible(g, g[sid], u, op) && forall i :: OffersTags(Plain(i, tags))
    ensures ValidFits(g, sid, u, op, tags)
  {
    hide AllFit, OffersTags, Sound, EdgeFits, DefaultFits, HasScalarConstraint;
    var n := g[sid];
    match op
    case AddField(name) =>
      if name in n.properties {
        MeetsOnlyMore(g, n.properties[name], 1, nodes, 0);
        FittingIsSound(g, n.properties[name], 0, tags, nodes);
      }
    case ResizeTo(_) =>
      MeetsOnlyMore(g, n.items, 1, nodes, 0);
      FittingIsSound(g, n.items, 0, tags, nodes);
    case SwitchTo(branch) => FittingIsSound(g, sid, branch, tags, nodes);
    case RebuildSelf => FittingIsSound(g, sid, 0, tags, nodes);
    case _ =>
  }

  // An adversarial render breaks the schema exactly when the operator's own condition holds.
  lemma AdversarialRenderBreaks(g: Schema, schema: NodeId, src: Source, r: Tree, o: Outcome, tags: Tags)
    requires Buildable(g, schema, src, [], 0, []) && o.OneAdversarial? && OffersTags(Plain(0, tags))
    requires var t := Build(g, schema, src, [], 0); OutcomeIs(g, schema, t, r, o, tags)
    ensures
      var t := Build(g, schema, src, [], 0);
      Conforming(g, schema, r) <==> !Breaks(g, o.d.schema, At(t, o.d.path), o.aop, tags)
  {
    hide Breaks, ApplyAdversarial, AdversarialEligible, Build, Parallel, Plug, IsSite;
    var t := Build(g, schema, src, [], 0);
    BuiltConforms(g, schema, src, [], 0, []);
    BuiltParallel(g, schema, src, [], 0);
    AdversarialBreaksBody(g, schema, t, o.d.path, o.d.schema, o.aop, tags);
  }

  // Whatever was rendered, printing and copying it lose nothing.
  lemma RenderUnderCap(g: Schema, schema: NodeId, src: Source, r: Tree, o: Outcome, tags: Tags)
    requires var t := Build(g, schema, src, [], 0); OutcomeIs(g, schema, t, r, o, tags)
    ensures Height(r) <= MAX_SERIALIZE_DEPTH && Truncate(r, 0) == r
  {
    var t := Build(g, schema, src, [], 0);
    BuiltHeight(g, schema, src, [], 0);
    match o
    case Untouched => TruncateIdentity(t, 0);
    case OneValid(d, op) =>
      HeightAt(t, d.path);
      ValidHeight(g, d.schema, At(t, d.path), op, tags);
      OneOperatorUnderCap(t, d.path, ApplyValid(g, d.schema, At(t, d.path), op, tags));
    case OneAdversarial(d, op) =>
      HeightAt(t, d.path);
      AdversarialHeight(g, d.schema, At(t, d.path), op, tags);
      OneOperatorUnderCap(t, d.path, ApplyAdversarial(g, d.schema, At(t, d.path), op, tags));
  }
}
