// When what buildBodyValue makes conforms to its schema: exactly, and by rules that look at one node at a time.
module BodyConformance {
  import opened Wrappers
  import opened BodyTree
  import opened BodySchema
  import opened BodyBuild

  // ---- tags written over an object, first to last ----

  type Tagging = seq<(string, string)>

  function ApplyTags(t: Tree, over: Tagging): Tree {
    if over == [] then t
    else
      var last := over[|over| - 1];
      Tagged(ApplyTags(t, over[..|over| - 1]), last.0, last.1)
  }

  function TagFor(over: Tagging, k: string): Option<string> {
    if over == [] then None
    else if over[|over| - 1].0 == k then Some(over[|over| - 1].1)
    else TagFor(over[..|over| - 1], k)
  }

  predicate NonEmptyTags(over: Tagging) {
    forall j | 0 <= j < |over| :: over[j].1 != ""
  }

  // What a variant node writes over branch i.
  function Pending(n: SchemaNode, src: Source, pos: Path, i: nat): (over: Tagging)
    ensures NonEmptyTags(over)
  {
    if n.discriminator.None? || src.tag(pos, n.discriminator.value, i) == "" then []
    else [(n.discriminator.value.property, src.tag(pos, n.discriminator.value, i))]
  }

  lemma PendingIsApplied(u: Tree, n: SchemaNode, src: Source, pos: Path, i: nat)
    ensures ApplyTags(u, Pending(n, src, pos, i)) == ApplyTag(u, n, src, pos, i)
  {
    if n.discriminator.Some? && src.tag(pos, n.discriminator.value, i) != "" {
      var one := [(n.discriminator.value.property, src.tag(pos, n.discriminator.value, i))];
      assert one[..0] == [];
    }
  }

  lemma {:induction false} ApplyTagsAppend(t: Tree, a: Tagging, b: Tagging)
    ensures ApplyTags(t, a + b) == ApplyTags(ApplyTags(t, a), b)
    decreases |b|
  {
    if b == [] {
      assert a + b == a;
    } else {
      assert (a + b)[..|a + b| - 1] == a + b[..|b| - 1];
      ApplyTagsAppend(t, a, b[..|b| - 1]);
    }
  }

  lemma {:induction false} TagForFound(over: Tagging, k: string)
    ensures TagFor(over, k).Some? <==> exists j :: 0 <= j < |over| && over[j].0 == k
    ensures TagFor(over, k).Some? ==> (k, TagFor(over, k).value) in over
    decreases |over|
  {
    if over != [] {
      TagForFound(over[..|over| - 1], k);
    }
  }

  lemma {:induction false} ApplyTagsKind(t: Tree, over: Tagging)
    ensures if t.Obj? then ApplyTags(t, over).Obj? && ApplyTags(t, over).node == t.node else ApplyTags(t, over) == t
    decreases |over|
  {
    if over != [] {
      ApplyTagsKind(t, over[..|over| - 1]);
    }
  }

  // The keys of t stay in front, tagged ones are added; repeats neither come nor go.
  lemma {:induction false} ApplyTagsKeys(t: Tree, over: Tagging)
    requires t.Obj? && NonEmptyTags(over)
    ensures
      var r := ApplyTags(t, over);
      && r.Obj? && Keys(t.fields) <= Keys(r.fields)
      && (NoRepeats(Keys(r.fields)) <==> NoRepeats(Keys(t.fields)))
      && forall k :: k in Keys(r.fields) <==> k in Keys(t.fields) || TagFor(over, k).Some?
    decreases |over|
  {
    if over != [] {
      var init, last := over[..|over| - 1], over[|over| - 1];
      ApplyTagsKeys(t, init);
      var u, r := ApplyTags(t, init), ApplyTags(t, over);
      TaggedKeys(u, last.0, last.1);
    }
  }

  lemma TaggedKeys(u: Tree, property: string, tag: string)
    requires u.Obj? && tag != ""
    ensures
      var ks, r := Keys(u.fields), Tagged(u, property, tag);
      && r.Obj? && Keys(r.fields) == (if property in ks then ks else ks + [property])
      && (NoRepeats(Keys(r.fields)) <==> NoRepeats(ks))
  {
    var ks, r := Keys(u.fields), Tagged(u, property, tag);
    var i := FieldIndex(u.fields, property);
    if i < |u.fields| {
      assert ks[i] == property;
      assert Keys(r.fields) == ks;
    } else {
      assert property !in ks;
      assert Keys(r.fields) == ks + [property];
      assert forall j | 0 <= j < |ks| :: Keys(r.fields)[j] == ks[j];
    }
  }

  // With distinct keys, a tagged key holds its last tag and any other field is as before.
  lemma {:induction false} ApplyTagsValues(t: Tree, over: Tagging, i: nat)
    requires t.Obj? && NonEmptyTags(over) && NoRepeats(Keys(t.fields)) && ApplyTags(t, over).Obj?
    requires i < |ApplyTags(t, over).fields|
    ensures
      var f := ApplyTags(t, over).fields[i];
      if TagFor(over, f.key).Some? then f.value == Str(Nil, TagFor(over, f.key).value)
      else i < |t.fields| && f == t.fields[i]
    decreases |over|
  {
    if over != [] {
      var init, last := over[..|over| - 1], over[|over| - 1];
      ApplyTagsKeys(t, init);
      var u := ApplyTags(t, init);
      TaggedFields(u, last.0, last.1);
      TaggedAt(u, last.0, last.1, i);
      if i < |u.fields| {
        ApplyTagsValues(t, init, i);
      }
    }
  }

  lemma TaggedAt(u: Tree, property: string, tag: string, i: nat)
    requires u.Obj? && tag != "" && NoRepeats(Keys(u.fields))
    requires i < |Tagged(u, property, tag).fields|
    ensures
      var f := Tagged(u, property, tag).fields[i];
      if f.key == property then f == Field(property, Str(Nil, tag)) else i < |u.fields| && f == u.fields[i]
  {
    var j := FieldIndex(u.fields, property);
    if i < |u.fields| && i != j {
      assert j < |u.fields| ==> Keys(u.fields)[i] != Keys(u.fields)[j];
    }
  }

  // ---- the condition, followed along the branches taken ----

  // The branch's tag, as the value carries it, is none of another branch.
  predicate OwnTag(d: Discriminator, fields: seq<Field>, i: int) {
    var tag := TagIn(fields, d.property);
    tag in d.mapping ==> d.mapping[tag] == i
  }

  ghost predicate Buildable(g: Schema, id: NodeId, src: Source, pos: Path, depth: nat, over: Tagging)
    decreases MAX_BUILD_DEPTH + 1 - depth, 0, src
  {
    if id !in g then true
    else if depth > MAX_BUILD_DEPTH then Conforming(g, id, Str(id, "fuzzstring"))
    else
      var n := g[id];
      match n.nodeType
      case ObjectType =>
        HeadFits(g, n, over) && FieldsBuildable(g, n, DeclaredOf(n), src, pos, depth + 1, over)
      case ArrayType =>
        && ArrayFits(g, n)
        && ItemsBuildable(g, n, ItemCount(g, n), src, pos, depth + 1)
      case OneOf => VariantBuildable(g, n, src, pos, depth, over)
      case AnyOf => VariantBuildable(g, n, src, pos, depth, over)
      case _ => LeafFits(n, src.leaf(pos, n))
  }

  // The declared names and the tags written over them suit the node.
  ghost predicate HeadFits(g: Schema, n: SchemaNode, over: Tagging) {
    && NoRepeats(DeclaredOf(n))
    && (forall k | k in n.required :: k in DeclaredOf(n) || TagFor(over, k).Some?)
    && (forall j | 0 <= j < |over| :: TagFits(g, n, over[j].0, TagFor(over, over[j].0)))
  }

  predicate LeafFits(n: SchemaNode, leaf: Leaf) {
    var t := LeafTree(Nil, leaf);
    if t.Null? then n.nullable else n.nodeType.ScalarNode? ==> ScalarConforms(n, t)
  }

  // The object may carry the tag under this key.
  ghost predicate TagFits(g: Schema, n: SchemaNode, k: string, tag: Option<string>) {
    tag.Some? ==>
      if k in n.properties then Conforming(g, n.properties[k], Str(Nil, tag.value)) else n.allowAdditional
  }

  ghost predicate FieldsBuildable(g: Schema, n: SchemaNode, names: seq<string>, src: Source, pos: Path, depth: nat,
                                  over: Tagging)
    requires depth <= MAX_BUILD_DEPTH + 1 && forall k | k in names :: k in n.properties
    decreases MAX_BUILD_DEPTH + 1 - depth, 1, src
  {
    forall i {:trigger names[i]} | 0 <= i < |names| ::
      TagFor(over, names[i]).None? ==> Buildable(g, n.properties[names[i]], src, pos + [i], depth, [])
  }

  ghost predicate ItemsBuildable(g: Schema, n: SchemaNode, count: nat, src: Source, pos: Path, depth: nat)
    requires depth <= MAX_BUILD_DEPTH + 1
    decreases MAX_BUILD_DEPTH + 1 - depth, 1, src
  {
    forall i {:trigger pos + [i]} | 0 <= i < count :: Buildable(g, n.items, src, pos + [i], depth, [])
  }

  ghost predicate VariantBuildable(g: Schema, n: SchemaNode, src: Source, pos: Path, depth: nat, over: Tagging)
    requires depth <= MAX_BUILD_DEPTH
    decreases MAX_BUILD_DEPTH - depth, 2, src
  {
    if n.variants == [] then n.nullable
    else
      var i := Branch(n, src.pick(pos, |n.variants|));
      var more := Pending(n, src, pos, i) + over;
      var t := ApplyTags(Build(g, n.variants[i], src, pos + [0], depth + 1), more);
      if t.Null? then n.nullable
      else
        && Buildable(g, n.variants[i], src, pos + [0], depth + 1, more)
        && (n.discriminator.Some? && t.Obj? ==> OwnTag(n.discriminator.value, t.fields, i))
  }

  // ---- it suffices ----

  // Finitely many values that conform do so within a common number of steps.
  lemma {:induction false} CommonSteps(g: Schema, ids: seq<NodeId>, ts: seq<Tree>) returns (h: nat)
    requires |ids| == |ts| && forall i | 0 <= i < |ts| :: Conforming(g, ids[i], ts[i])
    ensures forall i | 0 <= i < |ts| :: Conforms(g, ids[i], ts[i], h)
  {
    if ts == [] {
      return 0;
    }
    assert forall i | 0 <= i < |ts[1..]| :: Conforming(g, ids[1..][i], ts[1..][i]) by {
      assert forall i | 0 <= i < |ts[1..]| :: ids[1..][i] == ids[i + 1] && ts[1..][i] == ts[i + 1];
    }
    var k := CommonSteps(g, ids[1..], ts[1..]);
    assert Conforming(g, ids[0], ts[0]);
    var l: nat :| Conforms(g, ids[0], ts[0], l);
    h := Max(k, l);
    forall i | 0 <= i < |ts|
      ensures Conforms(g, ids[i], ts[i], h)
    {
      if i == 0 {
        ConformsMore(g, ids[0], ts[0], l, h);
      } else {
        assert ids[i] == ids[1..][i - 1] && ts[i] == ts[1..][i - 1];
        ConformsMore(g, ids[i], ts[i], k, h);
      }
    }
  }

  function SchemasOf(n: SchemaNode, fields: seq<Field>): (r: seq<NodeId>)
    ensures |r| == |fields|
    ensures forall i | 0 <= i < |fields| ::
              r[i] == if fields[i].key in n.properties then n.properties[fields[i].key] else Nil
  {
    seq(|fields|, i requires 0 <= i < |fields| =>
      if fields[i].key in n.properties then n.properties[fields[i].key] else Nil)
  }

  function ValuesOf(fields: seq<Field>): (r: seq<Tree>)
    ensures |r| == |fields| && forall i | 0 <= i < |fields| :: r[i] == fields[i].value
  {
    seq(|fields|, i requires 0 <= i < |fields| => fields[i].value)
  }

  lemma ObjectConforming(g: Schema, id: NodeId, t: Tree)
    requires id in g && g[id].nodeType.ObjectType? && t.Obj? && KeysConform(g[id], Keys(t.fields))
    requires forall i | 0 <= i < |t.fields| && t.fields[i].key in g[id].properties ::
               Conforming(g, g[id].properties[t.fields[i].key], t.fields[i].value)
    ensures Conforming(g, id, t)
  {
    var ids, ts := SchemasOf(g[id], t.fields), ValuesOf(t.fields);
    forall i | 0 <= i < |ts|
      ensures Conforming(g, ids[i], ts[i])
    {
      if t.fields[i].key !in g[id].properties {
        assert Conforms(g, Nil, ts[i], 0);
      }
    }
    var h := CommonSteps(g, ids, ts);
    forall i | 0 <= i < |t.fields| && t.fields[i].key in g[id].properties
      ensures Conforms(g, g[id].properties[t.fields[i].key], t.fields[i].value, h)
    {
      assert Conforms(g, ids[i], ts[i], h);
    }
    assert FieldsConform(g, g[id], t.fields, h);
    assert Conforms(g, id, t, h + 1);
  }

  lemma ArrayConforming(g: Schema, id: NodeId, t: Tree)
    requires id in g && g[id].nodeType.ArrayType? && t.Arr? && LengthConforms(g[id], |t.items|)
    requires forall i | 0 <= i < |t.items| :: Conforming(g, g[id].items, t.items[i])
    ensures Conforming(g, id, t)
  {
    var ids := seq(|t.items|, _ => g[id].items);
    var h := CommonSteps(g, ids, t.items);
    assert forall i | 0 <= i < |t.items| :: Conforms(g, ids[i], t.items[i], h);
    assert ItemsConform(g, g[id].items, t.items, h);
    assert Conforms(g, id, t, h + 1);
  }

  // One variant's shape, with a tag that names it if it names any.
  lemma VariantConforming(g: Schema, id: NodeId, i: nat, t: Tree)
    requires id in g && IsVariant(g[id]) && i < |g[id].variants| && !t.Null? && Conforming(g, g[id].variants[i], t)
    requires g[id].discriminator.Some? && t.Obj? ==> OwnTag(g[id].discriminator.value, t.fields, i)
    ensures Conforming(g, id, t)
  {
    var h: nat :| Conforms(g, g[id].variants[i], t, h);
    if g[id].discriminator.Some? && t.Obj? {
      assert TagConforms(g, g[id], g[id].discriminator.value, t, h);
    }
    assert VariantConforms(g, g[id], t, h);
    assert Conforms(g, id, t, h + 1);
  }

  lemma {:induction false} BuiltConforms(g: Schema, id: NodeId, src: Source, pos: Path, depth: nat, over: Tagging)
    requires depth <= MAX_BUILD_DEPTH + 1 && NonEmptyTags(over) && Buildable(g, id, src, pos, depth, over)
    ensures Conforming(g, id, ApplyTags(Build(g, id, src, pos, depth), over))
    decreases MAX_BUILD_DEPTH + 1 - depth, 0
  {
    var u := Build(g, id, src, pos, depth);
    var t := ApplyTags(u, over);
    ApplyTagsKind(u, over);
    if id !in g {
      assert Conforms(g, id, t, 0);
    } else if depth <= MAX_BUILD_DEPTH {
      var n := g[id];
      match n.nodeType
      case ObjectType => BuiltObjectConforms(g, id, src, pos, depth, over);
      case ArrayType => BuiltArrayConforms(g, id, src, pos, depth);
      case OneOf => BuiltVariantConforms(g, id, src, pos, depth, over);
      case AnyOf => BuiltVariantConforms(g, id, src, pos, depth, over);
      case _ => assert Conforms(g, id, t, 1);
    }
  }

  lemma BuiltObjectConforms(g: Schema, id: NodeId, src: Source, pos: Path, depth: nat, over: Tagging)
    requires depth <= MAX_BUILD_DEPTH && NonEmptyTags(over) && id in g && g[id].nodeType.ObjectType?
    requires HeadFits(g, g[id], over) && FieldsBuildable(g, g[id], DeclaredOf(g[id]), src, pos, depth + 1, over)
    ensures Conforming(g, id, ApplyTags(Build(g, id, src, pos, depth), over))
    decreases MAX_BUILD_DEPTH + 1 - depth, 0, 0
  {
    hide HeadFits, Conforming, Buildable, ApplyTags, TagFor, Build, Declared;
    var n, names := g[id], DeclaredOf(g[id]);
    var u := Build(g, id, src, pos, depth);
    BuiltKeys(g, id, src, pos, depth);
    forall i | 0 <= i < |names| && TagFor(over, names[i]).None?
      ensures Conforming(g, n.properties[names[i]], u.fields[i].value)
    {
      BuiltFieldIs(g, id, src, pos, depth, i);
      BuiltConforms(g, n.properties[names[i]], src, pos + [i], depth + 1, []);
      NoTags(u.fields[i].value);
    }
    TaggedObjectIff(g, id, u, over);
  }

  lemma BuiltArrayConforms(g: Schema, id: NodeId, src: Source, pos: Path, depth: nat)
    requires depth <= MAX_BUILD_DEPTH && id in g && g[id].nodeType.ArrayType?
    requires ArrayFits(g, g[id]) && ItemsBuildable(g, g[id], ItemCount(g, g[id]), src, pos, depth + 1)
    ensures Conforming(g, id, Build(g, id, src, pos, depth))
    decreases MAX_BUILD_DEPTH + 1 - depth, 0, 0
  {
    hide Conforming, Buildable, ApplyTags, Build;
    var n, t := g[id], Build(g, id, src, pos, depth);
    BuiltArray(g, id, src, pos, depth);
    FreshLength(g, n);
    forall i | 0 <= i < |t.items|
      ensures Conforming(g, n.items, t.items[i])
    {
      BuiltItemIs(g, id, src, pos, depth, i);
      assert Buildable(g, n.items, src, pos + [i], depth + 1, []);
      BuiltConforms(g, n.items, src, pos + [i], depth + 1, []);
      NoTags(t.items[i]);
    }
    ArrayConforming(g, id, t);
  }

  lemma NoTags(u: Tree)
    ensures ApplyTags(u, []) == u
  {
  }

  // Only the fields that are not written over count.
  lemma TaggedObjectIff(g: Schema, id: NodeId, u: Tree, over: Tagging)
    requires id in g && g[id].nodeType.ObjectType? && NonEmptyTags(over)
    requires u.Obj? && Keys(u.fields) == DeclaredOf(g[id])
    ensures Conforming(g, id, ApplyTags(u, over)) <==>
              && HeadFits(g, g[id], over)
              && forall i | 0 <= i < |u.fields| && TagFor(over, DeclaredOf(g[id])[i]).None? ::
                   Conforming(g, g[id].properties[DeclaredOf(g[id])[i]], u.fields[i].value)
  {
    hide Conforming, ApplyTags, TagFor, HeadFits;
    var n, names, t := g[id], DeclaredOf(g[id]), ApplyTags(u, over);
    if Conforming(g, id, t) {
      TaggedObjectOnly(g, id, u, over);
    }
    if HeadFits(g, n, over) && forall i | 0 <= i < |u.fields| && TagFor(over, names[i]).None? ::
         Conforming(g, n.properties[names[i]], u.fields[i].value) {
      TaggedObjectConforms(g, id, u, over);
    }
  }

  lemma TaggedObjectConforms(g: Schema, id: NodeId, u: Tree, over: Tagging)
    requires id in g && g[id].nodeType.ObjectType? && NonEmptyTags(over)
    requires u.Obj? && Keys(u.fields) == DeclaredOf(g[id]) && HeadFits(g, g[id], over)
    requires forall i | 0 <= i < |u.fields| && TagFor(over, DeclaredOf(g[id])[i]).None? ::
               Conforming(g, g[id].properties[DeclaredOf(g[id])[i]], u.fields[i].value)
    ensures Conforming(g, id, ApplyTags(u, over))
  {
    hide Conforming, ApplyTags, TagFor, NoRepeats, Declared;
    var n, names, t := g[id], DeclaredOf(g[id]), ApplyTags(u, over);
    ApplyTagsKeys(u, over);
    forall i | 0 <= i < |t.fields| && t.fields[i].key in n.properties
      ensures Conforming(g, n.properties[t.fields[i].key], t.fields[i].value)
    {
      ApplyTagsValues(u, over, i);
      TagForFound(over, t.fields[i].key);
      if j :| 0 <= j < |over| && over[j].0 == t.fields[i].key {
        assert TagFits(g, n, over[j].0, TagFor(over, over[j].0));
      } else {
        assert Keys(u.fields)[i] == names[i];
      }
    }
    TaggedKeysConform(g, n, over, Keys(t.fields));
    ObjectConforming(g, id, t);
  }

  // The keys of a tagged object, against the node.
  lemma TaggedKeysConform(g: Schema, n: SchemaNode, over: Tagging, keys: seq<string>)
    requires forall k :: k in keys <==> k in DeclaredOf(n) || TagFor(over, k).Some?
    requires NoRepeats(keys) && HeadFits(g, n, over)
    ensures KeysConform(n, keys)
  {
    hide TagFor, NoRepeats, Declared, Conforming;
    forall k | k in keys
      ensures k in n.properties || n.allowAdditional
    {
      TagForFound(over, k);
      if k !in DeclaredOf(n) {
        var j :| 0 <= j < |over| && over[j].0 == k;
        assert TagFits(g, n, over[j].0, TagFor(over, over[j].0));
      }
    }
  }

  lemma TaggedObjectOnly(g: Schema, id: NodeId, u: Tree, over: Tagging)
    requires id in g && g[id].nodeType.ObjectType? && NonEmptyTags(over)
    requires u.Obj? && Keys(u.fields) == DeclaredOf(g[id]) && Conforming(g, id, ApplyTags(u, over))
    ensures HeadFits(g, g[id], over)
    ensures forall i | 0 <= i < |u.fields| && TagFor(over, DeclaredOf(g[id])[i]).None? ::
              Conforming(g, g[id].properties[DeclaredOf(g[id])[i]], u.fields[i].value)
  {
    hide ApplyTags, TagFor, NoRepeats, Declared;
    var n, names, t := g[id], DeclaredOf(g[id]), ApplyTags(u, over);
    ApplyTagsKeys(u, over);
    var h: nat :| Conforms(g, id, t, h);
    ObjectParts(g, id, t, h);
    hide Conforms;
    forall j | 0 <= j < |over|
      ensures TagFits(g, n, over[j].0, TagFor(over, over[j].0))
    {
      TagForFound(over, over[j].0);
      assert over[j].0 in Keys(t.fields);
      var i :| 0 <= i < |t.fields| && Keys(t.fields)[i] == over[j].0;
      ApplyTagsValues(u, over, i);
    }
    forall i | 0 <= i < |u.fields| && TagFor(over, names[i]).None?
      ensures Conforming(g, n.properties[names[i]], u.fields[i].value)
    {
      assert Keys(t.fields)[i] == names[i];
      ApplyTagsValues(u, over, i);
    }
  }

  lemma ObjectParts(g: Schema, id: NodeId, t: Tree, h: nat)
    requires id in g && g[id].nodeType.ObjectType? && t.Obj? && Conforms(g, id, t, h)
    ensures KeysConform(g[id], Keys(t.fields))
    ensures forall i | 0 <= i < |t.fields| && t.fields[i].key in g[id].properties ::
              Conforming(g, g[id].properties[t.fields[i].key], t.fields[i].value)
  {
    assert FieldsConform(g, g[id], t.fields, h - 1);
  }

  lemma BuiltFieldIs(g: Schema, id: NodeId, src: Source, pos: Path, depth: nat, i: nat)
    requires depth <= MAX_BUILD_DEPTH && id in g && g[id].nodeType.ObjectType? && i < |DeclaredOf(g[id])|
    ensures
      var u, k := Build(g, id, src, pos, depth), DeclaredOf(g[id])[i];
      && u.Obj? && i < |u.fields| && k in g[id].properties
      && u.fields[i] == Field(k, Build(g, g[id].properties[k], src, pos + [i], depth + 1))
  {
    assert Build(g, id, src, pos, depth).fields[i]
        == BuildFields(g, g[id], DeclaredOf(g[id]), src, pos, depth + 1)[i];
  }

  lemma BuiltItemIs(g: Schema, id: NodeId, src: Source, pos: Path, depth: nat, i: nat)
    requires depth <= MAX_BUILD_DEPTH && id in g && g[id].nodeType.ArrayType? && i < ItemCount(g, g[id])
    ensures
      var u := Build(g, id, src, pos, depth);
      u.Arr? && i < |u.items| && u.items[i] == Build(g, g[id].items, src, pos + [i], depth + 1)
  {
    assert Build(g, id, src, pos, depth).items[i]
        == BuildItems(g, g[id], ItemCount(g, g[id]), src, pos, depth + 1)[i];
  }

  lemma BuiltArray(g: Schema, id: NodeId, src: Source, pos: Path, depth: nat)
    requires depth <= 12 && id in g && g[id].nodeType.ArrayType?
    ensures Build(g, id, src, pos, depth).Arr? && |Build(g, id, src, pos, depth).items| == ItemCount(g, g[id])
  {
  }

  lemma BuiltKeys(g: Schema, id: NodeId, src: Source, pos: Path, depth: nat)
    requires depth <= MAX_BUILD_DEPTH && id in g && g[id].nodeType.ObjectType?
    ensures Build(g, id, src, pos, depth).Obj? && Keys(Build(g, id, src, pos, depth).fields) == DeclaredOf(g[id])
  {
  }

  lemma BuiltVariantConforms(g: Schema, id: NodeId, src: Source, pos: Path, depth: nat, over: Tagging)
    requires depth <= MAX_BUILD_DEPTH && NonEmptyTags(over) && id in g && IsVariant(g[id])
    requires VariantBuildable(g, g[id], src, pos, depth, over)
    ensures Conforming(g, id, ApplyTags(Build(g, id, src, pos, depth), over))
    decreases MAX_BUILD_DEPTH - depth, 1
  {
    var n := g[id];
    if n.variants == [] {
      NoBranches(g, id, src, pos, depth);
      ApplyTagsKind(Null(id), over);
      assert Conforms(g, id, Null(id), 0);
    } else {
      var i := Branch(n, src.pick(pos, |n.variants|));
      var more := Pending(n, src, pos, i) + over;
      var t := ApplyTags(Build(g, n.variants[i], src, pos + [0], depth + 1), more);
      VariantTree(g, id, src, pos, depth, over);
      if t.Null? {
        assert Conforms(g, id, t, 0);
      } else {
        BuiltConforms(g, n.variants[i], src, pos + [0], depth + 1, more);
        VariantConforming(g, id, i, t);
      }
    }
  }

  lemma NoBranches(g: Schema, id: NodeId, src: Source, pos: Path, depth: nat)
    requires depth <= MAX_BUILD_DEPTH && id in g && IsVariant(g[id]) && g[id].variants == []
    ensures Build(g, id, src, pos, depth) == Null(id)
  {
  }

  // A variant node yields its branch with one more tag.
  lemma VariantTree(g: Schema, id: NodeId, src: Source, pos: Path, depth: nat, over: Tagging)
    requires depth <= MAX_BUILD_DEPTH && id in g && IsVariant(g[id]) && g[id].variants != []
    ensures
      var i := Branch(g[id], src.pick(pos, |g[id].variants|));
      ApplyTags(Build(g, id, src, pos, depth), over)
        == ApplyTags(Build(g, g[id].variants[i], src, pos + [0], depth + 1), Pending(g[id], src, pos, i) + over)
  {
    var i := Branch(g[id], src.pick(pos, |g[id].variants|));
    var u := Build(g, g[id].variants[i], src, pos + [0], depth + 1);
    VariantIs(g, id, src, pos, depth);
    PendingIsApplied(u, g[id], src, pos, i);
    ApplyTagsAppend(u, Pending(g[id], src, pos, i), over);
  }

  // ---- it is necessary where the branch taken is the one that counts ----

  // At every oneOf/anyOf met, no other branch takes the value, or its tag names the branch.
  ghost predicate Committed(g: Schema, id: NodeId, src: Source, pos: Path, depth: nat, over: Tagging)
    requires depth <= MAX_BUILD_DEPTH + 1
    decreases MAX_BUILD_DEPTH + 1 - depth, 0, src
  {
    id in g && depth <= MAX_BUILD_DEPTH ==>
      var n := g[id];
      match n.nodeType
      case ObjectType => CommittedFields(g, n, DeclaredOf(n), src, pos, depth + 1)
      case ArrayType => CommittedItems(g, n, ItemCount(g, n), src, pos, depth + 1)
      case OneOf => CommittedVariant(g, n, src, pos, depth, over)
      case AnyOf => CommittedVariant(g, n, src, pos, depth, over)
      case _ => true
  }

  ghost predicate CommittedFields(g: Schema, n: SchemaNode, names: seq<string>, src: Source, pos: Path, depth: nat)
    requires depth <= MAX_BUILD_DEPTH + 1 && forall k | k in names :: k in n.properties
    decreases MAX_BUILD_DEPTH + 1 - depth, 1, src
  {
    forall i {:trigger names[i]} | 0 <= i < |names| ::
      Committed(g, n.properties[names[i]], src, pos + [i], depth, [])
  }

  ghost predicate CommittedItems(g: Schema, n: SchemaNode, count: nat, src: Source, pos: Path, depth: nat)
    requires depth <= MAX_BUILD_DEPTH + 1
    decreases MAX_BUILD_DEPTH + 1 - depth, 1, src
  {
    forall i {:trigger pos + [i]} | 0 <= i < count :: Committed(g, n.items, src, pos + [i], depth, [])
  }

  ghost predicate CommittedVariant(g: Schema, n: SchemaNode, src: Source, pos: Path, depth: nat, over: Tagging)
    requires depth <= MAX_BUILD_DEPTH
    decreases MAX_BUILD_DEPTH - depth, 2, src
  {
    n.variants != [] ==>
      var i := Branch(n, src.pick(pos, |n.variants|));
      var more := Pending(n, src, pos, i) + over;
      var t := ApplyTags(Build(g, n.variants[i], src, pos + [0], depth + 1), more);
      && Committed(g, n.variants[i], src, pos + [0], depth + 1, more)
      && (NamesBranch(n, t, i) || forall j | 0 <= j < |n.variants| && j != i :: !Conforming(g, n.variants[j], t))
  }

  predicate NamesBranch(n: SchemaNode, t: Tree, i: int) {
    && n.discriminator.Some? && t.Obj?
    && var d := n.discriminator.value;
       TagIn(t.fields, d.property) in d.mapping && d.mapping[TagIn(t.fields, d.property)] == i
  }

  // In particular wherever there is no oneOf/anyOf at all, on self-referential schemas too.
  lemma {:induction false} VariantFreeCommitted(g: Schema, id: NodeId, src: Source, pos: Path, depth: nat,
                                                over: Tagging)
    requires depth <= MAX_BUILD_DEPTH + 1 && forall x | x in g :: !IsVariant(g[x])
    ensures Committed(g, id, src, pos, depth, over)
    decreases MAX_BUILD_DEPTH + 1 - depth
  {
    if id in g && depth <= MAX_BUILD_DEPTH {
      var n, names := g[id], DeclaredOf(g[id]);
      match n.nodeType
      case ObjectType =>
        forall i | 0 <= i < |names|
          ensures Committed(g, n.properties[names[i]], src, pos + [i], depth + 1, []) == true
        {
          VariantFreeCommitted(g, n.properties[names[i]], src, pos + [i], depth + 1, []);
        }
      case ArrayType =>
        forall i | 0 <= i < ItemCount(g, n)
          ensures Committed(g, n.items, src, pos + [i], depth + 1, []) == true
        {
          VariantFreeCommitted(g, n.items, src, pos + [i], depth + 1, []);
        }
      case _ =>
    }
  }

  lemma {:induction false} ConformingIsBuildable(g: Schema, id: NodeId, src: Source, pos: Path, depth: nat,
                                                 over: Tagging)
    requires depth <= MAX_BUILD_DEPTH + 1 && NonEmptyTags(over) && Committed(g, id, src, pos, depth, over)
    requires Conforming(g, id, ApplyTags(Build(g, id, src, pos, depth), over))
    ensures Buildable(g, id, src, pos, depth, over)
    decreases MAX_BUILD_DEPTH + 1 - depth, 0
  {
    var u := Build(g, id, src, pos, depth);
    ApplyTagsKind(u, over);
    if id in g && depth <= MAX_BUILD_DEPTH {
      var n := g[id];
      match n.nodeType
      case ObjectType => ConformingObjectBuildable(g, id, src, pos, depth, over);
      case ArrayType => ConformingArrayBuildable(g, id, src, pos, depth);
      case OneOf => ConformingVariantBuildable(g, id, src, pos, depth, over);
      case AnyOf => ConformingVariantBuildable(g, id, src, pos, depth, over);
      case _ =>
    }
  }

  lemma ConformingObjectBuildable(g: Schema, id: NodeId, src: Source, pos: Path, depth: nat, over: Tagging)
    requires depth <= MAX_BUILD_DEPTH && NonEmptyTags(over) && id in g && g[id].nodeType.ObjectType?
    requires CommittedFields(g, g[id], DeclaredOf(g[id]), src, pos, depth + 1)
    requires Conforming(g, id, ApplyTags(Build(g, id, src, pos, depth), over))
    ensures HeadFits(g, g[id], over) && FieldsBuildable(g, g[id], DeclaredOf(g[id]), src, pos, depth + 1, over)
    decreases MAX_BUILD_DEPTH + 1 - depth, 0, 0
  {
    hide HeadFits, Conforming, Buildable, Committed, ApplyTags, TagFor, Build, Declared;
    var n, names := g[id], DeclaredOf(g[id]);
    var u := Build(g, id, src, pos, depth);
    BuiltKeys(g, id, src, pos, depth);
    TaggedObjectIff(g, id, u, over);
    forall i | 0 <= i < |names| && TagFor(over, names[i]).None?
      ensures Buildable(g, n.properties[names[i]], src, pos + [i], depth + 1, [])
    {
      BuiltFieldIs(g, id, src, pos, depth, i);
      NoTags(u.fields[i].value);
      ConformingIsBuildable(g, n.properties[names[i]], src, pos + [i], depth + 1, []);
    }
  }

  lemma ConformingArrayBuildable(g: Schema, id: NodeId, src: Source, pos: Path, depth: nat)
    requires depth <= MAX_BUILD_DEPTH && id in g && g[id].nodeType.ArrayType?
    requires CommittedItems(g, g[id], ItemCount(g, g[id]), src, pos, depth + 1)
    requires Conforming(g, id, Build(g, id, src, pos, depth))
    ensures ArrayFits(g, g[id])
    ensures ItemsBuildable(g, g[id], ItemCount(g, g[id]), src, pos, depth + 1)
    decreases MAX_BUILD_DEPTH + 1 - depth, 0, 0
  {
    hide Build, Buildable, Committed, ApplyTags;
    var n, u := g[id], Build(g, id, src, pos, depth);
    BuiltArray(g, id, src, pos, depth);
    FreshLength(g, n);
    var h: nat :| Conforms(g, id, u, h);
    assert ItemsConform(g, n.items, u.items, h - 1);
    hide Conforms;
    forall i | 0 <= i < ItemCount(g, n)
      ensures Buildable(g, n.items, src, pos + [i], depth + 1, [])
    {
      BuiltItemIs(g, id, src, pos, depth, i);
      assert Conforms(g, n.items, u.items[i], h - 1);
      NoTags(u.items[i]);
      assert Committed(g, n.items, src, pos + [i], depth + 1, []);
      ConformingIsBuildable(g, n.items, src, pos + [i], depth + 1, []);
    }
  }

  lemma ConformingVariantBuildable(g: Schema, id: NodeId, src: Source, pos: Path, depth: nat, over: Tagging)
    requires depth <= MAX_BUILD_DEPTH && NonEmptyTags(over) && id in g && IsVariant(g[id])
    requires CommittedVariant(g, g[id], src, pos, depth, over)
    requires Conforming(g, id, ApplyTags(Build(g, id, src, pos, depth), over))
    ensures VariantBuildable(g, g[id], src, pos, depth, over)
    decreases MAX_BUILD_DEPTH - depth, 1
  {
    hide Build, Buildable, Committed, ApplyTags, TagIn;
    var n := g[id];
    if n.variants == [] {
      NoBranches(g, id, src, pos, depth);
      ApplyTagsKind(Null(id), over);
    } else {
      var i := Branch(n, src.pick(pos, |n.variants|));
      var more := Pending(n, src, pos, i) + over;
      var t := ApplyTags(Build(g, n.variants[i], src, pos + [0], depth + 1), more);
      VariantTree(g, id, src, pos, depth, over);
      var h: nat :| Conforms(g, id, t, h);
      if !t.Null? {
        assert VariantConforms(g, n, t, h - 1);
        BranchDecides(g, n, t, i, h - 1);
        ConformingIsBuildable(g, n.variants[i], src, pos + [0], depth + 1, more);
      }
    }
  }

  lemma BranchDecides(g: Schema, n: SchemaNode, t: Tree, i: nat, h: nat)
    requires i < |n.variants| && VariantConforms(g, n, t, h)
    requires NamesBranch(n, t, i) || forall j | 0 <= j < |n.variants| && j != i :: !Conforming(g, n.variants[j], t)
    ensures Conforming(g, n.variants[i], t)
    ensures n.discriminator.Some? && t.Obj? ==> OwnTag(n.discriminator.value, t.fields, i)
  {
    var j :| 0 <= j < |n.variants| && Conforms(g, n.variants[j], t, h);
    assert Conforming(g, n.variants[j], t);
    if n.discriminator.Some? && t.Obj? {
      var d := n.discriminator.value;
      var tag := TagIn(t.fields, d.property);
      assert TagConforms(g, n, d, t, h);
      if tag in d.mapping {
        assert Conforms(g, n.variants[d.mapping[tag]], t, h);
      }
    }
  }

  // The condition is exact, at the depth cap too.
  lemma BuiltConformsIff(g: Schema, id: NodeId, src: Source, pos: Path, depth: nat)
    requires depth <= MAX_BUILD_DEPTH + 1 && Committed(g, id, src, pos, depth, [])
    ensures Conforming(g, id, Build(g, id, src, pos, depth)) <==> Buildable(g, id, src, pos, depth, [])
  {
    if Buildable(g, id, src, pos, depth, []) {
      BuiltConforms(g, id, src, pos, depth, []);
    }
    if Conforming(g, id, Build(g, id, src, pos, depth)) {
      ConformingIsBuildable(g, id, src, pos, depth, []);
    }
  }

  // ---- schemas that go in circles ----

  // Building at id follows a link into C.
  predicate LeadsInto(g: Schema, C: set<NodeId>, id: NodeId) {
    id in g &&
    match g[id].nodeType
    case ObjectType => exists i :: 0 <= i < |DeclaredOf(g[id])| && g[id].properties[DeclaredOf(g[id])[i]] in C
    case ArrayType => g[id].items in C
    case _ => false
  }

  // Objects and arrays that always lead to one another are never built to conform: the cap cuts every instance off
  // with a string where an object or an array belongs.
  lemma {:induction false} CircleNeverConforms(g: Schema, C: set<NodeId>, id: NodeId, src: Source, pos: Path,
                                               depth: nat,
                                               h: nat)
    requires depth <= MAX_BUILD_DEPTH + 1 && id in C && forall x | x in C :: LeadsInto(g, C, x)
    ensures !Conforms(g, id, Build(g, id, src, pos, depth), h)
    decreases MAX_BUILD_DEPTH + 1 - depth
  {
    hide Build, Conforms, LeadsInto, DeclaredOf;
    assert LeadsInto(g, C, id);
    var link := LinkOf(g, C, id);
    var n, t := g[id], Build(g, id, src, pos, depth);
    if Conforms(g, id, t, h) {
      CutOff(g, id, src, pos, depth, h);
      if n.nodeType.ObjectType? {
        BuiltFieldIs(g, id, src, pos, depth, link);
        FieldConforms(g, id, t, link, h);
        CircleNeverConforms(g, C, n.properties[DeclaredOf(n)[link]], src, pos + [link], depth + 1, h - 1);
      } else {
        BuiltItemIs(g, id, src, pos, depth, 0);
        ItemConforms(g, id, t, 0, h);
        CircleNeverConforms(g, C, n.items, src, pos + [0], depth + 1, h - 1);
      }
      assert false;
    }
  }

  // Which declared property leads into C, for an object.
  lemma LinkOf(g: Schema, C: set<NodeId>, id: NodeId) returns (i: nat)
    requires id in C && forall x | x in C :: LeadsInto(g, C, x)
    ensures id in g && (g[id].nodeType.ObjectType? || g[id].nodeType.ArrayType?)
    ensures g[id].nodeType.ObjectType? ==> i < |DeclaredOf(g[id])| && g[id].properties[DeclaredOf(g[id])[i]] in C
    ensures g[id].nodeType.ArrayType? ==> g[id].items in C && ItemCount(g, g[id]) > 0
  {
    i := 0;
    assert LeadsInto(g, C, id);
    if g[id].nodeType.ObjectType? {
      i :| 0 <= i < |DeclaredOf(g[id])| && g[id].properties[DeclaredOf(g[id])[i]] in C;
    } else {
      assert LeadsInto(g, C, g[id].items);
    }
  }

  // In particular along any cycle of such links, however long.
  lemma CycleNeverConforms(g: Schema, cycle: seq<NodeId>, src: Source, pos: Path, depth: nat, i: nat)
    requires depth <= MAX_BUILD_DEPTH + 1 && i < |cycle| && |cycle| > 1 && cycle[|cycle| - 1] == cycle[0]
    requires forall k | 0 <= k < |cycle| - 1 :: LeadsInto(g, {cycle[k + 1]}, cycle[k])
    ensures !Conforming(g, cycle[i], Build(g, cycle[i], src, pos, depth))
  {
    var C := set x | x in cycle;
    forall x | x in C
      ensures LeadsInto(g, C, x)
    {
      var k :| 0 <= k < |cycle| && cycle[k] == x;
      var j := if k == |cycle| - 1 then 0 else k;
      assert LeadsInto(g, {cycle[j + 1]}, cycle[j]) && cycle[j + 1] in cycle;
    }
    forall h: nat
      ensures !Conforms(g, cycle[i], Build(g, cycle[i], src, pos, depth), h)
    {
      CircleNeverConforms(g, C, cycle[i], src, pos, depth, h);
    }
  }

  lemma CutOff(g: Schema, id: NodeId, src: Source, pos: Path, depth: nat, h: nat)
    requires depth <= MAX_BUILD_DEPTH + 1 && id in g && (g[id].nodeType.ObjectType? || g[id].nodeType.ArrayType?)
    requires Conforms(g, id, Build(g, id, src, pos, depth), h)
    ensures depth <= MAX_BUILD_DEPTH
  {
  }

  lemma FieldConforms(g: Schema, id: NodeId, t: Tree, i: nat, h: nat)
    requires id in g && g[id].nodeType.ObjectType? && t.Obj? && i < |t.fields| && t.fields[i].key in g[id].properties
    requires Conforms(g, id, t, h)
    ensures h > 0 && Conforms(g, g[id].properties[t.fields[i].key], t.fields[i].value, h - 1)
  {
  }

  lemma ItemConforms(g: Schema, id: NodeId, t: Tree, i: nat, h: nat)
    requires id in g && g[id].nodeType.ArrayType? && t.Arr? && i < |t.items| && Conforms(g, id, t, h)
    ensures h > 0 && Conforms(g, g[id].items, t.items[i], h - 1)
  {
  }

  // ---- a condition on the schema alone ----

  // Whatever branches are taken, building meets only these nodes, and none of them below the cap.
  ghost predicate MeetsOnly(g: Schema, id: NodeId, depth: nat, nodes: set<NodeId>)
    decreases MAX_BUILD_DEPTH + 1 - depth, g
  {
    id in g ==>
      && id in nodes && depth <= MAX_BUILD_DEPTH
      && (g[id].nodeType.ObjectType? ==>
            forall k | k in g[id].properties :: MeetsOnly(g, g[id].properties[k], depth + 1, nodes))
      && (g[id].nodeType.ArrayType? ==> MeetsOnly(g, g[id].items, depth + 1, nodes))
      && (IsVariant(g[id]) ==>
            forall i | 0 <= i < |g[id].variants| :: MeetsOnly(g, g[id].variants[i], depth + 1, nodes))
  }

  lemma {:induction false} MeetsOnlyMore(g: Schema, id: NodeId, depth: nat, nodes: set<NodeId>, less: nat)
    requires MeetsOnly(g, id, depth, nodes) && less <= depth
    ensures MeetsOnly(g, id, less, nodes)
    decreases MAX_BUILD_DEPTH + 1 - depth
  {
    if id in g {
      forall k | g[id].nodeType.ObjectType? && k in g[id].properties
        ensures MeetsOnly(g, g[id].properties[k], less + 1, nodes) == true
      {
        MeetsOnlyMore(g, g[id].properties[k], depth + 1, nodes, less + 1);
      }
      if g[id].nodeType.ArrayType? {
        MeetsOnlyMore(g, g[id].items, depth + 1, nodes, less + 1);
      }
      forall i | IsVariant(g[id]) && 0 <= i < |g[id].variants|
        ensures MeetsOnly(g, g[id].variants[i], less + 1, nodes) == true
      {
        MeetsOnlyMore(g, g[id].variants[i], depth + 1, nodes, less + 1);
      }
    }
  }

  // Then the cap does not matter: with any more room below it, the same tree is built.
  lemma {:induction false} CapNeverMet(g: Schema, id: NodeId, src: Source, pos: Path, depth: nat, nodes: set<NodeId>,
                                       less: nat)
    requires MeetsOnly(g, id, depth, nodes) && less <= depth <= MAX_BUILD_DEPTH + 1
    ensures Build(g, id, src, pos, less) == Build(g, id, src, pos, depth)
    decreases MAX_BUILD_DEPTH + 1 - depth
  {
    hide Build, Declared;
    if id in g {
      var n, names := g[id], DeclaredOf(g[id]);
      match n.nodeType
      case ObjectType =>
        forall i | 0 <= i < |names|
          ensures Build(g, n.properties[names[i]], src, pos + [i], less + 1)
               == Build(g, n.properties[names[i]], src, pos + [i], depth + 1)
        {
          CapNeverMet(g, n.properties[names[i]], src, pos + [i], depth + 1, nodes, less + 1);
        }
        SameObject(g, id, src, pos, less, depth);
      case ArrayType =>
        forall i | 0 <= i < ItemCount(g, n)
          ensures Build(g, n.items, src, pos + [i], less + 1) == Build(g, n.items, src, pos + [i], depth + 1)
        {
          CapNeverMet(g, n.items, src, pos + [i], depth + 1, nodes, less + 1);
        }
        SameArray(g, id, src, pos, less, depth);
      case ScalarNode => SameLeaf(g, id, src, pos, less, depth);
      case OtherType(_) => SameLeaf(g, id, src, pos, less, depth);
      case _ =>
        if n.variants == [] {
          NoBranches(g, id, src, pos, less);
          NoBranches(g, id, src, pos, depth);
        } else {
          var i := Branch(n, src.pick(pos, |n.variants|));
          CapNeverMet(g, n.variants[i], src, pos + [0], depth + 1, nodes, less + 1);
          VariantIs(g, id, src, pos, less);
          VariantIs(g, id, src, pos, depth);
        }
    } else {
      SameLeaf(g, id, src, pos, less, depth);
    }
  }

  lemma SameLeaf(g: Schema, id: NodeId, src: Source, pos: Path, a: nat, b: nat)
    requires a <= MAX_BUILD_DEPTH + 1 && b <= MAX_BUILD_DEPTH + 1
    requires id in g ==> a <= MAX_BUILD_DEPTH && b <= MAX_BUILD_DEPTH
                         && (g[id].nodeType.ScalarNode? || g[id].nodeType.OtherType?)
    ensures Build(g, id, src, pos, a) == Build(g, id, src, pos, b)
  {
  }

  // From equal fields, an equal object; from equal items, an equal array.
  lemma SameObject(g: Schema, id: NodeId, src: Source, pos: Path, a: nat, b: nat)
    requires a <= MAX_BUILD_DEPTH && b <= MAX_BUILD_DEPTH && id in g && g[id].nodeType.ObjectType?
    requires
      var n, names := g[id], DeclaredOf(g[id]);
      forall i | 0 <= i < |names| ::
        Build(g, n.properties[names[i]], src, pos + [i], a + 1)
          == Build(g, n.properties[names[i]], src, pos + [i], b + 1)
    ensures Build(g, id, src, pos, a) == Build(g, id, src, pos, b)
  {
    var n, names := g[id], DeclaredOf(g[id]);
    assert BuildFields(g, n, names, src, pos, a + 1) == BuildFields(g, n, names, src, pos, b + 1);
  }

  lemma SameArray(g: Schema, id: NodeId, src: Source, pos: Path, a: nat, b: nat)
    requires a <= MAX_BUILD_DEPTH && b <= MAX_BUILD_DEPTH && id in g && g[id].nodeType.ArrayType?
    requires forall i | 0 <= i < ItemCount(g, g[id]) ::
               Build(g, g[id].items, src, pos + [i], a + 1) == Build(g, g[id].items, src, pos + [i], b + 1)
    ensures Build(g, id, src, pos, a) == Build(g, id, src, pos, b)
  {
    var n, count := g[id], ItemCount(g, g[id]);
    assert BuildItems(g, n, count, src, pos, a + 1) == BuildItems(g, n, count, src, pos, b + 1);
  }

  // What one node must look like.
  ghost predicate NodeFits(g: Schema, n: SchemaNode) {
    match n.nodeType
    case ObjectType => NamesFit(n)
    case ArrayType => ArrayFits(g, n)
    case OneOf => BranchesFit(g, n)
    case AnyOf => BranchesFit(g, n)
    case _ => true
  }

  predicate NamesFit(n: SchemaNode) {
    NoRepeats(DeclaredOf(n)) && forall k | k in n.required :: k in DeclaredOf(n)
  }

  ghost predicate BranchesFit(g: Schema, n: SchemaNode) {
    && (n.variants == [] ==> n.nullable)
    && (forall i | 0 <= i < |n.variants| :: BranchNullFits(g, n, n.variants[i]))
    && (n.discriminator.Some?
        ==> forall i | 0 <= i < |n.variants| :: BranchTagFits(g, n.discriminator.value, i, n.variants[i]))
  }

  predicate BranchNullFits(g: Schema, n: SchemaNode, v: NodeId) {
    (v in g ==> g[v].nullable) ==> n.nullable
  }

  // Under a discriminator: an object branch with tags takes each of them; one without does not show another's.
  ghost predicate BranchTagFits(g: Schema, d: Discriminator, i: int, v: NodeId) {
    v in g ==>
      && !IsVariant(g[v])
      && (g[v].nodeType.ObjectType? ==>
            if exists k :: k in d.mapping && d.mapping[k] == i then
              forall k | k in d.mapping && d.mapping[k] == i :: k != "" && TagFits(g, g[v], d.property, Some(k))
            else if d.property in DeclaredOf(g[v]) then
              forall t | Conforming(g, g[v].properties[d.property], t) :: TextOf(t) !in d.mapping
            else "" !in d.mapping)
  }

  // Leaf values answer to the node they are for.
  ghost predicate LeavesFit(g: Schema, nodes: set<NodeId>, src: Source) {
    forall pos, x {:trigger src.leaf(pos, g[x])} | x in nodes && x in g :: LeafFits(g[x], src.leaf(pos, g[x]))
  }

  ghost predicate AllFit(g: Schema, nodes: set<NodeId>) {
    forall x | x in nodes && x in g :: NodeFits(g, g[x])
  }

  lemma {:induction false} NullMeansNullable(g: Schema, id: NodeId, src: Source, pos: Path, depth: nat,
                                             nodes: set<NodeId>)
    requires depth <= MAX_BUILD_DEPTH + 1 && MeetsOnly(g, id, depth, nodes) && AllFit(g, nodes)
    requires LeavesFit(g, nodes, src)
    requires Build(g, id, src, pos, depth).Null?
    ensures id in g ==> g[id].nullable
    decreases MAX_BUILD_DEPTH + 1 - depth
  {
    if id in g {
      var n := g[id];
      assert NodeFits(g, n);
      if IsVariant(n) {
        if n.variants != [] {
          var i := Branch(n, src.pick(pos, |n.variants|));
          var v := n.variants[i];
          VariantIs(g, id, src, pos, depth);
          assert MeetsOnly(g, v, depth + 1, nodes) && BranchNullFits(g, n, v);
          NullMeansNullable(g, v, src, pos + [0], depth + 1, nodes);
        }
      } else {
        assert LeafFits(n, src.leaf(pos, n)) || n.nodeType.ObjectType? || n.nodeType.ArrayType?;
      }
    }
  }

  // Fitting nodes, above the cap, with fitting leaves: everything built conforms. A tag may be pending for the object.
  lemma {:induction false} FittingIsBuildable(g: Schema, id: NodeId, src: Source, pos: Path, depth: nat,
                                              nodes: set<NodeId>,
                                              over: Tagging)
    requires depth <= MAX_BUILD_DEPTH + 1 && MeetsOnly(g, id, depth, nodes)
    requires AllFit(g, nodes) && LeavesFit(g, nodes, src) && OffersTags(src)
    requires over != [] ==> id in g ==>
               !IsVariant(g[id]) && |over| == 1 &&
               (g[id].nodeType.ObjectType? ==> TagFits(g, g[id], over[0].0, Some(over[0].1)))
    ensures Buildable(g, id, src, pos, depth, over)
    decreases MAX_BUILD_DEPTH + 1 - depth, 0
  {
    hide Build, Conforming, ApplyTags, TagIn;
    if id in g {
      var n, names := g[id], DeclaredOf(g[id]);
      assert NodeFits(g, n);
      match n.nodeType
      case ObjectType =>
        forall i | 0 <= i < |names|
          ensures Buildable(g, n.properties[names[i]], src, pos + [i], depth + 1, []) == true
        {
          assert names[i] in n.properties;
          FittingIsBuildable(g, n.properties[names[i]], src, pos + [i], depth + 1, nodes, []);
        }
        assert over != [] ==> TagFor(over, over[0].0) == Some(over[0].1);
      case ArrayType =>
        forall i | 0 <= i < ItemCount(g, n)
          ensures Buildable(g, n.items, src, pos + [i], depth + 1, []) == true
        {
          FittingIsBuildable(g, n.items, src, pos + [i], depth + 1, nodes, []);
        }
      case OneOf => FittingVariant(g, id, src, pos, depth, nodes);
      case AnyOf => FittingVariant(g, id, src, pos, depth, nodes);
      case _ => assert LeafFits(n, src.leaf(pos, n));
    }
  }

  lemma FittingVariant(g: Schema, id: NodeId, src: Source, pos: Path, depth: nat, nodes: set<NodeId>)
    requires depth <= MAX_BUILD_DEPTH && MeetsOnly(g, id, depth, nodes) && id in g && IsVariant(g[id])
    requires AllFit(g, nodes) && LeavesFit(g, nodes, src) && OffersTags(src)
    ensures VariantBuildable(g, g[id], src, pos, depth, [])
    decreases MAX_BUILD_DEPTH - depth, 1
  {
    hide Conforming, TagIn, Buildable, NoRepeats;
    var n := g[id];
    assert NodeFits(g, n);
    if n.variants != [] {
      var i := Branch(n, src.pick(pos, |n.variants|));
      var v := n.variants[i];
      var more := Pending(n, src, pos, i) + [];
      var u := Build(g, v, src, pos + [0], depth + 1);
      var t := ApplyTags(u, more);
      ApplyTagsKind(u, more);
      assert MeetsOnly(g, v, depth + 1, nodes) && BranchNullFits(g, n, v);
      if t.Null? {
        NullMeansNullable(g, v, src, pos + [0], depth + 1, nodes);
      } else {
        PendingFits(g, n, src, pos, i);
        FittingIsBuildable(g, v, src, pos + [0], depth + 1, nodes, more);
        if n.discriminator.Some? && t.Obj? {
          FittingTag(g, n, src, pos, depth, i);
        }
      }
    }
  }

  lemma PendingFits(g: Schema, n: SchemaNode, src: Source, pos: Path, i: nat)
    requires i < |n.variants| && BranchesFit(g, n) && OffersTags(src)
    ensures
      var over, v := Pending(n, src, pos, i) + [], n.variants[i];
      over != [] ==> v in g ==>
        !IsVariant(g[v]) && |over| == 1 &&
        (g[v].nodeType.ObjectType? ==> TagFits(g, g[v], over[0].0, Some(over[0].1)))
  {
    if n.discriminator.Some? {
      var d := n.discriminator.value;
      assert TagOf(d, i, src.tag(pos, d, i)) && BranchTagFits(g, d, i, n.variants[i]);
    }
  }

  lemma {:induction false} TagInAbsent(fields: seq<Field>, property: string)
    requires property !in Keys(fields)
    ensures TagIn(fields, property) == ""
    decreases |fields|
  {
    if fields != [] {
      assert Keys(fields)[|fields| - 1] != property;
      assert Keys(fields[..|fields| - 1]) == Keys(fields)[..|fields| - 1];
      TagInAbsent(fields[..|fields| - 1], property);
    }
  }

  // The tag a built branch shows is its own.
  lemma FittingTag(g: Schema, n: SchemaNode, src: Source, pos: Path, depth: nat, i: nat)
    requires depth <= MAX_BUILD_DEPTH && i < |n.variants| && n.discriminator.Some? && BranchesFit(g, n)
    requires OffersTags(src)
    requires
      var v := n.variants[i];
      && Buildable(g, v, src, pos + [0], depth + 1, Pending(n, src, pos, i) + [])
      && Build(g, v, src, pos + [0], depth + 1).Obj?
    ensures
      var t := ApplyTags(Build(g, n.variants[i], src, pos + [0], depth + 1), Pending(n, src, pos, i) + []);
      t.Obj? && OwnTag(n.discriminator.value, t.fields, i)
  {
    hide Build, Buildable, Conforming, Declared, TagIn, Tagged;
    var d, v, over := n.discriminator.value, n.variants[i], Pending(n, src, pos, i) + [];
    var u := Build(g, v, src, pos + [0], depth + 1);
    BuiltIsObject(g, v, src, pos + [0], depth + 1);
    BuiltKeys(g, v, src, pos + [0], depth + 1);
    assert TagOf(d, i, src.tag(pos, d, i)) && BranchTagFits(g, d, i, v);
    if over == [] {
      NoTags(u);
      if d.property in DeclaredOf(g[v]) {
        OwnText(g, v, src, pos + [0], depth + 1, d.property);
      } else {
        TagInAbsent(u.fields, d.property);
      }
    } else {
      var tag := src.tag(pos, d, i);
      assert over == [(d.property, tag)];
      OneTag(u, d.property, tag);
      BuildableNames(g, v, src, pos + [0], depth + 1, over);
      TaggedFields(u, d.property, tag);
    }
  }

  lemma OneTag(u: Tree, property: string, tag: string)
    ensures ApplyTags(u, [(property, tag)]) == Tagged(u, property, tag)
  {
    assert [(property, tag)][..0] == [];
  }

  lemma BuildableNames(g: Schema, v: NodeId, src: Source, pos: Path, depth: nat, over: Tagging)
    requires depth <= MAX_BUILD_DEPTH && v in g && g[v].nodeType.ObjectType? && Buildable(g, v, src, pos, depth, over)
    ensures NoRepeats(DeclaredOf(g[v]))
  {
  }

  // Building yields an object at an object node, above the cap, or at a variant node.
  lemma BuiltIsObject(g: Schema, v: NodeId, src: Source, pos: Path, depth: nat)
    requires depth <= MAX_BUILD_DEPTH + 1 && Build(g, v, src, pos, depth).Obj? && (v in g ==> !IsVariant(g[v]))
    ensures v in g && g[v].nodeType.ObjectType? && depth <= MAX_BUILD_DEPTH
  {
  }

  // The value of a declared property conforms to it, so its text is one the property's schema allows.
  lemma OwnText(g: Schema, v: NodeId, src: Source, pos: Path, depth: nat, property: string)
    requires depth <= MAX_BUILD_DEPTH && v in g && g[v].nodeType.ObjectType? && property in DeclaredOf(g[v])
    requires Buildable(g, v, src, pos, depth, [])
    ensures
      var u := Build(g, v, src, pos, depth);
      u.Obj? && exists t :: Conforming(g, g[v].properties[property], t) && TextOf(t) == TagIn(u.fields, property)
  {
    hide Build, Conforming, Declared, TagIn;
    var names := DeclaredOf(g[v]);
    var j :| 0 <= j < |names| && names[j] == property;
    BuiltKeys(g, v, src, pos, depth);
    BuiltFieldIs(g, v, src, pos, depth, j);
    var u := Build(g, v, src, pos, depth);
    TagInUnique(u.fields, j);
    var k := g[v].properties[property];
    assert FieldsBuildable(g, g[v], names, src, pos, depth + 1, []);
    assert Buildable(g, g[v].properties[names[j]], src, pos + [j], depth + 1, []);
    BuiltConforms(g, k, src, pos + [j], depth + 1, []);
    NoTags(u.fields[j].value);
    assert Conforming(g, k, u.fields[j].value);
  }

  // The theorem for callers: node by node, with no mention of what is built.
  lemma FittingConforms(g: Schema, id: NodeId, src: Source, nodes: set<NodeId>)
    requires MeetsOnly(g, id, 0, nodes) && AllFit(g, nodes) && LeavesFit(g, nodes, src) && OffersTags(src)
    ensures forall pos: Path ::
              Buildable(g, id, src, pos, 0, []) && Conforming(g, id, Build(g, id, src, pos, 0))
  {
    forall pos: Path
      ensures Buildable(g, id, src, pos, 0, []) && Conforming(g, id, Build(g, id, src, pos, 0))
    {
      FittingIsBuildable(g, id, src, pos, 0, nodes, []);
      BuiltConforms(g, id, src, pos, 0, []);
    }
  }
}
