// body_build.go: instantiating a schema as a mutable value tree.
module BodyBuilder {
  import opened Wrappers
  import opened BodyTree
  import opened BodyValues
  import opened BodySchema
  import opened BodyBuild
  import opened BodyEdits
  import BodyClone

  // ---- growing child lists ----

  lemma FieldsSnoc(m1: Heap, fields: seq<BodyField>, m2: Heap, f: BodyField, mt: Heap, h: nat)
    requires Forest(m1, FieldValues(fields), h) && Owned(m2, f.value, h) && m1.Keys !! m2.Keys
    requires Agree(m1, mt, m1.Keys) && Agree(m2, mt, m2.Keys)
    ensures Forest(mt, FieldValues(fields + [f]), h)
    ensures ViewFields(mt, fields + [f], h) == ViewFields(m1, fields, h) + [Field(f.key, View(m2, f.value, h))]
  {
    var ks := FieldValues(fields);
    BodyClone.SingleForest(m2, f.value, h);
    BodyClone.ForestJoin(m1, ks, m2, [f.value], mt, h);
    assert FieldValues(fields + [f]) == ks + [f.value];
    var a := ViewFields(mt, fields + [f], h);
    var b := ViewFields(m1, fields, h) + [Field(f.key, View(m2, f.value, h))];
    forall i | 0 <= i < |a|
      ensures a[i] == b[i]
    {
      if i < |fields| {
        assert View(mt, ks[i], h) == ViewItems(mt, ks, h)[i] == ViewItems(m1, ks, h)[i];
      } else {
        assert View(mt, f.value, h) == ViewItems(mt, [f.value], h)[0];
      }
    }
  }

  lemma ItemsSnoc(m1: Heap, items: seq<BodyValue>, m2: Heap, c: BodyValue, mt: Heap, h: nat)
    requires Forest(m1, items, h) && Owned(m2, c, h) && m1.Keys !! m2.Keys
    requires Agree(m1, mt, m1.Keys) && Agree(m2, mt, m2.Keys)
    ensures Forest(mt, items + [c], h)
    ensures ViewItems(mt, items + [c], h) == ViewItems(m1, items, h) + [View(m2, c, h)]
  {
    BodyClone.SingleForest(m2, c, h);
    BodyClone.ForestJoin(m1, items, m2, [c], mt, h);
    BodyClone.ViewItemsAppend(mt, items, [c], h);
  }

  // A node over one child list.
  lemma NodeOver(m: Heap, ks: seq<BodyValue>, c: BodyValue, mc: Heap, h: nat)
    requires h > 0 && Forest(m, ks, h - 1) && c !in m && c in mc && Kids(mc[c]) == ks && Agree(m, mc, m.Keys)
    ensures Owned(mc, c, h) && SameKids(m, ks, h - 1, mc, h - 1)
  {
    FrameForest(m, ks, h - 1, mc);
  }

  lemma LeafOver(c: BodyValue, mc: Heap, h: nat)
    requires h > 0 && c in mc && Kids(mc[c]) == []
    ensures Owned(mc, c, h) && View(mc, c, h) == TreeOf(mc[c], [], [])
  {
    assert mc[c].fields == [] by {
      assert |FieldValues(mc[c].fields)| <= |Kids(mc[c])|;
    }
    assert ViewFields(mc, [], h - 1) == [] && ViewItems(mc, [], h - 1) == [];
  }

  lemma ObjectOver(m: Heap, fields: seq<BodyField>, c: BodyValue, mc: Heap, h: nat, id: NodeId)
    requires h > 0 && Forest(m, FieldValues(fields), h - 1) && c !in m && Agree(m, mc, m.Keys)
    requires c in mc && mc[c] == Cell(Object, fields, [], "", false, id)
    ensures Owned(mc, c, h) && View(mc, c, h) == Obj(id, ViewFields(m, fields, h - 1))
  {
    var ks := FieldValues(fields);
    NodeOver(m, ks, c, mc, h);
    var a, b := ViewFields(mc, fields, h - 1), ViewFields(m, fields, h - 1);
    forall i | 0 <= i < |a|
      ensures a[i] == b[i]
    {
      assert Same(m, ks[i], h - 1, mc, h - 1);
    }
  }

  lemma ArrayOver(m: Heap, items: seq<BodyValue>, c: BodyValue, mc: Heap, h: nat, id: NodeId)
    requires h > 0 && Forest(m, items, h - 1) && c !in m && Agree(m, mc, m.Keys)
    requires c in mc && mc[c] == Cell(Array, [], items, "", false, id)
    ensures Owned(mc, c, h) && View(mc, c, h) == Arr(id, ViewItems(m, items, h - 1))
  {
    NodeOver(m, items, c, mc, h);
    SameViews(m, items, h - 1, mc);
  }

  lemma {:induction false} DeclaredSnoc(names: seq<string>, x: string, properties: map<string, NodeId>)
    ensures Declared(names + [x], properties)
         == Declared(names, properties) + if x in properties then [x] else []
  {
    if names == [] {
      assert names + [x] == [x];
    } else {
      assert (names + [x])[1..] == names[1..] + [x];
      DeclaredSnoc(names[1..], x, properties);
    }
  }

  lemma DeclaredNext(n: SchemaNode, k: nat)
    requires k < |n.propertyOrder|
    ensures Declared(n.propertyOrder[..k + 1], n.properties)
         == Declared(n.propertyOrder[..k], n.properties)
            + if n.propertyOrder[k] in n.properties then [n.propertyOrder[k]] else []
  {
    assert n.propertyOrder[..k + 1] == n.propertyOrder[..k] + [n.propertyOrder[k]];
    DeclaredSnoc(n.propertyOrder[..k], n.propertyOrder[k], n.properties);
  }

  lemma BuildFieldsSnoc(g: Schema, n: SchemaNode, names: seq<string>, x: string, src: Source, pos: Path, depth: nat)
    requires depth <= MAX_BUILD_DEPTH + 1 && x in n.properties && forall k | k in names :: k in n.properties
    ensures BuildFields(g, n, names + [x], src, pos, depth)
         == BuildFields(g, n, names, src, pos, depth)
            + [Field(x, Build(g, n.properties[x], src, pos + [|names|], depth))]
  {
  }

  // ---- building ----

  // The tree consists of fresh nodes only, none of them reachable twice, and means what Build says; h bounds its
  // levels.
  method BuildBodyValue(g: Schema, id: NodeId, src: Source, pos: Path, depth: nat, ghost h: nat)
    returns (v: BodyValue, ghost T: set<BodyValue>)
    requires depth <= MAX_BUILD_DEPTH + 1 && h == BUILD_LEVELS - depth
    ensures fresh(T) && Owned(Snap(T), v, h) && View(Snap(T), v, h) == Build(g, id, src, pos, depth)
    decreases MAX_BUILD_DEPTH + 1 - depth, 1
  {
    if id !in g {
      v, T := BuildLeaf(Nil, Leaf("", NullLeaf), h);
      return;
    }
    if depth > MAX_BUILD_DEPTH {
      v, T := BuildLeaf(id, Leaf("fuzzstring", TextLeaf), h);
      return;
    }
    var n := g[id];
    match n.nodeType
    case ObjectType =>
      v, T := BuildObjectValue(g, id, src, pos, depth, h);
    case ArrayType =>
      v, T := BuildArrayValue(g, id, src, pos, depth, h);
    case OneOf =>
      v, T := BuildVariantValue(g, id, src, pos, depth, h);
    case AnyOf =>
      v, T := BuildVariantValue(g, id, src, pos, depth, h);
    case _ =>
      v, T := BuildLeaf(id, src.leaf(pos, n), h);
  }

  method BuildLeaf(id: NodeId, leaf: Leaf, ghost h: nat) returns (v: BodyValue, ghost T: set<BodyValue>)
    requires h > 0
    ensures fresh(T) && Owned(Snap(T), v, h) && View(Snap(T), v, h) == LeafTree(id, leaf)
  {
    match leaf.kind {
      case NumberLeaf =>
        v := new BodyValue(Number, id, leaf.text, false);
      case BoolLeaf =>
        v := new BodyValue(Boolean, id, "", leaf.text == "true");
      case NullLeaf =>
        v := new BodyValue(NullKind, id, "", false);
      case TextLeaf =>
        v := new BodyValue(String, id, leaf.text, false);
    }
    T := {v};
    LeafOver(v, Snap(T), h);
  }

  method BuildObjectValue(g: Schema, id: NodeId, src: Source, pos: Path, depth: nat, ghost h: nat)
    returns (v: BodyValue, ghost T: set<BodyValue>)
    requires depth <= MAX_BUILD_DEPTH && h == BUILD_LEVELS - depth && id in g
    ensures fresh(T) && Owned(Snap(T), v, h)
    ensures View(Snap(T), v, h) == Obj(id, BuildFields(g, g[id], DeclaredOf(g[id]), src, pos, depth + 1))
    decreases MAX_BUILD_DEPTH + 1 - depth, 0
  {
    hide Owned, Forest, Foot, FootAll, View, Build, BuildFields, Declared;
    v := new BodyValue(Object, id, "", false);
    var fields, T1 := BuildFieldList(g, g[id], src, pos, depth + 1, h - 1);
    ghost var m := Snap(T1);
    v.fields := fields;
    T := T1 + {v};
    assert v !in T1 && Agree(m, Snap(T), T1);
    ObjectOver(m, fields, v, Snap(T), h, id);
  }

  method BuildArrayValue(g: Schema, id: NodeId, src: Source, pos: Path, depth: nat, ghost h: nat)
    returns (v: BodyValue, ghost T: set<BodyValue>)
    requires depth <= MAX_BUILD_DEPTH && h == BUILD_LEVELS - depth && id in g
    ensures fresh(T) && Owned(Snap(T), v, h)
    ensures View(Snap(T), v, h) == Arr(id, BuildItems(g, g[id], ItemCount(g, g[id]), src, pos, depth + 1))
    decreases MAX_BUILD_DEPTH + 1 - depth, 0
  {
    hide Owned, Forest, Foot, FootAll, View, Build;
    v := new BodyValue(Array, id, "", false);
    var items, T1 := BuildItemList(g, g[id], src, pos, depth + 1, h - 1);
    ghost var m := Snap(T1);
    v.items := items;
    T := T1 + {v};
    ArrayOver(m, items, v, Snap(T), h, id);
  }

  ghost predicate FieldsSoFar(g: Schema, n: SchemaNode, names: seq<string>, src: Source, pos: Path, depth: nat, m: Heap,
                              fields: seq<BodyField>, h: nat) {
    && depth <= MAX_BUILD_DEPTH + 1 && (forall k | k in names :: k in n.properties)
    && Forest(m, FieldValues(fields), h)
    && ViewFields(m, fields, h) == BuildFields(g, n, names, src, pos, depth)
  }

  lemma NoFields(g: Schema, n: SchemaNode, src: Source, pos: Path, depth: nat, h: nat)
    requires depth <= MAX_BUILD_DEPTH + 1
    ensures FieldsSoFar(g, n, Declared(n.propertyOrder[..0], n.properties), src, pos, depth, Snap({}), [], h)
  {
  }

  method BuildFieldList(g: Schema, n: SchemaNode, src: Source, pos: Path, depth: nat, ghost h: nat)
    returns (fields: seq<BodyField>, ghost T: set<BodyValue>)
    requires 0 < depth <= MAX_BUILD_DEPTH + 1 && h == BUILD_LEVELS - depth
    ensures fresh(T) && Forest(Snap(T), FieldValues(fields), h)
    ensures ViewFields(Snap(T), fields, h) == BuildFields(g, n, DeclaredOf(n), src, pos, depth)
    decreases MAX_BUILD_DEPTH + 1 - depth, 3
  {
    hide *;
    fields, T := [], {};
    ghost var names: seq<string> := Declared(n.propertyOrder[..0], n.properties);
    NoFields(g, n, src, pos, depth, h);
    var k := 0;
    while k < |n.propertyOrder|
      invariant k <= |n.propertyOrder| && fresh(T) && names == Declared(n.propertyOrder[..k], n.properties)
      invariant FieldsSoFar(g, n, names, src, pos, depth, Snap(T), fields, h)
    {
      var name := n.propertyOrder[k];
      DeclaredNext(n, k);
      if name in n.properties {
        fields, T := BuildField(g, n, name, names, fields, src, pos, depth, T, h);
        names := names + [name];
      }
      k := k + 1;
    }
    AllFields(g, n, names, src, pos, depth, Snap(T), fields, h);
  }

  lemma AllFields(g: Schema, n: SchemaNode, names: seq<string>, src: Source, pos: Path, depth: nat, m: Heap,
                  fields: seq<BodyField>, h: nat)
    requires FieldsSoFar(g, n, names, src, pos, depth, m, fields, h)
    requires names == Declared(n.propertyOrder[..|n.propertyOrder|], n.properties)
    ensures Forest(m, FieldValues(fields), h)
    ensures ViewFields(m, fields, h) == BuildFields(g, n, DeclaredOf(n), src, pos, depth)
  {
    assert n.propertyOrder[..|n.propertyOrder|] == n.propertyOrder;
  }

  method BuildField(g: Schema, n: SchemaNode, name: string, ghost names: seq<string>, fields: seq<BodyField>,
                    src: Source,
                    pos: Path, depth: nat, ghost S: set<BodyValue>, ghost h: nat)
    returns (more: seq<BodyField>, ghost T: set<BodyValue>)
    requires 0 < depth <= MAX_BUILD_DEPTH + 1 && h == BUILD_LEVELS - depth && name in n.properties
    requires FieldsSoFar(g, n, names, src, pos, depth, Snap(S), fields, h)
    ensures S <= T && fresh(T - S)
    ensures FieldsSoFar(g, n, names + [name], src, pos, depth, Snap(T), more, h)
    decreases MAX_BUILD_DEPTH + 1 - depth, 2
  {
    ghost var m := Snap(S);
    var child, U := BuildBodyValue(g, n.properties[name], src, pos + [|fields|], depth, h);
    more, T := fields + [BodyField(name, child)], S + U;
    FieldsSnoc(m, fields, Snap(U), BodyField(name, child), Snap(T), h);
    BuildFieldsSnoc(g, n, names, name, src, pos, depth);
  }

  lemma NoItems(m: Heap, h: nat)
    ensures Forest(m, [], h) && ViewItems(m, [], h) == []
  {
  }

  method BuildItemList(g: Schema, n: SchemaNode, src: Source, pos: Path, depth: nat, ghost h: nat)
    returns (items: seq<BodyValue>, ghost T: set<BodyValue>)
    requires 0 < depth <= MAX_BUILD_DEPTH + 1 && h == BUILD_LEVELS - depth
    ensures fresh(T) && Forest(Snap(T), items, h)
    ensures ViewItems(Snap(T), items, h) == BuildItems(g, n, ItemCount(g, n), src, pos, depth)
    decreases MAX_BUILD_DEPTH + 1 - depth, 2
  {
    hide Owned, View, Foot, Build, Forest;
    items, T := [], {};
    NoItems(Snap(T), h);
    if n.items !in g {
      return;
    }
    var count := DEFAULT_ARRAY_LEN;
    if n.minItems.Some? && n.minItems.value > count {
      count := n.minItems.value;
    }
    if count > MAX_DEFAULT_ARRAY_LEN {
      count := MAX_DEFAULT_ARRAY_LEN;
    }
    for i := 0 to count
      invariant |items| == i && fresh(T) && Forest(Snap(T), items, h)
      invariant ViewItems(Snap(T), items, h) == BuildItems(g, n, i, src, pos, depth)
    {
      ghost var m := Snap(T);
      var item, U := BuildBodyValue(g, n.items, src, pos + [i], depth, h);
      ItemsSnoc(m, items, Snap(U), item, Snap(T + U), h);
      items, T := items + [item], T + U;
    }
  }

  method BuildVariantValue(g: Schema, id: NodeId, src: Source, pos: Path, depth: nat, ghost h: nat)
    returns (v: BodyValue, ghost T: set<BodyValue>)
    requires depth <= MAX_BUILD_DEPTH && h == BUILD_LEVELS - depth && id in g
    ensures fresh(T) && Owned(Snap(T), v, h) && View(Snap(T), v, h) == BuildVariant(g, id, src, pos, depth)
    decreases MAX_BUILD_DEPTH + 1 - depth, 0
  {
    hide Owned, View, Build, BuildVariant, ApplyTag;
    var n := g[id];
    NoVariants(g, id, src, pos, depth);
    if n.variants == [] {
      v, T := BuildLeaf(id, Leaf("", NullLeaf), h);
      return;
    }
    var idx := src.pick(pos, |n.variants|);
    if idx < 0 || idx >= |n.variants| {
      idx := 0;
    }
    assert idx == Branch(n, src.pick(pos, |n.variants|));
    BuildVariantIs(g, id, src, pos, depth);
    v, T := BuildBodyValue(g, n.variants[idx], src, pos + [0], depth + 1, h - 1);
    T := ApplyDiscriminatorTag(v, n, src, pos, idx, T, h - 1, h);
  }

  lemma NoVariants(g: Schema, id: NodeId, src: Source, pos: Path, depth: nat)
    requires depth <= MAX_BUILD_DEPTH && id in g
    ensures g[id].variants == [] ==> BuildVariant(g, id, src, pos, depth) == Null(id)
  {
  }

  // Overwrites the first field with the discriminator's name, in place, or appends one.
  method ApplyDiscriminatorTag(val: BodyValue, n: SchemaNode, src: Source, pos: Path, idx: nat,
                               ghost S: set<BodyValue>, ghost h: nat, ghost h2: nat)
    returns (ghost T: set<BodyValue>)
    requires Owned(Snap(S), val, h) && h < h2 && h2 > 1
    modifies val
    ensures S <= T && fresh(T - S) && Owned(Snap(T), val, h2)
    ensures View(Snap(T), val, h2) == ApplyTag(old(View(Snap(S), val, h)), n, src, pos, idx)
  {
    var tag := if n.discriminator.None? then "" else src.tag(pos, n.discriminator.value, idx);
    if n.discriminator.None? || val.kind != Object || tag == "" {
      T := S;
      ghost var m := Snap(S);
      Frame(m, val, h, m, h2);
      return;
    }
    T := WriteTag(val, n.discriminator.value.property, tag, S, h, h2);
  }

  method WriteTag(val: BodyValue, prop: string, tag: string, ghost S: set<BodyValue>, ghost h: nat, ghost h2: nat)
    returns (ghost T: set<BodyValue>)
    requires Owned(Snap(S), val, h) && val.kind == Object && tag != "" && h < h2 && h2 > 1
    modifies val
    ensures S <= T && fresh(T - S) && Owned(Snap(T), val, h2)
    ensures View(Snap(T), val, h2) == Tagged(old(View(Snap(S), val, h)), prop, tag)
  {
    ghost var t := View(Snap(S), val, h);
    var i := FindField(val, prop);
    var s, F := NewText(tag);
    T := S + F;
    TagPlace(t.fields, i, prop);
    if i < |val.fields| {
      SetField(val, i, s, S, h, F, 1, h2);
    } else {
      PutField(val, i, prop, s, S, h, F, 1, h2);
    }
    TagWritten(t, i, prop, tag, View(Snap(T), val, h2));
  }

  lemma TagPlace(fields: seq<Field>, i: nat, prop: string)
    requires i <= |fields| && (i < |fields| ==> fields[i].key == prop)
    requires forall j | 0 <= j < i :: fields[j].key != prop
    ensures FieldIndex(fields, prop) == i
  {
  }

  lemma TagWritten(t: Tree, i: nat, prop: string, tag: string, r: Tree)
    requires t.Obj? && tag != "" && i == FieldIndex(t.fields, prop)
    requires r == if i < |t.fields| then WithKid(t, i, Str(Nil, tag)) else InsertField(t, i, Field(prop, Str(Nil, tag)))
    ensures r == Tagged(t, prop, tag)
  {
  }

  method NewText(text: string) returns (v: BodyValue, ghost F: set<BodyValue>)
    ensures fresh(F) && Owned(Snap(F), v, 1) && View(Snap(F), v, 1) == Str(Nil, text)
  {
    v := new BodyValue(String, Nil, text, false);
    F := {v};
    LeafOver(v, Snap(F), 1);
  }

  method FindField(val: BodyValue, prop: string) returns (i: nat)
    ensures i <= |val.fields| && (i < |val.fields| ==> val.fields[i].key == prop)
    ensures forall j | 0 <= j < i :: val.fields[j].key != prop
  {
    i := 0;
    while i < |val.fields|
      invariant i <= |val.fields|
      invariant forall j | 0 <= j < i :: val.fields[j].key != prop
    {
      if val.fields[i].key == prop {
        return;
      }
      i := i + 1;
    }
  }
}
