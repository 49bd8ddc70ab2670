// What an adversarial operator does to conformance: for each of the nine, exactly when it breaks its site and the body.
module BodyAdversarial {
  import opened Wrappers
  import opened BodyTree
  import opened BodySchema
  import opened BodyBuild
  import opened BodyConformance
  import opened BodySites
  import opened BodyMutate
  import opened Decimals
  import opened JsonPrinter

  // Exactly when the new value violates the site's schema, the old one having conformed to it.
  ghost predicate Breaks(g: Schema, sid: NodeId, u: Tree, op: AdversarialOp, tags: Tags)
    requires sid in g && AdversarialEligible(g, g[sid], u, op)
  {
    var n := g[sid];
    match op
    case OmitRequired(_) => true
    case ResizeOut => CanResizeOut(g, n, u)
    case SwitchTag(branch) => !TakesSwitched(g, sid, branch, tags)
    case WrongType(choice) => n.scalarType.OtherScalar? ==> choice == 0 && !InRange(n, NumberOf("12345"))
    case NullInjection => true
    case Undeclared(_, _, _) => u.Obj? && !n.allowAdditional
    case DuplicateKey(_, _) => true
    case Nest => !TakesWrapped(g, sid, NESTING_EXTRA_LAYERS, Truncate(u, 0))
    case Violate => ViolationBreaks(n)
  }

  // Only an array shows its items, and without an item schema it cannot grow.
  predicate CanResizeOut(g: Schema, n: SchemaNode, u: Tree) {
    u.Arr? && ((n.minItems.Some? && n.minItems.value > 0) || n.items in g)
  }

  // A value outside the enum is outside by luck only: the suffix may itself be listed; and nothing is done about a
  // pattern or a zero minimum length.
  predicate ViolationBreaks(n: SchemaNode) {
    || IsNumeric(n) || n.scalarType.BooleanType?
    || n.maxLength.Some? || (n.minLength.Some? && n.minLength.value > 0)
    || (n.enumValues != [] && n.enumValues[0] + SUFFIX !in n.enumValues)
  }

  // One below the minimum stays below it after truncation, one above the maximum stays above it.
  lemma ViolatingNumber(n: SchemaNode)
    requires IsNumeric(n)
    ensures n.minimum.Some? ==> !InRange(n, NumberOf(FormatNumber(n.scalarType, Plus(n.minimum.value, -1))))
    ensures n.maximum.Some? ==> !InRange(n, NumberOf(FormatNumber(n.scalarType, Plus(n.maximum.value, 1))))
  {
    if n.minimum.Some? {
      var v := Plus(n.minimum.value, -1);
      NumberMeans(n.scalarType, v);
      TruncMeans(v);
    }
    if n.maximum.Some? {
      var v := Plus(n.maximum.value, 1);
      NumberMeans(n.scalarType, v);
      TruncMeans(v);
    }
  }

  lemma ViolatingConforms(sid: NodeId, n: SchemaNode)
    requires HasScalarConstraint(n)
    ensures ScalarConforms(n, ViolatingValue(sid, n)) <==> !ViolationBreaks(n)
  {
    var v := ViolatingValue(sid, n);
    if IsNumeric(n) {
      ViolatingNumber(n);
    } else if n.maxLength.Some? || (n.minLength.Some? && n.minLength.value > 0) {
      AsciiLength(v.text);
    }
  }

  // Duplicating a key leaves every other key alone and repeats exactly that one.
  lemma DuplicateRepeats(keys: seq<string>, i: nat)
    requires i < |keys| && NoRepeats(keys)
    ensures !NoRepeats(keys + [keys[i]])
    ensures multiset(keys + [keys[i]])[keys[i]] == 2
    ensures forall k | k != keys[i] :: multiset(keys + [keys[i]])[k] <= 1
  {
    var r := keys + [keys[i]];
    assert r[i] == r[|keys|];
    DistinctOnce(keys);
    assert multiset(keys)[keys[i]] == 1;
  }

  lemma {:induction false} DistinctOnce(keys: seq<string>)
    requires NoRepeats(keys)
    ensures forall k :: multiset(keys)[k] == if k in keys then 1 else 0
  {
    if keys != [] {
      var last, init := keys[|keys| - 1], keys[..|keys| - 1];
      DistinctOnce(init);
      assert keys == init + [last];
      assert last !in init;
    }
  }

  lemma InsertKeys(fields: seq<Field>, at: nat, f: Field)
    requires at <= |fields|
    ensures Keys(fields[..at] + [f] + fields[at..]) == Keys(fields)[..at] + [f.key] + Keys(fields)[at..]
  {
  }

  lemma InsertKeepsDistinct(keys: seq<string>, at: nat, k: string)
    requires at <= |keys| && NoRepeats(keys) && k !in keys
    ensures NoRepeats(keys[..at] + [k] + keys[at..])
    ensures forall x :: x in keys[..at] + [k] + keys[at..] <==> x in keys || x == k
  {
    var r := keys[..at] + [k] + keys[at..];
    forall i, j | 0 <= i < j < |r|
      ensures r[i] != r[j]
    {
      assert i != at ==> r[i] == keys[if i < at then i else i - 1];
      assert j != at ==> r[j] == keys[if j < at then j else j - 1];
    }
  }

  lemma UndeclaredBreaks(g: Schema, sid: NodeId, u: Tree, key: string, at: nat, value: Scalar, h: nat)
    requires sid in g && AdversarialEligible(g, g[sid], u, Undeclared(key, at, value)) && u.Obj?
    requires Parallel(g, sid, u) && Conforms(g, sid, u, h)
    ensures
      var r := InsertField(u, at, Field(key, SyntheticScalar(value)));
      if g[sid].allowAdditional then Conforms(g, sid, r, h) else forall h2: nat :: !Conforms(g, sid, r, h2)
  {
    var n, f := g[sid], Field(key, SyntheticScalar(value));
    var r := InsertField(u, at, f);
    InsertKeys(u.fields, at, f);
    var ks := Keys(u.fields);
    forall k | k in ks
      ensures k in n.properties
    {
      var i :| 0 <= i < |ks| && ks[i] == k;
      assert u.fields[i].key == k;
    }
    InsertKeepsDistinct(ks, at, key);
    if n.allowAdditional {
      forall j | 0 <= j < |r.fields| && r.fields[j].key in n.properties
        ensures Conforms(g, n.properties[r.fields[j].key], r.fields[j].value, h - 1) == true
      {
        assert j != at && r.fields[j] == u.fields[if j < at then j else j - 1];
      }
    }
  }

  lemma OmitBreaks(g: Schema, sid: NodeId, u: Tree, i: nat, h: nat, h2: nat)
    requires sid in g && AdversarialEligible(g, g[sid], u, OmitRequired(i)) && Conforms(g, sid, u, h)
    ensures u.fields[i].key in g[sid].required && u.fields[i].key !in Keys(DropKid(u, i).fields)
    ensures !Conforms(g, sid, DropKid(u, i), h2)
  {
    DropKeys(u.fields, i);
    DropOneKey(Keys(u.fields), i);
    assert Keys(u.fields)[i] == u.fields[i].key;
  }

  lemma ResizeOutBreaks(g: Schema, sid: NodeId, u: Tree, tags: Tags, h: nat)
    requires sid in g && AdversarialEligible(g, g[sid], u, ResizeOut)
    requires Parallel(g, sid, u) && Conforms(g, sid, u, h)
    ensures
      var r := Resized(g, u, OutOfBounds(g[sid]), tags);
      if CanResizeOut(g, g[sid], u) then r.Arr? && !LengthConforms(g[sid], |r.items|) else r == u
  {
  }

  // ---- one value, several branches ----

  // What a oneOf/anyOf asks of a value, branch by branch.
  lemma VariantIff(g: Schema, id: NodeId, t: Tree)
    requires id in g && IsVariant(g[id]) && !t.Null?
    ensures Conforming(g, id, t) <==>
              && (exists i :: 0 <= i < |g[id].variants| && Conforming(g, g[id].variants[i], t))
              && (g[id].discriminator.Some? && t.Obj? ==>
                    NamedBranchTakes(g, g[id], TagIn(t.fields, g[id].discriminator.value.property), t))
  {
    var n := g[id];
    if Conforming(g, id, t) {
      var h: nat :| Conforms(g, id, t, h);
      assert VariantConforms(g, n, t, h - 1);
      var i :| 0 <= i < |n.variants| && Conforms(g, n.variants[i], t, h - 1);
      assert Conforming(g, n.variants[i], t);
      if n.discriminator.Some? && t.Obj? {
        var d, tag := n.discriminator.value, TagIn(t.fields, n.discriminator.value.property);
        assert TagConforms(g, n, d, t, h - 1);
        assert tag in d.mapping ==> Conforms(g, n.variants[d.mapping[tag]], t, h - 1);
      }
    }
    if i :| 0 <= i < |n.variants| && Conforming(g, n.variants[i], t) {
      if n.discriminator.Some? && t.Obj? {
        var d, tag := n.discriminator.value, TagIn(t.fields, n.discriminator.value.property);
        if NamedBranchTakes(g, n, tag, t) {
          VariantConforming(g, id, if tag in d.mapping then d.mapping[tag] else i, t);
        }
      } else {
        VariantConforming(g, id, i, t);
      }
    }
  }

  // A known tag names a branch that takes the value.
  ghost predicate NamedBranchTakes(g: Schema, n: SchemaNode, tag: string, t: Tree)
    requires n.discriminator.Some?
  {
    var d := n.discriminator.value;
    tag in d.mapping ==> 0 <= d.mapping[tag] < |n.variants| && Conforming(g, n.variants[d.mapping[tag]], t)
  }

  // ---- the shape says one branch, the tag another ----

  // The built object is retagged at all: it has the discriminator property, and the next branch has a tag.
  predicate Retags(g: Schema, sid: NodeId, branch: nat, tags: Tags)
    requires sid in g && g[sid].variants != []
  {
    var n, built := g[sid], Rebuilt(g, sid, branch, tags);
    && n.discriminator.Some? && built.Obj?
    && n.discriminator.value.property in Keys(built.fields) && NextTag(n, branch, tags) != ""
  }

  function NextTag(n: SchemaNode, branch: nat, tags: Tags): string
    requires n.discriminator.Some?
  {
    tags([], n.discriminator.value, NextBranch(n, branch))
  }

  // Retagged, the value answers to the next branch alone; otherwise it is what was built.
  ghost predicate TakesSwitched(g: Schema, sid: NodeId, branch: nat, tags: Tags)
    requires sid in g && g[sid].variants != []
  {
    var n, built := g[sid], Rebuilt(g, sid, branch, tags);
    if Retags(g, sid, branch, tags) then
      TakesShape(g, n.variants[NextBranch(n, branch)], built, n.discriminator.value.property, NextTag(n, branch, tags))
    else Conforming(g, sid, built)
  }

  // Node v takes this object once every field called `property` holds `tag`.
  ghost predicate TakesShape(g: Schema, v: NodeId, shape: Tree, property: string, tag: string)
    requires shape.Obj?
  {
    v in g ==>
      match g[v].nodeType
      case ObjectType =>
        && KeysConform(g[v], Keys(shape.fields))
        && TagFits(g, g[v], property, if property in Keys(shape.fields) then Some(tag) else None)
        && forall i | 0 <= i < |shape.fields| && shape.fields[i].key != property
                   && shape.fields[i].key in g[v].properties ::
             Conforming(g, g[v].properties[shape.fields[i].key], shape.fields[i].value)
      case ArrayType => false
      case ScalarNode => g[v].scalarType.OtherScalar?
      case OtherType(_) => true
      case _ => Conforming(g, v, Obj(shape.node, RetagFields(shape.fields, property, tag)))
  }

  lemma TakesShapeIff(g: Schema, v: NodeId, shape: Tree, property: string, tag: string)
    requires shape.Obj? && property in Keys(shape.fields)
    ensures Conforming(g, v, Obj(shape.node, RetagFields(shape.fields, property, tag)))
       <==> TakesShape(g, v, shape, property, tag)
  {
    var r := Obj(shape.node, RetagFields(shape.fields, property, tag));
    if v in g && g[v].nodeType.ObjectType? {
      ShapeAtObject(g, v, shape, property, tag);
    } else if v in g && !IsVariant(g[v]) {
      assert Conforms(g, v, r, 1) <==> TakesShape(g, v, shape, property, tag);
    } else {
      assert v !in g ==> Conforms(g, v, r, 0);
    }
  }

  lemma ShapeAtObject(g: Schema, v: NodeId, shape: Tree, property: string, tag: string)
    requires shape.Obj? && property in Keys(shape.fields) && v in g && g[v].nodeType.ObjectType?
    ensures Conforming(g, v, Obj(shape.node, RetagFields(shape.fields, property, tag)))
       <==> TakesShape(g, v, shape, property, tag)
  {
    var r := Obj(shape.node, RetagFields(shape.fields, property, tag));
    assert Keys(r.fields) == Keys(shape.fields);
    var j :| 0 <= j < |shape.fields| && Keys(shape.fields)[j] == property;
    assert r.fields[j] == Field(property, Str(Nil, tag));
    if Conforming(g, v, r) {
      var h: nat :| Conforms(g, v, r, h);
      ObjectParts(g, v, r, h);
      hide Conforming, Conforms, KeysConform;
      forall i | 0 <= i < |shape.fields| && shape.fields[i].key != property && shape.fields[i].key in g[v].properties
        ensures Conforming(g, g[v].properties[shape.fields[i].key], shape.fields[i].value)
      {
        assert r.fields[i] == shape.fields[i];
      }
      assert property !in g[v].properties ==> g[v].allowAdditional;
    }
    if TakesShape(g, v, shape, property, tag) {
      ObjectConforming(g, v, r);
    }
  }

  lemma {:induction false} RetagFieldsTag(fields: seq<Field>, property: string, tag: string)
    requires property in Keys(fields)
    ensures TagIn(RetagFields(fields, property, tag), property) == tag
    decreases |fields|
  {
    var r, last := RetagFields(fields, property, tag), |fields| - 1;
    if fields[last].key != property {
      assert Keys(fields)[last] != property && Keys(fields[..last]) == Keys(fields)[..last];
      RetagFieldsTag(fields[..last], property, tag);
      assert r[..last] == RetagFields(fields[..last], property, tag);
    }
  }

  // A retagged value keeps the shape built for one branch and the tag of the next; it conforms exactly if that next
  // branch takes it. One that is not retagged is as built.
  lemma SwitchTagMismatch(g: Schema, sid: NodeId, branch: nat, tags: Tags)
    requires sid in g && IsVariant(g[sid]) && |g[sid].variants| > 1 && branch < |g[sid].variants|
    requires OffersTags(Plain(branch, tags))
    ensures
      var n, next, r := g[sid], NextBranch(g[sid], branch), SwitchedTag(g, sid, branch, tags);
      next != branch &&
      if Retags(g, sid, branch, tags) then
        var d := n.discriminator.value;
        && r.Obj? && TagIn(r.fields, d.property) in d.mapping && d.mapping[TagIn(r.fields, d.property)] == next
        && (Conforming(g, sid, r) <==> Conforming(g, n.variants[next], r))
      else r == Rebuilt(g, sid, branch, tags)
    ensures Conforming(g, sid, SwitchedTag(g, sid, branch, tags)) <==> TakesSwitched(g, sid, branch, tags)
  {
    hide Build, Conforming, TagIn, TakesShape;
    var n, next, r := g[sid], NextBranch(g[sid], branch), SwitchedTag(g, sid, branch, tags);
    var built := Rebuilt(g, sid, branch, tags);
    if Retags(g, sid, branch, tags) {
      var d := n.discriminator.value;
      var tag := NextTag(n, branch, tags);
      assert TagOf(d, next, Plain(branch, tags).tag([], d, next));
      RetagFieldsTag(built.fields, d.property, tag);
      TakesShapeIff(g, n.variants[next], built, d.property, tag);
      VariantIff(g, sid, r);
    } else {
      NotRetagged(g, sid, branch, tags);
    }
  }

  lemma NotRetagged(g: Schema, sid: NodeId, branch: nat, tags: Tags)
    requires sid in g && g[sid].variants != [] && !Retags(g, sid, branch, tags)
    ensures SwitchedTag(g, sid, branch, tags) == Rebuilt(g, sid, branch, tags)
  {
    var n, built := g[sid], Rebuilt(g, sid, branch, tags);
    if n.discriminator.Some? && built.Obj? && NextTag(n, branch, tags) != "" {
      var r := RetagFields(built.fields, n.discriminator.value.property, NextTag(n, branch, tags));
      forall i | 0 <= i < |r|
        ensures r[i] == built.fields[i]
      {
        assert Keys(built.fields)[i] != n.discriminator.value.property;
      }
      assert r == built.fields;
    }
  }

  // Without a retag the operator merely builds a branch: a sound one conforms, whatever the operator is called, and
  // where the branch is the one that counts, being buildable is the exact condition.
  lemma PlainSwitchConforms(g: Schema, sid: NodeId, branch: nat, tags: Tags)
    requires sid in g && IsVariant(g[sid]) && |g[sid].variants| > 1 && branch < |g[sid].variants|
    requires !Retags(g, sid, branch, tags)
    ensures Sound(g, sid, branch, tags) ==> Conforming(g, sid, SwitchedTag(g, sid, branch, tags))
    ensures Committed(g, sid, Plain(branch, tags), [], 0, []) ==>
              (Conforming(g, sid, SwitchedTag(g, sid, branch, tags))
               <==> Buildable(g, sid, Plain(branch, tags), [], 0, []))
  {
    hide Build, Buildable, Committed, Conforming, Sound;
    NotRetagged(g, sid, branch, tags);
    if Sound(g, sid, branch, tags) {
      SoundConforms(g, sid, branch, tags, []);
    }
    if Committed(g, sid, Plain(branch, tags), [], 0, []) {
      BuiltConformsIff(g, sid, Plain(branch, tags), [], 0);
    }
  }

  // Between two object branches: the retagged value conforms exactly if the next node knows or tolerates the names of
  // the first and the property, requires no other, and takes the tag and the values built for the first.
  lemma SwitchBetweenObjects(g: Schema, sid: NodeId, branch: nat, tags: Tags)
    requires sid in g && IsVariant(g[sid]) && |g[sid].variants| > 1 && branch < |g[sid].variants|
    requires OffersTags(Plain(branch, tags)) && Retags(g, sid, branch, tags)
    requires
      var a, b := g[sid].variants[branch], g[sid].variants[NextBranch(g[sid], branch)];
      a in g && g[a].nodeType.ObjectType? && b in g && g[b].nodeType.ObjectType?
    ensures
      var n, property := g[sid], g[sid].discriminator.value.property;
      var a, b := g[n.variants[branch]], g[n.variants[NextBranch(n, branch)]];
      var names := DeclaredOf(a);
      Conforming(g, sid, SwitchedTag(g, sid, branch, tags)) <==>
        && NoRepeats(names)
        && (forall k | k in names :: k in b.properties || b.allowAdditional)
        && (forall k | k in b.required :: k in names || k == property)
        && TagFits(g, b, property, Some(NextTag(n, branch, tags)))
        && (forall i | 0 <= i < |names| && names[i] != property && names[i] in b.properties ::
              Conforming(g, b.properties[names[i]],
                         Build(g, a.properties[names[i]], Plain(branch, tags), [0] + [i], 2)))
  {
    hide Build, Conforming, Declared, KeysConform, TagIn, NoRepeats, OffersTags;
    var n, property := g[sid], g[sid].discriminator.value.property;
    var aid, bid := n.variants[branch], n.variants[NextBranch(n, branch)];
    var names, built := DeclaredOf(g[aid]), Rebuilt(g, sid, branch, tags);
    SwitchTagMismatch(g, sid, branch, tags);
    BuiltForSwitch(g, sid, branch, tags);
    SwitchedKeysConform(g[bid], names, property, Keys(built.fields));
    if TakesShape(g, bid, built, property, NextTag(n, branch, tags)) {
      forall i | 0 <= i < |names| && names[i] != property && names[i] in g[bid].properties
        ensures Conforming(g, g[bid].properties[names[i]],
                           Build(g, g[aid].properties[names[i]], Plain(branch, tags), [0] + [i], 2))
      {
        assert built.fields[i].key == names[i];
      }
    }
  }

  // The object that is retagged: the branch's declared names, in order, then the property if it is not among them.
  lemma BuiltForSwitch(g: Schema, sid: NodeId, branch: nat, tags: Tags)
    requires sid in g && IsVariant(g[sid]) && branch < |g[sid].variants| && Retags(g, sid, branch, tags)
    requires g[sid].variants[branch] in g && g[g[sid].variants[branch]].nodeType.ObjectType?
    ensures
      var a, property := g[g[sid].variants[branch]], g[sid].discriminator.value.property;
      var names, fields := DeclaredOf(a), Rebuilt(g, sid, branch, tags).fields;
      && Keys(fields) == (if property in names then names else names + [property])
      && forall i | 0 <= i < |names| && names[i] != property ::
           names[i] in a.properties
           && fields[i] == Field(names[i], Build(g, a.properties[names[i]], Plain(branch, tags), [0] + [i], 2))
  {
    hide Build, Declared, TagIn;
    var n, d, src := g[sid], g[sid].discriminator.value, Plain(branch, tags);
    var a, names := n.variants[branch], DeclaredOf(g[n.variants[branch]]);
    var shape := Build(g, a, src, [0], 1);
    assert Rebuilt(g, sid, branch, tags) == Tagged(shape, d.property, tags([], d, branch)) by {
      var pos: Path := [];
      assert pos + [0] == [0];
      VariantIs(g, sid, src, pos, 0);
    }
    BuiltKeys(g, a, src, [0], 1);
    if tags([], d, branch) != "" {
      TaggedKeys(shape, d.property, tags([], d, branch));
    }
    forall i | 0 <= i < |names| && names[i] != d.property
      ensures Rebuilt(g, sid, branch, tags).fields[i]
           == Field(names[i], Build(g, g[a].properties[names[i]], src, [0] + [i], 2))
    {
      BuiltFieldIs(g, a, src, [0], 1, i);
    }
  }

  lemma SwitchedKeysConform(b: SchemaNode, names: seq<string>, property: string, keys: seq<string>)
    requires keys == if property in names then names else names + [property]
    ensures KeysConform(b, keys) <==>
              && NoRepeats(names)
              && (forall k | k in names :: k in b.properties || b.allowAdditional)
              && (property in b.properties || b.allowAdditional)
              && (forall k | k in b.required :: k in names || k == property)
  {
    if property !in names {
      assert forall i | 0 <= i < |names| :: keys[i] == names[i];
      assert keys[|names|] == property;
    }
  }

  // One such input: two object branches without properties that allow any.
  const OPEN_OBJECT := SchemaNode(ObjectType, false, map[], [], [], true, Nil, None, None, [], None, StringType, "", [],
                                  "", None, None, None, None)

  const OPEN_BRANCHES: Schema := map[
    1 := OPEN_OBJECT.(nodeType := OneOf, variants := [2, 3],
                      discriminator := Some(Discriminator("kind", map["A" := 0, "B" := 1]))),
    2 := OPEN_OBJECT,
    3 := OPEN_OBJECT]

  lemma SwitchedTagMissed(tags: Tags)
    requires OffersTags(Plain(0, tags))
    ensures SwitchedTag(OPEN_BRANCHES, 1, 0, tags) == Obj(2, [Field("kind", Str(Nil, "B"))])
    ensures Conforming(OPEN_BRANCHES, 1, SwitchedTag(OPEN_BRANCHES, 1, 0, tags))
  {
    var g := OPEN_BRANCHES;
    var d := g[1].discriminator.value;
    assert d.mapping["A"] == 0 && d.mapping["B"] == 1;
    assert TagOf(d, 0, Plain(0, tags).tag([], d, 0)) && TagOf(d, 1, Plain(0, tags).tag([], d, 1));
    var pos: Path := [];
    assert pos + [0] == [0];
    VariantIs(g, 1, Plain(0, tags), pos, 0);
    assert Build(g, 2, Plain(0, tags), [0], 1) == Obj(2, []);
    var built, r := Rebuilt(g, 1, 0, tags), SwitchedTag(g, 1, 0, tags);
    assert built == Obj(2, [Field("kind", Str(Nil, "A"))]);
    assert r.fields == [Field("kind", Str(Nil, "B"))];
    assert Conforms(g, 3, r, 1);
    VariantConforming(g, 1, 1, r);
  }

  // ---- nesting ----

  // Whether a value in `layers` objects with the one key "wrapped" conforms, read off the nodes on the way down.
  ghost predicate TakesWrapped(g: Schema, id: NodeId, layers: nat, u: Tree)
    decreases layers, 1
  {
    if layers == 0 then Conforming(g, id, u)
    else if id in g && IsVariant(g[id]) then
      && (exists i :: 0 <= i < |g[id].variants| && TakesLayer(g, g[id].variants[i], layers, u))
      && (g[id].discriminator.Some? ==>
            var d := g[id].discriminator.value;
            var tag := if d.property == "wrapped" && layers == 1 then TextOf(u) else "";
            tag in d.mapping ==>
              0 <= d.mapping[tag] < |g[id].variants| && TakesLayer(g, g[id].variants[d.mapping[tag]], layers, u))
    else TakesLayer(g, id, layers, u)
  }

  // At a node that is no oneOf/anyOf; a branch that is one again is left to conformance itself.
  ghost predicate TakesLayer(g: Schema, id: NodeId, layers: nat, u: Tree)
    requires layers > 0
    decreases layers, 0
  {
    id in g ==>
      var n := g[id];
      match n.nodeType
      case ObjectType =>
        && (forall k | k in n.required :: k == "wrapped")
        && if "wrapped" in n.properties then TakesWrapped(g, n.properties["wrapped"], layers - 1, u)
           else n.allowAdditional
      case ArrayType => false
      case ScalarNode => n.scalarType.OtherScalar?
      case OtherType(_) => true
      case _ => Conforming(g, id, Wrapped(u, layers))
  }

  lemma {:induction false} WrappedConforms(g: Schema, id: NodeId, layers: nat, u: Tree)
    ensures Conforming(g, id, Wrapped(u, layers)) <==> TakesWrapped(g, id, layers, u)
    decreases layers, 1
  {
    hide Conforming;
    if layers > 0 {
      if id in g && IsVariant(g[id]) {
        var t := Wrapped(u, layers);
        forall i | 0 <= i < |g[id].variants|
          ensures Conforming(g, g[id].variants[i], t) <==> TakesLayer(g, g[id].variants[i], layers, u)
        {
          LayerConforms(g, g[id].variants[i], layers, u);
        }
        VariantIff(g, id, t);
        if g[id].discriminator.Some? {
          WrapperTag(u, layers, g[id].discriminator.value.property);
        }
      } else {
        LayerConforms(g, id, layers, u);
      }
    }
  }

  lemma WrapperTag(u: Tree, layers: nat, property: string)
    requires layers > 0
    ensures Wrapped(u, layers).Obj?
    ensures TagIn(Wrapped(u, layers).fields, property)
         == if property == "wrapped" && layers == 1 then TextOf(u) else ""
  {
    var fields := Wrapped(u, layers).fields;
    assert fields[..0] == [];
    assert fields[0] == Field("wrapped", Wrapped(u, layers - 1));
  }

  lemma {:induction false} LayerConforms(g: Schema, id: NodeId, layers: nat, u: Tree)
    requires layers > 0
    ensures Conforming(g, id, Wrapped(u, layers)) <==> TakesLayer(g, id, layers, u)
    decreases layers, 0
  {
    var t := Wrapped(u, layers);
    if id in g && g[id].nodeType.ObjectType? {
      if "wrapped" in g[id].properties {
        WrappedConforms(g, g[id].properties["wrapped"], layers - 1, u);
      }
      LayerAtObject(g, id, Wrapped(u, layers - 1));
    } else if id in g && !IsVariant(g[id]) {
      assert Conforms(g, id, t, 1) <==> TakesLayer(g, id, layers, u);
    } else {
      assert id !in g ==> Conforms(g, id, t, 0);
    }
  }

  lemma LayerAtObject(g: Schema, id: NodeId, v: Tree)
    requires id in g && g[id].nodeType.ObjectType?
    ensures Conforming(g, id, Obj(Nil, [Field("wrapped", v)])) <==>
              && (forall k | k in g[id].required :: k == "wrapped")
              && if "wrapped" in g[id].properties then Conforming(g, g[id].properties["wrapped"], v)
                 else g[id].allowAdditional
  {
    var n, t := g[id], Obj(Nil, [Field("wrapped", v)]);
    assert Keys(t.fields) == ["wrapped"];
    if Conforming(g, id, t) {
      var h: nat :| Conforms(g, id, t, h);
      ObjectParts(g, id, t, h);
      assert t.fields[0].key == "wrapped" && "wrapped" in Keys(t.fields);
    }
    if (forall k | k in n.required :: k == "wrapped")
       && if "wrapped" in n.properties then Conforming(g, n.properties["wrapped"], v) else n.allowAdditional {
      ObjectConforming(g, id, t);
    }
  }

  // Any object schema that neither declares "wrapped" nor forbids it, and requires nothing, takes every nested value.
  lemma NestingMissed(g: Schema, sid: NodeId, u: Tree, tags: Tags)
    requires sid in g && g[sid].nodeType.ObjectType? && g[sid].allowAdditional && g[sid].required == []
    requires "wrapped" !in g[sid].properties
    ensures Conforming(g, sid, ApplyAdversarial(g, sid, u, Nest, tags))
  {
    WrappedConforms(g, sid, NESTING_EXTRA_LAYERS, Truncate(u, 0));
  }

  // ---- all nine ----

  lemma ScalarDecides(g: Schema, sid: NodeId, t: Tree)
    requires sid in g && g[sid].nodeType.ScalarNode? && !t.Null?
    ensures Conforming(g, sid, t) <==> ScalarConforms(g[sid], t)
  {
    var h: nat := 1;
    assert Conforms(g, sid, t, h) <==> ScalarConforms(g[sid], t);
  }

  // Adversarial mode breaks the site it picks exactly when Breaks says so.
  lemma AdversarialBreaksIff(g: Schema, sid: NodeId, u: Tree, op: AdversarialOp, tags: Tags)
    requires sid in g && AdversarialEligible(g, g[sid], u, op) && OffersTags(Plain(0, tags))
    requires Parallel(g, sid, u) && Conforming(g, sid, u)
    ensures Conforming(g, sid, ApplyAdversarial(g, sid, u, op, tags)) <==> !Breaks(g, sid, u, op, tags)
  {
    hide TakesSwitched, TakesWrapped, Build, TagIn, OffersTags, ViolationBreaks, Resized;
    var h: nat :| Conforms(g, sid, u, h);
    var n, r := g[sid], ApplyAdversarial(g, sid, u, op, tags);
    match op
    case OmitRequired(i) =>
      forall h2: nat
        ensures !Conforms(g, sid, r, h2)
      {
        OmitBreaks(g, sid, u, i, h, h2);
      }
    case ResizeOut =>
      ResizeOutBreaks(g, sid, u, tags, h);
    case SwitchTag(branch) =>
      OfferedAnywhere(0, branch, tags);
      SwitchTagMismatch(g, sid, branch, tags);
    case WrongType(choice) =>
      ScalarDecides(g, sid, r);
    case Undeclared(key, at, value) =>
      if u.Obj? {
        UndeclaredBreaks(g, sid, u, key, at, value, h);
      }
    case DuplicateKey(i, value) =>
      SnocKeys(u, Field(u.fields[i].key, SyntheticScalar(value)));
      DuplicateRepeats(Keys(u.fields), i);
    case Nest =>
      WrappedConforms(g, sid, NESTING_EXTRA_LAYERS, Truncate(u, 0));
    case Violate =>
      ViolatingConforms(sid, n);
      ScalarDecides(g, sid, r);
    case _ =>
  }

  // Tags do not depend on the branch that is built.
  lemma OfferedAnywhere(i: nat, j: nat, tags: Tags)
    requires OffersTags(Plain(i, tags))
    ensures OffersTags(Plain(j, tags))
  {
    forall pos: Path, d: Discriminator, k: int
      ensures TagOf(d, k, Plain(j, tags).tag(pos, d, k))
    {
      assert TagOf(d, k, Plain(i, tags).tag(pos, d, k));
    }
  }

  // ... and with it the body.
  lemma AdversarialBreaksBody(g: Schema, root: NodeId, t: Tree, p: Path, sid: NodeId, op: AdversarialOp, tags: Tags)
    requires Parallel(g, root, t) && Conforming(g, root, t) && IsSite(g, root, t, p, sid)
    requires ValidPath(t, p) && sid in g && AdversarialEligible(g, g[sid], At(t, p), op)
    requires OffersTags(Plain(0, tags))
    ensures Conforming(g, root, Plug(t, p, ApplyAdversarial(g, sid, At(t, p), op, tags)))
       <==> !Breaks(g, sid, At(t, p), op, tags)
  {
    SiteConforms(g, root, t, p, sid);
    AdversarialBreaksIff(g, sid, At(t, p), op, tags);
    SiteDecides(g, root, t, p, sid, ApplyAdversarial(g, sid, At(t, p), op, tags));
  }
}
