// What is built and what the operators put in, in plain figures and texts.
module BodyFigures {
  import opened Wrappers
  import opened BodyTree
  import opened BodySchema
  import opened BodyBuild
  import opened BodyConformance
  import opened BodySites
  import opened BodyMutate
  import opened BodyAdversarial
  import opened BodyMutator
  import opened Decimals
  import opened JsonPrinter
  import opened SelfReference

  // ---- lengths and depths of a build ----

  // A fresh array: one item, or minItems of them up to five, five at most, none without an item schema. Its length
  // conforms exactly when the bounds leave room for that.
  lemma BuiltLength(g: Schema, id: NodeId, src: Source, pos: Path, depth: nat)
    requires depth <= 12 && id in g && g[id].nodeType.ArrayType?
    ensures
      var n, t := g[id], Build(g, id, src, pos, depth);
      && t.Arr?
      && (n.items !in g ==> |t.items| == 0)
      && (n.items in g && (n.minItems.None? || n.minItems.value <= 1) ==> |t.items| == 1)
      && (n.items in g && n.minItems.Some? && 2 <= n.minItems.value <= 5 ==> |t.items| == n.minItems.value)
      && (n.items in g && n.minItems.Some? && 5 < n.minItems.value ==> |t.items| == 5)
      && (LengthConforms(n, |t.items|) <==>
          if n.items in g then
            && (n.minItems.None? || n.minItems.value <= 5)
            && (n.maxItems.None? || 1 <= n.maxItems.value)
            && (n.minItems.None? || n.maxItems.None? || n.minItems.value <= n.maxItems.value)
          else
            (n.minItems.None? || n.minItems.value <= 0) && (n.maxItems.None? || 0 <= n.maxItems.value))
  {
    BuiltArray(g, id, src, pos, depth);
    FreshLength(g, g[id]);
  }

  // So many arrays of one item in one another around the text that stands in below the depth cap.
  predicate Layers(id: NodeId, t: Tree, k: nat) {
    if k == 0 then t == Str(id, "fuzzstring") else t.Arr? && |t.items| == 1 && Layers(id, t.items[0], k - 1)
  }

  // An array of itself is built thirteen layers deep, then cut.
  lemma {:induction false} CircleIsCut(g: Schema, id: NodeId, src: Source, pos: Path, depth: nat)
    requires id in g && g[id].nodeType.ArrayType? && g[id].items == id && g[id].minItems.None? && depth <= 13
    ensures Layers(id, Build(g, id, src, pos, depth), 13 - depth)
    decreases 13 - depth
  {
    if depth < 13 {
      BuiltLength(g, id, src, pos, depth);
      BuiltItemIs(g, id, src, pos, depth, 0);
      CircleIsCut(g, id, src, pos + [0], depth + 1);
    }
  }

  // An object has its declared properties in the order given; names without a schema are passed over.
  lemma {:induction false} BuiltNames(names: seq<string>, name: string, properties: map<string, NodeId>)
    ensures Declared([], properties) == []
    ensures Declared(names + [name], properties)
         == if name in properties then Declared(names, properties) + [name] else Declared(names, properties)
  {
    hide Declared;
    var all := names + [name];
    DeclaredStep(all, properties);
    if names == [] {
      assert all[1..] == [];
    } else {
      assert all[0] == names[0] && all[1..] == names[1..] + [name];
      BuiltNames(names[1..], name, properties);
      DeclaredStep(names, properties);
      var head, rest := if names[0] in properties then [names[0]] else [], Declared(names[1..], properties);
      assert head + (rest + [name]) == (head + rest) + [name];
    }
  }

  lemma DeclaredStep(names: seq<string>, properties: map<string, NodeId>)
    requires names != []
    ensures Declared([], properties) == []
    ensures Declared(names, properties)
         == (if names[0] in properties then [names[0]] else []) + Declared(names[1..], properties)
  {
  }

  // The branch asked for, the first one if there is none of that number, null if there is none at all.
  lemma BuiltBranch(g: Schema, id: NodeId, src: Source, pos: Path, depth: nat)
    requires depth <= 12 && id in g && (g[id].nodeType.OneOf? || g[id].nodeType.AnyOf?)
    ensures
      var n, picked := g[id], src.pick(pos, |g[id].variants|);
      var i := if 0 <= picked < |n.variants| then picked else 0;
      Build(g, id, src, pos, depth)
      == if n.variants == [] then Null(id)
         else if n.discriminator.None? then Build(g, n.variants[i], src, pos + [0], depth + 1)
         else Tagged(Build(g, n.variants[i], src, pos + [0], depth + 1), n.discriminator.value.property,
                     src.tag(pos, n.discriminator.value, i))
  {
    if g[id].variants != [] {
      VariantIs(g, id, src, pos, depth);
    }
  }

  // A tag goes into objects only, and there is none without a text.
  lemma TagSkipped(t: Tree, property: string, tag: string)
    requires !t.Obj? || tag == ""
    ensures Tagged(t, property, tag) == t
  {
  }

  // A leaf is what its kind says; of the boolean texts only "true" is true.
  lemma LeafIs(id: NodeId, text: string)
    ensures LeafTree(id, Leaf(text, TextLeaf)) == Str(id, text) && LeafTree(id, Leaf(text, NumberLeaf)) == Num(id, text)
    ensures LeafTree(id, Leaf(text, BoolLeaf)) == Bool(id, text == "true")
    ensures LeafTree(id, Leaf(text, NullLeaf)) == Null(id)
  {
  }

  // ---- default leaves ----

  // The first k characters, or all of them.
  function Prefix(s: string, k: Option<nat>): string {
    if k.Some? && k.value < |s| then s[..k.value] else s
  }

  lemma DefaultTexts(n: SchemaNode)
    ensures
      var leaf := DefaultLeaf(n);
      if n.enumValues != [] then leaf == Leaf(n.enumValues[0], TextLeaf)
      else if n.scalarType.BooleanType? then leaf == Leaf("true", BoolLeaf)
      else if n.scalarType.IntegerType? || n.scalarType.NumberType? then leaf.kind == NumberLeaf
      else
        && leaf.kind == TextLeaf
        && (n.minLength.None? ==>
              leaf.text == Prefix(if n.format == "uuid" then "11111111-1111-4111-8111-111111111111" else "fuzzstring",
                                  n.maxLength))
        && (n.format != "uuid" && n.minLength.Some? && 10 < n.minLength.value && n.maxLength.None? ==>
              && |leaf.text| == n.minLength.value && leaf.text[..10] == "fuzzstring"
              && forall i | 10 <= i < |leaf.text| :: leaf.text[i] == 'x')
  {
    if n.minLength.Some? && n.minLength.value > 10 {
      var more := Repeat('x', n.minLength.value - 10);
      assert ("fuzzstring" + more)[..10] == "fuzzstring";
    }
  }

  // The number a bound is printed as: an integer schema truncates toward zero.
  function Shown(n: SchemaNode, bound: Decimal): real {
    if n.scalarType.IntegerType? then Trunc(bound) as real else Real(bound)
  }

  // 1 where the bounds allow it, else the bound that is in the way, the upper one where they are out of order.
  lemma DefaultNumber(n: SchemaNode)
    requires n.enumValues == [] && (n.scalarType.IntegerType? || n.scalarType.NumberType?)
    ensures
      var x, low, high := NumberOf(DefaultLeaf(n).text), n.minimum, n.maximum;
      && ((low.Some? ==> Bound(low) <= 1.0) && (high.Some? ==> 1.0 <= Bound(high)) ==> x == 1.0)
      && (low.Some? && 1.0 < Bound(low) && (high.Some? ==> Bound(low) <= Bound(high)) ==> x == Shown(n, low.value))
      && (high.Some? && (Bound(high) < 1.0 || (low.Some? && Bound(high) < Bound(low))) ==> x == Shown(n, high.value))
  {
    OneIsOne();
    NumberMeans(n.scalarType, NumericDefault(n));
  }

  // ---- operator values ----

  predicate Repeats(s: string, c: char, n: nat) {
    |s| == n && forall i | 0 <= i < n :: s[i] == c
  }

  // The edge: the first enum value, the minimum, else the maximum, else 0; minLength characters, else maxLength.
  lemma EdgeIs(sid: NodeId, n: SchemaNode)
    ensures
      var v := EdgeValue(sid, n);
      && v.node == sid
      && if n.enumValues != [] then v == Str(sid, n.enumValues[0])
         else if n.scalarType.IntegerType? || n.scalarType.NumberType? then
           v.Num? && NumberOf(v.text) == if n.minimum.Some? then Shown(n, n.minimum.value)
                                         else if n.maximum.Some? then Shown(n, n.maximum.value) else 0.0
         else v.Str? && Repeats(v.text, 'a', if n.minLength.Some? then n.minLength.value
                                             else if n.maxLength.Some? then n.maxLength.value else 0)
  {
    if IsNumeric(n) {
      NumberMeans(n.scalarType, EdgeNumber(n));
      TruncMeans(OfInt(0));
    }
  }

  // One beyond it: below the minimum, else above the maximum; one character more than maxLength, else one fewer than
  // minLength; an enum value with a suffix; else the empty string.
  lemma ViolatingIs(sid: NodeId, n: SchemaNode)
    ensures
      var v, low, high := ViolatingValue(sid, n), n.minimum, n.maximum;
      && v.node == sid
      && if (n.scalarType.IntegerType? || n.scalarType.NumberType?) && (low.Some? || high.Some?) then
           && v.Num?
           && (n.scalarType.NumberType? ==>
                 NumberOf(v.text) == if low.Some? then Bound(low) - 1.0 else Bound(high) + 1.0)
           && (n.scalarType.IntegerType? && (if low.Some? then IsInteger(low.value) else IsInteger(high.value)) ==>
                 NumberOf(v.text) == if low.Some? then Bound(low) - 1.0 else Bound(high) + 1.0)
         else if n.maxLength.Some? then v.Str? && Repeats(v.text, 'a', n.maxLength.value + 1)
         else if n.minLength.Some? && 0 < n.minLength.value then v.Str? && Repeats(v.text, 'a', n.minLength.value - 1)
         else if n.enumValues != [] then v == Str(sid, n.enumValues[0] + "_NOT_IN_ENUM")
         else v == Str(sid, "")
  {
    if IsNumeric(n) && (n.minimum.Some? || n.maximum.Some?) {
      var bound := if n.minimum.Some? then Plus(n.minimum.value, -1) else Plus(n.maximum.value, 1);
      NumberMeans(n.scalarType, bound);
      TruncMeans(bound);
    }
  }

  // Another kind: text for numbers and booleans; for the rest a number, a boolean, an empty array or an empty object.
  lemma WrongTypeIs(sid: NodeId, n: SchemaNode, choice: nat)
    ensures
      var v := WrongTypeValue(sid, n, choice);
      match n.scalarType
      case IntegerType => v == Str(sid, "not-a-number")
      case NumberType => v == Str(sid, "not-a-number")
      case BooleanType => v == Str(sid, "not-a-bool")
      case _ => v == [Num(sid, "12345"), Bool(sid, true), Arr(sid, []), Obj(sid, [])][if choice < 3 then choice else 3]
  {
  }

  // Lengths on offer in valid mode: from minItems, or 0, to maxItems, or two more than there are; never empty.
  lemma ResizeRange(n: SchemaNode, length: nat)
    ensures ResizeLow(n) == if n.minItems.Some? then n.minItems.value else 0
    ensures ResizeLow(n) <= ResizeHigh(n, length)
    ensures n.minItems.None? && n.maxItems.None? ==> ResizeHigh(n, length) == length + 2
    ensures n.maxItems.Some? && ResizeLow(n) <= n.maxItems.value ==> ResizeHigh(n, length) == n.maxItems.value
    ensures n.maxItems.None? && ResizeLow(n) <= length + 2 ==> ResizeHigh(n, length) == length + 2
  {
  }

  // Resizing an array: the first items stay; new ones are builds, and there are none without an item schema.
  lemma ResizedItems(g: Schema, u: Tree, length: nat, tags: Tags)
    requires u.Arr?
    ensures
      var r := Resized(g, u, length, tags);
      && r.Arr? && r.node == u.node
      && |r.items| == (if length <= |u.items| || (u.node in g && g[u.node].items in g) then length else |u.items|)
      && forall i | 0 <= i < |r.items| ::
           r.items[i] == if i < |u.items| then u.items[i] else Build(g, g[u.node].items, Plain(0, tags), [i], 0)
  {
  }

  // Out of bounds: one below a positive minItems, else one above maxItems.
  lemma OutOfBoundsIs(g: Schema, n: SchemaNode, u: Tree)
    requires AdversarialEligible(g, n, u, ResizeOut)
    ensures OutOfBounds(n) == if n.minItems.Some? && 0 < n.minItems.value then n.minItems.value - 1
                              else n.maxItems.value + 1
  {
  }

  // Nesting puts four objects with the one field "wrapped" around a copy.
  lemma NestIs(g: Schema, sid: NodeId, u: Tree, tags: Tags)
    requires sid in g && Height(u) <= 64
    ensures ApplyAdversarial(g, sid, u, Nest, tags)
         == Obj(Nil, [Field("wrapped", Obj(Nil, [Field("wrapped",
              Obj(Nil, [Field("wrapped", Obj(Nil, [Field("wrapped", u)]))]))]))])
  {
    TruncateIdentity(u, 0);
    assert Wrapped(u, 0) == u && Wrapped(u, 1) == Obj(Nil, [Field("wrapped", u)]);
    assert Wrapped(u, 2) == Obj(Nil, [Field("wrapped", Wrapped(u, 1))]);
    assert Wrapped(u, 3) == Obj(Nil, [Field("wrapped", Wrapped(u, 2))]);
  }

  // The tag of a switched branch is that of the next one round.
  lemma SwitchedTo(g: Schema, sid: NodeId, branch: nat, tags: Tags)
    requires sid in g && 1 < |g[sid].variants| && branch < |g[sid].variants| && g[sid].discriminator.Some?
    ensures
      var n := g[sid];
      SwitchedTag(g, sid, branch, tags)
      == Retagged(Rebuilt(g, sid, branch, tags), n.discriminator.value.property,
                  tags([], n.discriminator.value, (branch + 1) % |n.variants|))
  {
    assert (branch + 1) % |g[sid].variants| == NextBranch(g[sid], branch);
  }

  // ---- where operators work ----

  // Below a site that is no oneOf/anyOf, a declared field of an object and an item of an array are sites too.
  lemma SiteBelowSite(g: Schema, id: NodeId, t: Tree, p: Path, mid: NodeId, k: nat)
    requires IsSite(g, id, t, p, mid) && ValidPath(t, p) && mid in g
    requires !g[mid].nodeType.OneOf? && !g[mid].nodeType.AnyOf?
    ensures
      var n, u := g[mid], At(t, p);
      && (u.Obj? && k < |u.fields| && u.fields[k].key in n.properties && n.properties[u.fields[k].key] in g ==>
            IsSite(g, id, t, p + [k], n.properties[u.fields[k].key]))
      && (u.Arr? && k < |u.items| && n.items in g ==> IsSite(g, id, t, p + [k], n.items))
  {
    hide IsSite;
    var n, u := g[mid], At(t, p);
    if u.Obj? && k < |u.fields| && u.fields[k].key in n.properties && n.properties[u.fields[k].key] in g {
      SiteBelow(g, id, t, p, k, mid, n.properties[u.fields[k].key]);
    }
    if u.Arr? && k < |u.items| && n.items in g {
      SiteBelow(g, id, t, p, k, mid, n.items);
    }
  }

  const LEAF := OPEN_OBJECT.(nodeType := ScalarNode)

  // An order: a number of at least 1, at least one tag, and either of two kinds.
  const ORDER: Schema := map[
    1 := OPEN_OBJECT.(properties := map["n" := 2, "tags" := 3, "kind" := 5], propertyOrder := ["n", "tags", "kind"],
                      required := ["n"]),
    2 := LEAF.(scalarType := IntegerType, minimum := Some(OfInt(1))),
    3 := OPEN_OBJECT.(nodeType := ArrayType, items := 4, minItems := Some(1)),
    4 := LEAF,
    5 := OPEN_OBJECT.(nodeType := OneOf, variants := [6, 7]),
    6 := OPEN_OBJECT,
    7 := OPEN_OBJECT]

  lemma OrderBuilt(src: Source)
    ensures
      var t := Build(ORDER, 1, src, [], 0);
      && t.Obj? && |t.fields| == 3
      && t.fields[0].key == "n" && t.fields[1].key == "tags" && t.fields[2].key == "kind"
  {
    var keys := Keys(Build(ORDER, 1, src, [], 0).fields);
    BuiltKeys(ORDER, 1, src, [], 0);
    OrderNames();
    assert keys[0] == "n" && keys[1] == "tags" && keys[2] == "kind";
  }

  lemma OrderSites(t: Tree)
    requires t.Obj? && |t.fields| == 3
    requires t.fields[0].key == "n" && t.fields[1].key == "tags" && t.fields[2].key == "kind"
    ensures IsSite(ORDER, 1, t, [], 1) && IsSite(ORDER, 1, t, [0], 2) && IsSite(ORDER, 1, t, [1], 3)
    ensures IsSite(ORDER, 1, t, [2], 5)
  {
    var root: Path := [];
    assert IsSite(ORDER, 1, t, root, 1) && ValidPath(t, root) && At(t, root) == t;
    hide IsSite;
    SiteBelowSite(ORDER, 1, t, root, 1, 0);
    SiteBelowSite(ORDER, 1, t, root, 1, 1);
    SiteBelowSite(ORDER, 1, t, root, 1, 2);
    assert root + [0] == [0] && root + [1] == [1] && root + [2] == [2];
  }

  lemma OrderNames()
    ensures DeclaredOf(ORDER[1]) == ["n", "tags", "kind"]
  {
    var names, properties := ORDER[1].propertyOrder, ORDER[1].properties;
    assert names == ["n", "tags"] + ["kind"] && ["n", "tags"] == ["n"] + ["tags"] && ["n"] == [] + ["n"];
    BuiltNames(["n", "tags"], "kind", properties);
    BuiltNames(["n"], "tags", properties);
    BuiltNames([], "n", properties);
  }

  // On an order, whatever the leaves: every adversarial operator has a site to work at, so none may decline.
  lemma EveryOperatorHasWork(src: Source, pick: Operator)
    requires pick != AddRemoveField
    ensures !NoSite(ORDER, 1, Build(ORDER, 1, src, [], 0),
                    (sid: NodeId, u: Tree) => AdversarialWork(ORDER, pick, sid, u))
  {
    hide Build, IsSite, AdversarialWork;
    var t := Build(ORDER, 1, src, [], 0);
    OrderBuilt(src);
    OrderSites(t);
    OrderWork(t, pick);
    assert At(t, []) == t;
    match pick
    case ArrayResize => HasSite(t, pick, [1], 3);
    case VariantSwitch => HasSite(t, pick, [2], 5);
    case TypeSubstitution => HasSite(t, pick, [0], 2);
    case ConstraintBoundary => HasSite(t, pick, [0], 2);
    case RequiredOmit => HasSite(t, pick, [], 1);
    case InjectNull => HasSite(t, pick, [], 1);
    case UndeclaredProperty => HasSite(t, pick, [], 1);
    case DupKey => HasSite(t, pick, [], 1);
    case NestingDepth => HasSite(t, pick, [], 1);
  }

  lemma HasSite(t: Tree, pick: Operator, p: Path, sid: NodeId)
    requires IsSite(ORDER, 1, t, p, sid) && ValidPath(t, p) && AdversarialWork(ORDER, pick, sid, At(t, p))
    ensures !NoSite(ORDER, 1, t, (sid: NodeId, u: Tree) => AdversarialWork(ORDER, pick, sid, u))
  {
  }

  lemma OrderWork(t: Tree, pick: Operator)
    requires t.Obj? && |t.fields| == 3 && t.fields[0].key == "n" && pick != AddRemoveField
    ensures
      if pick.ArrayResize? then forall u :: AdversarialWork(ORDER, pick, 3, u)
      else if pick.VariantSwitch? then forall u :: AdversarialWork(ORDER, pick, 5, u)
      else if pick.TypeSubstitution? || pick.ConstraintBoundary? then forall u :: AdversarialWork(ORDER, pick, 2, u)
      else AdversarialWork(ORDER, pick, 1, t)
  {
  }

  // The same in valid mode, but for self-references, which an order has none of; there are only fields to remove.
  lemma ValidOperatorsHaveWork(src: Source, pick: Operator, order: Iteration)
    requires pick.AddRemoveField? || pick.ArrayResize? || pick.VariantSwitch? || pick.ConstraintBoundary?
    ensures !NoSite(ORDER, 1, Build(ORDER, 1, src, [], 0),
                    (sid: NodeId, u: Tree) => ValidWork(ORDER, pick, false, order, sid, u))
  {
    hide Build, IsSite, ValidWork;
    var t := Build(ORDER, 1, src, [], 0);
    OrderBuilt(src);
    OrderSites(t);
    OrderValidWork(t, pick, order);
    assert At(t, []) == t;
    match pick
    case ArrayResize => HasValidSite(t, pick, order, [1], 3);
    case VariantSwitch => HasValidSite(t, pick, order, [2], 5);
    case ConstraintBoundary => HasValidSite(t, pick, order, [0], 2);
    case AddRemoveField => HasValidSite(t, pick, order, [], 1);
  }

  lemma HasValidSite(t: Tree, pick: Operator, order: Iteration, p: Path, sid: NodeId)
    requires IsSite(ORDER, 1, t, p, sid) && ValidPath(t, p) && ValidWork(ORDER, pick, false, order, sid, At(t, p))
    ensures !NoSite(ORDER, 1, t, (sid: NodeId, u: Tree) => ValidWork(ORDER, pick, false, order, sid, u))
  {
  }

  lemma OrderValidWork(t: Tree, pick: Operator, order: Iteration)
    requires t.Obj? && |t.fields| == 3 && t.fields[1].key == "tags"
    requires pick.AddRemoveField? || pick.ArrayResize? || pick.VariantSwitch? || pick.ConstraintBoundary?
    ensures
      if pick.ArrayResize? then forall u :: ValidWork(ORDER, pick, false, order, 3, u)
      else if pick.VariantSwitch? then forall u :: ValidWork(ORDER, pick, false, order, 5, u)
      else if pick.ConstraintBoundary? then forall u :: ValidWork(ORDER, pick, false, order, 2, u)
      else ValidWork(ORDER, pick, false, order, 1, t)
  {
    assert t.fields[1].key !in ORDER[1].required;
  }

  // Built with the default leaves, whichever branch is taken, an order conforms.
  lemma OrderConforms(i: nat, tags: Tags)
    requires OffersTags(Plain(i, tags))
    ensures Conforming(ORDER, 1, Rebuilt(ORDER, 1, i, tags))
  {
    OrderMeets();
    OrderFits();
    hide ORDER, MeetsOnly, AllFit, DefaultsFit, OffersTags, Build, Conforming;
    FittingIsSound(ORDER, 1, i, tags, ORDER.Keys);
    SoundConforms(ORDER, 1, i, tags, []);
  }

  lemma OrderMeets()
    ensures MeetsOnly(ORDER, 1, 0, ORDER.Keys)
  {
    hide MeetsOnly;
    var g, nodes := ORDER, ORDER.Keys;
    MeetsHere(g, 2, 1, nodes);
    MeetsHere(g, 4, 2, nodes);
    MeetsHere(g, 3, 1, nodes);
    MeetsHere(g, 6, 2, nodes);
    MeetsHere(g, 7, 2, nodes);
    MeetsHere(g, 5, 1, nodes);
    assert forall k | k in g[1].properties :: MeetsOnly(g, g[1].properties[k], 1, nodes);
    MeetsHere(g, 1, 0, nodes);
  }

  lemma MeetsHere(g: Schema, id: NodeId, depth: nat, nodes: set<NodeId>)
    requires id in g && id in nodes && depth <= 12
    requires g[id].nodeType.ObjectType? ==>
               forall k | k in g[id].properties :: MeetsOnly(g, g[id].properties[k], depth + 1, nodes)
    requires g[id].nodeType.ArrayType? ==> MeetsOnly(g, g[id].items, depth + 1, nodes)
    requires IsVariant(g[id]) ==>
               forall i | 0 <= i < |g[id].variants| :: MeetsOnly(g, g[id].variants[i], depth + 1, nodes)
    ensures MeetsOnly(g, id, depth, nodes)
  {
  }

  lemma OrderFits()
    ensures AllFit(ORDER, ORDER.Keys) && DefaultsFit(ORDER, ORDER.Keys)
  {
    hide ORDER, NodeFits, DefaultFits;
    forall x | x in ORDER
      ensures NodeFits(ORDER, ORDER[x]) && (ORDER[x].nodeType.ScalarNode? ==> DefaultFits(ORDER[x]))
    {
      OrderNodeFits(x);
    }
  }

  lemma OrderNodeFits(x: NodeId)
    requires x in ORDER
    ensures NodeFits(ORDER, ORDER[x]) && (ORDER[x].nodeType.ScalarNode? ==> DefaultFits(ORDER[x]))
  {
    hide DefaultFits, NamesFit, ArrayFits, BranchesFit;
    var n := ORDER[x];
    if x == 1 {
      ThreeNamesFit(n);
    } else if n.nodeType.ObjectType? {
      NoNamesFit(n);
    } else if n.nodeType.ScalarNode? {
      OpenLeafFits(n);
    } else if x == 3 {
      OneItemFits(ORDER, n);
    } else {
      OpenBranchesFit(ORDER, n);
    }
  }

  lemma ThreeNamesFit(n: SchemaNode)
    requires n == ORDER[1]
    ensures NamesFit(n)
  {
    OrderNames();
    hide Declared;
    assert n.required == ["n"] && DeclaredOf(n)[0] == "n";
  }

  lemma NoNamesFit(n: SchemaNode)
    requires n.propertyOrder == [] && n.required == []
    ensures NamesFit(n)
  {
    assert DeclaredOf(n) == [];
  }

  lemma OpenLeafFits(n: SchemaNode)
    requires n.enumValues == [] && n.maximum.None? && n.minLength.None?
    requires n.minimum.Some? ==> IsInteger(n.minimum.value)
    ensures DefaultFits(n)
  {
  }

  lemma OneItemFits(g: Schema, n: SchemaNode)
    requires n.items in g && n.minItems == Some(1) && n.maxItems.None?
    ensures ArrayFits(g, n)
  {
  }

  lemma OpenBranchesFit(g: Schema, n: SchemaNode)
    requires n.variants != [] && n.discriminator.None?
    requires forall i | 0 <= i < |n.variants| :: n.variants[i] in g && !g[n.variants[i]].nullable
    ensures BranchesFit(g, n)
  {
  }
}
