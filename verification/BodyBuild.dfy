// buildBodyValue on values: one schema-correct instance of a schema, and when it conforms.
module BodyBuild {
  import opened Wrappers
  import opened BodyTree
  import opened BodySchema
  import opened Decimals
  import JsonReader

  const DEFAULT_ARRAY_LEN := 1
  const MAX_DEFAULT_ARRAY_LEN := 5
  const MAX_BUILD_DEPTH := 12

  datatype LeafKind = TextLeaf | NumberLeaf | BoolLeaf | NullLeaf

  datatype Leaf = Leaf(text: string, kind: LeafKind)

  // Everything the build asks its surroundings for, by position: scalar values, the oneOf/anyOf branch to take, and
  // which of several tags of one branch to write (map iteration order decides that in the original).
  datatype Source = Source(
    leaf: (Path, SchemaNode) -> Leaf,
    pick: (Path, nat) -> int,
    tag: (Path, Discriminator, int) -> string)

  // Only tags of the branch are ever offered, and the empty string only when there is none.
  ghost predicate OffersTags(src: Source) {
    forall pos, d, i {:trigger src.tag(pos, d, i)} :: TagOf(d, i, src.tag(pos, d, i))
  }

  ghost predicate TagOf(d: Discriminator, i: int, tag: string) {
    if exists k :: k in d.mapping && d.mapping[k] == i then tag in d.mapping && d.mapping[tag] == i else tag == ""
  }

  // ---- building ----

  function Declared(names: seq<string>, properties: map<string, NodeId>): (r: seq<string>)
    ensures forall k :: k in r <==> k in names && k in properties
  {
    if names == [] then []
    else (if names[0] in properties then [names[0]] else []) + Declared(names[1..], properties)
  }

  function DeclaredOf(n: SchemaNode): seq<string> {
    Declared(n.propertyOrder, n.properties)
  }

  // How many items a fresh array gets.
  function ItemCount(g: Schema, n: SchemaNode): (c: nat)
    ensures c <= MAX_DEFAULT_ARRAY_LEN
  {
    if n.items !in g then 0
    else
      var c := if n.minItems.Some? && n.minItems.value > DEFAULT_ARRAY_LEN then n.minItems.value else DEFAULT_ARRAY_LEN;
      if c > MAX_DEFAULT_ARRAY_LEN then MAX_DEFAULT_ARRAY_LEN else c
  }

  // What the bounds of an array node must look like for a fresh array to keep them: room for one item or for
  // minItems of them, up to five; nothing demanded where there is no item schema.
  predicate ArrayFits(g: Schema, n: SchemaNode) {
    if n.items in g then
      && (n.minItems.Some? ==> n.minItems.value <= 5)
      && (n.maxItems.Some? ==> 1 <= n.maxItems.value && (n.minItems.Some? ==> n.minItems.value <= n.maxItems.value))
    else
      && (n.minItems.Some? ==> n.minItems.value <= 0)
      && (n.maxItems.Some? ==> 0 <= n.maxItems.value)
  }

  // One item where minItems asks for no more, minItems of them up to five, five at most; none without a schema.
  lemma FreshLength(g: Schema, n: SchemaNode)
    ensures n.items !in g ==> ItemCount(g, n) == 0
    ensures n.items in g && (n.minItems.None? || n.minItems.value <= 1) ==> ItemCount(g, n) == 1
    ensures n.items in g && n.minItems.Some? && 2 <= n.minItems.value <= 5 ==> ItemCount(g, n) == n.minItems.value
    ensures n.items in g && n.minItems.Some? && 5 < n.minItems.value ==> ItemCount(g, n) == 5
    ensures LengthConforms(n, ItemCount(g, n)) <==> ArrayFits(g, n)
  {
  }

  function Branch(n: SchemaNode, picked: int): (i: nat)
    requires n.variants != []
    ensures i < |n.variants|
  {
    if 0 <= picked < |n.variants| then picked else 0
  }

  function LeafTree(id: NodeId, leaf: Leaf): Tree {
    match leaf.kind
    case NumberLeaf => Num(id, leaf.text)
    case BoolLeaf => Bool(id, leaf.text == "true")
    case NullLeaf => Null(id)
    case TextLeaf => Str(id, leaf.text)
  }

  function FieldIndex(fields: seq<Field>, key: string): (i: nat)
    ensures i <= |fields|
    ensures i < |fields| ==> fields[i].key == key
    ensures forall j | 0 <= j < i :: fields[j].key != key
  {
    if fields == [] || fields[0].key == key then 0 else 1 + FieldIndex(fields[1..], key)
  }

  // Overwrite the discriminator property, or append it.
  function Tagged(t: Tree, property: string, tag: string): Tree {
    if !t.Obj? || tag == "" then t
    else
      var i := FieldIndex(t.fields, property);
      var f := Field(property, Str(Nil, tag));
      if i < |t.fields| then Obj(t.node, t.fields[i := f]) else Obj(t.node, t.fields + [f])
  }

  function ApplyTag(t: Tree, n: SchemaNode, src: Source, pos: Path, i: nat): Tree {
    if n.discriminator.None? then t
    else Tagged(t, n.discriminator.value.property, src.tag(pos, n.discriminator.value, i))
  }

  function Build(g: Schema, id: NodeId, src: Source, pos: Path, depth: nat): Tree
    requires depth <= MAX_BUILD_DEPTH + 1
    decreases MAX_BUILD_DEPTH + 1 - depth, 0, src
  {
    if id !in g then Null(Nil)
    else if depth > MAX_BUILD_DEPTH then Str(id, "fuzzstring")
    else
      var n := g[id];
      match n.nodeType
      case ObjectType => Obj(id, BuildFields(g, n, DeclaredOf(n), src, pos, depth + 1))
      case ArrayType => Arr(id, BuildItems(g, n, ItemCount(g, n), src, pos, depth + 1))
      case OneOf => BuildVariant(g, id, src, pos, depth)
      case AnyOf => BuildVariant(g, id, src, pos, depth)
      case _ => LeafTree(id, src.leaf(pos, n))
  }

  function BuildVariant(g: Schema, id: NodeId, src: Source, pos: Path, depth: nat): Tree
    requires depth <= MAX_BUILD_DEPTH && id in g
    decreases MAX_BUILD_DEPTH - depth, 2, src
  {
    var n := g[id];
    if n.variants == [] then Null(id)
    else
      var i := Branch(n, src.pick(pos, |n.variants|));
      ApplyTag(Build(g, n.variants[i], src, pos + [0], depth + 1), n, src, pos, i)
  }

  lemma BuildVariantIs(g: Schema, id: NodeId, src: Source, pos: Path, depth: nat)
    requires id in g && g[id].variants != [] && depth <= MAX_BUILD_DEPTH
    ensures
      var i := Branch(g[id], src.pick(pos, |g[id].variants|));
      BuildVariant(g, id, src, pos, depth)
        == ApplyTag(Build(g, g[id].variants[i], src, pos + [0], depth + 1), g[id], src, pos, i)
  {
  }

  lemma VariantIs(g: Schema, id: NodeId, src: Source, pos: Path, depth: nat)
    requires id in g && IsVariant(g[id]) && g[id].variants != [] && depth <= MAX_BUILD_DEPTH
    ensures
      var i := Branch(g[id], src.pick(pos, |g[id].variants|));
      Build(g, id, src, pos, depth)
        == ApplyTag(Build(g, g[id].variants[i], src, pos + [0], depth + 1), g[id], src, pos, i)
  {
  }

  function BuildFields(g: Schema, n: SchemaNode, names: seq<string>, src: Source, pos: Path,
                       depth: nat): (r: seq<Field>)
    requires depth <= MAX_BUILD_DEPTH + 1
    requires forall k | k in names :: k in n.properties
    ensures |r| == |names|
    ensures forall i {:trigger r[i]} | 0 <= i < |names| ::
              names[i] in n.properties
                  && r[i] == Field(names[i], Build(g, n.properties[names[i]], src, pos + [i], depth))
    decreases MAX_BUILD_DEPTH + 1 - depth, 1, src
  {
    seq(|names|, i requires 0 <= i < |names| =>
      assert names[i] in names;
      Field(names[i], Build(g, n.properties[names[i]], src, pos + [i], depth)))
  }

  function BuildItems(g: Schema, n: SchemaNode, count: nat, src: Source, pos: Path, depth: nat): (r: seq<Tree>)
    requires depth <= MAX_BUILD_DEPTH + 1
    ensures |r| == count
    ensures forall i {:trigger r[i]} | 0 <= i < count :: r[i] == Build(g, n.items, src, pos + [i], depth)
    decreases MAX_BUILD_DEPTH + 1 - depth, 1, src
  {
    seq(count, i requires 0 <= i < count => Build(g, n.items, src, pos + [i], depth))
  }

  // ---- tags ----

  lemma {:induction false} TagInUnique(fields: seq<Field>, i: nat)
    requires i < |fields| && NoRepeats(Keys(fields))
    ensures TagIn(fields, fields[i].key) == TextOf(fields[i].value)
    decreases |fields|
  {
    var last, init := |fields| - 1, fields[..|fields| - 1];
    var ks := Keys(fields);
    if i < last {
      assert ks[i] != ks[last];
      assert Keys(init) == ks[..last];
      TagInUnique(init, i);
    }
  }

  // Tagging: every other field stays where it was, the property carries the tag.
  lemma TaggedFields(t: Tree, property: string, tag: string)
    requires t.Obj? && tag != "" && NoRepeats(Keys(t.fields))
    ensures
      var r := Tagged(t, property, tag);
      && r.Obj? && r.node == t.node && NoRepeats(Keys(r.fields)) && TagIn(r.fields, property) == tag
      && |t.fields| <= |r.fields|
      && (forall k | k in Keys(t.fields) :: k in Keys(r.fields))
      && (forall i | 0 <= i < |r.fields| ::
            r.fields[i] == Field(property, Str(Nil, tag)) || (i < |t.fields| && r.fields[i] == t.fields[i]))
  {
    var r := Tagged(t, property, tag);
    var i := FieldIndex(t.fields, property);
    var a, b := Keys(t.fields), Keys(r.fields);
    assert if i < |a| then b == a else b == a + [property];
    assert r.fields[i] == Field(property, Str(Nil, tag));
    TagInUnique(r.fields, i);
  }

  const BUILD_LEVELS := MAX_BUILD_DEPTH + 2

  // ---- the default leaf source ----

  function Repeat(c: char, n: nat): (s: string)
    ensures |s| == n && forall i | 0 <= i < n :: s[i] == c
  {
    seq(n, _ => c)
  }

  // 1, moved into the bounds; the upper bound wins.
  function NumericDefault(n: SchemaNode): Decimal {
    var one := OfInt(1);
    var v := if n.minimum.Some? && Real(one) < Real(n.minimum.value) then n.minimum.value else one;
    if n.maximum.Some? && Real(v) > Real(n.maximum.value) then n.maximum.value else v
  }

  // formatNumber: an integer schema truncates toward zero.
  function FormatNumber(t: ScalarType, v: Decimal): string {
    if t.IntegerType? then Itoa(Trunc(v)) else FormatFloat(v)
  }

  function StringDefault(n: SchemaNode): string {
    var s := if n.format == "uuid" then "11111111-1111-4111-8111-111111111111" else "fuzzstring";
    var padded :=
      if n.minLength.Some? && |s| < n.minLength.value then s + Repeat('x', n.minLength.value - |s|) else s;
    if n.maxLength.Some? && |padded| > n.maxLength.value then padded[..n.maxLength.value] else padded
  }

  function DefaultLeaf(n: SchemaNode): Leaf {
    if n.enumValues != [] then Leaf(n.enumValues[0], TextLeaf)
    else
      match n.scalarType
      case IntegerType => Leaf(FormatNumber(n.scalarType, NumericDefault(n)), NumberLeaf)
      case NumberType => Leaf(FormatNumber(n.scalarType, NumericDefault(n)), NumberLeaf)
      case BooleanType => Leaf("true", BoolLeaf)
      case _ => Leaf(StringDefault(n), TextLeaf)
  }

  function Bound(b: Option<Decimal>): real
    requires b.Some?
  {
    Real(b.value)
  }

  predicate BoundsOrdered(n: SchemaNode) {
    n.minimum.Some? && n.maximum.Some? ==> Bound(n.minimum) <= Bound(n.maximum)
  }

  predicate LengthsOrdered(n: SchemaNode) {
    n.minLength.Some? && n.maxLength.Some? ==> n.minLength.value <= n.maxLength.value
  }

  // The bounds leave the truncated default inside: a bound that is used must be a whole number, and an upper bound
  // between 0 and 1 must leave room for 0.
  predicate DefaultTruncates(n: SchemaNode) {
    && (n.minimum.Some? && Bound(n.minimum) > 1.0 ==> IsInteger(n.minimum.value))
    && (n.maximum.Some? && Bound(n.maximum) < 0.0 ==> IsInteger(n.maximum.value))
    && (n.maximum.Some? && 0.0 <= Bound(n.maximum) < 1.0 && n.minimum.Some? ==> Bound(n.minimum) <= 0.0)
  }

  // When the default leaf of a scalar node conforms to it.
  predicate DefaultFits(n: SchemaNode) {
    if n.enumValues != [] then
      !IsNumeric(n) && !n.scalarType.BooleanType? && LengthFits(n, ByteLength(n.enumValues[0]))
    else if IsNumeric(n) then BoundsOrdered(n) && (n.scalarType.IntegerType? ==> DefaultTruncates(n))
    else if n.scalarType.BooleanType? then true
    else LengthsOrdered(n)
  }

  lemma OneIsOne()
    ensures Real(OfInt(1)) == 1.0 && Trunc(OfInt(1)) == 1
  {
    TruncMeans(OfInt(1));
  }

  lemma NumberMeans(t: ScalarType, v: Decimal)
    ensures JsonReader.ValidNumber(FormatNumber(t, v))
    ensures NumberOf(FormatNumber(t, v)) == if t.IntegerType? then Trunc(v) as real else Real(v)
  {
    ItoaMeans(Trunc(v));
    FormatFloatMeans(v);
  }

  lemma NumericDefaultFits(n: SchemaNode)
    ensures InRange(n, Real(NumericDefault(n))) <==> BoundsOrdered(n)
    ensures InRange(n, Trunc(NumericDefault(n)) as real) <==> BoundsOrdered(n) && DefaultTruncates(n)
  {
    OneIsOne();
    TruncMeans(NumericDefault(n));
  }

  lemma AsciiLiterals()
    ensures Ascii("fuzzstring") && Ascii("11111111-1111-4111-8111-111111111111")
  {
  }

  lemma StringDefaultFits(n: SchemaNode)
    ensures LengthFits(n, ByteLength(StringDefault(n))) <==> LengthsOrdered(n)
  {
    AsciiLiterals();
    AsciiLength(StringDefault(n));
  }

  lemma DefaultLeafConforms(id: NodeId, n: SchemaNode)
    ensures ScalarConforms(n, LeafTree(id, DefaultLeaf(n))) <==> DefaultFits(n)
  {
    if n.enumValues != [] {
    } else if IsNumeric(n) {
      NumberMeans(n.scalarType, NumericDefault(n));
      NumericDefaultFits(n);
    } else {
      StringDefaultFits(n);
    }
  }

  // ---- the built tree runs in step with the schema ----

  // Below non-variant nodes, objects sit at object schemas and arrays at array schemas, every value pointing back at
  // its schema node, and objects hold declared properties only.
  predicate Parallel(g: Schema, id: NodeId, t: Tree)
    decreases t, 1
  {
    id in g && !IsVariant(g[id]) ==>
      match t
      case Obj(node, fields) =>
        node == id && g[id].nodeType.ObjectType? && ParallelFields(g, g[id], fields)
      case Arr(node, items) =>
        node == id && g[id].nodeType.ArrayType? && ParallelItems(g, g[id].items, items)
      case _ => true
  }

  predicate ParallelFields(g: Schema, n: SchemaNode, fields: seq<Field>)
    decreases fields
  {
    forall i | 0 <= i < |fields| ::
      fields[i].key in n.properties && Parallel(g, n.properties[fields[i].key], fields[i].value)
  }

  predicate ParallelItems(g: Schema, id: NodeId, items: seq<Tree>)
    decreases items
  {
    forall i | 0 <= i < |items| :: Parallel(g, id, items[i])
  }

  lemma {:induction false} BuiltParallel(g: Schema, id: NodeId, src: Source, pos: Path, depth: nat)
    requires depth <= MAX_BUILD_DEPTH + 1
    ensures Parallel(g, id, Build(g, id, src, pos, depth))
    decreases MAX_BUILD_DEPTH + 1 - depth, 0
  {
    hide BuildFields, BuildItems, Declared;
    if id in g && depth <= MAX_BUILD_DEPTH {
      var n := g[id];
      match n.nodeType
      case ObjectType => BuiltFieldsParallel(g, n, DeclaredOf(n), src, pos, depth + 1);
      case ArrayType => BuiltItemsParallel(g, n, ItemCount(g, n), src, pos, depth + 1);
      case _ =>
    }
  }

  lemma BuiltFieldsParallel(g: Schema, n: SchemaNode, names: seq<string>, src: Source, pos: Path, depth: nat)
    requires depth <= MAX_BUILD_DEPTH + 1 && forall k | k in names :: k in n.properties
    ensures ParallelFields(g, n, BuildFields(g, n, names, src, pos, depth))
    decreases MAX_BUILD_DEPTH + 1 - depth, 1
  {
    var fields := BuildFields(g, n, names, src, pos, depth);
    forall i | 0 <= i < |fields|
      ensures fields[i].key in n.properties && Parallel(g, n.properties[fields[i].key], fields[i].value) == true
    {
      BuiltParallel(g, n.properties[names[i]], src, pos + [i], depth);
    }
  }

  lemma BuiltItemsParallel(g: Schema, n: SchemaNode, count: nat, src: Source, pos: Path, depth: nat)
    requires depth <= MAX_BUILD_DEPTH + 1
    ensures ParallelItems(g, n.items, BuildItems(g, n, count, src, pos, depth))
    decreases MAX_BUILD_DEPTH + 1 - depth, 1
  {
    var items := BuildItems(g, n, count, src, pos, depth);
    forall i | 0 <= i < |items|
      ensures Parallel(g, n.items, items[i]) == true
    {
      BuiltParallel(g, n.items, src, pos + [i], depth);
    }
  }

  // ---- depth caps: building stops by itself, even on a self-referential schema ----

  lemma {:induction false} HeightFieldsBound(fs: seq<Field>, b: nat)
    requires forall i | 0 <= i < |fs| :: Height(fs[i].value) <= b
    ensures HeightFields(fs) <= b
  {
    if fs != [] {
      HeightFieldsBound(fs[1..], b);
    }
  }

  lemma {:induction false} HeightItemsBound(xs: seq<Tree>, b: nat)
    requires forall i | 0 <= i < |xs| :: Height(xs[i]) <= b
    ensures HeightItems(xs) <= b
  {
    if xs != [] {
      HeightItemsBound(xs[1..], b);
    }
  }

  lemma TaggedHeight(t: Tree, property: string, tag: string, b: nat)
    requires Height(t) <= b && (t.Obj? ==> b >= 2)
    ensures Height(Tagged(t, property, tag)) <= b
  {
    var r := Tagged(t, property, tag);
    if r != t {
      forall i | 0 <= i < |r.fields|
        ensures Height(r.fields[i].value) <= b - 1
      {
        if r.fields[i] != Field(property, Str(Nil, tag)) {
          HeightField(t.fields, i);
        }
      }
      HeightFieldsBound(r.fields, b - 1);
    }
  }

  lemma {:induction false} BuiltHeight(g: Schema, id: NodeId, src: Source, pos: Path, depth: nat)
    requires depth <= MAX_BUILD_DEPTH + 1
    ensures Height(Build(g, id, src, pos, depth)) <= BUILD_LEVELS - depth
    decreases MAX_BUILD_DEPTH + 1 - depth, 0
  {
    hide BuildFields, BuildItems, Declared, HeightFields, HeightItems, Tagged;
    if id in g && depth <= MAX_BUILD_DEPTH {
      var n := g[id];
      match n.nodeType
      case ObjectType =>
        BuiltFieldsHeight(g, n, DeclaredOf(n), src, pos, depth + 1);
      case ArrayType =>
        BuiltItemsHeight(g, n, ItemCount(g, n), src, pos, depth + 1);
      case ScalarNode =>
      case OtherType(_) =>
      case _ =>
        if n.variants != [] {
          var i := Branch(n, src.pick(pos, |n.variants|));
          BuiltHeight(g, n.variants[i], src, pos + [0], depth + 1);
          if n.discriminator.Some? {
            var d := n.discriminator.value;
            TaggedHeight(Build(g, n.variants[i], src, pos + [0], depth + 1), d.property, src.tag(pos, d, i),
                         BUILD_LEVELS - depth);
          }
        }
    }
  }

  lemma BuiltFieldsHeight(g: Schema, n: SchemaNode, names: seq<string>, src: Source, pos: Path, depth: nat)
    requires depth <= MAX_BUILD_DEPTH + 1 && forall k | k in names :: k in n.properties
    ensures HeightFields(BuildFields(g, n, names, src, pos, depth)) <= BUILD_LEVELS - depth
    decreases MAX_BUILD_DEPTH + 1 - depth, 1
  {
    var fields := BuildFields(g, n, names, src, pos, depth);
    forall i | 0 <= i < |fields|
      ensures Height(fields[i].value) <= BUILD_LEVELS - depth
    {
      BuiltHeight(g, n.properties[names[i]], src, pos + [i], depth);
    }
    HeightFieldsBound(fields, BUILD_LEVELS - depth);
  }

  lemma BuiltItemsHeight(g: Schema, n: SchemaNode, count: nat, src: Source, pos: Path, depth: nat)
    requires depth <= MAX_BUILD_DEPTH + 1
    ensures HeightItems(BuildItems(g, n, count, src, pos, depth)) <= BUILD_LEVELS - depth
    decreases MAX_BUILD_DEPTH + 1 - depth, 1
  {
    var items := BuildItems(g, n, count, src, pos, depth);
    forall i | 0 <= i < |items|
      ensures Height(items[i]) <= BUILD_LEVELS - depth
    {
      BuiltHeight(g, n.items, src, pos + [i], depth);
    }
    HeightItemsBound(items, BUILD_LEVELS - depth);
  }
}
