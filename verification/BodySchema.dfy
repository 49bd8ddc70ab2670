// BodyNode: the schema graph of a request body, and what it means for a value tree to conform to it.
module BodySchema {
  import opened Wrappers
  import opened BodyTree
  import opened Decimals

  datatype NodeType = ObjectType | ArrayType | OneOf | AnyOf | ScalarNode | OtherType(name: string)

  datatype ScalarType = StringType | IntegerType | NumberType | BooleanType | OtherScalar(name: string)

  // Mapping's values index the variants of the node the discriminator belongs to.
  datatype Discriminator = Discriminator(property: string, mapping: map<string, int>)

  // One schema node; pointers to other nodes are NodeIds.
  datatype SchemaNode = SchemaNode(
    nodeType: NodeType,
    nullable: bool,
    properties: map<string, NodeId>,
    propertyOrder: seq<string>,
    required: seq<string>,
    allowAdditional: bool,
    items: NodeId,
    minItems: Option<int>,
    maxItems: Option<int>,
    variants: seq<NodeId>,
    discriminator: Option<Discriminator>,
    scalarType: ScalarType,
    format: string,
    enumValues: seq<string>,
    pattern: string,
    minLength: Option<nat>,
    maxLength: Option<nat>,
    minimum: Option<Decimal>,
    maximum: Option<Decimal>)

  // The graph: cycles and sharing allowed. A pointer that is not a key is nil.
  type Schema = g: map<NodeId, SchemaNode> | Nil !in g

  predicate IsVariant(n: SchemaNode) {
    n.nodeType.OneOf? || n.nodeType.AnyOf?
  }

  predicate IsNumeric(n: SchemaNode) {
    n.scalarType.IntegerType? || n.scalarType.NumberType?
  }

  // ---- lengths are counted in UTF-8 bytes ----

  function CharBytes(c: char): nat {
    if c as int < 0x80 then 1 else if c as int < 0x800 then 2 else if c as int < 0x1_0000 then 3 else 4
  }

  function ByteLength(s: string): (n: nat)
    ensures n >= |s|
  {
    if s == [] then 0 else CharBytes(s[0]) + ByteLength(s[1..])
  }

  predicate Ascii(s: string) {
    forall i | 0 <= i < |s| :: s[i] as int < 0x80
  }

  lemma {:induction false} AsciiLength(s: string)
    requires Ascii(s)
    ensures ByteLength(s) == |s|
  {
    if s != [] {
      AsciiLength(s[1..]);
    }
  }

  // ---- conformance, as conformanceViolations in body_mutate_test.go checks it ----

  predicate AtLeast(bound: Option<int>, n: int) {
    bound.Some? ==> bound.value <= n
  }

  predicate AtMost(bound: Option<int>, n: int) {
    bound.Some? ==> n <= bound.value
  }

  predicate LengthFits(n: SchemaNode, len: nat) {
    (n.minLength.Some? ==> n.minLength.value <= len) && (n.maxLength.Some? ==> len <= n.maxLength.value)
  }

  predicate InRange(n: SchemaNode, x: real) {
    (n.minimum.Some? ==> Real(n.minimum.value) <= x) && (n.maximum.Some? ==> x <= Real(n.maximum.value))
  }

  predicate KindFits(n: SchemaNode, t: Tree) {
    match n.scalarType
    case StringType => t.Str?
    case IntegerType => t.Num?
    case NumberType => t.Num?
    case BooleanType => t.Bool?
    case OtherScalar(_) => true
  }

  // A scalar node accepts this value, which is not null.
  predicate ScalarConforms(n: SchemaNode, t: Tree) {
    && KindFits(n, t)
    && (t.Str? ==> LengthFits(n, ByteLength(t.text)) && (n.enumValues != [] ==> t.text in n.enumValues))
    && (t.Num? ==> InRange(n, NumberOf(t.text)))
  }

  function Keys(fields: seq<Field>): (r: seq<string>)
    ensures |r| == |fields| && forall i {:trigger r[i]} | 0 <= i < |fields| :: r[i] == fields[i].key
  {
    seq(|fields|, i requires 0 <= i < |fields| => fields[i].key)
  }

  predicate NoRepeats(keys: seq<string>) {
    forall i, j | 0 <= i < j < |keys| :: keys[i] != keys[j]
  }

  // Keys are distinct and declared (or extras are allowed), and none that is required is missing.
  predicate KeysConform(n: SchemaNode, keys: seq<string>) {
    && NoRepeats(keys)
    && (forall k | k in keys :: k in n.properties || n.allowAdditional)
    && (forall k | k in n.required :: k in keys)
  }

  predicate LengthConforms(n: SchemaNode, length: nat) {
    AtLeast(n.minItems, length) && AtMost(n.maxItems, length)
  }

  // The text of a value, as its Str field holds it.
  function TextOf(t: Tree): string {
    if t.Str? || t.Num? then t.text else ""
  }

  // The discriminator tag a value carries: the last field with the property's name decides.
  function TagIn(fields: seq<Field>, property: string): string {
    if fields == [] then ""
    else if fields[|fields| - 1].key == property then TextOf(fields[|fields| - 1].value)
    else TagIn(fields[..|fields| - 1], property)
  }

  // Conformance established within h schema steps. A value conforms when some h will do; a schema that sends its
  // own variants in circles never establishes anything.
  predicate Conforms(g: Schema, id: NodeId, t: Tree, h: nat)
    decreases h, 2
  {
    if id !in g then true
    else if t.Null? then g[id].nullable
    else if h == 0 then false
    else
      match g[id].nodeType
      case ObjectType => t.Obj? && KeysConform(g[id], Keys(t.fields)) && FieldsConform(g, g[id], t.fields, h - 1)
      case ArrayType => t.Arr? && LengthConforms(g[id], |t.items|) && ItemsConform(g, g[id].items, t.items, h - 1)
      case OneOf => VariantConforms(g, g[id], t, h - 1)
      case AnyOf => VariantConforms(g, g[id], t, h - 1)
      case ScalarNode => ScalarConforms(g[id], t)
      case OtherType(_) => true
  }

  predicate FieldsConform(g: Schema, n: SchemaNode, fields: seq<Field>, h: nat)
    decreases h, 3
  {
    forall i | 0 <= i < |fields| ::
      fields[i].key in n.properties ==> Conforms(g, n.properties[fields[i].key], fields[i].value, h)
  }

  predicate ItemsConform(g: Schema, id: NodeId, items: seq<Tree>, h: nat)
    decreases h, 3
  {
    forall i | 0 <= i < |items| :: Conforms(g, id, items[i], h)
  }

  // Some variant fits, and if the value carries a known tag, so does the variant it names.
  predicate VariantConforms(g: Schema, n: SchemaNode, t: Tree, h: nat)
    decreases h, 4
  {
    && (exists i :: 0 <= i < |n.variants| && Conforms(g, n.variants[i], t, h))
    && (n.discriminator.Some? && t.Obj? ==> TagConforms(g, n, n.discriminator.value, t, h))
  }

  predicate TagConforms(g: Schema, n: SchemaNode, d: Discriminator, t: Tree, h: nat)
    requires t.Obj?
    decreases h, 3
  {
    var tag := TagIn(t.fields, d.property);
    tag in d.mapping ==> 0 <= d.mapping[tag] < |n.variants| && Conforms(g, n.variants[d.mapping[tag]], t, h)
  }

  ghost predicate Conforming(g: Schema, id: NodeId, t: Tree) {
    exists h: nat :: Conforms(g, id, t, h)
  }

  // More steps never hurt.
  lemma {:induction false} ConformsMore(g: Schema, id: NodeId, t: Tree, h: nat, h2: nat)
    requires Conforms(g, id, t, h) && h <= h2
    ensures Conforms(g, id, t, h2)
    decreases h, 0
  {
    if id in g && !t.Null? {
      var n := g[id];
      match n.nodeType
      case ObjectType =>
        forall i | 0 <= i < |t.fields| && t.fields[i].key in n.properties
          ensures Conforms(g, n.properties[t.fields[i].key], t.fields[i].value, h2 - 1)
        {
          ConformsMore(g, n.properties[t.fields[i].key], t.fields[i].value, h - 1, h2 - 1);
        }
      case ArrayType =>
        forall i | 0 <= i < |t.items|
          ensures Conforms(g, n.items, t.items[i], h2 - 1)
        {
          ConformsMore(g, n.items, t.items[i], h - 1, h2 - 1);
        }
      case ScalarNode =>
      case OtherType(_) =>
      case _ =>
        VariantConformsMore(g, n, t, h - 1, h2 - 1);
    }
  }

  lemma {:induction false} VariantConformsMore(g: Schema, n: SchemaNode, t: Tree, h: nat, h2: nat)
    requires VariantConforms(g, n, t, h) && h <= h2
    ensures VariantConforms(g, n, t, h2)
    decreases h, 1
  {
    var i :| 0 <= i < |n.variants| && Conforms(g, n.variants[i], t, h);
    ConformsMore(g, n.variants[i], t, h, h2);
    if n.discriminator.Some? && t.Obj? {
      var d := n.discriminator.value;
      var tag := TagIn(t.fields, d.property);
      if tag in d.mapping {
        ConformsMore(g, n.variants[d.mapping[tag]], t, h, h2);
      }
    }
  }
}
