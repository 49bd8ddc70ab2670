// The ten structural operators on values: what each makes of the value at its site, and what that does to conformance.
module BodyMutate {
  import opened Wrappers
  import opened BodyTree
  import opened BodySchema
  import opened BodyBuild
  import opened BodyConformance
  import opened BodySites
  import opened Decimals
  import opened JsonPrinter

  type Tags = (Path, Discriminator, int) -> string

  // Operators rebuild with the default leaves; i is the branch every oneOf/anyOf takes.
  function Plain(i: int, tags: Tags): Source {
    Source((_, n) => DefaultLeaf(n), (_, _) => i, tags)
  }

  function Rebuilt(g: Schema, id: NodeId, i: int, tags: Tags): Tree {
    Build(g, id, Plain(i, tags), [], 0)
  }

  ghost predicate Sound(g: Schema, id: NodeId, i: int, tags: Tags) {
    forall pos: Path :: Buildable(g, id, Plain(i, tags), pos, 0, [])
  }

  // ---- valid mode ----

  datatype ValidOp =
    | AddField(name: string)
    | RemoveField(i: nat)
    | ResizeTo(length: int)
    | SwitchTo(branch: nat)
    | RebuildSelf
    | Edge

  predicate ValidEligible(g: Schema, n: SchemaNode, u: Tree, op: ValidOp) {
    match op
    case AddField(name) => n.nodeType.ObjectType? && name in n.propertyOrder && (u.Obj? ==> name !in Keys(u.fields))
    case RemoveField(i) => n.nodeType.ObjectType? && u.Obj? && i < |u.fields| && u.fields[i].key !in n.required
    case ResizeTo(length) => n.nodeType.ArrayType? && (u.Arr? ==> ResizeLow(n) <= length <= ResizeHigh(n, |u.items|))
    case SwitchTo(branch) => IsVariant(n) && |n.variants| > 1 && branch < |n.variants|
    case RebuildSelf => true
    case Edge => HasScalarConstraint(n)
  }

  function ResizeLow(n: SchemaNode): int {
    if n.minItems.Some? then n.minItems.value else 0
  }

  function ResizeHigh(n: SchemaNode, length: nat): int {
    var max := if n.maxItems.Some? then n.maxItems.value else length + 2;
    if max < ResizeLow(n) then ResizeLow(n) else max
  }

  predicate HasScalarConstraint(n: SchemaNode) {
    n.nodeType.ScalarNode? &&
    (n.minLength.Some? || n.maxLength.Some? || n.minimum.Some? || n.maximum.Some? || n.enumValues != [] ||
     n.pattern != "")
  }

  // A declared name without a schema entry is a nil child.
  function PropertyOf(n: SchemaNode, name: string): NodeId {
    if name in n.properties then n.properties[name] else Nil
  }

  // Fields live in every node, but only an object shows them.
  function WithField(u: Tree, name: string, v: Tree): Tree {
    if u.Obj? then Obj(u.node, u.fields + [Field(name, v)]) else u
  }

  // What the array's own schema node says about items; growing stops at once without one.
  function Resized(g: Schema, u: Tree, length: int, tags: Tags): Tree {
    if !u.Arr? then u
    else
      var k: nat := if length < 0 then 0 else length;
      if |u.items| >= k then Arr(u.node, u.items[..k])
      else if u.node !in g || g[u.node].items !in g then u
      else Arr(u.node, u.items + NewItems(g, g[u.node].items, |u.items|, k - |u.items|, tags))
  }

  // Each new item is a build of its own.
  function NewItems(g: Schema, id: NodeId, from: nat, count: nat, tags: Tags): (r: seq<Tree>)
    ensures |r| == count
    ensures forall i {:trigger r[i]} | 0 <= i < count :: r[i] == Build(g, id, Plain(0, tags), [from + i], 0)
  {
    seq(count, i requires 0 <= i < count => Build(g, id, Plain(0, tags), [from + i], 0))
  }

  function EdgeNumber(n: SchemaNode): Decimal {
    if n.minimum.Some? then n.minimum.value else if n.maximum.Some? then n.maximum.value else OfInt(0)
  }

  function EdgeValue(sid: NodeId, n: SchemaNode): Tree {
    if n.enumValues != [] then Str(sid, n.enumValues[0])
    else if IsNumeric(n) then Num(sid, FormatNumber(n.scalarType, EdgeNumber(n)))
    else if n.minLength.Some? then Str(sid, Repeat('a', n.minLength.value))
    else if n.maxLength.Some? then Str(sid, Repeat('a', n.maxLength.value))
    else Str(sid, "")
  }

  function ApplyValid(g: Schema, sid: NodeId, u: Tree, op: ValidOp, tags: Tags): Tree
    requires sid in g && ValidEligible(g, g[sid], u, op)
  {
    match op
    case AddField(name) => WithField(u, name, Rebuilt(g, PropertyOf(g[sid], name), 0, tags))
    case RemoveField(i) => DropKid(u, i)
    case ResizeTo(length) => Resized(g, u, length, tags)
    case SwitchTo(branch) => Rebuilt(g, sid, branch, tags)
    case RebuildSelf => Rebuilt(g, sid, 0, tags)
    case Edge => EdgeValue(sid, g[sid])
  }

  // What a caller has to check for the operator to keep its promise.
  ghost predicate ValidFits(g: Schema, sid: NodeId, u: Tree, op: ValidOp, tags: Tags)
    requires sid in g
  {
    var n := g[sid];
    match op
    case AddField(name) =>
      if name in n.properties then Sound(g, n.properties[name], 0, tags) else n.allowAdditional
    case RemoveField(_) => true
    case ResizeTo(length) => length > NKids(u) && n.items in g ==> Sound(g, n.items, 0, tags)
    case SwitchTo(branch) => Sound(g, sid, branch, tags)
    case RebuildSelf => Sound(g, sid, 0, tags)
    case Edge => EdgeFits(n)
  }

  predicate EdgeFits(n: SchemaNode) {
    if n.enumValues != [] then
      !IsNumeric(n) && !n.scalarType.BooleanType? && LengthFits(n, ByteLength(n.enumValues[0]))
    else if IsNumeric(n) then BoundsOrdered(n) && (n.scalarType.IntegerType? ==> EdgeTruncates(n))
    else !n.scalarType.BooleanType? && LengthsOrdered(n)
  }

  // Truncating the bound must not leave the range: downwards from a fractional positive minimum, upwards from a
  // fractional negative one past the maximum, upwards from a fractional negative maximum.
  predicate EdgeTruncates(n: SchemaNode) {
    if n.minimum.Some? then
      && (Bound(n.minimum) > 0.0 ==> IsInteger(n.minimum.value))
      && (Bound(n.minimum) < 0.0 && n.maximum.Some? ==> Trunc(n.minimum.value) as real <= Bound(n.maximum))
    else n.maximum.Some? && Bound(n.maximum) < 0.0 ==> IsInteger(n.maximum.value)
  }

  // ---- valid mode keeps conformance ----

  lemma SoundConforms(g: Schema, id: NodeId, i: int, tags: Tags, pos: Path)
    requires Sound(g, id, i, tags)
    ensures Conforming(g, id, Build(g, id, Plain(i, tags), pos, 0))
  {
    BuiltConforms(g, id, Plain(i, tags), pos, 0, []);
  }

  // On a schema that fits node by node, with defaults that do.
  lemma FittingIsSound(g: Schema, id: NodeId, i: int, tags: Tags, nodes: set<NodeId>)
    requires MeetsOnly(g, id, 0, nodes) && AllFit(g, nodes) && DefaultsFit(g, nodes) && OffersTags(Plain(i, tags))
    ensures Sound(g, id, i, tags)
  {
    DefaultLeavesFit(g, nodes, i, tags);
    FittingConforms(g, id, Plain(i, tags), nodes);
  }

  predicate DefaultsFit(g: Schema, nodes: set<NodeId>) {
    forall x | x in nodes && x in g && g[x].nodeType.ScalarNode? :: DefaultFits(g[x])
  }

  lemma DefaultLeavesFit(g: Schema, nodes: set<NodeId>, i: int, tags: Tags)
    requires DefaultsFit(g, nodes)
    ensures LeavesFit(g, nodes, Plain(i, tags))
  {
    forall pos: Path, x | x in nodes && x in g
      ensures LeafFits(g[x], Plain(i, tags).leaf(pos, g[x]))
    {
      DefaultLeafConforms(Nil, g[x]);
    }
  }

  lemma SnocKeys(u: Tree, f: Field)
    requires u.Obj?
    ensures Keys(u.fields + [f]) == Keys(u.fields) + [f.key]
  {
  }

  lemma AddFieldConforms(g: Schema, sid: NodeId, u: Tree, name: string, tags: Tags)
    requires sid in g && ValidEligible(g, g[sid], u, AddField(name))
    requires ValidFits(g, sid, u, AddField(name), tags) && Conforming(g, sid, u)
    ensures Conforming(g, sid, ApplyValid(g, sid, u, AddField(name), tags))
  {
    var n, v := g[sid], Rebuilt(g, PropertyOf(g[sid], name), 0, tags);
    var h: nat :| Conforms(g, sid, u, h);
    if u.Obj? {
      var k: nat := 0;
      if name in n.properties {
        SoundConforms(g, n.properties[name], 0, tags, []);
        k :| Conforms(g, n.properties[name], v, k);
      }
      MoreFieldConforms(g, sid, u, h, Field(name, v), k);
    }
  }

  lemma MoreFieldConforms(g: Schema, sid: NodeId, u: Tree, h: nat, f: Field, k: nat)
    requires sid in g && g[sid].nodeType.ObjectType? && u.Obj? && Conforms(g, sid, u, h) && f.key !in Keys(u.fields)
    requires if f.key in g[sid].properties then Conforms(g, g[sid].properties[f.key], f.value, k)
             else g[sid].allowAdditional
    ensures Conforms(g, sid, Obj(u.node, u.fields + [f]), h + k)
  {
    var n, r := g[sid], Obj(u.node, u.fields + [f]);
    SnocKeys(u, f);
    ConformsMore(g, sid, u, h, h + k);
    assert FieldsConform(g, n, u.fields, h + k - 1);
    if f.key in n.properties {
      ConformsMore(g, n.properties[f.key], f.value, k, h + k - 1);
    }
    assert FieldsConform(g, n, r.fields, h + k - 1);
  }

  lemma DropKeys(fields: seq<Field>, i: nat)
    requires i < |fields|
    ensures Keys(fields[..i] + fields[i + 1..]) == Keys(fields)[..i] + Keys(fields)[i + 1..]
  {
  }

  // With distinct keys, dropping one field loses exactly its key.
  lemma DropOneKey(keys: seq<string>, i: nat)
    requires i < |keys| && NoRepeats(keys)
    ensures NoRepeats(keys[..i] + keys[i + 1..])
    ensures forall k :: k in keys[..i] + keys[i + 1..] <==> k in keys && k != keys[i]
  {
    var r := keys[..i] + keys[i + 1..];
    forall k | k in keys && k != keys[i]
      ensures k in r
    {
      var j :| 0 <= j < |keys| && keys[j] == k;
      assert r[if j < i then j else j - 1] == k;
    }
  }

  lemma RemoveFieldConforms(g: Schema, sid: NodeId, u: Tree, i: nat, h: nat)
    requires sid in g && ValidEligible(g, g[sid], u, RemoveField(i)) && Conforms(g, sid, u, h)
    ensures Conforms(g, sid, DropKid(u, i), h)
  {
    var r := DropKid(u, i);
    DropKeys(u.fields, i);
    DropOneKey(Keys(u.fields), i);
    assert FieldsConform(g, g[sid], u.fields, h - 1);
    forall j | 0 <= j < |r.fields| && r.fields[j].key in g[sid].properties
      ensures Conforms(g, g[sid].properties[r.fields[j].key], r.fields[j].value, h - 1) == true
    {
      assert r.fields[j] == u.fields[if j < i then j else j + 1];
    }
  }

  lemma ResizeConforms(g: Schema, sid: NodeId, u: Tree, length: int, tags: Tags)
    requires sid in g && ValidEligible(g, g[sid], u, ResizeTo(length))
    requires ValidFits(g, sid, u, ResizeTo(length), tags) && Conforming(g, sid, u) && Parallel(g, sid, u)
    ensures Conforming(g, sid, Resized(g, u, length, tags))
  {
    var n, r := g[sid], Resized(g, u, length, tags);
    var h: nat :| Conforms(g, sid, u, h);
    if u.Arr? {
      forall j | 0 <= j < |r.items|
        ensures Conforming(g, n.items, r.items[j]) == true
      {
        if j >= |u.items| {
          SoundConforms(g, n.items, 0, tags, [j]);
        } else {
          ItemConforms(g, sid, u, j, h);
        }
      }
      ArrayConforming(g, sid, r);
    }
  }

  lemma EdgeNumberFits(n: SchemaNode)
    requires IsNumeric(n)
    ensures InRange(n, Real(EdgeNumber(n))) <==> BoundsOrdered(n)
    ensures InRange(n, Trunc(EdgeNumber(n)) as real) <==> BoundsOrdered(n) && EdgeTruncates(n)
  {
    TruncMeans(EdgeNumber(n));
  }

  // The edge value conforms exactly when the bounds are in order, are whole numbers where truncation would cross
  // them, and the node takes strings (or numbers) at all.
  lemma EdgeConforms(sid: NodeId, n: SchemaNode)
    requires HasScalarConstraint(n)
    ensures ScalarConforms(n, EdgeValue(sid, n)) <==> EdgeFits(n)
  {
    if n.enumValues != [] {
    } else if IsNumeric(n) {
      EdgeNumberFits(n);
      NumberMeans(n.scalarType, EdgeNumber(n));
    } else {
      AsciiLength(EdgeValue(sid, n).text);
    }
  }

  lemma ApplyValidConforms(g: Schema, sid: NodeId, u: Tree, op: ValidOp, tags: Tags)
    requires sid in g && ValidEligible(g, g[sid], u, op)
    requires ValidFits(g, sid, u, op, tags) && Conforming(g, sid, u) && Parallel(g, sid, u)
    ensures Conforming(g, sid, ApplyValid(g, sid, u, op, tags))
  {
    var h: nat :| Conforms(g, sid, u, h);
    var r := ApplyValid(g, sid, u, op, tags);
    match op
    case AddField(name) => AddFieldConforms(g, sid, u, name, tags);
    case RemoveField(i) => RemoveFieldConforms(g, sid, u, i, h);
    case ResizeTo(length) => ResizeConforms(g, sid, u, length, tags);
    case SwitchTo(branch) => SoundConforms(g, sid, branch, tags, []);
    case RebuildSelf => SoundConforms(g, sid, 0, tags, []);
    case Edge =>
      EdgeConforms(sid, g[sid]);
      assert Conforms(g, sid, r, 1);
  }

  // Valid mode maps a conforming body to a conforming body.
  lemma ValidKeepsConforming(g: Schema, root: NodeId, t: Tree, p: Path, sid: NodeId, op: ValidOp, tags: Tags)
    requires Parallel(g, root, t) && Conforming(g, root, t) && IsSite(g, root, t, p, sid)
    requires ValidPath(t, p) && sid in g && ValidEligible(g, g[sid], At(t, p), op)
    requires ValidFits(g, sid, At(t, p), op, tags)
    ensures Conforming(g, root, Plug(t, p, ApplyValid(g, sid, At(t, p), op, tags)))
  {
    SiteConforms(g, root, t, p, sid);
    ApplyValidConforms(g, sid, At(t, p), op, tags);
    SiteDecides(g, root, t, p, sid, ApplyValid(g, sid, At(t, p), op, tags));
  }

  // ---- adversarial mode ----

  // Any scalar the synthetic pool offers.
  datatype Scalar = TextScalar | NumberScalar | BoolScalar

  function SyntheticScalar(c: Scalar): Tree {
    match c
    case TextScalar => Str(Nil, "structfuzz")
    case NumberScalar => Num(Nil, "1337")
    case BoolScalar => Bool(Nil, true)
  }

  datatype AdversarialOp =
    | OmitRequired(i: nat)
    | ResizeOut
    | SwitchTag(branch: nat)
    | WrongType(choice: nat)
    | NullInjection
    | Undeclared(key: string, at: nat, value: Scalar)
    | DuplicateKey(i: nat, value: Scalar)
    | Nest
    | Violate

  predicate AdversarialEligible(g: Schema, n: SchemaNode, u: Tree, op: AdversarialOp) {
    match op
    case OmitRequired(i) => n.nodeType.ObjectType? && u.Obj? && i < |u.fields| && u.fields[i].key in n.required
    case ResizeOut =>
      n.nodeType.ArrayType? && ((n.minItems.Some? && n.minItems.value > 0) || n.maxItems.Some?)
    case SwitchTag(branch) => IsVariant(n) && |n.variants| > 1 && branch < |n.variants|
    case WrongType(choice) => n.nodeType.ScalarNode? && choice < 4
    case NullInjection => !n.nullable && n.nodeType != OtherType("")
    case Undeclared(key, at, _) =>
      n.nodeType.ObjectType? && key !in n.properties && (u.Obj? ==> at <= |u.fields|)
    case DuplicateKey(i, _) => n.nodeType.ObjectType? && u.Obj? && i < |u.fields|
    case Nest => true
    case Violate => HasScalarConstraint(n)
  }

  function OutOfBounds(n: SchemaNode): int {
    if n.minItems.Some? && n.minItems.value > 0 then n.minItems.value - 1
    else if n.maxItems.Some? then n.maxItems.value + 1 else 0
  }

  // Every field under the discriminator property gets the tag of the next branch, when that branch has one.
  function Retagged(u: Tree, property: string, tag: string): Tree {
    if !u.Obj? || tag == "" then u else Obj(u.node, RetagFields(u.fields, property, tag))
  }

  function RetagFields(fields: seq<Field>, property: string, tag: string): (r: seq<Field>)
    ensures |r| == |fields|
    ensures forall i {:trigger r[i]} | 0 <= i < |fields| ::
              r[i] == if fields[i].key == property then Field(property, Str(Nil, tag)) else fields[i]
  {
    seq(|fields|, i requires 0 <= i < |fields| =>
      if fields[i].key == property then Field(property, Str(Nil, tag)) else fields[i])
  }

  // (branch + 1) % number of branches
  function NextBranch(n: SchemaNode, branch: nat): nat {
    if branch + 1 < |n.variants| then branch + 1 else 0
  }

  function SwitchedTag(g: Schema, sid: NodeId, branch: nat, tags: Tags): Tree
    requires sid in g && g[sid].variants != []
  {
    var n, built := g[sid], Rebuilt(g, sid, branch, tags);
    if n.discriminator.None? then built
    else Retagged(built, n.discriminator.value.property, tags([], n.discriminator.value, NextBranch(n, branch)))
  }

  function WrongTypeValue(sid: NodeId, n: SchemaNode, choice: nat): Tree {
    match n.scalarType
    case IntegerType => Str(sid, "not-a-number")
    case NumberType => Str(sid, "not-a-number")
    case BooleanType => Str(sid, "not-a-bool")
    case _ =>
      if choice == 0 then Num(sid, "12345")
      else if choice == 1 then Bool(sid, true)
      else if choice == 2 then Arr(sid, []) else Obj(sid, [])
  }

  const NESTING_EXTRA_LAYERS := 4

  function Wrapped(u: Tree, layers: nat): Tree
    decreases layers, u
  {
    if layers == 0 then u else Obj(Nil, [Field("wrapped", Wrapped(u, layers - 1))])
  }

  const SUFFIX := "_NOT_IN_ENUM"

  function ViolatingValue(sid: NodeId, n: SchemaNode): Tree {
    if IsNumeric(n) && n.minimum.Some? then Num(sid, FormatNumber(n.scalarType, Plus(n.minimum.value, -1)))
    else if IsNumeric(n) && n.maximum.Some? then Num(sid, FormatNumber(n.scalarType, Plus(n.maximum.value, 1)))
    else if n.maxLength.Some? then Str(sid, Repeat('a', n.maxLength.value + 1))
    else if n.minLength.Some? && n.minLength.value > 0 then Str(sid, Repeat('a', n.minLength.value - 1))
    else if n.enumValues != [] then Str(sid, n.enumValues[0] + SUFFIX)
    else Str(sid, "")
  }

  function ApplyAdversarial(g: Schema, sid: NodeId, u: Tree, op: AdversarialOp, tags: Tags): Tree
    requires sid in g && AdversarialEligible(g, g[sid], u, op)
  {
    var n := g[sid];
    match op
    case OmitRequired(i) => DropKid(u, i)
    case ResizeOut => Resized(g, u, OutOfBounds(n), tags)
    case SwitchTag(branch) => SwitchedTag(g, sid, branch, tags)
    case WrongType(choice) => WrongTypeValue(sid, n, choice)
    case NullInjection => Null(sid)
    case Undeclared(key, at, value) => InsertField(u, at, Field(key, SyntheticScalar(value)))
    case DuplicateKey(i, value) => WithField(u, u.fields[i].key, SyntheticScalar(value))
    case Nest => Wrapped(Truncate(u, 0), NESTING_EXTRA_LAYERS)
    case Violate => ViolatingValue(sid, n)
  }

  // ---- nesting ----

  lemma {:induction false} WrappedHeight(u: Tree, layers: nat)
    ensures Height(Wrapped(u, layers)) == layers + Height(u)
  {
    if layers > 0 {
      WrappedHeight(u, layers - 1);
      var k := Wrapped(u, layers - 1);
      var fs := [Field("wrapped", k)];
      assert fs[1..] == [];
      assert HeightFields(fs) == Max(Height(fs[0].value), HeightFields(fs[1..]));
    }
  }

  // ---- schemas that go in circles, in valid mode ----

  // What sits at a site of a built tree was itself built, further down.
  lemma {:induction false} BuiltAt(g: Schema, id: NodeId, src: Source, pos: Path, depth: nat, p: Path, sid: NodeId)
    returns (at: Path, down: nat)
    requires depth <= MAX_BUILD_DEPTH + 1 && IsSite(g, id, Build(g, id, src, pos, depth), p, sid)
    ensures down <= MAX_BUILD_DEPTH + 1 && ValidPath(Build(g, id, src, pos, depth), p)
    ensures At(Build(g, id, src, pos, depth), p) == Build(g, sid, src, at, down)
    decreases |p|
  {
    at, down := pos, depth;
    if p != [] {
      var t, k := Build(g, id, src, pos, depth), p[0];
      var kid := KidSchema(g, g[id], t, k).value;
      assert Kid(t, k) == Build(g, kid, src, pos + [k], depth + 1) by {
        BuiltKid(g, id, src, pos, depth, k);
      }
      at, down := BuiltAt(g, kid, src, pos + [k], depth + 1, p[1..], sid);
    }
  }

  lemma BuiltKid(g: Schema, id: NodeId, src: Source, pos: Path, depth: nat, k: nat)
    requires depth <= MAX_BUILD_DEPTH + 1 && id in g && !IsVariant(g[id])
    requires k < NKids(Build(g, id, src, pos, depth))
    requires KidSchema(g, g[id], Build(g, id, src, pos, depth), k).Some?
    ensures depth <= MAX_BUILD_DEPTH
    ensures Kid(Build(g, id, src, pos, depth), k)
         == Build(g, KidSchema(g, g[id], Build(g, id, src, pos, depth), k).value, src, pos + [k], depth + 1)
  {
    var n := g[id];
    match n.nodeType
    case ObjectType =>
      BuiltKeys(g, id, src, pos, depth);
      BuiltFieldIs(g, id, src, pos, depth, k);
    case ArrayType =>
      BuiltArray(g, id, src, pos, depth);
      BuiltItemIs(g, id, src, pos, depth, k);
    case _ =>
  }

  // Where objects and arrays lead to one another in a circle, a body that was built around one of them does not
  // conform to begin with ...
  lemma BuiltOverCircle(g: Schema, root: NodeId, src: Source, p: Path, sid: NodeId, C: set<NodeId>)
    requires IsSite(g, root, Build(g, root, src, [], 0), p, sid)
    requires sid in C && forall x | x in C :: LeadsInto(g, C, x)
    ensures !Conforming(g, root, Build(g, root, src, [], 0))
  {
    var t := Build(g, root, src, [], 0);
    if Conforming(g, root, t) {
      BuiltParallel(g, root, src, [], 0);
      SiteConforms(g, root, t, p, sid);
      var at, down := BuiltAt(g, root, src, [], 0, p, sid);
      var h: nat :| Conforms(g, sid, At(t, p), h);
      CircleNeverConforms(g, C, sid, src, at, down, h);
    }
  }

  // ... and rebuilding that one in valid mode does not conform, whatever body it is in, nor does the body then.
  lemma NestingRebuildBreaks(g: Schema, root: NodeId, t: Tree, p: Path, sid: NodeId, tags: Tags, C: set<NodeId>)
    requires Parallel(g, root, t) && IsSite(g, root, t, p, sid) && ValidPath(t, p)
    requires sid in C && forall x | x in C :: LeadsInto(g, C, x)
    ensures sid in g && !Conforming(g, sid, ApplyValid(g, sid, At(t, p), RebuildSelf, tags))
    ensures !Conforming(g, root, Plug(t, p, ApplyValid(g, sid, At(t, p), RebuildSelf, tags)))
  {
    assert LeadsInto(g, C, sid);
    var r := Rebuilt(g, sid, 0, tags);
    forall h: nat
      ensures !Conforms(g, sid, r, h)
    {
      CircleNeverConforms(g, C, sid, Plain(0, tags), [], 0, h);
    }
    if Conforming(g, root, Plug(t, p, r)) {
      var h: nat :| Conforms(g, root, Plug(t, p, r), h);
      PlugConformsOnly(g, root, t, p, sid, r, h);
    }
  }

  // ---- depth caps nest: one operator on a freshly built tree stays far below what the printer and clone cut off ----

  lemma {:induction false} HeightAt(t: Tree, p: Path)
    requires ValidPath(t, p)
    ensures |p| + Height(At(t, p)) <= Height(t)
  {
    if p != [] {
      HeightAt(Kid(t, p[0]), p[1..]);
      HeightKid(t, p[0]);
    }
  }

  lemma HeightOver(t: Tree, b: nat)
    requires forall i | 0 <= i < NKids(t) :: Height(Kid(t, i)) <= b
    ensures Height(t) <= b + 1
  {
    match t
    case Obj(_, fields) =>
      assert forall i | 0 <= i < |fields| :: fields[i].value == Kid(t, i);
      HeightFieldsBound(fields, b);
    case Arr(_, items) =>
      assert forall i | 0 <= i < |items| :: items[i] == Kid(t, i);
      HeightItemsBound(items, b);
    case _ =>
  }

  // Every child of r is a child of u or no higher than b.
  ghost predicate KidsFrom(r: Tree, u: Tree, b: nat) {
    forall i | 0 <= i < NKids(r) ::
      Height(Kid(r, i)) <= b || exists j :: 0 <= j < NKids(u) && Kid(r, i) == Kid(u, j)
  }

  lemma HeightFrom(r: Tree, u: Tree, b: nat)
    requires KidsFrom(r, u, b)
    ensures Height(r) <= Max(Height(u), b + 1)
  {
    forall i | 0 <= i < NKids(r)
      ensures Height(Kid(r, i)) <= Max(Height(u), b + 1) - 1
    {
      if j :| 0 <= j < NKids(u) && Kid(r, i) == Kid(u, j) {
        HeightKid(u, j);
      }
    }
    HeightOver(r, Max(Height(u), b + 1) - 1);
  }

  lemma {:induction false} PlugHeight(t: Tree, p: Path, u: Tree)
    requires ValidPath(t, p)
    ensures Height(Plug(t, p, u)) <= Max(Height(t), |p| + Height(u))
  {
    if p != [] {
      var k, v := Kid(t, p[0]), Plug(Kid(t, p[0]), p[1..], u);
      PlugHeight(k, p[1..], u);
      HeightKid(t, p[0]);
      var r := WithKid(t, p[0], v);
      assert KidsFrom(r, t, Height(v)) by {
        forall i | 0 <= i < NKids(r)
          ensures Height(Kid(r, i)) <= Height(v) || exists j :: 0 <= j < NKids(t) && Kid(r, i) == Kid(t, j)
        {
          assert i != p[0] ==> Kid(r, i) == Kid(t, i);
        }
      }
      HeightFrom(r, t, Height(v));
    }
  }

  lemma ValidHeight(g: Schema, sid: NodeId, u: Tree, op: ValidOp, tags: Tags)
    requires sid in g && ValidEligible(g, g[sid], u, op)
    ensures Height(ApplyValid(g, sid, u, op, tags)) <= Max(Height(u), BUILD_LEVELS + 1)
  {
    var r := ApplyValid(g, sid, u, op, tags);
    match op
    case SwitchTo(branch) => BuiltHeight(g, sid, Plain(branch, tags), [], 0);
    case RebuildSelf => BuiltHeight(g, sid, Plain(0, tags), [], 0);
    case Edge =>
    case AddField(name) =>
      BuiltHeight(g, PropertyOf(g[sid], name), Plain(0, tags), [], 0);
      assert KidsFrom(r, u, BUILD_LEVELS) by {
        assert forall i | 0 <= i < NKids(u) :: Kid(r, i) == Kid(u, i);
      }
      HeightFrom(r, u, BUILD_LEVELS);
    case RemoveField(i) =>
      HeightFrom(r, u, BUILD_LEVELS);
    case ResizeTo(length) =>
      ResizedHeight(g, u, length, tags);
  }

  lemma ResizedHeight(g: Schema, u: Tree, length: int, tags: Tags)
    ensures Height(Resized(g, u, length, tags)) <= Max(Height(u), BUILD_LEVELS + 1)
  {
    var r := Resized(g, u, length, tags);
    forall i | 0 <= i < NKids(r)
      ensures Height(Kid(r, i)) <= BUILD_LEVELS || exists j :: 0 <= j < NKids(u) && Kid(r, i) == Kid(u, j)
    {
      if i < NKids(u) {
        assert Kid(r, i) == Kid(u, i);
      } else {
        BuiltHeight(g, g[u.node].items, Plain(0, tags), [i], 0);
      }
    }
    HeightFrom(r, u, BUILD_LEVELS);
  }

  lemma AdversarialHeight(g: Schema, sid: NodeId, u: Tree, op: AdversarialOp, tags: Tags)
    requires sid in g && AdversarialEligible(g, g[sid], u, op) && Height(u) <= MAX_SERIALIZE_DEPTH
    ensures Height(ApplyAdversarial(g, sid, u, op, tags)) <= Max(Height(u) + NESTING_EXTRA_LAYERS, BUILD_LEVELS + 1)
  {
    var r := ApplyAdversarial(g, sid, u, op, tags);
    match op
    case OmitRequired(i) => HeightFrom(r, u, BUILD_LEVELS);
    case ResizeOut => ResizedHeight(g, u, OutOfBounds(g[sid]), tags);
    case SwitchTag(branch) =>
      BuiltHeight(g, sid, Plain(branch, tags), [], 0);
      SwitchedHeight(g, sid, branch, tags);
    case Undeclared(key, at, value) =>
      forall i | 0 <= i < NKids(r)
        ensures Height(Kid(r, i)) <= 1 || exists j :: 0 <= j < NKids(u) && Kid(r, i) == Kid(u, j)
      {
        if u.Obj? && i != at {
          assert Kid(r, i) == Kid(u, if i < at then i else i - 1);
        }
      }
      HeightFrom(r, u, 1);
    case DuplicateKey(i, value) =>
      assert KidsFrom(r, u, 1) by {
        assert forall j | 0 <= j < NKids(u) :: Kid(r, j) == Kid(u, j);
      }
      HeightFrom(r, u, 1);
    case Nest =>
      TruncateIdentity(u, 0);
      WrappedHeight(u, NESTING_EXTRA_LAYERS);
    case _ =>
  }

  lemma SwitchedHeight(g: Schema, sid: NodeId, branch: nat, tags: Tags)
    requires sid in g && g[sid].variants != [] && Height(Rebuilt(g, sid, branch, tags)) <= BUILD_LEVELS
    ensures Height(SwitchedTag(g, sid, branch, tags)) <= BUILD_LEVELS + 1
  {
    var built, r := Rebuilt(g, sid, branch, tags), SwitchedTag(g, sid, branch, tags);
    forall i | 0 <= i < NKids(r)
      ensures Height(Kid(r, i)) <= 1 || exists j :: 0 <= j < NKids(built) && Kid(r, i) == Kid(built, j)
    {
      assert Kid(r, i) == Kid(built, i) || Kid(r, i).Str?;
    }
    HeightFrom(r, built, 1);
  }

  // Printing and cloning lose nothing of a tree that was built and then changed by one operator.
  lemma OneOperatorUnderCap(t: Tree, p: Path, u: Tree)
    requires Height(t) <= BUILD_LEVELS && ValidPath(t, p)
    requires Height(u) <= Max(Height(At(t, p)) + NESTING_EXTRA_LAYERS, BUILD_LEVELS + 1)
    ensures Height(Plug(t, p, u)) <= 2 * BUILD_LEVELS + 1 <= MAX_SERIALIZE_DEPTH
    ensures Truncate(Plug(t, p, u), 0) == Plug(t, p, u)
  {
    HeightAt(t, p);
    PlugHeight(t, p, u);
    TruncateIdentity(Plug(t, p, u), 0);
  }
}
