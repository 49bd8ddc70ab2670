// schema_ast.py: compiling an OpenAPI schema into the tree that BodyNode mirrors, and what the Go side may rely on.
module SchemaCompiler {
  import opened Wrappers
  import opened BodyTree
  import opened BodySchema
  import opened BodyBuild
  import opened BodyConformance

  const MAX_SCHEMA_DEPTH := 8

  // ---- input: schema objects before and after reference resolution ----

  // ref is the $ref string, if the object has one; name is the last part of it; own is what the object itself says,
  // for resolve to read, and nothing if the schema is no dictionary.
  datatype Raw = Raw(ref: Option<string>, name: Option<string>, own: Option<Resolved>)

  datatype Additional = Forbidden | Unstated | Described(schema: Raw)

  datatype RawDiscriminator = RawDiscriminator(property: string, mapping: Option<seq<(string, string)>>)

  datatype Resolved = Resolved(
    oneOf: seq<Raw>,
    anyOf: seq<Raw>,
    isAllOf: bool,
    isObject: bool,
    isArray: bool,
    nullable: bool,
    properties: seq<(string, Raw)>,
    required: seq<string>,
    additional: Additional,
    items: Option<Raw>,
    minItems: Option<int>,
    maxItems: Option<int>,
    discriminator: Option<RawDiscriminator>,
    scalar: SchemaNode)

  // resolve follows references (nothing for an unresolvable or empty schema); merge is the conjunction an allOf stands
  // for: properties by name, and required names.
  datatype Parser = Parser(resolve: Raw -> Option<Resolved>, merge: Resolved -> (seq<(string, Raw)>, seq<string>))

  // ---- output ----

  datatype Property = Property(name: string, node: Node)

  datatype Node =
    | ObjectNode(nullable: bool, properties: seq<Property>, order: seq<string>, required: seq<string>,
                 allowAdditional: bool)
    | ArrayNode(nullable: bool, items: Option<Node>, minItems: Option<int>, maxItems: Option<int>)
    | VariantNode(one: bool, nullable: bool, variants: seq<Node>, discriminator: Option<Discriminator>)
    | LeafNode(scalar: SchemaNode)
    | InertLeaf

  function PropertyNames(props: seq<(string, Raw)>): (r: seq<string>)
    ensures |r| == |props| && forall i {:trigger r[i]} | 0 <= i < |props| :: r[i] == props[i].0
  {
    seq(|props|, i requires 0 <= i < |props| => props[i].0)
  }

  function NodeNames(props: seq<Property>): (r: seq<string>)
    ensures |r| == |props| && forall i {:trigger r[i]} | 0 <= i < |props| :: r[i] == props[i].name
  {
    seq(|props|, i requires 0 <= i < |props| => props[i].name)
  }

  function KeepKnown(required: seq<string>, known: seq<string>): (r: seq<string>)
    ensures forall k :: k in r <==> k in required && k in known
  {
    if required == [] then []
    else (if required[0] in known then [required[0]] else []) + KeepKnown(required[1..], known)
  }

  // Index of the first variant schema referring to this name.
  function IndexOfRef(variants: seq<Raw>, name: string): (i: nat)
    ensures i <= |variants| && (i < |variants| ==> variants[i].name == Some(name))
  {
    if variants == [] || variants[0].name == Some(name) then 0 else 1 + IndexOfRef(variants[1..], name)
  }

  function LastPart(s: string): string
    decreases |s|
  {
    if '/' in s then LastPart(AfterSlash(s)) else s
  }

  function AfterSlash(s: string): (r: string)
    requires '/' in s
    ensures |r| < |s|
  {
    if s[0] == '/' then s[1..] else AfterSlash(s[1..])
  }

  function ExplicitMapping(pairs: seq<(string, string)>, variants: seq<Raw>): map<string, int> {
    if pairs == [] then map[]
    else
      var (tag, target) := pairs[|pairs| - 1];
      var i := IndexOfRef(variants, LastPart(target));
      var rest := ExplicitMapping(pairs[..|pairs| - 1], variants);
      if i < |variants| then rest[tag := i] else rest
  }

  function ImplicitMapping(variants: seq<Raw>, n: nat): map<string, int>
    requires n <= |variants|
  {
    if n == 0 then map[]
    else
      var rest := ImplicitMapping(variants, n - 1);
      if variants[n - 1].name.Some? then rest[variants[n - 1].name.value := n - 1] else rest
  }

  // Indexes count the variant schemas, whether or not each of them compiles.
  function DiscriminatorNode(rs: Resolved, variants: seq<Raw>): Option<Discriminator> {
    if rs.discriminator.None? || rs.discriminator.value.property == "" then None
    else
      var d := rs.discriminator.value;
      var mapping :=
        if d.mapping.Some? && d.mapping.value != [] then ExplicitMapping(d.mapping.value, variants)
        else ImplicitMapping(variants, |variants|);
      if mapping == map[] then None else Some(Discriminator(d.property, mapping))
  }

  // ---- compiling ----

  function Compile(p: Parser, schema: Raw, depth: nat, seen: set<string>): Option<Node>
    requires depth <= MAX_SCHEMA_DEPTH + 1
    decreases MAX_SCHEMA_DEPTH + 1 - depth, 1, seen
  {
    if schema.own.None? then None
    else if schema.ref.Some? && schema.ref.value in seen then Some(InertLeaf)
    else if depth > MAX_SCHEMA_DEPTH then Some(InertLeaf)
    else
      match p.resolve(schema)
      case None => None
      case Some(rs) =>
        var next := if schema.ref.Some? then seen + {schema.ref.value} else seen;
        Some(CompileResolved(p, rs, depth, next))
  }

  function CompileResolved(p: Parser, rs: Resolved, depth: nat, seen: set<string>): Node
    requires depth <= MAX_SCHEMA_DEPTH
    decreases MAX_SCHEMA_DEPTH + 1 - depth, 0, seen
  {
    if rs.oneOf != [] then
      VariantNode(true, rs.nullable, CompileAll(p, rs.oneOf, depth + 1, seen), DiscriminatorNode(rs, rs.oneOf))
    else if rs.anyOf != [] then
      VariantNode(false, rs.nullable, CompileAll(p, rs.anyOf, depth + 1, seen), DiscriminatorNode(rs, rs.anyOf))
    else if rs.isAllOf || rs.isObject then
      var (props, required) := if rs.isAllOf then p.merge(rs) else (rs.properties, rs.required);
      var nodes := CompileProperties(p, props, depth + 1, seen);
      ObjectNode(rs.nullable, nodes, PropertyNames(props), KeepKnown(required, NodeNames(nodes)),
          !rs.additional.Forbidden?)
    else if rs.isArray then
      ArrayNode(rs.nullable, if rs.items.Some? then Compile(p, rs.items.value, depth + 1, seen) else None,
                rs.minItems, rs.maxItems)
    else LeafNode(rs.scalar)
  }

  // Variants that resolve to nothing are dropped.
  function CompileAll(p: Parser, schemas: seq<Raw>, depth: nat, seen: set<string>): seq<Node>
    requires depth <= MAX_SCHEMA_DEPTH + 1
    decreases MAX_SCHEMA_DEPTH + 1 - depth, 2, |schemas|, seen
  {
    if schemas == [] then []
    else
      var rest := CompileAll(p, schemas[1..], depth, seen);
      match Compile(p, schemas[0], depth, seen)
      case None => rest
      case Some(node) => [node] + rest
  }

  // So are properties, though their names stay in the order.
  function CompileProperties(p: Parser, props: seq<(string, Raw)>, depth: nat, seen: set<string>): seq<Property>
    requires depth <= MAX_SCHEMA_DEPTH + 1
    decreases MAX_SCHEMA_DEPTH + 1 - depth, 2, |props|, seen
  {
    if props == [] then []
    else
      var rest := CompileProperties(p, props[1..], depth, seen);
      match Compile(p, props[0].1, depth, seen)
      case None => rest
      case Some(node) => [Property(props[0].0, node)] + rest
  }

  // ---- levels ----

  function Levels(n: Node): nat
    decreases n, 1
  {
    1 + match n
        case ObjectNode(_, props, _, _, _) => LevelsOfProperties(props)
        case ArrayNode(_, items, _, _) => if items.Some? then Levels(items.value) else 0
        case VariantNode(_, _, variants, _) => LevelsOfAll(variants)
        case _ => 0
  }

  function LevelsOfAll(nodes: seq<Node>): nat
    decreases nodes, 0
  {
    if nodes == [] then 0 else BodyTree.Max(Levels(nodes[0]), LevelsOfAll(nodes[1..]))
  }

  function LevelsOfProperties(props: seq<Property>): nat
    decreases props, 0
  {
    if props == [] then 0 else BodyTree.Max(Levels(props[0].node), LevelsOfProperties(props[1..]))
  }

  // References may go in circles; the compiled tree has at most ten levels.
  lemma {:induction false} CompiledLevels(p: Parser, schema: Raw, depth: nat, seen: set<string>)
    requires depth <= 9
    ensures
      var c := Compile(p, schema, depth, seen);
      c.Some? ==> Levels(c.value) <= 10 - depth
    decreases MAX_SCHEMA_DEPTH + 1 - depth, 1
  {
    if depth <= MAX_SCHEMA_DEPTH && p.resolve(schema).Some? {
      var rs := p.resolve(schema).value;
      var next := if schema.ref.Some? then seen + {schema.ref.value} else seen;
      if rs.oneOf != [] {
        AllLevels(p, rs.oneOf, depth + 1, next);
      } else if rs.anyOf != [] {
        AllLevels(p, rs.anyOf, depth + 1, next);
      } else if rs.isAllOf || rs.isObject {
        PropertyLevels(p, if rs.isAllOf then p.merge(rs).0 else rs.properties, depth + 1, next);
      } else if rs.isArray && rs.items.Some? {
        CompiledLevels(p, rs.items.value, depth + 1, next);
      }
    }
  }

  lemma {:induction false} AllLevels(p: Parser, schemas: seq<Raw>, depth: nat, seen: set<string>)
    requires depth <= MAX_SCHEMA_DEPTH + 1
    ensures LevelsOfAll(CompileAll(p, schemas, depth, seen)) <= MAX_SCHEMA_DEPTH + 2 - depth
    decreases MAX_SCHEMA_DEPTH + 1 - depth, 2, |schemas|
  {
    if schemas != [] {
      CompiledLevels(p, schemas[0], depth, seen);
      AllLevels(p, schemas[1..], depth, seen);
      var rest := CompileAll(p, schemas[1..], depth, seen);
      if c :| Compile(p, schemas[0], depth, seen) == Some(c) {
        assert ([c] + rest)[1..] == rest;
      }
    }
  }

  lemma {:induction false} PropertyLevels(p: Parser, props: seq<(string, Raw)>, depth: nat, seen: set<string>)
    requires depth <= MAX_SCHEMA_DEPTH + 1
    ensures LevelsOfProperties(CompileProperties(p, props, depth, seen)) <= MAX_SCHEMA_DEPTH + 2 - depth
    decreases MAX_SCHEMA_DEPTH + 1 - depth, 2, |props|
  {
    if props != [] {
      CompiledLevels(p, props[0].1, depth, seen);
      PropertyLevels(p, props[1..], depth, seen);
      var rest := CompileProperties(p, props[1..], depth, seen);
      if c :| Compile(p, props[0].1, depth, seen) == Some(c) {
        assert ([Property(props[0].0, c)] + rest)[1..] == rest;
      }
    }
  }

  // ---- what a schema compiles to ----

  // Nothing only for what is no dictionary or resolves to nothing; an inert leaf for a reference that is being followed
  // already and for what lies more than eight levels down.
  lemma CompilesIff(p: Parser, schema: Raw, depth: nat, seen: set<string>)
    requires depth <= 9
    ensures
      var c, cut := Compile(p, schema, depth, seen), (schema.ref.Some? && schema.ref.value in seen) || depth == 9;
      && (c.Some? <==> schema.own.Some? && (cut || p.resolve(schema).Some?))
      && (c.Some? ==> (c.value == InertLeaf <==> cut))
      && (c.Some? && !cut ==>
            c.value == CompileResolved(p, p.resolve(schema).value, depth,
                                       seen + if schema.ref.Some? then {schema.ref.value} else {}))
  {
    assert seen + {} == seen;
  }

  // Each kind of schema becomes its kind of node, oneOf before anyOf before the rest.
  lemma CompiledKind(p: Parser, rs: Resolved, depth: nat, seen: set<string>)
    requires depth <= 8
    ensures
      match CompileResolved(p, rs, depth, seen)
      case VariantNode(one, nullable, variants, disc) =>
        && (rs.oneOf != [] || rs.anyOf != []) && one == (rs.oneOf != []) && nullable == rs.nullable
        && variants == CompileAll(p, if one then rs.oneOf else rs.anyOf, depth + 1, seen)
        && disc == DiscriminatorNode(rs, if one then rs.oneOf else rs.anyOf)
      case ObjectNode(nullable, _, _, _, more) =>
        && rs.oneOf == rs.anyOf == [] && (rs.isAllOf || rs.isObject) && nullable == rs.nullable
        && more == (rs.additional != Forbidden)
      case ArrayNode(nullable, items, min, max) =>
        && rs.oneOf == rs.anyOf == [] && !rs.isAllOf && !rs.isObject && rs.isArray && nullable == rs.nullable
        && min == rs.minItems && max == rs.maxItems
        && items == if rs.items.None? then None else Compile(p, rs.items.value, depth + 1, seen)
      case LeafNode(scalar) =>
        rs.oneOf == rs.anyOf == [] && !rs.isAllOf && !rs.isObject && !rs.isArray && scalar == rs.scalar
      case InertLeaf => false
  {
    hide Compile, CompileAll, CompileProperties, DiscriminatorNode, KeepKnown;
  }

  // An array of itself, written out without a reference: nine arrays, then an inert leaf.
  predicate Arrays(n: Node, k: nat) {
    if k == 0 then n == InertLeaf else n.ArrayNode? && n.items.Some? && Arrays(n.items.value, k - 1)
  }

  lemma {:induction false} InlineCircleIsCut(p: Parser, schema: Raw, depth: nat, seen: set<string>)
    requires schema.ref.None? && schema.own.Some? && p.resolve(schema).Some? && depth <= 9
    requires
      var rs := p.resolve(schema).value;
      rs.oneOf == rs.anyOf == [] && !rs.isAllOf && !rs.isObject && rs.isArray && rs.items == Some(schema)
    ensures Compile(p, schema, depth, seen).Some? && Arrays(Compile(p, schema, depth, seen).value, 9 - depth)
    decreases 9 - depth
  {
    if depth < 9 {
      InlineCircleIsCut(p, schema, depth + 1, seen);
      CompilesIff(p, schema, depth, seen);
      CompiledKind(p, p.resolve(schema).value, depth, seen + {});
      assert seen + {} == seen;
    }
  }

  // ---- required names within properties within the order ----

  lemma {:induction false} CompiledNames(p: Parser, props: seq<(string, Raw)>, depth: nat, seen: set<string>)
    requires depth <= MAX_SCHEMA_DEPTH + 1
    ensures forall k | k in NodeNames(CompileProperties(p, props, depth, seen)) :: k in PropertyNames(props)
    decreases |props|
  {
    if props != [] {
      var rest := CompileProperties(p, props[1..], depth, seen);
      CompiledNames(p, props[1..], depth, seen);
      assert PropertyNames(props) == [props[0].0] + PropertyNames(props[1..]);
      if c :| Compile(p, props[0].1, depth, seen) == Some(c) {
        assert NodeNames([Property(props[0].0, c)] + rest) == [props[0].0] + NodeNames(rest);
      }
    }
  }

  // The compiled properties are those whose schemas compile, each under its name and in order.
  lemma {:induction false} CompiledProperties(p: Parser, before: seq<(string, Raw)>, name: string, v: Raw, depth: nat,
                                              seen: set<string>)
    requires depth <= 9
    ensures
      var c := Compile(p, v, depth, seen);
      && CompileProperties(p, [], depth, seen) == []
      && CompileProperties(p, before + [(name, v)], depth, seen)
         == CompileProperties(p, before, depth, seen) + if c.Some? then [Property(name, c.value)] else []
  {
    hide Compile;
    var all := before + [(name, v)];
    if before == [] {
      assert all[1..] == [];
    } else {
      assert all[0] == before[0] && all[1..] == before[1..] + [(name, v)];
      CompiledProperties(p, before[1..], name, v, depth, seen);
      var rest := CompileProperties(p, before[1..], depth, seen);
      if c :| Compile(p, before[0].1, depth, seen) == Some(c) {
        var last := if Compile(p, v, depth, seen).Some? then [Property(name, Compile(p, v, depth, seen).value)] else [];
        var first := [Property(before[0].0, c)];
        assert first + (rest + last) == (first + rest) + last;
      }
    }
  }

  lemma {:induction false} KnownSnoc(required: seq<string>, k: string, known: seq<string>)
    ensures KeepKnown([], known) == []
    ensures KeepKnown(required + [k], known) == KeepKnown(required, known) + if k in known then [k] else []
  {
    var all := required + [k];
    if required == [] {
      assert all[1..] == [];
    } else {
      assert all[0] == required[0] && all[1..] == required[1..] + [k];
      KnownSnoc(required[1..], k, known);
    }
  }

  // All declared names are in the order; those that compiled are properties; required are those among them.
  lemma ObjectNames(p: Parser, rs: Resolved, depth: nat, seen: set<string>)
    requires depth <= 8 && CompileResolved(p, rs, depth, seen).ObjectNode?
    ensures
      var n := CompileResolved(p, rs, depth, seen);
      var (props, required) := if rs.isAllOf then p.merge(rs) else (rs.properties, rs.required);
      && n.order == PropertyNames(props) && n.properties == CompileProperties(p, props, depth + 1, seen)
      && (forall k :: k in n.required <==> k in required && k in NodeNames(n.properties))
      && (forall k | k in NodeNames(n.properties) :: k in n.order)
  {
    CompiledNames(p, if rs.isAllOf then p.merge(rs).0 else rs.properties, depth + 1, seen);
  }

  // The compiled variants are those that compile, in order.
  lemma {:induction false} CompiledVariants(p: Parser, before: seq<Raw>, v: Raw, depth: nat, seen: set<string>)
    requires depth <= 9
    ensures
      var c := Compile(p, v, depth, seen);
      && CompileAll(p, [], depth, seen) == []
      && CompileAll(p, before + [v], depth, seen)
         == CompileAll(p, before, depth, seen) + if c.Some? then [c.value] else []
  {
    hide Compile;
    var all := before + [v];
    if before == [] {
      assert all[1..] == [];
    } else {
      assert all[0] == before[0] && all[1..] == before[1..] + [v];
      CompiledVariants(p, before[1..], v, depth, seen);
      var rest := CompileAll(p, before[1..], depth, seen);
      if c :| Compile(p, before[0], depth, seen) == Some(c) {
        var last := if Compile(p, v, depth, seen).Some? then [Compile(p, v, depth, seen).value] else [];
        assert [c] + (rest + last) == ([c] + rest) + last;
      }
    }
  }

  // ---- discriminator indexes ----

  lemma {:induction false} AllCompile(p: Parser, schemas: seq<Raw>, depth: nat, seen: set<string>)
    requires depth <= MAX_SCHEMA_DEPTH + 1
    ensures |CompileAll(p, schemas, depth, seen)| <= |schemas|
    ensures |CompileAll(p, schemas, depth, seen)| == |schemas|
       <==> forall i | 0 <= i < |schemas| :: Compile(p, schemas[i], depth, seen).Some?
    ensures |CompileAll(p, schemas, depth, seen)| == |schemas| ==>
              forall i | 0 <= i < |schemas| ::
                Compile(p, schemas[i], depth, seen) == Some(CompileAll(p, schemas, depth, seen)[i])
    decreases |schemas|
  {
    hide Compile;
    if schemas != [] {
      AllCompile(p, schemas[1..], depth, seen);
      assert forall i | 0 < i < |schemas| :: schemas[i] == schemas[1..][i - 1];
    }
  }

  lemma {:induction false} ExplicitInRange(pairs: seq<(string, string)>, variants: seq<Raw>)
    ensures forall tag | tag in ExplicitMapping(pairs, variants) ::
              0 <= ExplicitMapping(pairs, variants)[tag] < |variants|
  {
    if pairs != [] {
      ExplicitInRange(pairs[..|pairs| - 1], variants);
    }
  }

  lemma {:induction false} ImplicitNames(variants: seq<Raw>, n: nat)
    requires n <= |variants|
    ensures forall tag | tag in ImplicitMapping(variants, n) ::
              var i := ImplicitMapping(variants, n)[tag]; 0 <= i < n && variants[i].name == Some(tag)
  {
    if n > 0 {
      ImplicitNames(variants, n - 1);
    }
  }

  lemma {:induction false} LastPartIs(s: string) returns (i: nat)
    ensures i <= |s| && LastPart(s) == s[i..] && '/' !in LastPart(s) && (i > 0 ==> s[i - 1] == '/')
    decreases |s|
  {
    i := 0;
    if '/' in s {
      var j := SlashAt(s);
      var k := LastPartIs(s[j + 1..]);
      i := j + 1 + k;
      assert s[j + 1..][k..] == s[i..];
    }
  }

  lemma {:induction false} SlashAt(s: string) returns (j: nat)
    requires '/' in s
    ensures j < |s| && s[j] == '/' && AfterSlash(s) == s[j + 1..]
  {
    if s[0] == '/' {
      j := 0;
    } else {
      var k := SlashAt(s[1..]);
      j := k + 1;
    }
  }

  // Without a mapping of its own: the name of each variant that has one, for its last bearer.
  lemma {:induction false} ImplicitIs(variants: seq<Raw>, n: nat, tag: string)
    requires n <= |variants|
    ensures
      var m := ImplicitMapping(variants, n);
      && (tag in m <==> exists i :: 0 <= i < n && variants[i].name == Some(tag))
      && (tag in m ==> 0 <= m[tag] < n && variants[m[tag]].name == Some(tag)
                       && forall j | m[tag] < j < n :: variants[j].name != Some(tag))
  {
    if n > 0 {
      ImplicitIs(variants, n - 1, tag);
    }
  }

  // With one: each tag whose target, cut down to its last part, is the name of a variant, for the first of that name.
  lemma {:induction false} ExplicitIs(pairs: seq<(string, string)>, variants: seq<Raw>, k: nat)
    requires k < |pairs| && forall i, j | 0 <= i < j < |pairs| :: pairs[i].0 != pairs[j].0
    ensures
      var m, tag, name := ExplicitMapping(pairs, variants), pairs[k].0, Some(LastPart(pairs[k].1));
      && (tag in m <==> exists i :: 0 <= i < |variants| && variants[i].name == name)
      && (tag in m ==> 0 <= m[tag] < |variants| && variants[m[tag]].name == name
                       && forall j | 0 <= j < m[tag] :: variants[j].name != name)
    ensures forall tag | tag in ExplicitMapping(pairs, variants) :: exists i :: 0 <= i < |pairs| && pairs[i].0 == tag
    decreases |pairs|
  {
    var last := |pairs| - 1;
    var init := pairs[..last];
    hide LastPart;
    FirstRef(variants, LastPart(pairs[last].1));
    ExplicitTags(init, variants);
    ExplicitTags(pairs, variants);
    if k < last {
      ExplicitIs(init, variants, k);
      assert init[k] == pairs[k];
    } else {
      assert pairs[k].0 !in ExplicitMapping(init, variants);
    }
  }

  lemma {:induction false} ExplicitTags(pairs: seq<(string, string)>, variants: seq<Raw>)
    ensures forall tag | tag in ExplicitMapping(pairs, variants) :: exists i :: 0 <= i < |pairs| && pairs[i].0 == tag
  {
    if pairs != [] {
      var init := pairs[..|pairs| - 1];
      ExplicitTags(init, variants);
      assert forall i | 0 <= i < |init| :: init[i] == pairs[i];
      forall tag | tag in ExplicitMapping(pairs, variants)
        ensures exists i :: 0 <= i < |pairs| && pairs[i].0 == tag
      {
        if tag in ExplicitMapping(init, variants) {
          var i :| 0 <= i < |init| && init[i].0 == tag;
          assert pairs[i].0 == tag;
        }
      }
    }
  }

  lemma {:induction false} FirstRef(variants: seq<Raw>, name: string)
    ensures forall j | 0 <= j < IndexOfRef(variants, name) :: variants[j].name != Some(name)
  {
    if variants != [] && variants[0].name != Some(name) {
      FirstRef(variants[1..], name);
      assert forall j | 0 < j < |variants| :: variants[j] == variants[1..][j - 1];
    }
  }

  // A discriminator comes with its property and the mapping, or not at all.
  lemma DiscriminatorIs(rs: Resolved, variants: seq<Raw>)
    ensures
      var d, r := DiscriminatorNode(rs, variants), rs.discriminator;
      && (d.Some? <==> r.Some? && r.value.property != ""
                       && if r.value.mapping.Some? && r.value.mapping.value != []
                          then ExplicitMapping(r.value.mapping.value, variants) != map[]
                          else exists i :: 0 <= i < |variants| && variants[i].name.Some?)
      && (d.Some? ==> d.value.property == r.value.property
                      && d.value.mapping == if r.value.mapping.Some? && r.value.mapping.value != []
                                            then ExplicitMapping(r.value.mapping.value, variants)
                                            else ImplicitMapping(variants, |variants|))
  {
    var m := ImplicitMapping(variants, |variants|);
    ImplicitNames(variants, |variants|);
    if i :| 0 <= i < |variants| && variants[i].name.Some? {
      ImplicitIs(variants, |variants|, variants[i].name.value);
      assert variants[i].name.value in m;
    } else {
      assert forall tag :: tag !in m;
    }
  }

  // Which of the schemas, from i on, the compiled variants come from.
  function Kept(p: Parser, schemas: seq<Raw>, i: nat, depth: nat, seen: set<string>): seq<nat>
    requires depth <= MAX_SCHEMA_DEPTH + 1 && i <= |schemas|
    decreases |schemas| - i
  {
    if i == |schemas| then []
    else (if Compile(p, schemas[i], depth, seen).Some? then [i] else []) + Kept(p, schemas, i + 1, depth, seen)
  }

  lemma {:induction false} KeptAreCompiled(p: Parser, schemas: seq<Raw>, i: nat, depth: nat, seen: set<string>)
    requires depth <= MAX_SCHEMA_DEPTH + 1 && i <= |schemas|
    ensures
      var kept, nodes := Kept(p, schemas, i, depth, seen), CompileAll(p, schemas[i..], depth, seen);
      && |kept| == |nodes|
      && forall k | 0 <= k < |nodes| :: i + k <= kept[k] < |schemas|
          && Compile(p, schemas[kept[k]], depth, seen) == Some(nodes[k])
    decreases |schemas| - i
  {
    hide Compile;
    if i < |schemas| {
      assert schemas[i..][1..] == schemas[i + 1..] && schemas[i..][0] == schemas[i];
      KeptAreCompiled(p, schemas, i + 1, depth, seen);
    }
  }

  lemma {:induction false} KeptInPlace(p: Parser, schemas: seq<Raw>, i: nat, k: nat, depth: nat, seen: set<string>)
    requires depth <= MAX_SCHEMA_DEPTH + 1 && i + k < |schemas|
    ensures
      var kept := Kept(p, schemas, i, depth, seen);
      k < |kept| && kept[k] == i + k <==> forall j | i <= j <= i + k :: Compile(p, schemas[j], depth, seen).Some?
    decreases k
  {
    hide Compile;
    KeptAreCompiled(p, schemas, i, depth, seen);
    KeptAreCompiled(p, schemas, i + 1, depth, seen);
    if k > 0 && Compile(p, schemas[i], depth, seen).Some? {
      KeptInPlace(p, schemas, i + 1, k - 1, depth, seen);
    }
  }

  // A tag's index finds the compiled form of the schema the tag was written for exactly if every variant up to that one
  // compiles; what comes behind does not matter.
  lemma TagsIndexVariants(p: Parser, rs: Resolved, schemas: seq<Raw>, depth: nat, seen: set<string>, tag: string)
    requires depth <= MAX_SCHEMA_DEPTH + 1 && DiscriminatorNode(rs, schemas).Some?
    requires tag in DiscriminatorNode(rs, schemas).value.mapping
    ensures
      var i, kept := DiscriminatorNode(rs, schemas).value.mapping[tag], Kept(p, schemas, 0, depth, seen);
      && 0 <= i < |schemas| && |kept| == |CompileAll(p, schemas, depth, seen)|
      && (forall k | 0 <= k < |kept| ::
            kept[k] < |schemas|
            && Compile(p, schemas[kept[k]], depth, seen) == Some(CompileAll(p, schemas, depth, seen)[k]))
      && (i < |kept| && kept[i] == i <==> forall j | 0 <= j <= i :: Compile(p, schemas[j], depth, seen).Some?)
  {
    hide Compile;
    ImplicitNames(schemas, |schemas|);
    if rs.discriminator.value.mapping.Some? {
      ExplicitInRange(rs.discriminator.value.mapping.value, schemas);
    }
    KeptAreCompiled(p, schemas, 0, depth, seen);
    assert schemas[0..] == schemas;
    KeptInPlace(p, schemas, 0, DiscriminatorNode(rs, schemas).value.mapping[tag], depth, seen);
  }

  // A variant that resolves to nothing shifts the others: the index of the last one points past the end.
  lemma DroppedVariantShifts(p: Parser, a: Raw, b: Raw, depth: nat, seen: set<string>)
    requires depth <= MAX_SCHEMA_DEPTH && a.name == Some("A") && b.name == Some("B")
    requires p.resolve(a) == None && (a.ref.Some? ==> a.ref.value !in seen)
    ensures ImplicitMapping([a, b], 2) == map["A" := 0, "B" := 1]
    ensures |CompileAll(p, [a, b], depth, seen)| <= 1
  {
    assert [a, b][1..] == [b] && [b][1..] == [];
    assert ImplicitMapping([a, b], 1) == map["A" := 0];
    AllCompile(p, [b], depth, seen);
    assert Compile(p, a, depth, seen) == None;
    assert CompileAll(p, [a, b], depth, seen) == CompileAll(p, [b], depth, seen);
  }

  // ---- the compiled tree, loaded ----

  // The loaded graph holds this tree at id.
  ghost predicate Holds(g: Schema, id: NodeId, n: Node)
    decreases n, 1
  {
    id in g &&
    match n
    case ObjectNode(_, props, order, required, more) =>
      && g[id].nodeType.ObjectType? && g[id].propertyOrder == order && g[id].required == required
      && g[id].allowAdditional == more
      && (forall k :: k in g[id].properties <==> k in NodeNames(props))
      && (forall i | 0 <= i < |props| :: props[i].name in g[id].properties)
      && (forall i | 0 <= i < |props| :: Holds(g, g[id].properties[props[i].name], props[i].node))
    case ArrayNode(_, items, min, max) =>
      && g[id].nodeType.ArrayType? && g[id].minItems == min && g[id].maxItems == max
      && (if items.Some? then Holds(g, g[id].items, items.value) else g[id].items !in g)
    case VariantNode(one, _, variants, disc) =>
      && (if one then g[id].nodeType.OneOf? else g[id].nodeType.AnyOf?)
      && g[id].discriminator == disc && |g[id].variants| == |variants|
      && forall i | 0 <= i < |variants| :: Holds(g, g[id].variants[i], variants[i])
    case _ => g[id].nodeType.ScalarNode?
  }

  lemma {:induction false} LevelsAt(nodes: seq<Node>, i: nat)
    requires i < |nodes|
    ensures Levels(nodes[i]) <= LevelsOfAll(nodes)
  {
    if i > 0 {
      LevelsAt(nodes[1..], i - 1);
    }
  }

  lemma {:induction false} PropertyLevelsAt(props: seq<Property>, i: nat)
    requires i < |props|
    ensures Levels(props[i].node) <= LevelsOfProperties(props)
  {
    if i > 0 {
      PropertyLevelsAt(props[1..], i - 1);
    }
  }

  // ---- what is compiled can be instantiated ----

  // In every object: names in order, once each; required names among them.
  predicate NamesOk(n: Node)
    decreases n, 1
  {
    match n
    case ObjectNode(_, props, order, required, _) =>
      && NoRepeats(order)
      && (forall k | k in required :: k in NodeNames(props)) && (forall k | k in NodeNames(props) :: k in order)
      && forall i | 0 <= i < |props| :: NamesOk(props[i].node)
    case ArrayNode(_, items, _, _) => items.Some? ==> NamesOk(items.value)
    case VariantNode(_, _, variants, _) => forall i | 0 <= i < |variants| :: NamesOk(variants[i])
    case _ => true
  }

  // Property lists come from dictionaries.
  ghost predicate DistinctKeys(p: Parser) {
    forall raw {:trigger p.resolve(raw)} :: p.resolve(raw).Some? ==>
      var rs := p.resolve(raw).value;
      NoRepeats(PropertyNames(rs.properties)) && NoRepeats(PropertyNames(p.merge(rs).0))
  }

  lemma {:induction false} CompiledNamesOk(p: Parser, schema: Raw, depth: nat, seen: set<string>)
    requires depth <= MAX_SCHEMA_DEPTH + 1 && DistinctKeys(p)
    ensures
      var c := Compile(p, schema, depth, seen);
      c.Some? ==> NamesOk(c.value)
    decreases MAX_SCHEMA_DEPTH + 1 - depth, 1
  {
    if depth <= MAX_SCHEMA_DEPTH && p.resolve(schema).Some? {
      var rs := p.resolve(schema).value;
      var next := if schema.ref.Some? then seen + {schema.ref.value} else seen;
      if rs.oneOf != [] {
        AllNamesOk(p, rs.oneOf, depth + 1, next);
      } else if rs.anyOf != [] {
        AllNamesOk(p, rs.anyOf, depth + 1, next);
      } else if rs.isAllOf || rs.isObject {
        ObjectNames(p, rs, depth, next);
        PropertyNamesOk(p, if rs.isAllOf then p.merge(rs).0 else rs.properties, depth + 1, next);
      } else if rs.isArray && rs.items.Some? {
        CompiledNamesOk(p, rs.items.value, depth + 1, next);
      }
    }
  }

  lemma {:induction false} AllNamesOk(p: Parser, schemas: seq<Raw>, depth: nat, seen: set<string>)
    requires depth <= MAX_SCHEMA_DEPTH + 1 && DistinctKeys(p)
    ensures forall n | n in CompileAll(p, schemas, depth, seen) :: NamesOk(n)
    decreases MAX_SCHEMA_DEPTH + 1 - depth, 2, |schemas|
  {
    if schemas != [] {
      CompiledNamesOk(p, schemas[0], depth, seen);
      AllNamesOk(p, schemas[1..], depth, seen);
    }
  }

  lemma {:induction false} PropertyNamesOk(p: Parser, props: seq<(string, Raw)>, depth: nat, seen: set<string>)
    requires depth <= MAX_SCHEMA_DEPTH + 1 && DistinctKeys(p)
    ensures forall x | x in CompileProperties(p, props, depth, seen) :: NamesOk(x.node)
    decreases MAX_SCHEMA_DEPTH + 1 - depth, 2, |props|
  {
    if props != [] {
      CompiledNamesOk(p, props[0].1, depth, seen);
      PropertyNamesOk(p, props[1..], depth, seen);
    }
  }

  // The nodes whose names, if they are objects, suit the builder.
  function Nameable(g: Schema): set<NodeId> {
    set x | x in g && (g[x].nodeType.ObjectType? ==> NamesFit(g[x]))
  }

  lemma {:induction false} HeldMeetsOnly(g: Schema, id: NodeId, n: Node, depth: nat)
    requires Holds(g, id, n) && NamesOk(n) && depth + Levels(n) <= MAX_BUILD_DEPTH + 1
    ensures MeetsOnly(g, id, depth, Nameable(g))
    decreases n, 1
  {
    hide Nameable;
    IsNameable(g, id, n);
    match n
    case ObjectNode(_, props, _, _, _) => HeldProperties(g, id, n, depth);
    case ArrayNode(_, items, _, _) =>
      if items.Some? {
        HeldMeetsOnly(g, g[id].items, items.value, depth + 1);
      }
    case VariantNode(_, _, _, _) => HeldVariants(g, id, n, depth);
    case _ =>
  }

  lemma HeldVariants(g: Schema, id: NodeId, n: Node, depth: nat)
    requires n.VariantNode? && Holds(g, id, n) && NamesOk(n) && depth + Levels(n) <= MAX_BUILD_DEPTH + 1
    ensures forall i | 0 <= i < |g[id].variants| :: MeetsOnly(g, g[id].variants[i], depth + 1, Nameable(g))
    decreases n, 0
  {
    forall i | 0 <= i < |g[id].variants|
      ensures MeetsOnly(g, g[id].variants[i], depth + 1, Nameable(g))
    {
      LevelsAt(n.variants, i);
      hide MeetsOnly, Nameable, Levels;
      HeldMeetsOnly(g, g[id].variants[i], n.variants[i], depth + 1);
    }
  }

  lemma HeldProperties(g: Schema, id: NodeId, n: Node, depth: nat)
    requires n.ObjectNode? && Holds(g, id, n) && NamesOk(n) && depth + Levels(n) <= MAX_BUILD_DEPTH + 1
    ensures forall k | k in g[id].properties :: MeetsOnly(g, g[id].properties[k], depth + 1, Nameable(g))
    decreases n, 0
  {
    forall k | k in g[id].properties
      ensures MeetsOnly(g, g[id].properties[k], depth + 1, Nameable(g))
    {
      var i :| 0 <= i < |n.properties| && NodeNames(n.properties)[i] == k;
      PropertyLevelsAt(n.properties, i);
      hide MeetsOnly, Nameable, Levels;
      HeldMeetsOnly(g, g[id].properties[k], n.properties[i].node, depth + 1);
    }
  }

  lemma IsNameable(g: Schema, id: NodeId, n: Node)
    requires Holds(g, id, n) && NamesOk(n)
    ensures id in Nameable(g)
  {
    if n.ObjectNode? {
      HeldNamesFit(g, id, n);
    }
  }

  // A compiled schema is instantiated without ever meeting the build cap: three levels less would do.
  lemma CompiledNeverCut(p: Parser, schema: Raw, g: Schema, id: NodeId, src: Source, pos: Path, depth: nat)
    requires DistinctKeys(p) && Compile(p, schema, 0, {}).Some? && Holds(g, id, Compile(p, schema, 0, {}).value)
    requires depth <= MAX_BUILD_DEPTH - MAX_SCHEMA_DEPTH - 1
    ensures MeetsOnly(g, id, depth, Nameable(g))
    ensures Build(g, id, src, pos, 0) == Build(g, id, src, pos, depth)
  {
    CompiledLevels(p, schema, 0, {});
    CompiledNamesOk(p, schema, 0, {});
    HeldMeetsOnly(g, id, Compile(p, schema, 0, {}).value, depth);
    CapNeverMet(g, id, src, pos, depth, Nameable(g), 0);
  }

  // ... and every instance conforms, given that the arrays' lengths, the branches and the leaves are in order.
  lemma CompiledConforms(p: Parser, schema: Raw, g: Schema, id: NodeId, src: Source, pos: Path)
    requires DistinctKeys(p) && Compile(p, schema, 0, {}).Some? && Holds(g, id, Compile(p, schema, 0, {}).value)
    requires forall x | x in g && !g[x].nodeType.ObjectType? :: NodeFits(g, g[x])
    requires LeavesFit(g, g.Keys, src) && OffersTags(src)
    ensures Conforming(g, id, Build(g, id, src, pos, 0))
  {
    hide MeetsOnly, Build, Conforming, Compile, Holds, OffersTags;
    CompiledNeverCut(p, schema, g, id, src, pos, 0);
    FittingConforms(g, id, src, Nameable(g));
  }

  // An object with its names in order, once each, meets the builder's demands on names.
  lemma HeldNamesFit(g: Schema, id: NodeId, n: Node)
    requires Holds(g, id, n) && n.ObjectNode? && NoRepeats(n.order)
    requires (forall k | k in n.required :: k in NodeNames(n.properties))
    requires (forall k | k in NodeNames(n.properties) :: k in n.order)
    ensures NamesFit(g[id])
  {
    DeclaredDistinct(n.order, g[id].properties);
  }

  lemma {:induction false} DeclaredDistinct(names: seq<string>, properties: map<string, NodeId>)
    requires NoRepeats(names)
    ensures NoRepeats(Declared(names, properties))
  {
    if names != [] {
      assert forall j | 0 <= j < |names[1..]| :: names[1..][j] == names[j + 1];
      DeclaredDistinct(names[1..], properties);
      assert names[0] !in names[1..];
    }
  }
}
