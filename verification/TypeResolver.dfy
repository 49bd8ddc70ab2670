// TypeResolver.cs: from a base-type name in source text to a type of the same source tree.
module TypeResolver {
  import opened Wrappers

  // A validation constraint object; inherited ones are shared by reference, so identity is all that matters here.
  type Constraint = nat

  class TypeConstraints {
    const ns: string
    const name: string
    const baseTypes: seq<string>
    var properties: map<string, Constraint>

    constructor (ns: string, name: string, baseTypes: seq<string>, properties: map<string, Constraint>)
      ensures this.ns == ns && this.name == name && this.baseTypes == baseTypes && this.properties == properties
    {
      this.ns, this.name, this.baseTypes, this.properties := ns, name, baseTypes, properties;
    }
  }

  // The dictionary of all types, with its keys in enumeration order.
  datatype Types = Types(all: map<string, TypeConstraints>, order: seq<string>)

  function Key(tc: TypeConstraints): string {
    if tc.ns == "" then tc.name else tc.ns + "." + tc.name
  }

  // Every key names the type it is filed under, and enumeration sees each key.
  ghost predicate Filed(ts: Types) {
    && (forall k | k in ts.all :: Key(ts.all[k]) == k)
    && (forall k :: k in ts.order <==> k in ts.all)
  }

  // ---- names ----

  // What Trim removes: every Unicode white space.
  predicate IsBlank(c: char) {
    c in "\t\n\U{0B}\U{0C}\r \U{85}\U{A0}\U{1680}\U{2028}\U{2029}\U{202F}\U{205F}\U{3000}"
        || '\U{2000}' <= c <= '\U{200A}'
  }

  function BeforeGeneric(s: string): string {
    if s == [] || s[0] == '<' then [] else [s[0]] + BeforeGeneric(s[1..])
  }

  function DropTrailing(s: string, drop: char -> bool): string {
    if s != [] && drop(s[|s| - 1]) then DropTrailing(s[..|s| - 1], drop) else s
  }

  function DropLeading(s: string): string {
    if s != [] && IsBlank(s[0]) then DropLeading(s[1..]) else s
  }

  // "List<int>? " is "List"
  function StripGeneric(s: string): string {
    DropLeading(DropTrailing(DropTrailing(BeforeGeneric(s), c => c == '?'), IsBlank))
  }

  // ---- resolution ----

  // The keys, in order, of the types with this short name.
  function Named(ts: Types, order: seq<string>, name: string): (r: seq<string>)
    requires forall k | k in order :: k in ts.all
    ensures forall k :: k in r <==> k in order && ts.all[k].name == name
  {
    if order == [] then []
    else (if ts.all[order[0]].name == name then [order[0]] else []) + Named(ts, order[1..], name)
  }

  function LastIn(ts: Types, keys: seq<string>, ns: string): (r: Option<string>)
    requires forall k | k in keys :: k in ts.all
    ensures r.Some? ==> r.value in keys && ts.all[r.value].ns == ns
    ensures r.None? ==> forall k | k in keys :: ts.all[k].ns != ns
  {
    if keys == [] then None
    else
      var last := keys[|keys| - 1];
      if ts.all[last].ns == ns then Some(last) else LastIn(ts, keys[..|keys| - 1], ns)
  }

  // Exact full name; else the last type with that short name in the preferred namespace; else the first one anywhere.
  function Resolved(ts: Types, name: string, preferNamespace: string): (r: Option<string>)
    requires Filed(ts)
    ensures r.Some? ==> r.value in ts.all
  {
    var n := StripGeneric(name);
    if n in ts.all then Some(n)
    else
      var candidates := Named(ts, ts.order, n);
      var sameNs := LastIn(ts, candidates, preferNamespace);
      if sameNs.Some? then sameNs else if candidates != [] then Some(candidates[0]) else None
  }

  lemma {:induction false} NamedSnoc(ts: Types, order: seq<string>, k: string, name: string)
    requires k in ts.all && forall x | x in order :: x in ts.all
    ensures Named(ts, order + [k], name) == Named(ts, order, name) + if ts.all[k].name == name then [k] else []
  {
    if order == [] {
      assert order + [k] == [k];
    } else {
      assert (order + [k])[1..] == order[1..] + [k];
      NamedSnoc(ts, order[1..], k, name);
    }
  }

  lemma LastInSnoc(ts: Types, keys: seq<string>, k: string, ns: string)
    requires k in ts.all && forall x | x in keys :: x in ts.all
    ensures LastIn(ts, keys + [k], ns) == if ts.all[k].ns == ns then Some(k) else LastIn(ts, keys, ns)
  {
    assert (keys + [k])[..|keys|] == keys;
  }

  lemma NamedNext(ts: Types, i: nat, name: string)
    requires Filed(ts) && i < |ts.order|
    ensures ts.order[i] in ts.all
    ensures Named(ts, ts.order[..i + 1], name)
         == Named(ts, ts.order[..i], name) + if ts.all[ts.order[i]].name == name then [ts.order[i]] else []
  {
    assert ts.order[..i + 1] == ts.order[..i] + [ts.order[i]];
    NamedSnoc(ts, ts.order[..i], ts.order[i], name);
  }

  lemma NothingYet(ts: Types, name: string, ns: string)
    ensures Named(ts, ts.order[..0], name) == [] && LastIn(ts, [], ns) == None
  {
  }

  // The loop, against Resolved.
  method Resolve(ts: Types, name: string, preferNamespace: string) returns (r: Option<string>)
    requires Filed(ts)
    ensures r == Resolved(ts, name, preferNamespace)
  {
    hide Named, LastIn, StripGeneric;
    var n := StripGeneric(name);
    if n in ts.all {
      return Some(n);
    }
    var sameNs: Option<string> := None;
    var candidates: seq<string> := [];
    NothingYet(ts, n, preferNamespace);
    var i := 0;
    while i < |ts.order|
      invariant i <= |ts.order|
      invariant candidates == Named(ts, ts.order[..i], n)
      invariant sameNs == LastIn(ts, candidates, preferNamespace)
    {
      var k := ts.order[i];
      NamedNext(ts, i, n);
      i := i + 1;
      if ts.all[k].name != n {
        continue;
      }
      LastInSnoc(ts, candidates, k, preferNamespace);
      candidates := candidates + [k];
      if ts.all[k].ns == preferNamespace {
        sameNs := Some(k);
      }
    }
    assert ts.order[..i] == ts.order;
    if sameNs.Some? {
      return sameNs;
    }
    return if |candidates| == 1 then Some(candidates[0]) else if candidates != [] then Some(candidates[0]) else None;
  }

  // ---- which type that is ----

  predicate IsNamed(ts: Types, k: string, name: string) {
    k in ts.all && ts.all[k].name == name
  }

  predicate IsNamedIn(ts: Types, k: string, name: string, ns: string) {
    k in ts.all && ts.all[k].name == name && ts.all[k].ns == ns
  }

  // The name as it is, if a type is filed under it. If not: the last type in enumeration order that has this short
  // name and the preferred namespace; if none has both, the first with the short name; nothing without one.
  lemma ResolvedIs(ts: Types, name: string, ns: string)
    requires Filed(ts) && StripGeneric(name) !in ts.all
    ensures
      var n, r := StripGeneric(name), Resolved(ts, name, ns);
      && (r.None? <==> forall k | k in ts.all :: ts.all[k].name != n)
      && (r.Some? ==> ts.all[r.value].name == n)
      && (r.Some? && ts.all[r.value].ns != ns ==>
            && (forall k | k in ts.all && ts.all[k].name == n :: ts.all[k].ns != ns)
            && exists i :: 0 <= i < |ts.order| && ts.order[i] == r.value &&
                 forall j | 0 <= j < i :: !IsNamed(ts, ts.order[j], n))
      && (r.Some? && ts.all[r.value].ns == ns ==>
            exists i :: 0 <= i < |ts.order| && ts.order[i] == r.value &&
              forall j | i < j < |ts.order| :: !IsNamedIn(ts, ts.order[j], n, ns))
  {
    hide Named, LastIn, StripGeneric;
    var n := StripGeneric(name);
    var candidates := Named(ts, ts.order, n);
    if candidates != [] {
      var i := FirstNamed(ts, ts.order, n);
    }
    if LastIn(ts, candidates, ns).Some? {
      var i := LastNamed(ts, ts.order, n, ns);
    }
  }

  lemma {:induction false} FirstNamed(ts: Types, order: seq<string>, name: string) returns (i: nat)
    requires (forall k | k in order :: k in ts.all) && Named(ts, order, name) != []
    ensures i < |order| && order[i] == Named(ts, order, name)[0]
    ensures forall j | 0 <= j < i :: !IsNamed(ts, order[j], name)
  {
    if ts.all[order[0]].name == name {
      i := 0;
    } else {
      var k := FirstNamed(ts, order[1..], name);
      i := k + 1;
      assert forall j | 0 < j < i :: order[j] == order[1..][j - 1];
    }
  }

  lemma {:induction false} LastNamed(ts: Types, order: seq<string>, name: string, ns: string) returns (i: nat)
    requires (forall k | k in order :: k in ts.all) && LastIn(ts, Named(ts, order, name), ns).Some?
    ensures i < |order| && Some(order[i]) == LastIn(ts, Named(ts, order, name), ns)
    ensures forall j | i < j < |order| :: !IsNamedIn(ts, order[j], name, ns)
    decreases |order|
  {
    hide Named, LastIn, IsNamedIn;
    NoneNamed(ts, name, ns);
    assert order != [];
    var init, k := order[..|order| - 1], order[|order| - 1];
    assert order == init + [k];
    LastNamedStep(ts, init, k, name, ns);
    if IsNamedIn(ts, k, name, ns) {
      i := |order| - 1;
    } else {
      i := LastNamed(ts, init, name, ns);
      assert forall j | i < j < |init| :: order[j] == init[j];
      assert !IsNamedIn(ts, k, name, ns);
    }
  }

  lemma NoneNamed(ts: Types, name: string, ns: string)
    ensures LastIn(ts, Named(ts, [], name), ns) == None
  {
  }

  lemma LastNamedStep(ts: Types, init: seq<string>, k: string, name: string, ns: string)
    requires k in ts.all && forall x | x in init :: x in ts.all
    ensures LastIn(ts, Named(ts, init + [k], name), ns)
         == if IsNamedIn(ts, k, name, ns) then Some(k) else LastIn(ts, Named(ts, init, name), ns)
  {
    NamedSnoc(ts, init, k, name);
    LastInSnoc(ts, Named(ts, init, name), k, ns);
    hide Named, LastIn;
    assert Named(ts, init, name) + [] == Named(ts, init, name);
  }

  // Generic arguments, question marks behind the name and white space around it are cut off.
  lemma StripGenericIs(lead: string, core: string, trail: string, marks: string, rest: string)
    requires core != "" && !IsBlank(core[0]) && !IsBlank(core[|core| - 1])
    requires forall i | 0 <= i < |lead| :: IsBlank(lead[i])
    requires forall i | 0 <= i < |trail| :: IsBlank(trail[i])
    requires forall i | 0 <= i < |marks| :: marks[i] == '?'
    requires '<' !in core && (rest != "" ==> rest[0] == '<') && (trail == "" ==> core[|core| - 1] != '?')
    ensures StripGeneric(lead + (core + (trail + (marks + rest)))) == core
  {
    hide BeforeGeneric, DropTrailing, DropLeading;
    assert !IsBlank('?');
    assert trail != "" ==> trail[|trail| - 1] != '?';
    hide IsBlank;
    var name := lead + (core + trail);
    CutGeneric(name + marks, rest);
    assert name + marks + rest == lead + (core + (trail + (marks + rest)));
    assert name[|name| - 1] == if trail == "" then core[|core| - 1] else trail[|trail| - 1];
    CutTrailing(name, marks, c => c == '?');
    assert name == (lead + core) + trail;
    CutTrailing(lead + core, trail, IsBlank);
    CutLeading(lead, core);
  }

  lemma {:induction false} CutGeneric(a: string, rest: string)
    requires '<' !in a && (rest != "" ==> rest[0] == '<')
    ensures BeforeGeneric(a + rest) == a
  {
    if a == "" {
      assert a + rest == rest;
    } else {
      assert (a + rest)[1..] == a[1..] + rest;
      CutGeneric(a[1..], rest);
    }
  }

  lemma {:induction false} CutTrailing(a: string, b: string, drop: char -> bool)
    requires (a != "" ==> !drop(a[|a| - 1])) && forall i | 0 <= i < |b| :: drop(b[i])
    ensures DropTrailing(a + b, drop) == a
    decreases |b|
  {
    if b == "" {
      assert a + b == a;
    } else {
      assert (a + b)[..|a + b| - 1] == a + b[..|b| - 1];
      CutTrailing(a, b[..|b| - 1], drop);
    }
  }

  lemma {:induction false} CutLeading(lead: string, core: string)
    requires core != "" && !IsBlank(core[0]) && forall i | 0 <= i < |lead| :: IsBlank(lead[i])
    ensures DropLeading(lead + core) == core
  {
    if lead == "" {
      assert lead + core == core;
    } else {
      assert (lead + core)[1..] == lead[1..] + core;
      CutLeading(lead[1..], core);
    }
  }
}
