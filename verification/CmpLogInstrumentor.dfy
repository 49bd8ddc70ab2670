// CmpLogInstrumentor's two passes as they run: collect the sites, then insert around each one in place.
module CmpLogInstrumentor {
  import opened IlMachine
  import opened CmpLogRewrite
  import opened CmpLogSimulation

  ghost predicate AllBelow(a: seq<Instr>, n: Id) {
    forall i | 0 <= i < |a| :: a[i].id < n
  }

  ghost predicate DistinctIds(s: seq<Instr>) {
    forall i, j | 0 <= i < j < |s| :: s[i].id != s[j].id
  }

  lemma {:induction false} IndexOfSplit(a: seq<Instr>, t: Instr, b: seq<Instr>)
    requires NoneHas(a, t.id)
    ensures IndexOf(a + ([t] + b), t.id) == |a|
  {
    if a == [] {
      assert a + ([t] + b) == [t] + b;
    } else {
      assert (a + ([t] + b))[1..] == a[1..] + ([t] + b);
      IndexOfSplit(a[1..], t, b);
    }
  }

  // ---- the sites, in order ----

  function StringTargets(s: seq<Instr>, boundary: set<Id>): (r: seq<Id>)
    ensures |r| == StringSites(s, boundary)
  {
    if s == [] then []
    else (if IsStringSite(s[0], boundary) then [s[0].id] else []) + StringTargets(s[1..], boundary)
  }

  function IntTargets(s: seq<Instr>, boundary: set<Id>): seq<(Id, bool)> {
    if s == [] then []
    else (if IsIntSite(s, boundary) then [(s[0].id, s[0].op.LdcI8?)] else []) + IntTargets(s[1..], boundary)
  }

  lemma Reassociate(s: seq<Instr>, j: nat, t: seq<Instr>, x: seq<Instr>)
    requires 0 < j < |s| && t == s[1..][..j - 1] + x
    ensures [s[0]] + t == s[..j] + x
  {
    assert [s[0]] + s[1..][..j - 1] == s[..j];
  }

  // The first site splits the list: what is before it goes through the pass unchanged.
  lemma {:induction false} FirstStringTarget(s: seq<Instr>, boundary: set<Id>, local: nat, id: Id) returns (j: nat)
    requires StringTargets(s, boundary) != []
    ensures j < |s| && s[j].id == StringTargets(s, boundary)[0]
    ensures StringTargets(s[j + 1..], boundary) == StringTargets(s, boundary)[1..]
    ensures StringPass(s, boundary, local, id)
         == s[..j] + (StringChunk(local, local + 1, id)
                      + ([s[j]] + StringPass(s[j + 1..], boundary, local + 2, id + 7)))
  {
    if IsStringSite(s[0], boundary) {
      j := 0;
      assert s[..0] == [];
    } else {
      var k := FirstStringTarget(s[1..], boundary, local, id);
      j := k + 1;
      assert s[1..][k + 1..] == s[j + 1..];
      Reassociate(s, j, StringPass(s[1..], boundary, local, id), StringChunk(local, local + 1, id)
                  + ([s[j]] + StringPass(s[j + 1..], boundary, local + 2, id + 7)));
    }
  }

  lemma {:induction false} FirstIntTarget(s: seq<Instr>, boundary: set<Id>, id: Id) returns (j: nat)
    requires IntTargets(s, boundary) != []
    ensures j < |s| && IsIntConst(s[j].op) && (s[j].id, s[j].op.LdcI8?) == IntTargets(s, boundary)[0]
    ensures IntTargets(s[j + 1..], boundary) == IntTargets(s, boundary)[1..]
    ensures IntPass(s, boundary, id)
         == s[..j] + ([s[j]] + (IntChunk(s[j].op, id)
                                + IntPass(s[j + 1..], boundary, id + |IntChunk(s[j].op, 0)|)))
  {
    if IsIntSite(s, boundary) {
      j := 0;
      assert s[..0] == [];
    } else {
      var k := FirstIntTarget(s[1..], boundary, id);
      j := k + 1;
      assert s[1..][k + 1..] == s[j + 1..];
      Reassociate(s, j, IntPass(s[1..], boundary, id), [s[j]]
                  + (IntChunk(s[j].op, id) + IntPass(s[j + 1..], boundary, id + |IntChunk(s[j].op, 0)|)));
    }
  }

  lemma {:induction false} NoStringTargets(s: seq<Instr>, boundary: set<Id>, local: nat, id: Id)
    requires StringTargets(s, boundary) == []
    ensures StringPass(s, boundary, local, id) == s
  {
    if s != [] {
      NoStringTargets(s[1..], boundary, local, id);
    }
  }

  lemma {:induction false} NoIntTargets(s: seq<Instr>, boundary: set<Id>, id: Id)
    requires IntTargets(s, boundary) == []
    ensures IntPass(s, boundary, id) == s
  {
    if s != [] {
      NoIntTargets(s[1..], boundary, id);
    }
  }

  lemma Regroup(done: seq<Instr>, skip: seq<Instr>, pre: seq<Instr>, t: Instr, post: seq<Instr>, x: seq<Instr>)
    ensures done + (skip + (pre + ([t] + (post + x)))) == ((done + skip) + (pre + ([t] + post))) + x
    ensures (done + skip) + (pre + ([t] + (post + x))) == ((done + skip) + (pre + ([t] + post))) + x
    ensures pre == [] ==> pre + ([t] + post) == [t] + post && pre + ([t] + (post + x)) == [t] + (post + x)
    ensures post == [] ==> [t] + post == [t] && [t] + (post + x) == [t] + x
  {
  }

  lemma SplitIsFresh(a: seq<Instr>, t: Instr, b: seq<Instr>)
    requires DistinctIds(a + ([t] + b))
    ensures NoneHas(a, t.id)
  {
    var s := a + ([t] + b);
    forall i | 0 <= i < |a|
      ensures a[i].id != t.id
    {
      assert s[i] == a[i] && s[|a|] == t;
    }
  }

  // A new identity keeps identities distinct wherever it goes.
  lemma PutKeepsDistinct(a: seq<Instr>, x: Instr, b: seq<Instr>)
    requires DistinctIds(a + b) && AllBelow(a + b, x.id)
    ensures DistinctIds(a + [x] + b) && AllBelow(a + [x] + b, x.id + 1)
  {
    var s, r := a + b, a + [x] + b;
    forall i | 0 <= i < |r| && i != |a|
      ensures r[i] == s[if i < |a| then i else i - 1]
    {
    }
  }

  class MethodBody {
    var instructions: seq<Instr>
    var variables: nat
    var nextId: Id             // identity of the next instruction object
    const boundary: set<Id>    // instructions an exception handler starts or ends at

    ghost predicate Valid()
      reads this
    {
      DistinctIds(instructions) && AllBelow(instructions, nextId)
    }

    // ILProcessor.InsertBefore with a new instruction object.
    method InsertBefore(ghost a: seq<Instr>, target: Instr, ghost b: seq<Instr>, op: Op)
      requires Valid() && instructions == a + ([target] + b)
      modifies this`instructions, this`nextId
      ensures Valid() && nextId == old(nextId) + 1
      ensures instructions == (a + [Instr(old(nextId), op)]) + ([target] + b)
    {
      SplitIsFresh(a, target, b);
      IndexOfSplit(a, target, b);
      PutKeepsDistinct(a, Instr(nextId, op), [target] + b);
      var i := IndexOf(instructions, target.id);
      instructions := instructions[..i] + [Instr(nextId, op)] + instructions[i..];
      nextId := nextId + 1;
    }

    // ILProcessor.InsertAfter with a new instruction object, which it returns.
    method InsertAfter(ghost a: seq<Instr>, target: Instr, ghost b: seq<Instr>, op: Op) returns (added: Instr)
      requires Valid() && instructions == a + ([target] + b)
      modifies this`instructions, this`nextId
      ensures Valid() && nextId == old(nextId) + 1 && added == Instr(old(nextId), op)
      ensures instructions == (a + [target]) + ([added] + b)
    {
      hide DistinctIds, AllBelow, IndexOf;
      SplitIsFresh(a, target, b);
      IndexOfSplit(a, target, b);
      added := Instr(nextId, op);
      assert instructions == (a + [target]) + b;
      PutKeepsDistinct(a + [target], added, b);
      var i := IndexOf(instructions, target.id);
      instructions := instructions[..i + 1] + [added] + instructions[i + 1..];
      nextId := nextId + 1;
      assert instructions == (a + [target]) + [added] + b;
    }

    // The seven insertions in front of one call.
    method InsertStringChunk(ghost a: seq<Instr>, target: Instr, ghost b: seq<Instr>)
      requires Valid() && instructions == a + ([target] + b)
      modifies this
      ensures Valid() && nextId == old(nextId) + 7 && variables == old(variables) + 2
      ensures instructions == a + (StringChunk(old(variables), old(variables) + 1, old(nextId)) + ([target] + b))
    {
      var tmpB, tmpA := variables, variables + 1;
      variables := variables + 2;
      ghost var n, a' := nextId, a;
      InsertBefore(a', target, b, Stloc(tmpB));
      a' := a' + [Instr(n, Stloc(tmpB))];
      InsertBefore(a', target, b, Stloc(tmpA));
      a' := a' + [Instr(n + 1, Stloc(tmpA))];
      InsertBefore(a', target, b, Ldloc(tmpA));
      a' := a' + [Instr(n + 2, Ldloc(tmpA))];
      InsertBefore(a', target, b, Ldloc(tmpB));
      a' := a' + [Instr(n + 3, Ldloc(tmpB))];
      InsertBefore(a', target, b, RecordString);
      a' := a' + [Instr(n + 4, RecordString)];
      InsertBefore(a', target, b, Ldloc(tmpA));
      a' := a' + [Instr(n + 5, Ldloc(tmpA))];
      InsertBefore(a', target, b, Ldloc(tmpB));
      a' := a' + [Instr(n + 6, Ldloc(tmpB))];
      assert a' == a + StringChunk(tmpB, tmpA, n);
    }

    // The two or three insertions behind one constant.
    method InsertIntChunk(ghost a: seq<Instr>, ldc: Instr, ghost b: seq<Instr>, isI8: bool)
      requires Valid() && instructions == a + ([ldc] + b) && isI8 == ldc.op.LdcI8?
      modifies this`instructions, this`nextId
      ensures Valid() && nextId == old(nextId) + |IntChunk(ldc.op, 0)|
      ensures instructions == a + ([ldc] + (IntChunk(ldc.op, old(nextId)) + b))
    {
      var dup := InsertAfter(a, ldc, b, Dup);
      var cursor := dup;
      ghost var a' := a + [ldc];
      if !isI8 {
        var conv := InsertAfter(a', cursor, b, ConvI8);
        a' := a' + [cursor];
        cursor := conv;
      }
      var call := InsertAfter(a', cursor, b, RecordInt);
      assert (a' + [cursor]) + ([call] + b) == a + ([ldc] + (IntChunk(ldc.op, old(nextId)) + b));
    }

    method CollectStringTargets() returns (targets: seq<Id>)
      ensures targets == StringTargets(instructions, boundary)
    {
      targets := [];
      var i := 0;
      while i < |instructions|
        invariant i <= |instructions|
        invariant targets + StringTargets(instructions[i..], boundary) == StringTargets(instructions, boundary)
      {
        var instr := instructions[i];
        assert instructions[i..][1..] == instructions[i + 1..];
        if instr.op.CallStringCompare? && instr.id !in boundary {
          targets := targets + [instr.id];
        }
        i := i + 1;
      }
    }

    method CollectIntTargets() returns (sites: seq<(Id, bool)>)
      ensures sites == IntTargets(instructions, boundary)
    {
      sites := [];
      var i := 0;
      while i < |instructions|
        invariant i <= |instructions|
        invariant sites + IntTargets(instructions[i..], boundary) == IntTargets(instructions, boundary)
      {
        var cur := instructions[i];
        ghost var rest := instructions[i..];
        assert rest[1..] == instructions[i + 1..];
        i := i + 1;
        if cur.op.LdcI4? || cur.op.LdcI8? {
          var j := i;
          while j < |instructions| && instructions[j].op.Nop?
            invariant i <= j <= |instructions|
            invariant SkipNops(instructions[j..]) == SkipNops(instructions[i..])
          {
            assert instructions[j..][1..] == instructions[j + 1..];
            j := j + 1;
          }
          if j < |instructions| && IsCompareOpcode(instructions[j].op) && cur.id !in boundary {
            sites := sites + [(cur.id, cur.op.LdcI8?)];
          }
        }
      }
    }

    // One string site: everything up to and including the call is done.
    method InstrumentCall(id: Id, ghost done: seq<Instr>, ghost rest: seq<Instr>)
      returns (ghost done': seq<Instr>, ghost rest': seq<Instr>)
      requires Valid() && instructions == done + rest
      requires StringTargets(rest, boundary) != [] && StringTargets(rest, boundary)[0] == id
      modifies this
      ensures Valid() && instructions == done' + rest'
      ensures StringTargets(rest', boundary) == StringTargets(rest, boundary)[1..]
      ensures variables == old(variables) + 2 && nextId == old(nextId) + 7
      ensures done + StringPass(rest, boundary, old(variables), old(nextId))
           == done' + StringPass(rest', boundary, variables, nextId)
    {
      hide StringTargets, StringPass, DistinctIds, AllBelow;
      ghost var j := FirstStringTarget(rest, boundary, variables, nextId);
      ghost var a, chunk := done + rest[..j], StringChunk(variables, variables + 1, nextId);
      rest' := rest[j + 1..];
      assert instructions == a + ([rest[j]] + rest');
      SplitIsFresh(a, rest[j], rest');
      IndexOfSplit(a, rest[j], rest');
      var callInstr := instructions[IndexOf(instructions, id)];
      done' := a + (chunk + [callInstr]);
      InsertStringChunk(a, callInstr, rest');
      Regroup(done, rest[..j], chunk, callInstr, [], rest');
      Regroup(done, rest[..j], chunk, callInstr, [], StringPass(rest', boundary, variables, nextId));
    }

    // One integer site: everything up to and including the recorder call is done.
    method InstrumentConst(site: (Id, bool), ghost done: seq<Instr>, ghost rest: seq<Instr>)
      returns (ghost done': seq<Instr>, ghost rest': seq<Instr>)
      requires Valid() && instructions == done + rest
      requires IntTargets(rest, boundary) != [] && IntTargets(rest, boundary)[0] == site
      modifies this`instructions, this`nextId
      ensures Valid() && instructions == done' + rest'
      ensures IntTargets(rest', boundary) == IntTargets(rest, boundary)[1..]
      ensures done + IntPass(rest, boundary, old(nextId)) == done' + IntPass(rest', boundary, nextId)
    {
      ghost var j := FirstIntTarget(rest, boundary, nextId);
      ghost var a, chunk := done + rest[..j], IntChunk(rest[j].op, nextId);
      rest' := rest[j + 1..];
      assert instructions == a + ([rest[j]] + rest');
      SplitIsFresh(a, rest[j], rest');
      IndexOfSplit(a, rest[j], rest');
      var ldc := instructions[IndexOf(instructions, site.0)];
      done' := a + ([ldc] + chunk);
      InsertIntChunk(a, ldc, rest', site.1);
      Regroup(done, rest[..j], [], ldc, chunk, rest');
      Regroup(done, rest[..j], [], ldc, chunk, IntPass(rest', boundary, nextId));
    }

    method InstrumentStringComparisons() returns (count: nat)
      requires Valid()
      modifies this
      ensures Valid()
      ensures count == StringSites(old(instructions), boundary)
      ensures instructions == StringPass(old(instructions), boundary, old(variables), old(nextId))
      ensures variables == old(variables) + 2 * count && nextId == old(nextId) + 7 * count
    {
      var targets := CollectStringTargets();
      ghost var done, rest: seq<Instr> := [], instructions;
      var n := 0;
      while n < |targets|
        invariant n <= |targets| && targets[n..] == StringTargets(rest, boundary)
        invariant Valid() && instructions == done + rest
        invariant StringPass(old(instructions), boundary, old(variables), old(nextId))
               == done + StringPass(rest, boundary, variables, nextId)
        invariant variables == old(variables) + 2 * n && nextId == old(nextId) + 7 * n
      {
        done, rest := InstrumentCall(targets[n], done, rest);
        n := n + 1;
      }
      NoStringTargets(rest, boundary, variables, nextId);
      count := |targets|;
    }

    method InstrumentIntComparisons() returns (count: nat)
      requires Valid()
      modifies this`instructions, this`nextId
      ensures Valid()
      ensures count == |IntTargets(old(instructions), boundary)|
      ensures instructions == IntPass(old(instructions), boundary, old(nextId))
    {
      var sites := CollectIntTargets();
      ghost var done, rest: seq<Instr> := [], instructions;
      var n := 0;
      while n < |sites|
        invariant n <= |sites| && sites[n..] == IntTargets(rest, boundary)
        invariant Valid() && instructions == done + rest
        invariant IntPass(old(instructions), boundary, old(nextId)) == done + IntPass(rest, boundary, nextId)
      {
        done, rest := InstrumentConst(sites[n], done, rest);
        n := n + 1;
      }
      NoIntTargets(rest, boundary, nextId);
      count := |sites|;
    }

    // What Run does to one method body.
    method Instrument() returns (stringSites: nat, intSites: nat)
      requires Valid()
      modifies this
      ensures Valid()
      ensures stringSites == StringSites(old(instructions), boundary)
      ensures variables == old(variables) + 2 * stringSites
      ensures intSites
           == |IntTargets(StringPass(old(instructions), boundary, old(variables), old(nextId)), boundary)|
      ensures instructions == Instrumented(old(instructions), boundary, old(variables), old(nextId))
    {
      stringSites := InstrumentStringComparisons();
      intSites := InstrumentIntComparisons();
    }
  }

  // What Instrument leaves behind in a body with this many variables and ids.
  function Instrumented(body: seq<Instr>, boundary: set<Id>, variables: nat, nextId: Id): seq<Instr> {
    IntPass(StringPass(body, boundary, variables, nextId), boundary, nextId + 7 * StringSites(body, boundary))
  }

  // A body as the compiler emits it: its ids, branch targets and locals are those handed out so far.
  ghost predicate AsCompiled(body: seq<Instr>, variables: nat, nextId: Id) {
    Old(body, Counters(variables, nextId, nextId))
  }

  lemma StillOld(body: seq<Instr>, variables: nat, nextId: Id, later: Id)
    requires AsCompiled(body, variables, nextId) && nextId <= later
    ensures Old(body, Counters(variables, nextId, later))
  {
    forall i | 0 <= i < |body|
      ensures OldOp(body[i].op, Counters(variables, nextId, later))
    {
      assert OldOp(body[i].op, Counters(variables, nextId, nextId));
    }
  }

  // Instrumenting a method body preserves its meaning, after any number of steps.
  lemma InstrumentedPreservesMeaning(env: Env, body: seq<Instr>, boundary: set<Id>, variables: nat, nextId: Id,
                                     locals: seq<Value>, temps: seq<Value>, world: World, n: nat)
    requires AsCompiled(body, variables, nextId)
    requires |locals| == variables && |temps| == 2 * StringSites(body, boundary)
    ensures
      var c := Counters(variables, nextId, nextId + 7 * StringSites(body, boundary));
      var o := Observed(Start(locals, world), true, []);
      var t := Time(env, body, boundary, c, o, n);
      var seen := WatchRun(env, body, boundary, o, n);
      && t >= n
      && seen.m == Run(env, body, Start(locals, world), n)
      && Matches(body, boundary, c, |locals| + |temps|, seen,
                 Run(env, Instrumented(body, boundary, variables, nextId), Start(locals + temps, world), t))
  {
    hide *;
    var c := Counters(variables, nextId, nextId + 7 * StringSites(body, boundary));
    StillOld(body, variables, nextId, c.intId);
    LoggingPreservesMeaning(env, body, boundary, c, locals, temps, world, n);
    InstrumentedIs(body, boundary, variables, nextId);
  }

  lemma InstrumentedIs(body: seq<Instr>, boundary: set<Id>, variables: nat, nextId: Id)
    ensures Instrumented(body, boundary, variables, nextId)
         == IntPass(StringPass(body, boundary, variables, nextId), boundary, nextId + 7 * StringSites(body, boundary))
  {
  }

  // It stops exactly if the original does, with the same result.
  lemma InstrumentedPreservesTermination(env: Env, body: seq<Instr>, boundary: set<Id>, variables: nat, nextId: Id,
                                         locals: seq<Value>, temps: seq<Value>, world: World)
    requires AsCompiled(body, variables, nextId)
    requires |locals| == variables && |temps| == 2 * StringSites(body, boundary)
    ensures
      var e := Instrumented(body, boundary, variables, nextId);
      var m, r := Start(locals, world), Start(locals + temps, world);
      && ((exists n: nat :: !Run(env, body, m, n).Running?) <==> (exists n: nat :: !Run(env, e, r, n).Running?))
      && forall n: nat | !Run(env, e, r, n).Running? ::
           && !Run(env, body, m, n).Running?
           && Run(env, e, r, n)
              == Outcome(Run(env, body, m, n), WatchRun(env, body, boundary, Observed(m, true, []), n).log)
  {
    hide *;
    var c := Counters(variables, nextId, nextId + 7 * StringSites(body, boundary));
    StillOld(body, variables, nextId, c.intId);
    LoggingPreservesTermination(env, body, boundary, c, locals, temps, world);
    InstrumentedIs(body, boundary, variables, nextId);
  }
}
