// The rewritten body simulates the original one, step for step, and its log is what the sites saw.
module CmpLogSimulation {
  import opened IlMachine
  import opened CmpLogRewrite

  // ---- where things end up ----

  function CountersAt(s: seq<Instr>, boundary: set<Id>, c: Counters, i: nat): Counters
    requires i <= |s|
  {
    if i == 0 then c else CountersAt(s[1..], boundary, NextCounters(s, boundary, c), i - 1)
  }

  // First instruction put in the rewritten body on behalf of instruction i.
  function Pos(s: seq<Instr>, boundary: set<Id>, c: Counters, i: nat): nat
    requires i <= |s|
  {
    if i == 0 then 0
    else |Pre(s, boundary, c)| + 1 + |Post(s, boundary, c)| + Pos(s[1..], boundary, NextCounters(s, boundary, c), i - 1)
  }

  lemma {:induction false} Layout(s: seq<Instr>, boundary: set<Id>, c: Counters, i: nat)
    requires i <= |s|
    ensures
      var p, e := Pos(s, boundary, c, i), Expand(s, boundary, c);
      && p <= |e|
      && e[p..] == Expand(s[i..], boundary, CountersAt(s, boundary, c, i))
  {
    hide Pre, Post;
    if i > 0 {
      var d := NextCounters(s, boundary, c);
      Layout(s[1..], boundary, d, i - 1);
      assert s[1..][i - 1..] == s[i..];
      var pre, post, rest := Pre(s, boundary, c), Post(s, boundary, c), Expand(s[1..], boundary, d);
      var h := pre + [s[0]] + post;
      assert pre + ([s[0]] + (post + rest)) == h + rest;
    }
  }

  lemma {:induction false} PosNext(s: seq<Instr>, boundary: set<Id>, c: Counters, i: nat)
    requires i < |s|
    ensures
      var ci := CountersAt(s, boundary, c, i);
      Pos(s, boundary, c, i + 1)
        == Pos(s, boundary, c, i) + |Pre(s[i..], boundary, ci)| + 1 + |Post(s[i..], boundary, ci)|
  {
    if i > 0 {
      PosNext(s[1..], boundary, NextCounters(s, boundary, c), i - 1);
      assert s[1..][i - 1..] == s[i..];
    }
  }

  // The temporaries of every string site lie above the original locals and below the new count.
  lemma {:induction false} TemporariesAt(s: seq<Instr>, boundary: set<Id>, c: Counters, i: nat)
    requires i < |s|
    ensures
      var ci := CountersAt(s, boundary, c, i);
      && c.local <= ci.local
      && (IsStringSite(s[i], boundary) ==> ci.local + 2 <= c.local + 2 * StringSites(s, boundary))
  {
    if i > 0 {
      TemporariesAt(s[1..], boundary, NextCounters(s, boundary, c), i - 1);
    }
  }

  // Every instruction already in the body, and every branch target, predates the inserted instructions.
  predicate Below2(id: Id, c: Counters) {
    id < c.stringId && id < c.intId
  }

  predicate OldOp(op: Op, c: Counters) {
    match op
    case Ldloc(k) => k < c.local
    case Stloc(k) => k < c.local
    case Beq(t) => Below2(t, c)
    case BneUn(t) => Below2(t, c)
    case Jump(_, targets) => forall t | t in targets :: Below2(t, c)
    case RecordString => false
    case RecordInt => false
    case _ => true
  }

  ghost predicate Old(s: seq<Instr>, c: Counters) {
    forall i | 0 <= i < |s| :: Below2(s[i].id, c) && OldOp(s[i].op, c)
  }

  lemma InsertedIdsAreNew(s: seq<Instr>, boundary: set<Id>, c: Counters, id: Id)
    requires Below2(id, c)
    ensures NoneHas(Pre(s, boundary, c), id) && NoneHas(Post(s, boundary, c), id)
  {
  }

  lemma {:induction false} IndexOfSkips(a: seq<Instr>, s: seq<Instr>, id: Id)
    requires NoneHas(a, id)
    ensures IndexOf(a + s, id) == |a| + IndexOf(s, id)
  {
    if a == [] {
      assert a + s == s;
    } else {
      assert (a + s)[1..] == a[1..] + s;
      IndexOfSkips(a[1..], s, id);
    }
  }

  lemma IndexOfHead(s: seq<Instr>, boundary: set<Id>, c: Counters, id: Id)
    requires s != [] && Below2(id, c)
    ensures
      var pre, post := Pre(s, boundary, c), Post(s, boundary, c);
      IndexOf(Expand(s, boundary, c), id)
        == |pre| + if s[0].id == id then 0
                   else 1 + |post| + IndexOf(Expand(s[1..], boundary, NextCounters(s, boundary, c)), id)
  {
    var pre, post := Pre(s, boundary, c), Post(s, boundary, c);
    var rest := Expand(s[1..], boundary, NextCounters(s, boundary, c));
    var tail := [s[0]] + (post + rest);
    InsertedIdsAreNew(s, boundary, c, id);
    IndexOfSkips(pre, tail, id);
    if s[0].id != id {
      assert tail[1..] == post + rest;
      IndexOfSkips(post, rest, id);
    }
  }

  // A branch target keeps its identity, so it resolves to the original instruction, past anything put before it.
  lemma {:induction false} TargetsResolve(s: seq<Instr>, boundary: set<Id>, c: Counters, id: Id)
    requires Below2(id, c)
    ensures
      var i, e := IndexOf(s, id), Expand(s, boundary, c);
      IndexOf(e, id)
        == if i == |s| then |e|
           else Pos(s, boundary, c, i) + |Pre(s[i..], boundary, CountersAt(s, boundary, c, i))|
  {
    if s != [] {
      IndexOfHead(s, boundary, c, id);
      if s[0].id == id {
        assert s[0..] == s;
      } else {
        var d, i := NextCounters(s, boundary, c), IndexOf(s, id);
        TargetsResolve(s[1..], boundary, d, id);
        assert s[1..][i - 1..] == s[i..];
      }
    }
  }

  // ---- the original run, observed ----

  // The original machine, whether its current instruction was entered by fall-through, and what was recorded so far.
  datatype Observed = Observed(m: Machine, fell: bool, log: seq<Record>)

  function Before(i: Instr, boundary: set<Id>, o: Observed): seq<Record>
    requires o.m.Running?
  {
    if o.fell && IsStringSite(i, boundary) && TwoStrings(o.m.stack)
    then [Strings(Below(o.m.stack), Top(o.m.stack))] else []
  }

  function After(s: seq<Instr>, boundary: set<Id>): seq<Record> {
    if IsIntSite(s, boundary) then [Int(s[0].op.n)] else []
  }

  // One original step: the machine does exactly what it always does; a string site entered by fall-through adds its
  // two operands (before the comparison runs), a constant of an integer site adds itself.
  function Watch(env: Env, body: seq<Instr>, boundary: set<Id>, o: Observed): Observed {
    if !o.m.Running? then o
    else if o.m.pc >= |body| then Observed(Stuck, false, o.log)
    else
      var i := body[o.m.pc];
      Observed(Step(env, body, o.m), !Jumps(env, i.op, o.m),
               o.log + Before(i, boundary, o) + After(body[o.m.pc..], boundary))
  }

  function WatchRun(env: Env, body: seq<Instr>, boundary: set<Id>, o: Observed, n: nat): Observed
    decreases n, body
  {
    if n == 0 then o else WatchRun(env, body, boundary, Watch(env, body, boundary, o), n - 1)
  }

  // ---- the relation ----

  predicate SameLocals(a: seq<Value>, b: seq<Value>, c: Counters, room: nat) {
    |a| == c.local <= room <= |b| && b[..c.local] == a
  }

  ghost predicate Matches(body: seq<Instr>, boundary: set<Id>, c: Counters, room: nat, o: Observed, r: Machine) {
    match o.m
    case Running(pc, stack, locals, world, _) =>
      && pc <= |body|
      && r.Running?
      && r.pc == Pos(body, boundary, c, pc)
                 + (if o.fell then 0 else |Pre(body[pc..], boundary, CountersAt(body, boundary, c, pc))|)
      && r.stack == stack
      && r.world == world
      && r.log == o.log
      && SameLocals(locals, r.locals, c, room)
    case Returned(stack, world, _) => r == Returned(stack, world, o.log)
    case Thrown(e, world, _) => r == Thrown(e, world, o.log)
    case Stuck => r == Stuck
  }

  // ---- the inserted code ----

  predicate Has(code: seq<Instr>, p: nat, chunk: seq<Instr>) {
    p + |chunk| <= |code| && code[p..p + |chunk|] == chunk
  }

  lemma HasAt(code: seq<Instr>, p: nat, chunk: seq<Instr>, k: nat)
    requires Has(code, p, chunk) && k < |chunk|
    ensures code[p + k] == chunk[k]
  {
    assert code[p + k] == code[p..p + |chunk|][k];
  }

  lemma RunStep(env: Env, code: seq<Instr>, m: Machine, n: nat)
    requires n > 0 && m.Running? && m.pc < |code|
    ensures Run(env, code, m, n) == Run(env, code, Exec(env, code, code[m.pc].op, m), n - 1)
  {
  }

  // First half: both operands go to the temporaries.
  lemma StoresRun(env: Env, code: seq<Instr>, m: Machine, a: nat, id: Id, n: nat)
    requires m.Running? && Has(code, m.pc, StringChunk(a, a + 1, id)) && a + 1 < |m.locals|
    ensures
      var s := m.stack;
      Run(env, code, m, n + 2)
        == if |s| < 2 then Stuck
           else
             Run(env, code, Running(m.pc + 2, Pop(s, 2), m.locals[a := Top(s)][a + 1 := Below(s)], m.world, m.log), n)
  {
    var chunk, s := StringChunk(a, a + 1, id), m.stack;
    HasAt(code, m.pc, chunk, 0);
    HasAt(code, m.pc, chunk, 1);
    RunStep(env, code, m, n + 2);
    if s == [] {
      RunStopped(env, code, Stuck, n + 1);
    } else {
      var m1 := Running(m.pc + 1, Pop(s, 1), m.locals[a := Top(s)], m.world, m.log);
      if |s| == 1 {
        RunStep(env, code, m1, n + 1);
        RunStopped(env, code, Stuck, n);
      } else {
        assert Pop(Pop(s, 1), 1) == Pop(s, 2);
        RunStep(env, code, m1, n + 1);
      }
    }
  }

  // Loading the two temporaries pushes both operands back in order.
  lemma LoadsRun(env: Env, code: seq<Instr>, m: Machine, a: nat, id: Id, x: Value, y: Value, n: nat)
    requires m.Running? && Has(code, m.pc, [Instr(id, Ldloc(a + 1)), Instr(id + 1, Ldloc(a))]) && a + 1 < |m.locals|
    requires m.locals[a + 1] == x && m.locals[a] == y
    ensures Run(env, code, m, n + 2)
         == Run(env, code, Running(m.pc + 2, m.stack + [x, y], m.locals, m.world, m.log), n)
  {
    var chunk := [Instr(id, Ldloc(a + 1)), Instr(id + 1, Ldloc(a))];
    HasAt(code, m.pc, chunk, 0);
    HasAt(code, m.pc, chunk, 1);
    RunStep(env, code, m, n + 2);
    RunStep(env, code, Running(m.pc + 1, m.stack + [x], m.locals, m.world, m.log), n + 1);
    assert m.stack + [x] + [y] == m.stack + [x, y];
  }

  lemma RecordRuns(env: Env, code: seq<Instr>, m: Machine, n: nat)
    requires m.Running? && m.pc < |code| && code[m.pc].op == RecordString && |m.stack| >= 2
    ensures
      Run(env, code, m, n + 1)
        == if TwoStrings(m.stack)
           then Run(env, code, Running(m.pc + 1, Pop(m.stack, 2), m.locals, m.world,
                                       m.log + [Strings(Below(m.stack), Top(m.stack))]), n)
           else Stuck
  {
    RunStep(env, code, m, n + 1);
    if !TwoStrings(m.stack) {
      RunStopped(env, code, Stuck, n);
    }
  }

  // The string preamble leaves stack and world as they were and logs both operands; only temporaries change.
  lemma StringChunkRuns(env: Env, code: seq<Instr>, m: Machine, a: nat, id: Id)
    requires m.Running? && Has(code, m.pc, StringChunk(a, a + 1, id)) && a + 1 < |m.locals|
    ensures
      Run(env, code, m, 7)
        == if TwoStrings(m.stack)
           then Running(m.pc + 7, m.stack, m.locals[a := Top(m.stack)][a + 1 := Below(m.stack)], m.world,
                        m.log + [Strings(Below(m.stack), Top(m.stack))])
           else Stuck
  {
    var s, p := m.stack, m.pc;
    StoresRun(env, code, m, a, id, 5);
    if |s| >= 2 {
      var base, x, y := Pop(s, 2), Below(s), Top(s);
      assert base + [x, y] == s;
      assert Has(code, p + 2, [Instr(id + 2, Ldloc(a + 1)), Instr(id + 3, Ldloc(a))])
          && Has(code, p + 5, [Instr(id + 5, Ldloc(a + 1)), Instr(id + 6, Ldloc(a))])
          && code[p + 4].op == RecordString by {
        HasParts(code, p, a, id);
      }
      var locals := m.locals[a := y][a + 1 := x];
      LoadsRun(env, code, Running(p + 2, base, locals, m.world, m.log), a, id + 2, x, y, 3);
      RecordRuns(env, code, Running(p + 4, s, locals, m.world, m.log), 2);
      if TwoStrings(s) {
        LoadsRun(env, code, Running(p + 5, base, locals, m.world, m.log + [Strings(x, y)]), a, id + 5, x, y, 0);
      }
    }
  }

  lemma HasParts(code: seq<Instr>, p: nat, a: nat, id: Id)
    requires Has(code, p, StringChunk(a, a + 1, id))
    ensures p + 7 <= |code|
    ensures Has(code, p + 2, [Instr(id + 2, Ldloc(a + 1)), Instr(id + 3, Ldloc(a))])
    ensures Has(code, p + 5, [Instr(id + 5, Ldloc(a + 1)), Instr(id + 6, Ldloc(a))])
    ensures code[p + 4].op == RecordString
  {
    var chunk := StringChunk(a, a + 1, id);
    assert code[p + 2..p + 4] == code[p..p + 7][2..4] == chunk[2..4];
    assert code[p + 5..p + 7] == code[p..p + 7][5..7] == chunk[5..7];
    HasAt(code, p, chunk, 4);
  }

  // The integer epilogue leaves everything as it was and logs the constant.
  lemma IntChunkRuns(env: Env, code: seq<Instr>, m: Machine, op: Op, id: Id)
    requires m.Running? && Has(code, m.pc, IntChunk(op, id)) && IsIntConst(op)
    requires m.stack != [] && Top(m.stack) == if op.LdcI4? then Int32(op.n) else Int64(op.n)
    ensures
      Run(env, code, m, |IntChunk(op, id)|)
        == Running(m.pc + |IntChunk(op, id)|, m.stack, m.locals, m.world, m.log + [Int(op.n)])
  {
    var chunk := IntChunk(op, id);
    var s, v, k := m.stack, Top(m.stack), |chunk|;
    HasAt(code, m.pc, chunk, 0);
    RunStep(env, code, m, k);
    var m1 := Running(m.pc + 1, s + [v], m.locals, m.world, m.log);
    if op.LdcI4? {
      HasAt(code, m.pc, chunk, 1);
      RunStep(env, code, m1, k - 1);
      m1 := Running(m.pc + 2, Pop(s + [v], 1) + [Int64(op.n)], m.locals, m.world, m.log);
    }
    HasAt(code, m.pc, chunk, k - 1);
    RunStep(env, code, m1, 1);
    assert Pop(m1.stack, 1) == s;
  }

  // ---- one step ----

  function PreAt(body: seq<Instr>, boundary: set<Id>, c: Counters, i: nat): seq<Instr>
    requires i <= |body|
  {
    Pre(body[i..], boundary, CountersAt(body, boundary, c, i))
  }

  function PostAt(body: seq<Instr>, boundary: set<Id>, c: Counters, i: nat): seq<Instr>
    requires i <= |body|
  {
    Post(body[i..], boundary, CountersAt(body, boundary, c, i))
  }

  // Around instruction i of the original body.
  lemma Here(body: seq<Instr>, boundary: set<Id>, c: Counters, i: nat)
    requires i < |body|
    ensures
      var e, p, pre, post := Expand(body, boundary, c), Pos(body, boundary, c, i),
                             PreAt(body, boundary, c, i), PostAt(body, boundary, c, i);
      && Has(e, p, pre)
      && p + |pre| < |e| && e[p + |pre|] == body[i]
      && Has(e, p + |pre| + 1, post)
      && Pos(body, boundary, c, i + 1) == p + |pre| + 1 + |post|
  {
    var e, p, pre, post := Expand(body, boundary, c), Pos(body, boundary, c, i),
                           PreAt(body, boundary, c, i), PostAt(body, boundary, c, i);
    Layout(body, boundary, c, i);
    PosNext(body, boundary, c, i);
    var s, ci := body[i..], CountersAt(body, boundary, c, i);
    Cut(e, p, pre, s[0], post, Expand(s[1..], boundary, NextCounters(s, boundary, ci)));
  }

  lemma Cut(e: seq<Instr>, p: nat, pre: seq<Instr>, x: Instr, post: seq<Instr>, rest: seq<Instr>)
    requires p <= |e| && e[p..] == pre + ([x] + (post + rest))
    ensures Has(e, p, pre) && p + |pre| < |e| && e[p + |pre|] == x && Has(e, p + |pre| + 1, post)
  {
    assert e[p..][..|pre|] == e[p..p + |pre|];
    assert e[p + |pre|] == e[p..][|pre|];
    assert e[p..][|pre| + 1..|pre| + 1 + |post|] == e[p + |pre| + 1..p + |pre| + 1 + |post|];
  }

  // r is about to run the same instruction in the same state; its log may differ.
  ghost predicate Aligned(body: seq<Instr>, boundary: set<Id>, c: Counters, room: nat, m: Machine, r: Machine) {
    && m.Running? && r.Running?
    && m.pc < |body|
    && r.pc == Pos(body, boundary, c, m.pc) + |PreAt(body, boundary, c, m.pc)|
    && r.stack == m.stack
    && r.world == m.world
    && SameLocals(m.locals, r.locals, c, room)
  }

  // A branch lands just before the original instruction, past anything put in front of it.
  lemma GotoMatches(body: seq<Instr>, boundary: set<Id>, c: Counters, room: nat, m: Machine, r: Machine,
                    stack: seq<Value>, world: World, target: Id)
    requires Aligned(body, boundary, c, room, m, r) && Below2(target, c)
    ensures
      Matches(body, boundary, c, room, Observed(Goto(body, m, stack, world, target), false, r.log),
              Goto(Expand(body, boundary, c), r, stack, world, target))
  {
    TargetsResolve(body, boundary, c, target);
    var i := IndexOf(body, target);
    if i < |body| {
      Here(body, boundary, c, i);
    }
  }

  // The original instruction itself: same effect on stack, world and locals in both bodies.
  lemma ExecMatches(env: Env, body: seq<Instr>, boundary: set<Id>, c: Counters, room: nat, m: Machine, r: Machine)
    requires Aligned(body, boundary, c, room, m, r) && OldOp(body[m.pc].op, c)
    ensures
      var op := body[m.pc].op;
      var m', r' := Exec(env, body, op, m), Exec(env, Expand(body, boundary, c), op, r);
      if Jumps(env, op, m) || !m'.Running? then Matches(body, boundary, c, room, Observed(m', false, r.log), r')
      else
        && m'.pc == m.pc + 1
        && r' == Running(r.pc + 1, m'.stack, r'.locals, m'.world, r.log)
        && SameLocals(m'.locals, r'.locals, c, room)
  {
    hide Expand, CountersAt, Pre;
    match body[m.pc].op
    case Beq(_) => BranchMatches(env, body, boundary, c, room, m, r);
    case BneUn(_) => BranchMatches(env, body, boundary, c, room, m, r);
    case Jump(_, _) => BranchMatches(env, body, boundary, c, room, m, r);
    case Stloc(_) => LocalMatches(env, body, boundary, c, room, m, r);
    case Ldloc(_) => LocalMatches(env, body, boundary, c, room, m, r);
    case _ =>
  }

  lemma BranchMatches(env: Env, body: seq<Instr>, boundary: set<Id>, c: Counters, room: nat, m: Machine, r: Machine)
    requires Aligned(body, boundary, c, room, m, r) && OldOp(body[m.pc].op, c)
    requires var op := body[m.pc].op; op.Beq? || op.BneUn? || op.Jump?
    ensures
      var op := body[m.pc].op;
      var m', r' := Exec(env, body, op, m), Exec(env, Expand(body, boundary, c), op, r);
      if Jumps(env, op, m) || !m'.Running? then Matches(body, boundary, c, room, Observed(m', false, r.log), r')
      else
        && m'.pc == m.pc + 1
        && r' == Running(r.pc + 1, m'.stack, r'.locals, m'.world, r.log)
        && SameLocals(m'.locals, r'.locals, c, room)
  {
    hide Expand, CountersAt, Pre;
    var op := body[m.pc].op;
    match op
    case Beq(target) =>
      if Jumps(env, op, m) {
        GotoMatches(body, boundary, c, room, m, r, Pop(m.stack, 2), m.world, target);
      }
    case BneUn(target) =>
      if Jumps(env, op, m) {
        GotoMatches(body, boundary, c, room, m, r, Pop(m.stack, 2), m.world, target);
      }
    case Jump(code, targets) =>
      var go := env.jump(code, m.stack, m.world);
      if go.Go? && go.index < |targets| {
        assert targets[go.index] in targets;
        GotoMatches(body, boundary, c, room, m, r, go.stack, go.world, targets[go.index]);
      }
  }

  lemma LocalMatches(env: Env, body: seq<Instr>, boundary: set<Id>, c: Counters, room: nat, m: Machine, r: Machine)
    requires Aligned(body, boundary, c, room, m, r) && OldOp(body[m.pc].op, c)
    requires body[m.pc].op.Stloc? || body[m.pc].op.Ldloc?
    ensures
      var op := body[m.pc].op;
      var m', r' := Exec(env, body, op, m), Exec(env, Expand(body, boundary, c), op, r);
      if Jumps(env, op, m) || !m'.Running? then Matches(body, boundary, c, room, Observed(m', false, r.log), r')
      else
        && m'.pc == m.pc + 1
        && r' == Running(r.pc + 1, m'.stack, r'.locals, m'.world, r.log)
        && SameLocals(m'.locals, r'.locals, c, room)
  {
    hide Expand, CountersAt, Pre;
    match body[m.pc].op
    case Stloc(k) =>
      if k < |m.locals| && m.stack != [] {
        var a, b := m.locals[k := Top(m.stack)], r.locals[k := Top(r.stack)];
        assert b[..c.local] == a;
      }
    case Ldloc(k) =>
      if k < |m.locals| {
        assert m.locals[k] == r.locals[..c.local][k];
      }
  }

  // A constant of an integer site and the recorder code behind it.
  lemma IntSiteMatches(env: Env, body: seq<Instr>, boundary: set<Id>, c: Counters, room: nat, m: Machine, r: Machine)
    requires Aligned(body, boundary, c, room, m, r) && IsIntSite(body[m.pc..], boundary)
    ensures
      var n := body[m.pc].op.n;
      var v := if body[m.pc].op.LdcI4? then Int32(n) else Int64(n);
      && Step(env, body, m) == Running(m.pc + 1, m.stack + [v], m.locals, m.world, m.log)
      && Run(env, Expand(body, boundary, c), r, 1 + |PostAt(body, boundary, c, m.pc)|)
         == Running(Pos(body, boundary, c, m.pc + 1), m.stack + [v], r.locals, m.world, r.log + [Int(n)])
  {
    hide Expand, Pos, CountersAt, StringSites, Has, OldOp;
    var e, i, op := Expand(body, boundary, c), m.pc, body[m.pc].op;
    var id := CountersAt(body, boundary, c, i).intId;
    assert Has(e, r.pc + 1, IntChunk(op, id)) && e[r.pc] == body[i]
        && Pos(body, boundary, c, i + 1) == r.pc + 1 + |IntChunk(op, id)| by {
      Here(body, boundary, c, i);
    }
    var v := if op.LdcI4? then Int32(op.n) else Int64(op.n);
    var r' := Running(r.pc + 1, r.stack + [v], r.locals, r.world, r.log);
    RunStep(env, e, r, 1 + |IntChunk(op, id)|);
    IntChunkRuns(env, e, r', op, id);
  }

  // The instruction and the recorder code behind it.
  lemma CoreMatches(env: Env, body: seq<Instr>, boundary: set<Id>, c: Counters, room: nat, m: Machine, r: Machine)
    requires Aligned(body, boundary, c, room, m, r) && OldOp(body[m.pc].op, c)
    ensures
      Matches(body, boundary, c, room,
              Observed(Step(env, body, m), !Jumps(env, body[m.pc].op, m), r.log + After(body[m.pc..], boundary)),
              Run(env, Expand(body, boundary, c), r, 1 + |PostAt(body, boundary, c, m.pc)|))
  {
    if IsIntSite(body[m.pc..], boundary) {
      IntSiteMatches(env, body, boundary, c, room, m, r);
    } else {
      PlainMatches(env, body, boundary, c, room, m, r);
    }
  }

  lemma PlainMatches(env: Env, body: seq<Instr>, boundary: set<Id>, c: Counters, room: nat, m: Machine, r: Machine)
    requires Aligned(body, boundary, c, room, m, r) && OldOp(body[m.pc].op, c) && !IsIntSite(body[m.pc..], boundary)
    ensures
      Matches(body, boundary, c, room,
              Observed(Step(env, body, m), !Jumps(env, body[m.pc].op, m), r.log + After(body[m.pc..], boundary)),
              Run(env, Expand(body, boundary, c), r, 1 + |PostAt(body, boundary, c, m.pc)|))
  {
    hide Expand, Exec, OldOp, Jumps, StringSites, IsIntSite, Pos, Pre, CountersAt, SameLocals;
    assert r.pc < |Expand(body, boundary, c)| && Expand(body, boundary, c)[r.pc] == body[m.pc]
        && Pos(body, boundary, c, m.pc + 1) == r.pc + 1 by {
      Here(body, boundary, c, m.pc);
    }
    ExecMatches(env, body, boundary, c, room, m, r);
    RunStep(env, Expand(body, boundary, c), r, 1);
    assert r.log + [] == r.log;
  }

  // How many steps the rewritten body takes for the next original one.
  function Cost(body: seq<Instr>, boundary: set<Id>, c: Counters, o: Observed): (k: nat)
    ensures k > 0
  {
    if !o.m.Running? || o.m.pc >= |body| then 1
    else (if o.fell then |PreAt(body, boundary, c, o.m.pc)| else 0) + 1 + |PostAt(body, boundary, c, o.m.pc)|
  }

  // The recorder code in front of instruction i, run when control falls into it.
  lemma PreMatches(env: Env, body: seq<Instr>, boundary: set<Id>, c: Counters, room: nat, o: Observed, r: Machine)
    requires Old(body, c) && room == c.local + 2 * StringSites(body, boundary)
    requires Matches(body, boundary, c, room, o, r) && o.m.Running? && o.m.pc < |body| && o.fell
    ensures
      var r' := Run(env, Expand(body, boundary, c), r, |PreAt(body, boundary, c, o.m.pc)|);
      if IsStringSite(body[o.m.pc], boundary) && !TwoStrings(o.m.stack) then r' == Stuck
      else
        && Aligned(body, boundary, c, room, o.m, r')
        && r'.log == o.log + Before(body[o.m.pc], boundary, o)
  {
    hide Expand, Pos, StringSites, Has, OldOp;
    var i := o.m.pc;
    Here(body, boundary, c, i);
    if IsStringSite(body[i], boundary) {
      var ci := CountersAt(body, boundary, c, i);
      TemporariesAt(body, boundary, c, i);
      StringChunkRuns(env, Expand(body, boundary, c), r, ci.local, ci.stringId);
    } else {
      assert o.log + [] == o.log;
    }
  }

  lemma StepMatches(env: Env, body: seq<Instr>, boundary: set<Id>, c: Counters, room: nat, o: Observed, r: Machine)
    requires Old(body, c) && room == c.local + 2 * StringSites(body, boundary)
    requires Matches(body, boundary, c, room, o, r)
    ensures Matches(body, boundary, c, room, Watch(env, body, boundary, o),
                    Run(env, Expand(body, boundary, c), r, Cost(body, boundary, c, o)))
  {
    var e := Expand(body, boundary, c);
    if !o.m.Running? {
      RunStopped(env, e, r, 1);
    } else if o.m.pc == |body| {
      Layout(body, boundary, c, |body|);
      assert r.pc >= |e|;
    } else {
      var i, pre := o.m.pc, PreAt(body, boundary, c, o.m.pc);
      var k := 1 + |PostAt(body, boundary, c, i)|;
      var r', n := r, 0;
      if o.fell {
        PreMatches(env, body, boundary, c, room, o, r);
        n := |pre|;
        r' := Run(env, e, r, n);
      } else {
        assert Aligned(body, boundary, c, room, o.m, r);
        assert o.log + [] == o.log;
      }
      RunAdd(env, e, r, n, k);
      if r'.Stuck? {
        RunStopped(env, e, r', k);
      } else {
        CoreMatches(env, body, boundary, c, room, o.m, r');
      }
    }
  }

  // ---- whole runs ----

  function Time(env: Env, body: seq<Instr>, boundary: set<Id>, c: Counters, o: Observed, n: nat): (t: nat)
    ensures t >= n
    decreases n
  {
    if n == 0 then 0
    else Cost(body, boundary, c, o) + Time(env, body, boundary, c, Watch(env, body, boundary, o), n - 1)
  }

  lemma {:induction false} RunMatches(env: Env, body: seq<Instr>, boundary: set<Id>, c: Counters, room: nat,
                                      o: Observed, r: Machine, n: nat)
    requires Old(body, c) && room == c.local + 2 * StringSites(body, boundary)
    requires Matches(body, boundary, c, room, o, r)
    ensures Matches(body, boundary, c, room, WatchRun(env, body, boundary, o, n),
                    Run(env, Expand(body, boundary, c), r, Time(env, body, boundary, c, o, n)))
    decreases n
  {
    hide Matches, Expand, StringSites, Old, Cost, Watch;
    if n > 0 {
      var e, k, o' := Expand(body, boundary, c), Cost(body, boundary, c, o), Watch(env, body, boundary, o);
      StepMatches(env, body, boundary, c, room, o, r);
      RunMatches(env, body, boundary, c, room, o', Run(env, e, r, k), n - 1);
      RunAdd(env, e, r, k, Time(env, body, boundary, c, o', n - 1));
    }
  }

  // Observing changes nothing: the machine inside is the plain original run.
  lemma {:induction false} WatchIsRun(env: Env, body: seq<Instr>, boundary: set<Id>, o: Observed, n: nat)
    ensures WatchRun(env, body, boundary, o, n).m == Run(env, body, o.m, n)
    decreases n
  {
    if n > 0 {
      WatchIsRun(env, body, boundary, Watch(env, body, boundary, o), n - 1);
      if !o.m.Running? {
        RunStopped(env, body, o.m, n - 1);
      }
    }
  }

  function Start(locals: seq<Value>, world: World): Machine {
    Running(0, [], locals, world, [])
  }

  // What a stopped machine shows its caller, with a given log.
  function Outcome(m: Machine, log: seq<Record>): Machine
    requires !m.Running?
  {
    match m
    case Returned(stack, world, _) => Returned(stack, world, log)
    case Thrown(e, world, _) => Thrown(e, world, log)
    case Stuck => Stuck
  }

  // Comparison logging preserves meaning. From the same arguments, after any number of original steps the rewritten
  // body stands at the same original instruction with the same stack, world and original locals, or has stopped with
  // the same result; and its log is what was seen at the sites.
  lemma LoggingPreservesMeaning(env: Env, body: seq<Instr>, boundary: set<Id>, c: Counters,
                                locals: seq<Value>, temps: seq<Value>, world: World, n: nat)
    requires Old(body, c) && |locals| == c.local && |temps| == 2 * StringSites(body, boundary)
    ensures
      var e := IntPass(StringPass(body, boundary, c.local, c.stringId), boundary, c.intId);
      var o := Observed(Start(locals, world), true, []);
      var t := Time(env, body, boundary, c, o, n);
      var seen := WatchRun(env, body, boundary, o, n);
      && t >= n
      && seen.m == Run(env, body, Start(locals, world), n)
      && Matches(body, boundary, c, |locals| + |temps|, seen, Run(env, e, Start(locals + temps, world), t))
  {
    PassesAreExpand(body, boundary, c);
    var o := Observed(Start(locals, world), true, []);
    assert (locals + temps)[..c.local] == locals;
    RunMatches(env, body, boundary, c, |locals| + |temps|, o, Start(locals + temps, world), n);
    WatchIsRun(env, body, boundary, o, n);
  }

  // The rewritten body stops if and only if the original does, with the same result.
  lemma LoggingPreservesTermination(env: Env, body: seq<Instr>, boundary: set<Id>, c: Counters,
                                    locals: seq<Value>, temps: seq<Value>, world: World)
    requires Old(body, c) && |locals| == c.local && |temps| == 2 * StringSites(body, boundary)
    ensures
      var e := IntPass(StringPass(body, boundary, c.local, c.stringId), boundary, c.intId);
      var m, r := Start(locals, world), Start(locals + temps, world);
      && ((exists n: nat :: !Run(env, body, m, n).Running?) <==> (exists n: nat :: !Run(env, e, r, n).Running?))
      && forall n: nat | !Run(env, e, r, n).Running? ::
           && !Run(env, body, m, n).Running?
           && Run(env, e, r, n)
              == Outcome(Run(env, body, m, n), WatchRun(env, body, boundary, Observed(m, true, []), n).log)
  {
    hide IntPass, StringPass, WatchRun, Run, StringSites, Old, Time;
    var e := IntPass(StringPass(body, boundary, c.local, c.stringId), boundary, c.intId);
    var m, r := Start(locals, world), Start(locals + temps, world);
    forall n: nat | !Run(env, e, r, n).Running?
      ensures !Run(env, body, m, n).Running?
      ensures Run(env, e, r, n)
           == Outcome(Run(env, body, m, n), WatchRun(env, body, boundary, Observed(m, true, []), n).log)
    {
      LoggingPreservesMeaning(env, body, boundary, c, locals, temps, world, n);
      var t := Time(env, body, boundary, c, Observed(m, true, []), n);
      RunAdd(env, e, r, n, t - n);
      RunStopped(env, e, Run(env, e, r, n), t - n);
    }
    if n: nat :| !Run(env, body, m, n).Running? {
      LoggingPreservesMeaning(env, body, boundary, c, locals, temps, world, n);
      var t := Time(env, body, boundary, c, Observed(m, true, []), n);
      assert !Run(env, e, r, t).Running?;
    }
  }

  // ---- control that jumps straight to a comparison ----

  function PushPair(jump: bool): seq<Instr> {
    [Instr(0, Plain(0)), Instr(1, if jump then Jump(0, [3]) else Nop), Instr(2, Nop),
     Instr(3, CallStringCompare(0)), Instr(4, Ret)]
  }

  lemma {:induction false} PairObserved(env: Env, world: World, a: string, b: string, answer: bool, jump: bool)
    requires env.plain(0, [], world) == Next([Text(a), Text(b)], world)
    requires env.jump(0, [Text(a), Text(b)], world) == Go([Text(a), Text(b)], world, 0)
    requires env.compare(0, Text(a), Text(b)) == Answers(answer)
    ensures
      var o := WatchRun(env, PushPair(jump), {}, Observed(Start([], world), true, []), if jump then 4 else 5);
      && o.m == Returned([Int32(if answer then 1 else 0)], world, [])
      && o.log == if jump then [] else [Strings(Text(a), Text(b))]
  {
    var body := PushPair(jump);
    var o0 := Observed(Start([], world), true, []);
    var o1 := Observed(Running(1, [Text(a), Text(b)], [], world, []), true, []);
    assert Watch(env, body, {}, o0) == o1;
    var o2 := Watch(env, body, {}, o1);
    if jump {
      IndexOfSkips(body[..3], body[3..], 3);
      assert body[..3] + body[3..] == body;
      assert o2 == Observed(Running(3, [Text(a), Text(b)], [], world, []), false, []);
      AfterPair(env, world, a, b, answer, true, o2);
      assert WatchRun(env, body, {}, o0, 4) == WatchRun(env, body, {}, o1, 3) == WatchRun(env, body, {}, o2, 2);
    } else {
      assert o2 == Observed(Running(2, [Text(a), Text(b)], [], world, []), true, []);
      var o3 := Watch(env, body, {}, o2);
      assert o3 == Observed(Running(3, [Text(a), Text(b)], [], world, []), true, []);
      AfterPair(env, world, a, b, answer, false, o3);
      assert WatchRun(env, body, {}, o0, 5) == WatchRun(env, body, {}, o1, 4)
          == WatchRun(env, body, {}, o2, 3) == WatchRun(env, body, {}, o3, 2);
    }
  }

  lemma {:induction false} AfterPair(env: Env, world: World, a: string, b: string, answer: bool, jump: bool,
                                     o: Observed)
    requires o.m == Running(3, [Text(a), Text(b)], [], world, []) && o.log == []
    requires env.compare(0, Text(a), Text(b)) == Answers(answer)
    ensures WatchRun(env, PushPair(jump), {}, o, 2)
         == Observed(Returned([Int32(if answer then 1 else 0)], world, []), true,
                     if o.fell then [Strings(Text(a), Text(b))] else [])
  {
    var body := PushPair(jump);
    var o1 := Watch(env, body, {}, o);
    assert Pop(o.m.stack, 2) == [] && body[3..][0] == body[3] && body[4..][0] == body[4];
    assert After(body[3..], {}) == [] && Before(body[3], {}, o) == if o.fell then [Strings(Text(a), Text(b))] else [];
    assert Pop(o.m.stack, 2) + [Int32(if answer then 1 else 0)] == [Int32(if answer then 1 else 0)];
    assert o.log + Before(body[3], {}, o) + [] == Before(body[3], {}, o);
    assert o1 == Observed(Running(4, [Int32(if answer then 1 else 0)], [], world, []), true,
                          if o.fell then [Strings(Text(a), Text(b))] else []);
    var o2 := Watch(env, body, {}, o1);
    assert WatchRun(env, body, {}, o, 2) == WatchRun(env, body, {}, o1, 1) == WatchRun(env, body, {}, o2, 0);
  }

  // In the rewritten body a branch to the call itself skips the recorder: both forms return the answer of the same
  // comparison, and only the one entered by falling through logs it.
  lemma JumpedSiteIsNotLogged(env: Env, world: World, a: string, b: string, answer: bool, jump: bool, c: Counters,
                              temps: seq<Value>)
    requires env.plain(0, [], world) == Next([Text(a), Text(b)], world)
    requires env.jump(0, [Text(a), Text(b)], world) == Go([Text(a), Text(b)], world, 0)
    requires env.compare(0, Text(a), Text(b)) == Answers(answer)
    requires c.local == 0 && c.stringId > 4 && c.intId > 4 && |temps| == 2
    ensures exists t: nat ::
              Run(env, IntPass(StringPass(PushPair(jump), {}, 0, c.stringId), {}, c.intId), Start(temps, world), t)
              == Returned([Int32(if answer then 1 else 0)], world, if jump then [] else [Strings(Text(a), Text(b))])
  {
    var body, n := PushPair(jump), if jump then 4 else 5;
    PairObserved(env, world, a, b, answer, jump);
    assert StringSites(body, {}) == 1 by {
      PairHasOneSite(jump);
    }
    assert [] + temps == temps;
    assert Old(body, c);
    hide PushPair, StringSites, IntPass, StringPass, Run, WatchRun, Old;
    LoggingPreservesMeaning(env, body, {}, c, [], temps, world, n);
    var t := Time(env, body, {}, c, Observed(Start([], world), true, []), n);
    assert Matches(body, {}, c, 2, WatchRun(env, body, {}, Observed(Start([], world), true, []), n),
                   Run(env, IntPass(StringPass(body, {}, 0, c.stringId), {}, c.intId), Start(temps, world), t));
  }

  lemma {:induction false} PairHasOneSite(jump: bool)
    ensures StringSites(PushPair(jump), {}) == 1
  {
    var body := PushPair(jump);
    assert body[1..][1..] == body[2..] && body[2..][1..] == body[3..] && body[3..][1..] == body[4..];
    assert body[4..][1..] == [];
    assert StringSites(body[4..], {}) == 0;
    assert StringSites(body[3..], {}) == 1;
    assert StringSites(body[2..], {}) == 1;
  }

  // ---- a constant in front of a comparison, with a nop between ----

  function CompareWith(constant: Op, compare: Op): seq<Instr> {
    [Instr(0, Plain(0)), Instr(1, constant), Instr(2, Nop), Instr(3, compare), Instr(4, Ret)]
  }

  lemma {:induction false} ConstantObserved(env: Env, world: World, v: Value, n: int, wide: bool, compare: Op)
    requires env.plain(0, [], world) == Next([v], world)
    requires compare == Ceq || compare == Beq(4) || compare == BneUn(4)
    ensures
      var constant := if wide then LdcI8(n) else LdcI4(n);
      var o := WatchRun(env, CompareWith(constant, compare), {}, Observed(Start([], world), true, []), 5);
      && o.m == Returned(if compare.Ceq? then [Int32(Compared(env, v, n, wide))] else [], world, [])
      && o.log == [Int(n)]
  {
    var body := CompareWith(if wide then LdcI8(n) else LdcI4(n), compare);
    var o0 := Observed(Start([], world), true, []);
    var o1 := Observed(Running(1, [v], [], world, []), true, []);
    assert Watch(env, body, {}, o0) == o1;
    var o2 := Observed(Running(2, [v, if wide then Int64(n) else Int32(n)], [], world, []), true, [Int(n)]);
    ConstantLoaded(env, world, v, n, wide, compare);
    var o3 := o2.(m := o2.m.(pc := 3));
    assert Watch(env, body, {}, o2) == o3;
    ConstantCompared(env, world, v, n, wide, compare);
    hide Watch, CompareWith, Compared;
    assert WatchRun(env, body, {}, o0, 5) == WatchRun(env, body, {}, o1, 4) == WatchRun(env, body, {}, o2, 3);
    assert WatchRun(env, body, {}, o2, 3) == WatchRun(env, body, {}, o3, 2);
  }

  lemma {:induction false} ConstantLoaded(env: Env, world: World, v: Value, n: int, wide: bool, compare: Op)
    requires compare.Ceq? || compare.Beq? || compare.BneUn?
    ensures
      var body := CompareWith(if wide then LdcI8(n) else LdcI4(n), compare);
      Watch(env, body, {}, Observed(Running(1, [v], [], world, []), true, []))
      == Observed(Running(2, [v, if wide then Int64(n) else Int32(n)], [], world, []), true, [Int(n)])
  {
    var body := CompareWith(if wide then LdcI8(n) else LdcI4(n), compare);
    assert body[1..][0] == body[1] && body[1..][2] == body[3];
    IntSiteIff(body[1..], {});
    assert IsIntSite(body[1..], {}) by {
      var k := 2;
      assert 0 < k < |body[1..]| && forall j | 0 < j < k :: body[1..][j].op.Nop?;
    }
    hide IsIntSite, FeedsCompare;
    assert After(body[1..], {}) == [Int(n)];
    assert [v] + [if wide then Int64(n) else Int32(n)] == [v, if wide then Int64(n) else Int32(n)];
  }

  lemma {:induction false} ConstantCompared(env: Env, world: World, v: Value, n: int, wide: bool, compare: Op)
    requires compare == Ceq || compare == Beq(4) || compare == BneUn(4)
    ensures
      var x := if wide then Int64(n) else Int32(n);
      var body := CompareWith(if wide then LdcI8(n) else LdcI4(n), compare);
      WatchRun(env, body, {}, Observed(Running(3, [v, x], [], world, []), true, [Int(n)]), 2).m
      == Returned(if compare.Ceq? then [Int32(Compared(env, v, n, wide))] else [], world, [])
      && WatchRun(env, body, {}, Observed(Running(3, [v, x], [], world, []), true, [Int(n)]), 2).log == [Int(n)]
  {
    var x := if wide then Int64(n) else Int32(n);
    var body := CompareWith(if wide then LdcI8(n) else LdcI4(n), compare);
    var o3 := Observed(Running(3, [v, x], [], world, []), true, [Int(n)]);
    assert body[3..][0] == body[3] && body[4..][0] == body[4];
    EndOfBody(body);
    assert Pop([v, x], 2) == [];
    var o4 := Watch(env, body, {}, o3);
    assert o4.m == Running(4, if compare.Ceq? then [Int32(Compared(env, v, n, wide))] else [], [], world, []) by {
      if compare.Ceq? {
        assert Pop([v, x], 2) + [Int32(Compared(env, v, n, wide))] == [Int32(Compared(env, v, n, wide))];
      }
    }
    assert o4.log == [Int(n)];
    var o5 := Watch(env, body, {}, o4);
    assert o5.log == [Int(n)] && o5.m == Returned(o4.m.stack, world, []);
    assert WatchRun(env, body, {}, o3, 2) == WatchRun(env, body, {}, o4, 1) == WatchRun(env, body, {}, o5, 0);
  }

  function Compared(env: Env, v: Value, n: int, wide: bool): int {
    if env.equal(v, if wide then Int64(n) else Int32(n)) then 1 else 0
  }

  lemma EndOfBody(body: seq<Instr>)
    requires |body| == 5 && forall i | 0 <= i < 5 :: body[i].id == i
    ensures IndexOf(body, 4) == 4
  {
    assert NoneHas(body[..4], 4);
    IndexOfSkips(body[..4], body[4..], 4);
    assert body[..4] + body[4..] == body;
  }

  // In the rewritten body the constant is recorded, whichever of the three opcodes compares it.
  lemma ComparedConstantIsLogged(env: Env, world: World, v: Value, n: int, wide: bool, compare: Op, c: Counters)
    requires env.plain(0, [], world) == Next([v], world)
    requires compare == Ceq || compare == Beq(4) || compare == BneUn(4)
    requires c.local == 0 && c.stringId > 4 && c.intId > 4
    ensures
      var body := CompareWith(if wide then LdcI8(n) else LdcI4(n), compare);
      exists t: nat ::
        Run(env, IntPass(StringPass(body, {}, 0, c.stringId), {}, c.intId), Start([], world), t)
        == Returned(if compare.Ceq? then [Int32(Compared(env, v, n, wide))] else [], world, [Int(n)])
  {
    var body := CompareWith(if wide then LdcI8(n) else LdcI4(n), compare);
    ConstantObserved(env, world, v, n, wide, compare);
    NoStringSites(body);
    assert Old(body, c);
    hide CompareWith, StringSites, IntPass, StringPass, Run, WatchRun, Old;
    var none: seq<Value> := [];
    assert none + none == none;
    LoggingPreservesMeaning(env, body, {}, c, none, none, world, 5);
    var t := Time(env, body, {}, c, Observed(Start([], world), true, []), 5);
    assert Matches(body, {}, c, 0, WatchRun(env, body, {}, Observed(Start([], world), true, []), 5),
                   Run(env, IntPass(StringPass(body, {}, 0, c.stringId), {}, c.intId), Start([], world), t));
  }

  lemma {:induction false} NoStringSites(s: seq<Instr>)
    requires forall i | 0 <= i < |s| :: !s[i].op.CallStringCompare?
    ensures StringSites(s, {}) == 0
  {
    if s != [] {
      NoStringSites(s[1..]);
    }
  }
}
