// CmpLogInstrumentor: the two rewriting passes, as functions on instruction lists and as the in-place methods.
module CmpLogRewrite {
  import opened IlMachine

  // ---- sites ----

  // A plain string comparison call that does not sit on an exception-region boundary.
  predicate IsStringSite(i: Instr, boundary: set<Id>) {
    i.op.CallStringCompare? && i.id !in boundary
  }

  predicate IsIntConst(op: Op) {
    op.LdcI4? || op.LdcI8?
  }

  predicate IsCompareOpcode(op: Op) {
    op.Ceq? || op.Beq? || op.BneUn?
  }

  // Nops are skipped when looking for the comparison a constant feeds.
  function SkipNops(s: seq<Instr>): seq<Instr> {
    if s != [] && s[0].op.Nop? then SkipNops(s[1..]) else s
  }

  predicate FeedsCompare(rest: seq<Instr>) {
    var s := SkipNops(rest);
    s != [] && IsCompareOpcode(s[0].op)
  }

  // s starts with an integer constant whose next instruction, Nops aside, is an equality comparison.
  predicate IsIntSite(s: seq<Instr>, boundary: set<Id>) {
    s != [] && IsIntConst(s[0].op) && FeedsCompare(s[1..]) && s[0].id !in boundary
  }

  lemma {:induction false} SkippedNops(s: seq<Instr>) returns (k: nat)
    ensures k <= |s| && SkipNops(s) == s[k..] && (forall j | 0 <= j < k :: s[j].op.Nop?)
    ensures k < |s| ==> !s[k].op.Nop?
  {
    if s == [] || !s[0].op.Nop? {
      k := 0;
    } else {
      var i := SkippedNops(s[1..]);
      assert forall j | 0 < j <= i :: s[j] == s[1..][j - 1];
      k := i + 1;
    }
  }

  // Exactly the 32- and 64-bit constants off exception boundaries that ceq, beq or bne.un compares next, nops aside.
  lemma IntSiteIff(s: seq<Instr>, boundary: set<Id>)
    ensures IsIntSite(s, boundary) <==>
              && s != [] && (s[0].op.LdcI4? || s[0].op.LdcI8?) && s[0].id !in boundary
              && exists k :: 0 < k < |s| && (forall j | 0 < j < k :: s[j].op.Nop?)
                             && (s[k].op.Ceq? || s[k].op.Beq? || s[k].op.BneUn?)
  {
    if s != [] {
      var i := SkippedNops(s[1..]);
      assert forall j | 0 < j < |s| :: s[j] == s[1..][j - 1];
      if k :| 0 < k < |s| && (forall j | 0 < j < k :: s[j].op.Nop?)
              && (s[k].op.Ceq? || s[k].op.Beq? || s[k].op.BneUn?) {
        assert i == k - 1;
      }
    }
  }

  // Where every instruction is an exception boundary, nothing is inserted.
  lemma {:induction false} BoundariesUntouched(s: seq<Instr>, boundary: set<Id>, c: Counters)
    requires forall i | 0 <= i < |s| :: s[i].id in boundary
    ensures Expand(s, boundary, c) == s
  {
    if s != [] {
      assert s[0].id in boundary && forall i | 0 <= i < |s[1..]| :: s[1..][i] == s[i + 1];
      BoundariesUntouched(s[1..], boundary, c);
    }
  }

  // ---- inserted code ----

  // Pop both operands into temporaries, replay them for the recorder, replay them again for the call.
  function StringChunk(tmpB: nat, tmpA: nat, id: Id): seq<Instr> {
    [Instr(id, Stloc(tmpB)), Instr(id + 1, Stloc(tmpA)),
     Instr(id + 2, Ldloc(tmpA)), Instr(id + 3, Ldloc(tmpB)), Instr(id + 4, RecordString),
     Instr(id + 5, Ldloc(tmpA)), Instr(id + 6, Ldloc(tmpB))]
  }

  // Duplicate the constant, widen the copy if needed, record it.
  function IntChunk(op: Op, id: Id): seq<Instr> {
    if op.LdcI8? then [Instr(id, Dup), Instr(id + 1, RecordInt)]
    else [Instr(id, Dup), Instr(id + 1, ConvI8), Instr(id + 2, RecordInt)]
  }

  // ---- the passes ----

  // Number of string sites, and of instructions inserted at integer sites.
  function StringSites(s: seq<Instr>, boundary: set<Id>): nat {
    if s == [] then 0 else (if IsStringSite(s[0], boundary) then 1 else 0) + StringSites(s[1..], boundary)
  }

  // Two temporaries and seven instructions per string site, numbered in order from `local` and `id`.
  function StringPass(s: seq<Instr>, boundary: set<Id>, local: nat, id: Id): seq<Instr> {
    if s == [] then []
    else if IsStringSite(s[0], boundary)
    then StringChunk(local, local + 1, id) + ([s[0]] + StringPass(s[1..], boundary, local + 2, id + 7))
    else [s[0]] + StringPass(s[1..], boundary, local, id)
  }

  function IntPass(s: seq<Instr>, boundary: set<Id>, id: Id): seq<Instr> {
    if s == [] then []
    else if IsIntSite(s, boundary)
    then [s[0]] + (IntChunk(s[0].op, id) + IntPass(s[1..], boundary, id + |IntChunk(s[0].op, 0)|))
    else [s[0]] + IntPass(s[1..], boundary, id)
  }

  // ---- both passes at once ----

  datatype Counters = Counters(local: nat, stringId: Id, intId: Id)

  function Pre(s: seq<Instr>, boundary: set<Id>, c: Counters): seq<Instr>
  {
    if s != [] && IsStringSite(s[0], boundary) then StringChunk(c.local, c.local + 1, c.stringId) else []
  }

  function Post(s: seq<Instr>, boundary: set<Id>, c: Counters): seq<Instr>
  {
    if IsIntSite(s, boundary) then IntChunk(s[0].op, c.intId) else []
  }

  function NextCounters(s: seq<Instr>, boundary: set<Id>, c: Counters): Counters
    requires s != []
  {
    var d := if IsStringSite(s[0], boundary) then Counters(c.local + 2, c.stringId + 7, c.intId) else c;
    if IsIntSite(s, boundary) then d.(intId := d.intId + |IntChunk(s[0].op, 0)|) else d
  }

  // Every instruction with what the two passes put around it.
  function Expand(s: seq<Instr>, boundary: set<Id>, c: Counters): seq<Instr> {
    if s == [] then []
    else
      var rest := Expand(s[1..], boundary, NextCounters(s, boundary, c));
      Pre(s, boundary, c) + ([s[0]] + (Post(s, boundary, c) + rest))
  }

  // The string pass leaves the lookahead of the integer pass alone.
  lemma {:induction false} StringPassKeepsLookahead(s: seq<Instr>, boundary: set<Id>, local: nat, id: Id)
    ensures FeedsCompare(StringPass(s, boundary, local, id)) == FeedsCompare(s)
  {
    if s != [] {
      var r := StringPass(s, boundary, local, id);
      if IsStringSite(s[0], boundary) {
        assert r[0] == StringChunk(local, local + 1, id)[0];
      } else {
        assert r[0] == s[0] && r[1..] == StringPass(s[1..], boundary, local, id);
        if s[0].op.Nop? {
          StringPassKeepsLookahead(s[1..], boundary, local, id);
        }
      }
    }
  }

  // Instructions that are no constants pass through the integer pass.
  lemma {:induction false} IntPassSkips(a: seq<Instr>, s: seq<Instr>, boundary: set<Id>, id: Id)
    requires forall i | 0 <= i < |a| :: !IsIntConst(a[i].op)
    ensures IntPass(a + s, boundary, id) == a + IntPass(s, boundary, id)
  {
    if a == [] {
      assert a + s == s;
    } else {
      assert (a + s)[1..] == a[1..] + s;
      IntPassSkips(a[1..], s, boundary, id);
    }
  }

  // Running the integer pass on the result of the string pass gives the combined expansion.
  lemma {:induction false} PassesAreExpand(s: seq<Instr>, boundary: set<Id>, c: Counters)
    ensures IntPass(StringPass(s, boundary, c.local, c.stringId), boundary, c.intId) == Expand(s, boundary, c)
  {
    if s != [] {
      var d := NextCounters(s, boundary, c);
      var tail := [s[0]] + StringPass(s[1..], boundary, d.local, d.stringId);
      assert IntPass(tail, boundary, c.intId)
          == [s[0]] + (Post(s, boundary, c) + Expand(s[1..], boundary, d)) by {
        PassesAreExpand(s[1..], boundary, d);
        IntPassHead(s, boundary, c);
      }
      if IsStringSite(s[0], boundary) {
        var chunk := StringChunk(c.local, c.local + 1, c.stringId);
        assert StringPass(s, boundary, c.local, c.stringId) == chunk + tail;
        IntPassSkips(chunk, tail, boundary, c.intId);
      }
    }
  }

  lemma IntPassHead(s: seq<Instr>, boundary: set<Id>, c: Counters)
    requires s != []
    ensures
      var d := NextCounters(s, boundary, c);
      var rest := StringPass(s[1..], boundary, d.local, d.stringId);
      IntPass([s[0]] + rest, boundary, c.intId)
        == [s[0]] + (Post(s, boundary, c) + IntPass(rest, boundary, d.intId))
  {
    var d := NextCounters(s, boundary, c);
    var rest := StringPass(s[1..], boundary, d.local, d.stringId);
    var tail := [s[0]] + rest;
    assert tail[1..] == rest;
    StringPassKeepsLookahead(s[1..], boundary, d.local, d.stringId);
    assert IsIntSite(tail, boundary) == IsIntSite(s, boundary);
  }

  ghost predicate NoneHas(a: seq<Instr>, id: Id) {
    forall i | 0 <= i < |a| :: a[i].id != id
  }
}
