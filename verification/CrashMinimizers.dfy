// minimize.go: minimizeBodyTree on the real, mutable tree. Every method is tied to its value-level counterpart in
// BodyMinimize, so the theorems of BodyMinimizeProofs apply to what it leaves behind.
module CrashMinimizers {
  import opened BodyTree
  import opened JsonPrinter
  import opened BodyValues
  import opened BodyClone
  import opened BodyEdits
  import BodySerialize
  import M = BodyMinimize

  // The fields of a work item that tree minimization reads or writes.
  datatype WorkItem = WorkItem(body: string, tree: BodyValue)

  // The target's answer to probe number n carrying this text.
  type Target = (nat, string) -> M.Reply

  function OverJson(target: Target): M.Server {
    (n: nat, t: Tree) => target(n, Json(t, 0))
  }

  // The same, seen from the root: one deletion at p.
  lemma CutBelow(m: Heap, root: BodyValue, h: nat, p: Path, n: BodyValue, i: nat, m2: Heap)
    requires Owned(m, root, h) && IsAt(m, root, p, n) && n in m && |p| < h
    requires i < |ShownKids(m[n])| && m2 == m[n := CutCell(m[n], i)]
    ensures Owned(m2, root, h) && IsAt(m2, root, p, n)
    ensures DeletedAt(View(m, root, h), p, i, View(m2, root, h))
    ensures Foot(m2, n, h - |p|) <= Foot(m, n, h - |p|)
  {
    hide Owned, Foot, View, IsAt, Plug, ValidPath, At, Regrown;
    var k := h - |p|;
    assert Owned(m, n, k) && n in Foot(m, root, h) by {
      IsAtOwned(m, root, h, p, n);
    }
    assert Regrown(m, n, k, m2, k) && i < NKids(View(m, n, k)) && View(m2, n, k) == DropKid(View(m, n, k), i) by {
      CutNode(m, n, k, i, m2);
    }
    assert OnlyChanged(m, root, h, p, n, m2);
    ChangeAt(m, root, h, p, n, m2, h);
    IsAtView(m, root, h, p, n);
    RegrownIs(m, root, h, m2, h);
    RegrownIs(m, n, k, m2, k);
  }

  lemma RegrownIs(m: Heap, v: BodyValue, h: nat, m2: Heap, h2: nat)
    requires Regrown(m, v, h, m2, h2) && m2.Keys == m.Keys
    ensures Owned(m2, v, h2) && Foot(m2, v, h2) <= Foot(m, v, h)
  {
  }

  lemma CutKeeps(m: Heap, root: BodyValue, h: nat, p: Path, n: BodyValue, i: nat)
    requires Owned(m, root, h) && IsAt(m, root, p, n) && n in m && |p| < h && i < |ShownKids(m[n])|
    ensures var m2 := Cut(m, n, i);
            Owned(m2, root, h) && IsAt(m2, root, p, n) && Foot(m2, n, h - |p|) <= Foot(m, n, h - |p|)
  {
    CutBelow(m, root, h, p, n, i, Cut(m, n, i));
  }

  ghost predicate DeletedAt(t: Tree, p: Path, i: nat, r: Tree) {
    ValidPath(t, p) && i < NKids(At(t, p)) && r == Plug(t, p, DropKid(At(t, p), i))
  }

  // ---- results of the value-level minimizer ----
  //
  // "The value-level function gives r", guarded: proofs about the heap carry these facts around without unfolding the
  // functions; the lemmas below, which do unfold them, mention Look.

  ghost predicate Look(k: int) {
    true
  }

  ghost predicate AttemptIs(sv: M.Server, max: nat, st: M.State, r: M.State, ok: bool) {
    forall k {:trigger Look(k)} :: Look(k) ==> M.Attempt(sv, max, st) == (r, ok)
  }

  ghost predicate KidsIs(sv: M.Server, max: nat, st: M.State, p: Path, i: nat, r: M.State) {
    ValidPath(st.root, p) && i <= NKids(At(st.root, p)) &&
    forall k {:trigger Look(k)} :: Look(k) ==> M.MinKids(sv, max, st, p, i) == r
  }

  ghost predicate ChildrenIs(sv: M.Server, max: nat, st: M.State, p: Path, i: nat, r: M.State) {
    ValidPath(st.root, p) && i <= NKids(At(st.root, p)) && |p| <= MAX_SERIALIZE_DEPTH &&
    forall k {:trigger Look(k)} :: Look(k) ==> M.MinChildren(sv, max, st, p, i) == r
  }

  ghost predicate NodeIs(sv: M.Server, max: nat, st: M.State, p: Path, r: M.State) {
    ValidPath(st.root, p) && forall k {:trigger Look(k)} :: Look(k) ==> M.MinNode(sv, max, st, p) == r
  }

  lemma KidsHas(sv: M.Server, max: nat, m: Heap, root: BodyValue, h: nat, p: Path, n: BodyValue, st: M.State)
    returns (r: M.State)
    requires Owned(m, root, h) && IsAt(m, root, p, n) && |p| < h && st.root == View(m, root, h)
    ensures KidsIs(sv, max, st, p, 0, r)
  {
    IsAtView(m, root, h, p, n);
    r := M.MinKids(sv, max, st, p, 0);
  }

  lemma ChildrenHas(sv: M.Server, max: nat, m: Heap, root: BodyValue, h: nat, p: Path, n: BodyValue, st: M.State)
    returns (r: M.State)
    requires Owned(m, root, h) && IsAt(m, root, p, n) && |p| < h && st.root == View(m, root, h)
    requires |p| <= MAX_SERIALIZE_DEPTH
    ensures ChildrenIs(sv, max, st, p, 0, r)
  {
    IsAtView(m, root, h, p, n);
    r := M.MinChildren(sv, max, st, p, 0);
  }

  // One round of the pass: the tree m was cut to m1, the attempt was made, and a rejected cut was undone.
  lemma RoundDone(sv: M.Server, max: nat, m: Heap, root: BodyValue, h: nat, p: Path, n: BodyValue, i: nat,
                  st: M.State, st1: M.State, ok: bool, final: M.State)
    requires Owned(m, root, h) && IsAt(m, root, p, n) && n in m && |p| < h && i < |ShownKids(m[n])|
    requires st.root == View(m, root, h) && KidsIs(sv, max, st, p, i, final)
    requires AttemptIs(sv, max, st.(root := View(Cut(m, n, i), root, h)), st1, ok)
    ensures KidsIs(sv, max, if ok then st1 else st1.(root := View(m, root, h)), p, if ok then i else i + 1, final)
  {
    CutBelow(m, root, h, p, n, i, Cut(m, n, i));
    assert Look(0);
    PlugAt(st.root, p, DropKid(At(st.root, p), i));
  }

  lemma PassOver(sv: M.Server, max: nat, m: Heap, root: BodyValue, h: nat, p: Path, n: BodyValue, st: M.State,
                 final: M.State)
    requires Owned(m, root, h) && IsAt(m, root, p, n) && n in m && |p| < h && st.root == View(m, root, h)
    requires KidsIs(sv, max, st, p, |ShownKids(m[n])|, final)
    ensures st == final
  {
    ShownAt(m, root, h, p, n);
    assert Look(0);
  }

  lemma WalkStep(sv: M.Server, max: nat, st: M.State, p: Path, k: nat, st2: M.State, final: M.State)
    requires ChildrenIs(sv, max, st, p, k, final) && k < NKidsAt(st.root, p) && NodeIs(sv, max, st, p + [k], st2)
    ensures ChildrenIs(sv, max, st2, p, k + 1, final)
  {
    assert Look(0);
    M.ChildDone(st.root, p, k, At(st2.root, p + [k]));
  }

  lemma WalkOver(sv: M.Server, max: nat, m0: Heap, m: Heap, root: BodyValue, h: nat, p: Path, n: BodyValue, st: M.State,
                 final: M.State)
    requires Owned(m, root, h) && IsAt(m, root, p, n) && n in m && |p| < h && st.root == View(m, root, h)
    requires Owned(m0, n, h - |p|) && WalkedOnly(m0, ShownKids(m0[n]), |ShownKids(m0[n])|, h - |p| - 1, m)
    requires ChildrenIs(sv, max, st, p, |ShownKids(m0[n])|, final)
    ensures st == final && SameOutside(m0, m, Foot(m0, n, h - |p|))
  {
    AllUntouched(m0, n, h - |p|, m);
    ShownAt(m, root, h, p, n);
    assert Look(0);
  }

  lemma NodeDone(sv: M.Server, max: nat, st: M.State, p: Path, st1: M.State, st2: M.State)
    requires |p| <= MAX_SERIALIZE_DEPTH
    requires KidsIs(sv, max, st, p, 0, st1) && ChildrenIs(sv, max, st1, p, 0, st2)
    ensures NodeIs(sv, max, st, p, st2)
  {
    assert Look(0);
  }

  lemma NodeSkipped(sv: M.Server, max: nat, m: Heap, root: BodyValue, h: nat, p: Path, n: BodyValue, st: M.State)
    requires Owned(m, root, h) && IsAt(m, root, p, n) && n in m && |p| < h && st.root == View(m, root, h)
    requires |p| > MAX_SERIALIZE_DEPTH || (!m[n].kind.Object? && !m[n].kind.Array?)
    ensures NodeIs(sv, max, st, p, st)
  {
    ShownAt(m, root, h, p, n);
  }

  // Child k of the node at p is the node at p + [k].
  lemma StepInto(m: Heap, root: BodyValue, h: nat, p: Path, n: BodyValue, k: nat)
    requires Owned(m, root, h) && IsAt(m, root, p, n) && n in m && |p| < h && k < |ShownKids(m[n])|
    ensures |p| + 1 < h && IsAt(m, root, p + [k], ShownKids(m[n])[k]) && ShownKids(m[n])[k] in m
    ensures n !in Foot(m, ShownKids(m[n])[k], h - |p| - 1)
    ensures Foot(m, ShownKids(m[n])[k], h - |p| - 1) <= Foot(m, n, h - |p|)
  {
    IsAtOwned(m, root, h, p, n);
    ShownKidOwned(m, n, h - |p|, k);
    IsAtSnoc(m, root, p, n, k);
  }

  // The shown children form a forest that does not hold their parent.
  lemma ShownForest(m: Heap, n: BodyValue, h: nat)
    requires Owned(m, n, h)
    ensures Forest(m, ShownKids(m[n]), h - 1)
    ensures n !in FootAll(m, ShownKids(m[n]), h - 1) && FootAll(m, ShownKids(m[n]), h - 1) <= Foot(m, n, h)
  {
    var ks, shown := Kids(m[n]), ShownKids(m[n]);
    var off := if m[n].kind.Object? then 0 else |m[n].fields|;
    assert shown == ks[off..off + |shown|];
    var A, B := FootAll(m, shown, h - 1), FootAll(m, ks, h - 1);
    forall x | x in A
      ensures x in B
    {
      var i :| 0 <= i < |shown| && x in Foot(m, shown[i], h - 1);
      assert x in Foot(m, ks[off + i], h - 1);
    }
  }

  // The walk has rewritten nothing but nodes below the first k children.
  ghost predicate WalkedOnly(m0: Heap, kids: seq<BodyValue>, k: nat, h: nat, m: Heap)
    requires k <= |kids|
  {
    SameOutside(m0, m, FootAll(m0, kids[..k], h))
  }

  lemma KidUntouched(m0: Heap, n: BodyValue, h: nat, k: nat, m: Heap)
    requires Owned(m0, n, h) && k < |ShownKids(m0[n])| && WalkedOnly(m0, ShownKids(m0[n]), k, h - 1, m)
    ensures m[n] == m0[n]
    ensures Foot(m, ShownKids(m0[n])[k], h - 1) == Foot(m0, ShownKids(m0[n])[k], h - 1)
  {
    var kids := ShownKids(m0[n]);
    ShownForest(m0, n, h);
    FirstKids(m0, kids, k, h - 1);
    Frame(m0, kids[k], h - 1, m, h - 1);
  }

  lemma FirstKids(m: Heap, kids: seq<BodyValue>, k: nat, h: nat)
    requires Forest(m, kids, h) && k <= |kids|
    ensures FootAll(m, kids[..k], h) <= FootAll(m, kids, h)
    ensures k < |kids| ==> FootAll(m, kids[..k], h) !! Foot(m, kids[k], h)
    ensures k < |kids| ==> FootAll(m, kids[..k + 1], h) == FootAll(m, kids[..k], h) + Foot(m, kids[k], h)
  {
    if k < |kids| {
      assert kids[..k + 1] == kids[..k] + [kids[k]];
      forall x | x in FootAll(m, kids[..k], h)
        ensures x !in Foot(m, kids[k], h)
      {
        var i :| 0 <= i < k && x in Foot(m, kids[..k][i], h);
        assert Foot(m, kids[i], h) !! Foot(m, kids[k], h);
      }
      forall x | x in FootAll(m, kids[..k], h) + Foot(m, kids[k], h)
        ensures x in FootAll(m, kids[..k + 1], h)
      {
        if x in Foot(m, kids[k], h) {
          assert kids[..k + 1][k] == kids[k];
        } else {
          var i :| 0 <= i < k && x in Foot(m, kids[..k][i], h);
          assert kids[..k + 1][i] == kids[..k][i];
        }
      }
    }
  }

  lemma WalkedFurther(m0: Heap, n: BodyValue, h: nat, k: nat, m: Heap, m2: Heap)
    requires Owned(m0, n, h) && k < |ShownKids(m0[n])| && WalkedOnly(m0, ShownKids(m0[n]), k, h - 1, m)
    requires SameOutside(m, m2, Foot(m, ShownKids(m0[n])[k], h - 1))
    ensures WalkedOnly(m0, ShownKids(m0[n]), k + 1, h - 1, m2)
  {
    KidUntouched(m0, n, h, k, m);
    ShownForest(m0, n, h);
    FirstKids(m0, ShownKids(m0[n]), k, h - 1);
  }

  lemma AllUntouched(m0: Heap, n: BodyValue, h: nat, m: Heap)
    requires Owned(m0, n, h) && WalkedOnly(m0, ShownKids(m0[n]), |ShownKids(m0[n])|, h - 1, m)
    ensures m[n] == m0[n] && SameOutside(m0, m, Foot(m0, n, h))
  {
    ShownForest(m0, n, h);
    FirstKids(m0, ShownKids(m0[n]), |ShownKids(m0[n])|, h - 1);
  }

  // Child k is where it was, and rewriting its nodes leaves the path to its parent alone.
  lemma KidReady(m0: Heap, m: Heap, root: BodyValue, h: nat, p: Path, n: BodyValue, k: nat)
    requires Owned(m, root, h) && IsAt(m, root, p, n) && n in m && |p| < h
    requires Owned(m0, n, h - |p|) && k < |ShownKids(m0[n])| && WalkedOnly(m0, ShownKids(m0[n]), k, h - |p| - 1, m)
    ensures var kid := ShownKids(m0[n])[k]; |p| + 1 < h && IsAt(m, root, p + [k], kid) && kid in m
    ensures k < NKidsAt(View(m, root, h), p)
  {
    assert m[n] == m0[n] by {
      KidUntouched(m0, n, h - |p|, k, m);
    }
    StepInto(m, root, h, p, n, k);
    ShownAt(m, root, h, p, n);
  }

  function NKidsAt(t: Tree, p: Path): nat {
    if ValidPath(t, p) then NKids(At(t, p)) else 0
  }

  lemma ShownAt(m: Heap, root: BodyValue, h: nat, p: Path, n: BodyValue)
    requires Owned(m, root, h) && IsAt(m, root, p, n) && n in m && |p| < h
    ensures ValidPath(View(m, root, h), p) && NKidsAt(View(m, root, h), p) == |ShownKids(m[n])|
  {
    IsAtOwned(m, root, h, p, n);
    IsAtView(m, root, h, p, n);
    ShownKidsView(m, n, h - |p|);
  }

  lemma KidLeft(m0: Heap, m: Heap, root: BodyValue, h: nat, p: Path, n: BodyValue, k: nat, m2: Heap)
    requires Owned(m, root, h) && IsAt(m, root, p, n) && n in m && |p| < h
    requires Owned(m0, n, h - |p|) && k < |ShownKids(m0[n])| && WalkedOnly(m0, ShownKids(m0[n]), k, h - |p| - 1, m)
    requires |p| + 1 < h && SameOutside(m, m2, Foot(m, ShownKids(m0[n])[k], h - |p| - 1))
    ensures IsAt(m2, root, p, n) && WalkedOnly(m0, ShownKids(m0[n]), k + 1, h - |p| - 1, m2)
  {
    var F := Foot(m, ShownKids(m0[n])[k], h - |p| - 1);
    hide Owned, Foot, IsAt, WalkedOnly, SameOutside;
    assert n !in F && F <= Foot(m, n, h - |p|) by {
      KidUntouched(m0, n, h - |p|, k, m);
      StepInto(m, root, h, p, n, k);
    }
    assert IsAt(m2, root, p, n) by {
      IsAtKept(m, root, h, p, n, m2, F);
    }
    assert WalkedOnly(m0, ShownKids(m0[n]), k + 1, h - |p| - 1, m2) by {
      WalkedFurther(m0, n, h - |p|, k, m, m2);
    }
  }

  // A path survives changes strictly below its end.
  lemma {:induction false} IsAtKept(m: Heap, v: BodyValue, h: nat, p: Path, n: BodyValue, m2: Heap, F: set<BodyValue>)
    requires Owned(m, v, h) && IsAt(m, v, p, n) && |p| < h
    requires F <= Foot(m, n, h - |p|) && n !in F && SameOutside(m, m2, F)
    ensures IsAt(m2, v, p, n)
    decreases |p|
  {
    hide Owned, Foot, SameOutside;
    if p != [] {
      var k := ShownKids(m[v])[p[0]];
      ShownKidOwned(m, v, h, p[0]);
      IsAtOwned(m, k, h - 1, p[1..], n);
      assert v !in F;
      StaysPut(m, m2, F, v);
      IsAtKept(m, k, h - 1, p[1..], n, m2, F);
    }
  }

  lemma StaysPut(m: Heap, m2: Heap, F: set<BodyValue>, v: BodyValue)
    requires SameOutside(m, m2, F) && v in m && v !in F
    ensures v in m2 && m2[v] == m[v]
  {
  }

  // The two in-place updates, seen on snapshots.
  lemma HoldsItself(m: Heap, n: BodyValue, k: nat)
    requires Owned(m, n, k)
    ensures n in Foot(m, n, k)
  {
  }

  lemma FieldsCut(m: Heap, n: BodyValue, c: Cell, i: nat)
    requires n in m && m[n] == c && c.kind.Object? && i < |c.fields|
    ensures i < |ShownKids(m[n])| && Cut(m, n, i) == m[n := c.(fields := c.fields[..i] + c.fields[i + 1..])]
  {
  }

  lemma ItemsCut(m: Heap, n: BodyValue, c: Cell, i: nat)
    requires n in m && m[n] == c && c.kind.Array? && i < |c.items|
    ensures i < |ShownKids(m[n])| && Cut(m, n, i) == m[n := c.(items := c.items[..i] + c.items[i + 1..])]
  {
  }

  lemma PutBack(m: Heap, n: BodyValue, c: Cell, other: Cell)
    requires n in m && m[n] == c
    ensures m[n := other][n := c] == m
  {
  }

  method SetFields(n: BodyValue, fields: seq<BodyField>, ghost S: set<BodyValue>)
    requires n in S
    modifies n
    ensures Snap(S) == old(Snap(S))[n := old(CellOf(n)).(fields := fields)]
  {
    n.fields := fields;
  }

  method SetItems(n: BodyValue, items: seq<BodyValue>, ghost S: set<BodyValue>)
    requires n in S
    modifies n
    ensures Snap(S) == old(Snap(S))[n := old(CellOf(n)).(items := items)]
  {
    n.items := items;
  }

  // Cut out and put back.
  lemma Restored<T>(s: seq<T>, i: nat)
    requires i < |s|
    ensures var cut := s[..i] + s[i + 1..]; cut[..i] + [s[i]] + cut[i..] == s
  {
  }

  // Field i goes back where it was.
  method RestoreField(n: BodyValue, before: seq<BodyField>, i: nat, ghost S: set<BodyValue>, ghost m: Heap,
                      ghost c: Cell)
    requires n in S && n in m && m[n] == c && c.fields == before && i < |before|
    requires n.fields == before[..i] + before[i + 1..] && Snap(S) == m[n := c.(fields := n.fields)]
    modifies n
    ensures Snap(S) == m
  {
    ghost var cut := n.fields;
    assert CellOf(n) == Snap(S)[n];
    hide Snap;
    Restored(before, i);
    SetFields(n, n.fields[..i] + [before[i]] + n.fields[i..], S);
    PutBack(m, n, c, c.(fields := cut));
  }

  // Item i goes back where it was.
  method RestoreItem(n: BodyValue, before: seq<BodyValue>, i: nat, ghost S: set<BodyValue>, ghost m: Heap,
                     ghost c: Cell)
    requires n in S && n in m && m[n] == c && c.items == before && i < |before|
    requires n.items == before[..i] + before[i + 1..] && Snap(S) == m[n := c.(items := n.items)]
    modifies n
    ensures Snap(S) == m
  {
    ghost var cut := n.items;
    assert CellOf(n) == Snap(S)[n];
    hide Snap;
    Restored(before, i);
    SetItems(n, n.items[..i] + [before[i]] + n.items[i..], S);
    PutBack(m, n, c, c.(items := cut));
  }

  class CrashMinimizer {
    const target: Target
    const maxProbes: nat
    var probes: nat
    var changed: bool
    var item: WorkItem
    ghost var best: Tree       // what item.tree meant when item was last set
    ghost var sent: seq<Tree>  // what the requests sent by this object meant

    constructor (target: Target, maxProbes: nat, probes: nat, item: WorkItem, ghost best: Tree)
      ensures this.target == target && this.maxProbes == maxProbes && this.probes == probes
      ensures this.item == item && this.best == best && !changed && sent == []
    {
      this.target, this.maxProbes, this.probes := target, maxProbes, probes;
      this.item, this.best, changed, sent := item, best, false, [];
    }

    // This object's state, with the given working tree.
    ghost function With(root: Tree): M.State
      reads this
    {
      M.State(root, probes, item.body, best, changed, sent)
    }

    // One probe request, unless the budget is spent.
    method Probe(text: string) returns (ok: bool)
      modifies this`probes
      ensures ok <==> old(probes) < maxProbes
                      && target(old(probes), text).Status? && target(old(probes), text).code >= 500
      ensures probes == if old(probes) < maxProbes then old(probes) + 1 else old(probes)
    {
      if probes >= maxProbes {
        return false;
      }
      var reply := target(probes, text);
      probes := probes + 1;
      ok := reply.Status? && reply.code >= 500;
    }

    // Keep the candidate if it differs from the current item and still crashes the target.
    method TrySet(candidate: WorkItem, ghost meaning: Tree) returns (ok: bool)
      requires candidate.body == Json(meaning, 0)
      modifies this
      ensures (With(meaning), ok) == M.Attempt(OverJson(target), maxProbes, old(With(meaning)))
      ensures item == (if ok then candidate else old(item)) && changed == (old(changed) || ok)
    {
      if candidate.body == item.body {
        return false;
      }
      if probes < maxProbes {
        sent := sent + [meaning];
      }
      ok := Probe(candidate.body);
      if ok {
        item, best, changed := candidate, meaning, true;
      }
    }

    // Re-serialize the working tree and try it.
    method Attempt(root: BodyValue, ghost S: set<BodyValue>, ghost h: nat, ghost t: Tree) returns (ok: bool)
      requires Owned(Snap(S), root, h) && t == View(Snap(S), root, h)
      modifies this
      ensures AttemptIs(OverJson(target), maxProbes, old(With(t)), With(t), ok)
      ensures item.tree == (if ok then root else old(item.tree)) && changed == (old(changed) || ok)
    {
      var body := BodySerialize.ToJSON(root, S, h);
      ok := TrySet(WorkItem(body, root), t);
    }

    // One round of the loop over fields: cut field i out, try, put it back where it was if rejected.
    method TryDropField(node: BodyValue, i: nat, root: BodyValue, ghost S: set<BodyValue>, ghost h: nat, ghost t: Tree)
      returns (ok: bool)
      requires node in S && node.kind.Object? && i < |node.fields|
      requires Owned(Cut(Snap(S), node, i), root, h) && t == View(Cut(Snap(S), node, i), root, h)
      modifies this, node
      ensures Snap(S) == if ok then Cut(old(Snap(S)), node, i) else old(Snap(S))
      ensures AttemptIs(OverJson(target), maxProbes, old(With(t)), With(t), ok)
      ensures item.tree == (if ok then root else old(item.tree)) && changed == (old(changed) || ok)
    {
      ghost var m, c := Snap(S), CellOf(node);
      assert m[node] == c;
      hide Owned, Foot, View, AttemptIs, With, OverJson, Snap, Cut;
      var before := node.fields;
      FieldsCut(m, node, c, i);
      SetFields(node, before[..i] + before[i + 1..], S);
      ok := Attempt(root, S, h, t);
      if !ok {
        RestoreField(node, before, i, S, m, c);
      }
    }

    // Try to drop every field, first to last.
    method DropFields(node: BodyValue, root: BodyValue, ghost S: set<BodyValue>, ghost h: nat, ghost p: Path)
      requires Owned(Snap(S), root, h) && IsAt(Snap(S), root, p, node) && node in S && |p| < h
      requires node.kind.Object? && (changed ==> item.tree == root)
      modifies this, node
      ensures Owned(Snap(S), root, h) && IsAt(Snap(S), root, p, node) && node.kind.Object?
      ensures Foot(Snap(S), node, h - |p|) <= old(Foot(Snap(S), node, h - |p|))
      ensures KidsIs(OverJson(target), maxProbes, old(With(View(Snap(S), root, h))), p, 0, With(View(Snap(S), root, h)))
      ensures (old(changed) ==> changed) && item.tree == if changed then root else old(item.tree)
    {
      hide Owned, Foot, View, IsAt, KidsIs, AttemptIs;
      ghost var m := Snap(S);
      ghost var F := Foot(m, node, h - |p|);
      ghost var final := KidsHas(OverJson(target), maxProbes, m, root, h, p, node, With(View(m, root, h)));
      var i := 0;
      while i < |node.fields|
        invariant i <= |node.fields| && node.kind.Object? && Snap(S) == m
        invariant Owned(m, root, h) && IsAt(m, root, p, node) && Foot(m, node, h - |p|) <= F
        invariant KidsIs(OverJson(target), maxProbes, With(View(m, root, h)), p, i, final)
        invariant (old(changed) ==> changed) && item.tree == if changed then root else old(item.tree)
        decreases |node.fields| - i
      {
        ghost var st := With(View(m, root, h));
        ghost var t := View(Cut(m, node, i), root, h);
        assert Owned(Cut(m, node, i), root, h) by {
          CutKeeps(m, root, h, p, node, i);
        }
        var ok := TryDropField(node, i, root, S, h, t);
        RoundDone(OverJson(target), maxProbes, m, root, h, p, node, i, st, With(t), ok, final);
        if ok {
          CutKeeps(m, root, h, p, node, i);
          m := Cut(m, node, i);
        } else {
          i := i + 1;
        }
      }
      PassOver(OverJson(target), maxProbes, m, root, h, p, node, With(View(m, root, h)), final);
    }

    // One round of the loop over items: cut item i out, try, put it back where it was if rejected.
    method TryDropItem(node: BodyValue, i: nat, root: BodyValue, ghost S: set<BodyValue>, ghost h: nat, ghost t: Tree)
      returns (ok: bool)
      requires node in S && node.kind.Array? && i < |node.items|
      requires Owned(Cut(Snap(S), node, i), root, h) && t == View(Cut(Snap(S), node, i), root, h)
      modifies this, node
      ensures Snap(S) == if ok then Cut(old(Snap(S)), node, i) else old(Snap(S))
      ensures AttemptIs(OverJson(target), maxProbes, old(With(t)), With(t), ok)
      ensures item.tree == (if ok then root else old(item.tree)) && changed == (old(changed) || ok)
    {
      ghost var m, c := Snap(S), CellOf(node);
      assert m[node] == c;
      hide Owned, Foot, View, AttemptIs, With, OverJson, Snap, Cut;
      var before := node.items;
      ItemsCut(m, node, c, i);
      SetItems(node, before[..i] + before[i + 1..], S);
      ok := Attempt(root, S, h, t);
      if !ok {
        RestoreItem(node, before, i, S, m, c);
      }
    }

    // Try to drop every item, first to last.
    method DropItems(node: BodyValue, root: BodyValue, ghost S: set<BodyValue>, ghost h: nat, ghost p: Path)
      requires Owned(Snap(S), root, h) && IsAt(Snap(S), root, p, node) && node in S && |p| < h
      requires node.kind.Array? && (changed ==> item.tree == root)
      modifies this, node
      ensures Owned(Snap(S), root, h) && IsAt(Snap(S), root, p, node) && node.kind.Array?
      ensures Foot(Snap(S), node, h - |p|) <= old(Foot(Snap(S), node, h - |p|))
      ensures KidsIs(OverJson(target), maxProbes, old(With(View(Snap(S), root, h))), p, 0, With(View(Snap(S), root, h)))
      ensures (old(changed) ==> changed) && item.tree == if changed then root else old(item.tree)
    {
      hide Owned, Foot, View, IsAt, KidsIs, AttemptIs;
      ghost var m := Snap(S);
      ghost var F := Foot(m, node, h - |p|);
      ghost var final := KidsHas(OverJson(target), maxProbes, m, root, h, p, node, With(View(m, root, h)));
      var i := 0;
      while i < |node.items|
        invariant i <= |node.items| && node.kind.Array? && Snap(S) == m
        invariant Owned(m, root, h) && IsAt(m, root, p, node) && Foot(m, node, h - |p|) <= F
        invariant KidsIs(OverJson(target), maxProbes, With(View(m, root, h)), p, i, final)
        invariant (old(changed) ==> changed) && item.tree == if changed then root else old(item.tree)
        decreases |node.items| - i
      {
        ghost var st := With(View(m, root, h));
        ghost var t := View(Cut(m, node, i), root, h);
        assert Owned(Cut(m, node, i), root, h) by {
          CutKeeps(m, root, h, p, node, i);
        }
        var ok := TryDropItem(node, i, root, S, h, t);
        RoundDone(OverJson(target), maxProbes, m, root, h, p, node, i, st, With(t), ok, final);
        if ok {
          CutKeeps(m, root, h, p, node, i);
          m := Cut(m, node, i);
        } else {
          i := i + 1;
        }
      }
      PassOver(OverJson(target), maxProbes, m, root, h, p, node, With(View(m, root, h)), final);
    }

    // Drop what can be dropped at this node, then walk what remains below it.
    method MinimizeNode(node: BodyValue, depth: nat, root: BodyValue, ghost S: set<BodyValue>, ghost h: nat,
                        ghost p: Path)
      requires Owned(Snap(S), root, h) && IsAt(Snap(S), root, p, node) && node in S && |p| < h
      requires depth == |p| && (changed ==> item.tree == root)
      modifies this, S
      ensures Owned(Snap(S), root, h) && IsAt(Snap(S), root, p, node)
      ensures SameOutside(old(Snap(S)), Snap(S), old(Foot(Snap(S), node, h - |p|)))
      ensures NodeIs(OverJson(target), maxProbes, old(With(View(Snap(S), root, h))), p, With(View(Snap(S), root, h)))
      ensures (old(changed) ==> changed) && item.tree == if changed then root else old(item.tree)
      decreases h - |p|, 1
    {
      hide Owned, Foot, View, IsAt, KidsIs, ChildrenIs, NodeIs;
      ghost var m := Snap(S);
      ghost var st := With(View(m, root, h));
      if depth > MAX_SERIALIZE_DEPTH || (node.kind != Object && node.kind != Array) {
        NodeSkipped(OverJson(target), maxProbes, m, root, h, p, node, st);
        return;
      }
      if node.kind == Object {
        DropFields(node, root, S, h, p);
      } else {
        DropItems(node, root, S, h, p);
      }
      ghost var m1 := Snap(S);
      ghost var st1 := With(View(m1, root, h));
      assert node in Foot(m, node, h - |p|) by {
        IsAtOwned(m, root, h, p, node);
        HoldsItself(m, node, h - |p|);
      }
      var kids := if node.kind == Object then FieldValues(node.fields) else node.items;
      MinimizeAll(kids, node, depth, root, S, h, p);
      NodeDone(OverJson(target), maxProbes, st, p, st1, With(View(Snap(S), root, h)));
    }

    // The walk over the children a node has after its own pass.
    method MinimizeAll(kids: seq<BodyValue>, node: BodyValue, depth: nat, root: BodyValue, ghost S: set<BodyValue>,
                       ghost h: nat,
                       ghost p: Path)
      requires Owned(Snap(S), root, h) && IsAt(Snap(S), root, p, node) && node in S && |p| < h
      requires depth == |p| <= MAX_SERIALIZE_DEPTH && (changed ==> item.tree == root)
      requires kids == ShownKids(CellOf(node))
      modifies this, S
      ensures Owned(Snap(S), root, h) && IsAt(Snap(S), root, p, node)
      ensures SameOutside(old(Snap(S)), Snap(S), old(Foot(Snap(S), node, h - |p|)))
      ensures ChildrenIs(OverJson(target), maxProbes, old(With(View(Snap(S), root, h))), p, 0, With(View(Snap(S),
                root, h)))
      ensures (old(changed) ==> changed) && item.tree == if changed then root else old(item.tree)
      decreases h - |p|, 0, 1
    {
      hide Owned, Foot, View, IsAt, ChildrenIs;
      ghost var m0 := Snap(S);
      ghost var final := ChildrenHas(OverJson(target), maxProbes, m0, root, h, p, node, With(View(m0, root, h)));
      assert Owned(m0, node, h - |p|) by {
        IsAtOwned(m0, root, h, p, node);
      }
      ghost var m := m0;
      for k := 0 to |kids|
        invariant Snap(S) == m && Owned(m, root, h) && IsAt(m, root, p, node)
        invariant WalkedOnly(m0, kids, k, h - |p| - 1, m)
        invariant ChildrenIs(OverJson(target), maxProbes, With(View(m, root, h)), p, k, final)
        invariant (old(changed) ==> changed) && item.tree == if changed then root else old(item.tree)
      {
        m := VisitKid(kids[k], k, node, depth, root, S, h, p, m0, m, final);
      }
      WalkOver(OverJson(target), maxProbes, m0, m, root, h, p, node, With(View(m, root, h)), final);
    }

    // One round of the walk.
    method VisitKid(kid: BodyValue, ghost k: nat, node: BodyValue, depth: nat, root: BodyValue, ghost S: set<BodyValue>,
                    ghost h: nat, ghost p: Path, ghost m0: Heap, ghost m: Heap, ghost final: M.State)
      returns (ghost m2: Heap)
      requires Snap(S) == m && Owned(m, root, h) && IsAt(m, root, p, node) && node in S && |p| < h
      requires depth == |p| <= MAX_SERIALIZE_DEPTH && (changed ==> item.tree == root)
      requires node in m0 && Owned(m0, node, h - |p|) && k < |ShownKids(m0[node])| && kid == ShownKids(m0[node])[k]
      requires WalkedOnly(m0, ShownKids(m0[node]), k, h - |p| - 1, m)
      requires ChildrenIs(OverJson(target), maxProbes, With(View(m, root, h)), p, k, final)
      modifies this, S
      ensures Snap(S) == m2 && Owned(m2, root, h) && IsAt(m2, root, p, node)
      ensures WalkedOnly(m0, ShownKids(m0[node]), k + 1, h - |p| - 1, m2)
      ensures ChildrenIs(OverJson(target), maxProbes, With(View(m2, root, h)), p, k + 1, final)
      ensures (old(changed) ==> changed) && item.tree == if changed then root else old(item.tree)
      decreases h - |p|, 0, 0
    {
      hide Owned, Foot, View, IsAt, ChildrenIs, NodeIs, WalkedOnly;
      ghost var st := With(View(m, root, h));
      assert |p| + 1 < h && IsAt(m, root, p + [k], kid) && kid in S && k < NKidsAt(st.root, p) by {
        KidReady(m0, m, root, h, p, node, k);
      }
      MinimizeNode(kid, depth + 1, root, S, h, p + [k]);
      m2 := Snap(S);
      assert IsAt(m2, root, p, node) && WalkedOnly(m0, ShownKids(m0[node]), k + 1, h - |p| - 1, m2) by {
        KidLeft(m0, m, root, h, p, node, k, m2);
      }
      WalkStep(OverJson(target), maxProbes, st, p, k, With(View(m2, root, h)), final);
    }

    // Work on a clone of the item's tree; the original is never touched.
    method MinimizeBodyTree(ghost S: set<BodyValue>, ghost h: nat) returns (ghost T: set<BodyValue>, root: BodyValue)
      requires Owned(Snap(S), item.tree, h) && !changed && sent == [] && best == View(Snap(S), item.tree, h)
      modifies this
      ensures fresh(T) && Owned(Snap(T), root, h) && Snap(S) == old(Snap(S))
      ensures With(View(Snap(T), root, h)) ==
              M.MinTree(OverJson(target), maxProbes, Truncate(old(best), 0), old(probes), old(item.body), old(best))
      ensures item.tree == if changed then root else old(item.tree)
    {
      root, T := Clone(item.tree, S, h);
      assert root in T && h > 0 by {
        IsAtOwned(Snap(T), root, h, [], root);
      }
      MinimizeNode(root, 0, root, T, h, []);
      assert Look(0);
    }
  }
}
