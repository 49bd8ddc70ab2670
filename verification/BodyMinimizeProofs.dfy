// What the greedy tree minimizer guarantees: safety for every target, local minimality for monotone ones.
module BodyMinimizeProofs {
  import opened BodyTree
  import opened JsonPrinter
  import opened BodyMinimize
  import opened BodyWire

  // ---- every target ----

  // st is reachable from `start`: the working tree is the last accepted tree, or the start tree if none was
  // accepted; it is the start tree minus deletions; an accepted tree was sent and crashed the target.
  ghost predicate Tracks(sv: Server, max: nat, start: State, st: State) {
    start.sent == [] && st.probes == start.probes + |st.sent| && st.probes <= Max(start.probes, max) &&
    Sub(st.root, start.root) &&
    if st.changed
    then st.best == st.root && st.body == Json(st.root, 0) &&
         SentAndCrashed(sv, start.probes, st.sent, st.root)
    else st == start.(probes := st.probes, sent := st.sent)
  }

  // One of these requests, numbered from `first` on, carried the tree and crashed the target.
  ghost predicate SentAndCrashed(sv: Server, first: nat, sent: seq<Tree>, t: Tree) {
    exists k :: 0 <= k < |sent| && sent[k] == t && sv(first + k, t).Status? && sv(first + k, t).code >= 500
  }

  lemma SentMore(sv: Server, first: nat, sent: seq<Tree>, t: Tree, more: Tree)
    requires SentAndCrashed(sv, first, sent, t)
    ensures SentAndCrashed(sv, first, sent + [more], t)
  {
    var k :| 0 <= k < |sent| && sent[k] == t && sv(first + k, t).Status? && sv(first + k, t).code >= 500;
    assert (sent + [more])[k] == t;
  }

  lemma TracksAttempt(sv: Server, max: nat, start: State, st: State, p: Path, i: nat)
    requires Tracks(sv, max, start, st)
    requires ValidPath(st.root, p) && i < NKids(At(st.root, p))
    ensures var cut := Plug(st.root, p, DropKid(At(st.root, p), i));
            var (st1, ok) := Attempt(sv, max, st.(root := cut));
            Sub(cut, st.root) && if ok then Tracks(sv, max, start, st1) && st1.root == cut
                                 else Tracks(sv, max, start, st1.(root := st.root))
  {
    var n := At(st.root, p);
    var cut := Plug(st.root, p, DropKid(n, i));
    DropKidSub(n, i);
    PlugSub(st.root, p, DropKid(n, i), n);
    PlugSame(st.root, p);
    SubTrans(cut, st.root, start.root);
    var (st1, ok) := Attempt(sv, max, st.(root := cut));
    if ok {
      assert st1.sent[|st.sent|] == cut && Crashed(sv(start.probes + |st.sent|, cut));
    } else if st.changed && st1.sent != st.sent {
      SentMore(sv, start.probes, st.sent, st.root, cut);
    }
  }

  lemma {:induction false} TracksMinKids(sv: Server, max: nat, start: State, st: State, p: Path, i: nat)
    requires Tracks(sv, max, start, st)
    requires ValidPath(st.root, p) && i <= NKids(At(st.root, p))
    ensures Tracks(sv, max, start, MinKids(sv, max, st, p, i))
    decreases NKids(At(st.root, p)) - i
  {
    hide Plug, Tracks, Attempt, Height;
    var n := At(st.root, p);
    if i < NKids(n) {
      var cut := DropKid(n, i);
      PlugAt(st.root, p, cut);
      TracksAttempt(sv, max, start, st, p, i);
      var (st1, ok) := Attempt(sv, max, st.(root := Plug(st.root, p, cut)));
      if ok {
        TracksMinKids(sv, max, start, st1, p, i);
      } else {
        TracksMinKids(sv, max, start, st1.(root := st.root), p, i + 1);
      }
    }
  }

  lemma {:induction false} TracksMinNode(sv: Server, max: nat, start: State, st: State, p: Path)
    requires Tracks(sv, max, start, st) && ValidPath(st.root, p)
    ensures Tracks(sv, max, start, MinNode(sv, max, st, p))
    decreases MAX_SERIALIZE_DEPTH + 1 - |p|, 1, 0
  {
    if |p| <= MAX_SERIALIZE_DEPTH {
      TracksMinKids(sv, max, start, st, p, 0);
      TracksMinChildren(sv, max, start, MinKids(sv, max, st, p, 0), p, 0);
    }
  }

  lemma {:induction false} TracksMinChildren(sv: Server, max: nat, start: State, st: State, p: Path, k: nat)
    requires Tracks(sv, max, start, st)
    requires ValidPath(st.root, p) && k <= NKids(At(st.root, p)) && |p| <= MAX_SERIALIZE_DEPTH
    ensures Tracks(sv, max, start, MinChildren(sv, max, st, p, k))
    decreases MAX_SERIALIZE_DEPTH + 1 - |p|, 0, NKids(At(st.root, p)) - k
  {
    if k < NKids(At(st.root, p)) {
      PathSnoc(st.root, p, k);
      TracksMinNode(sv, max, start, st, p + [k]);
      var st1 := MinNode(sv, max, st, p + [k]);
      ChildDone(st.root, p, k, At(st1.root, p + [k]));
      TracksMinChildren(sv, max, start, st1, p, k + 1);
    }
  }

  // Whatever the target answers: the result is the start tree minus deletions, it is exactly the last accepted
  // tree (every rejected deletion was put back), Body is its JSON, this pass sent it and the target crashed on it, and
  // the probes it spent are the requests it sent, within the budget.
  lemma MinimizerIsSafe(sv: Server, max: nat, root: Tree, probes: nat, body: string, best: Tree)
    requires probes <= max
    ensures var r := MinTree(sv, max, root, probes, body, best);
            && r.probes == probes + |r.sent| <= max
            && Sub(r.root, root)
            && (r.changed ==> r.best == r.root && r.body == Json(r.root, 0) &&
                              exists k :: 0 <= k < |r.sent| && r.sent[k] == r.root
                                          && sv(probes + k, r.root).Status? && sv(probes + k, r.root).code >= 500)
            && (!r.changed ==> r.root == root && r.body == body && r.best == best)
  {
    SubRefl(root);
    var start := State(root, probes, body, best, false, []);
    TracksMinNode(sv, max, start, start, []);
  }

  // A target that never answers with a status of 500 or more: nothing is changed.
  lemma NoCrashNoChange(sv: Server, max: nat, root: Tree, probes: nat, body: string, best: Tree)
    requires probes <= max && forall n: nat, t: Tree {:trigger sv(n, t)} :: sv(n, t).NetError? || sv(n, t).code < 500
    ensures var r := MinTree(sv, max, root, probes, body, best);
            !r.changed && r.root == root && r.body == body && r.best == best
  {
    MinimizerIsSafe(sv, max, root, probes, body, best);
  }

  // ---- monotone targets ----

  // The target's answer depends on the body only, and adding fields or items never makes a crash go away.
  ghost predicate Deterministic(sv: Server, crash: Tree -> bool) {
    forall n: nat, t: Tree {:trigger sv(n, t)} :: (sv(n, t).Status? && sv(n, t).code >= 500) <==> crash(t)
  }

  ghost predicate Monotone(crash: Tree -> bool) {
    forall a: Tree, b: Tree {:trigger Sub(a, b)} :: Sub(a, b) && crash(a) ==> crash(b)
  }

  // No single deletion at or below t still satisfies P, where P judges t in its surroundings.
  ghost predicate Minimal(P: Tree -> bool, t: Tree)
    decreases t
  {
    forall i | 0 <= i < NKids(t) :: !P(DropKid(t, i)) && Minimal(u => P(WithKid(t, i, u)), Kid(t, i))
  }

  lemma {:induction false} MinimalWeaken(P: Tree -> bool, Q: Tree -> bool, t: Tree)
    requires Minimal(P, t) && forall u: Tree {:trigger Q(u)} :: Q(u) ==> P(u)
    ensures Minimal(Q, t)
    decreases t
  {
    forall i | 0 <= i < NKids(t)
      ensures !Q(DropKid(t, i)) && Minimal(u => Q(WithKid(t, i, u)), Kid(t, i))
    {
      var P' := u => P(WithKid(t, i, u));
      var Q' := u => Q(WithKid(t, i, u));
      forall u: Tree | Q'(u)
        ensures P'(u)
      {
        assert Q(WithKid(t, i, u));
      }
      MinimalWeaken(P', Q', Kid(t, i));
    }
  }

  // Minimality said with paths: nothing anywhere in the tree can be deleted.
  lemma {:induction false} MinimalEverywhere(P: Tree -> bool, t: Tree, p: Path, i: nat)
    requires Minimal(P, t) && ValidPath(t, p) && i < NKids(At(t, p))
    ensures !P(Plug(t, p, DropKid(At(t, p), i)))
    decreases |p|
  {
    if p != [] {
      MinimalEverywhere(u => P(WithKid(t, p[0], u)), Kid(t, p[0]), p[1..], i);
    }
  }

  // The no-op guard compares with the current Body: no candidate deletion of the working tree may print as it.
  ghost predicate Unblocked(root: Tree, body: string) {
    forall p: Path, i: nat {:trigger Candidate(root, p, i)} ::
      ValidPath(root, p) && |p| <= MAX_SERIALIZE_DEPTH && i < NKids(At(root, p)) ==>
        Json(Candidate(root, p, i), 0) != body
  }

  function Candidate(t: Tree, p: Path, i: nat): Tree {
    if ValidPath(t, p) && i < NKids(At(t, p)) then Plug(t, p, DropKid(At(t, p), i)) else t
  }

  // A Body in step with the tree never blocks anything.
  lemma InStepUnblocked(root: Tree)
    ensures Unblocked(root, Json(root, 0))
  {
    forall p: Path, i: nat | ValidPath(root, p) && |p| <= MAX_SERIALIZE_DEPTH && i < NKids(At(root, p))
      ensures Json(Candidate(root, p, i), 0) != Json(root, 0)
    {
      DeletionShortens(root, p, i, 0);
    }
  }

  // Everything below p still fits in the budget and above the depth cap.
  ghost predicate Ready(max: nat, st: State, work: nat) {
    st.probes + work <= max && Unblocked(st.root, st.body)
  }

  lemma AttemptReady(sv: Server, max: nat, crash: Tree -> bool, st: State, p: Path, i: nat, work: nat)
    requires Deterministic(sv, crash) && Ready(max, st, 1 + work)
    requires ValidPath(st.root, p) && |p| <= MAX_SERIALIZE_DEPTH && i < NKids(At(st.root, p))
    ensures var cut := Plug(st.root, p, DropKid(At(st.root, p), i));
            var (st1, ok) := Attempt(sv, max, st.(root := cut));
            ok == crash(cut) && st1.root == cut && Ready(max, if ok then st1 else st1.(root := st.root), work)
  {
    var cut := Plug(st.root, p, DropKid(At(st.root, p), i));
    assert cut == Candidate(st.root, p, i);
    InStepUnblocked(cut);
  }

  // How the node at p is judged in the tree around it.
  function InPlace(crash: Tree -> bool, root: Tree, p: Path): Tree -> bool
    requires ValidPath(root, p)
  {
    u => crash(Plug(root, p, u))
  }

  lemma InPlaceIs(crash: Tree -> bool, root: Tree, p: Path, u: Tree)
    requires ValidPath(root, p)
    ensures InPlace(crash, root, p)(u) == crash(Plug(root, p, u))
  {
  }

  lemma InPlaceMonotone(crash: Tree -> bool, root: Tree, p: Path, a: Tree, b: Tree)
    requires Monotone(crash) && ValidPath(root, p) && Sub(a, b) && InPlace(crash, root, p)(a)
    ensures InPlace(crash, root, p)(b)
  {
    PlugSub(root, p, a, b);
  }

  // Rewriting the node at p does not change how it is judged.
  lemma InPlaceSame(crash: Tree -> bool, root: Tree, p: Path, u: Tree, v: Tree)
    requires ValidPath(root, p)
    ensures ValidPath(Plug(root, p, u), p)
    ensures InPlace(crash, Plug(root, p, u), p)(v) == InPlace(crash, root, p)(v)
  {
    PlugPlug(root, p, u, v);
  }

  // Dropping child i keeps every earlier child undroppable.
  lemma DropSettled(crash: Tree -> bool, root: Tree, p: Path, i: nat)
    requires Monotone(crash) && ValidPath(root, p) && i < NKids(At(root, p))
    requires forall j | 0 <= j < i :: !InPlace(crash, root, p)(DropKid(At(root, p), j))
    ensures var cut := DropKid(At(root, p), i);
            ValidPath(Plug(root, p, cut), p) &&
            forall j | 0 <= j < i :: !InPlace(crash, Plug(root, p, cut), p)(DropKid(cut, j))
  {
    var n := At(root, p);
    var cut := DropKid(n, i);
    PlugAt(root, p, cut);
    forall j | 0 <= j < i
      ensures !InPlace(crash, Plug(root, p, cut), p)(DropKid(cut, j))
    {
      DropDropSub(n, i, j);
      InPlaceSame(crash, root, p, cut, DropKid(cut, j));
      if InPlace(crash, root, p)(DropKid(cut, j)) {
        InPlaceMonotone(crash, root, p, DropKid(cut, j), DropKid(n, j));
      }
    }
  }

  lemma KeptSettled(crash: Tree -> bool, root: Tree, p: Path, u: Tree, n: Tree)
    requires ValidPath(root, p) && ValidPath(Plug(root, p, u), p)
    requires forall j | 0 <= j < NKids(n) :: !InPlace(crash, Plug(root, p, u), p)(DropKid(n, j))
    ensures forall j | 0 <= j < NKids(n) :: !InPlace(crash, root, p)(DropKid(n, j))
  {
    forall j | 0 <= j < NKids(n)
      ensures !InPlace(crash, root, p)(DropKid(n, j))
    {
      InPlaceSame(crash, root, p, u, DropKid(n, j));
    }
  }

  lemma MinKidsEnd(sv: Server, max: nat, st: State, p: Path)
    requires ValidPath(st.root, p)
    ensures MinKids(sv, max, st, p, NKids(At(st.root, p))) == st
  {
  }

  lemma MinKidsUnfold(sv: Server, max: nat, st: State, p: Path, i: nat)
    requires ValidPath(st.root, p) && i < NKids(At(st.root, p))
    ensures var cut := DropKid(At(st.root, p), i);
            var (st1, ok) := Attempt(sv, max, st.(root := Plug(st.root, p, cut)));
            && ValidPath(Plug(st.root, p, cut), p) && At(Plug(st.root, p, cut), p) == cut
            && st1.root == Plug(st.root, p, cut)
            && MinKids(sv, max, st, p, i)
               == if ok then MinKids(sv, max, st1, p, i) else MinKids(sv, max, st1.(root := st.root), p, i + 1)
  {
    PlugAt(st.root, p, DropKid(At(st.root, p), i));
  }

  // After the pass over one node's children: the ones still there cannot be dropped.
  lemma {:induction false} MinKidsMinimal(sv: Server, max: nat, crash: Tree -> bool, st: State, p: Path, i: nat)
    requires Deterministic(sv, crash) && Monotone(crash)
    requires ValidPath(st.root, p) && |p| <= MAX_SERIALIZE_DEPTH
    requires var n := At(st.root, p);
             i <= NKids(n) && Ready(max, st, NKids(n) - i + CountFrom(n, 0)) &&
             forall j | 0 <= j < i :: !InPlace(crash, st.root, p)(DropKid(n, j))
    ensures var r := MinKids(sv, max, st, p, i);
            var n, n' := At(st.root, p), At(r.root, p);
            Sub(n', n) && Ready(max, r, CountFrom(n', 0)) &&
            r.probes + CountFrom(n', 0) <= st.probes + NKids(n) - i + CountFrom(n, 0) &&
            forall j | 0 <= j < NKids(n') :: !InPlace(crash, st.root, p)(DropKid(n', j))
    decreases NKids(At(st.root, p)) - i
  {
    hide MinKids, Plug, Json, Monotone, Deterministic, Unblocked;
    var n := At(st.root, p);
    if i == NKids(n) {
      MinKidsEnd(sv, max, st, p);
      SubRefl(n);
    } else {
      var cut := DropKid(n, i);
      MinKidsUnfold(sv, max, st, p, i);
      AttemptReady(sv, max, crash, st, p, i, NKids(n) - i - 1 + CountFrom(n, 0));
      var (st1, ok) := Attempt(sv, max, st.(root := Plug(st.root, p, cut)));
      if ok {
        CountFromDrop(n, i, 0);
        DropSettled(crash, st.root, p, i);
        MinKidsMinimal(sv, max, crash, st1, p, i);
        var n' := At(MinKids(sv, max, st1, p, i).root, p);
        assert Sub(n', n) by {
          DropKidSub(n, i);
          SubTrans(n', cut, n);
        }
        KeptSettled(crash, st.root, p, cut, n');
      } else {
        InPlaceIs(crash, st.root, p, cut);
        MinKidsMinimal(sv, max, crash, st1.(root := st.root), p, i + 1);
      }
    }
  }

  // One child was minimized in place: what was already settled about its node stays settled.
  lemma ChildSettled(crash: Tree -> bool, root: Tree, p: Path, k: nat, c: Tree)
    requires Monotone(crash) && ValidPath(root, p) && k < NKids(At(root, p)) && Sub(c, Kid(At(root, p), k))
    requires var n := At(root, p);
             (forall j | 0 <= j < NKids(n) :: !InPlace(crash, root, p)(DropKid(n, j))) &&
             (forall j | 0 <= j < k :: Minimal(u => InPlace(crash, root, p)(WithKid(n, j, u)), Kid(n, j))) &&
             Minimal(u => InPlace(crash, root, p)(WithKid(n, k, u)), c)
    ensures var n' := WithKid(At(root, p), k, c);
            (forall j | 0 <= j < NKids(n') :: !InPlace(crash, root, p)(DropKid(n', j))) &&
            (forall j | 0 <= j < k + 1 :: Minimal(u => InPlace(crash, root, p)(WithKid(n', j, u)), Kid(n', j)))
  {
    var P := InPlace(crash, root, p);
    var n := At(root, p);
    var n' := WithKid(n, k, c);
    forall j | 0 <= j < NKids(n')
      ensures !P(DropKid(n', j))
    {
      WithKidDropSub(n, k, c, j);
      if P(DropKid(n', j)) {
        InPlaceMonotone(crash, root, p, DropKid(n', j), DropKid(n, j));
      }
    }
    forall j | 0 <= j < k + 1
      ensures Minimal(u => P(WithKid(n', j, u)), Kid(n', j))
    {
      var A := u => P(WithKid(n, j, u));
      var B := u => P(WithKid(n', j, u));
      forall u: Tree | B(u)
        ensures A(u)
      {
        if j == k {
          WithKidTwice(n, k, c, u);
        } else {
          WithKidWithKidSub(n, k, c, j, u);
          InPlaceMonotone(crash, root, p, WithKid(n', j, u), WithKid(n, j, u));
        }
      }
      MinimalWeaken(A, B, Kid(n', j));
    }
  }

  // How child k of the node at p is judged, seen from the child's own path.
  lemma InPlaceChild(crash: Tree -> bool, root: Tree, p: Path, k: nat, c: Tree)
    requires ValidPath(root, p) && k < NKids(At(root, p)) && ValidPath(root, p + [k])
    requires Minimal(InPlace(crash, root, p + [k]), c)
    ensures Minimal(u => InPlace(crash, root, p)(WithKid(At(root, p), k, u)), c)
  {
    var A := InPlace(crash, root, p + [k]);
    var B := u => InPlace(crash, root, p)(WithKid(At(root, p), k, u));
    forall u: Tree | B(u)
      ensures A(u)
    {
      PlugSnoc(root, p, k, u);
      InPlaceIs(crash, root, p, WithKid(At(root, p), k, u));
      InPlaceIs(crash, root, p + [k], u);
    }
    MinimalWeaken(A, B, c);
  }

  lemma {:induction false} HeightSub(a: Tree, b: Tree)
    requires Sub(a, b)
    ensures Height(a) <= Height(b)
    decreases b, 1
  {
    match b
    case Obj(_, fields) => HeightSubFields(a.fields, fields);
    case Arr(_, items) => HeightSubItems(a.items, items);
    case _ =>
  }

  lemma {:induction false} HeightSubFields(xs: seq<Field>, ys: seq<Field>)
    requires SubFields(xs, ys)
    ensures HeightFields(xs) <= HeightFields(ys)
    decreases ys, 0
  {
    if ys != [] {
      if SubFields(xs, ys[1..]) {
        HeightSubFields(xs, ys[1..]);
      } else {
        HeightSub(xs[0].value, ys[0].value);
        HeightSubFields(xs[1..], ys[1..]);
      }
    }
  }

  lemma {:induction false} HeightSubItems(xs: seq<Tree>, ys: seq<Tree>)
    requires SubItems(xs, ys)
    ensures HeightItems(xs) <= HeightItems(ys)
    decreases ys, 0
  {
    if ys != [] {
      if SubItems(xs, ys[1..]) {
        HeightSubItems(xs, ys[1..]);
      } else {
        HeightSub(xs[0], ys[0]);
        HeightSubItems(xs[1..], ys[1..]);
      }
    }
  }

  // Levels a cloned tree can have: the cap's, plus the nulls just below it.
  const CLONE_HEIGHT := MAX_SERIALIZE_DEPTH + 2

  lemma {:induction false} MinNodeMinimal(sv: Server, max: nat, crash: Tree -> bool, st: State, p: Path)
    requires Deterministic(sv, crash) && Monotone(crash)
    requires ValidPath(st.root, p) && |p| + Height(At(st.root, p)) <= CLONE_HEIGHT
    requires Ready(max, st, Count(At(st.root, p)))
    ensures var r := MinNode(sv, max, st, p);
            var n, n' := At(st.root, p), At(r.root, p);
            Sub(n', n) && r.probes <= st.probes + Count(n) && Unblocked(r.root, r.body) &&
            Minimal(InPlace(crash, st.root, p), n')
    decreases MAX_SERIALIZE_DEPTH + 1 - |p|, 1, 0
  {
    var n := At(st.root, p);
    if |p| > MAX_SERIALIZE_DEPTH {
      SubRefl(n);
      if NKids(n) > 0 {
        HeightKid(n, 0);
      }
    } else {
      MinKidsMinimal(sv, max, crash, st, p, 0);
      var st1 := MinKids(sv, max, st, p, 0);
      var n1 := At(st1.root, p);
      HeightSub(n1, n);
      forall j | 0 <= j < NKids(n1)
        ensures !InPlace(crash, st1.root, p)(DropKid(n1, j))
      {
        InPlaceSame(crash, st.root, p, n1, DropKid(n1, j));
      }
      MinChildrenMinimal(sv, max, crash, st1, p, 0);
      var n' := At(MinChildren(sv, max, st1, p, 0).root, p);
      SubTrans(n', n1, n);
      Rebase(crash, st.root, p, n1, n');
    }
  }

  lemma Rebase(crash: Tree -> bool, root: Tree, p: Path, u: Tree, n: Tree)
    requires ValidPath(root, p) && ValidPath(Plug(root, p, u), p)
    requires Minimal(InPlace(crash, Plug(root, p, u), p), n)
    ensures Minimal(InPlace(crash, root, p), n)
  {
    var A, B := InPlace(crash, Plug(root, p, u), p), InPlace(crash, root, p);
    forall v: Tree | B(v)
      ensures A(v)
    {
      InPlaceSame(crash, root, p, u, v);
    }
    MinimalWeaken(A, B, n);
  }

  lemma {:induction false} MinChildrenMinimal(sv: Server, max: nat, crash: Tree -> bool, st: State, p: Path, k: nat)
    requires Deterministic(sv, crash) && Monotone(crash)
    requires ValidPath(st.root, p) && |p| <= MAX_SERIALIZE_DEPTH && |p| + Height(At(st.root, p)) <= CLONE_HEIGHT
    requires var n := At(st.root, p);
             k <= NKids(n) && Ready(max, st, CountFrom(n, k)) &&
             (forall j | 0 <= j < NKids(n) :: !InPlace(crash, st.root, p)(DropKid(n, j))) &&
             (forall j | 0 <= j < k :: Minimal(u => InPlace(crash, st.root, p)(WithKid(n, j, u)), Kid(n, j)))
    ensures var r := MinChildren(sv, max, st, p, k);
            var n, n' := At(st.root, p), At(r.root, p);
            Sub(n', n) && r.probes <= st.probes + CountFrom(n, k) && Unblocked(r.root, r.body) &&
            Minimal(InPlace(crash, st.root, p), n')
    decreases MAX_SERIALIZE_DEPTH + 1 - |p|, 0, NKids(At(st.root, p)) - k
  {
    var n := At(st.root, p);
    PlugSame(st.root, p);
    if k == NKids(n) {
      SubRefl(n);
    } else {
      PathSnoc(st.root, p, k);
      HeightKid(n, k);
      MinNodeMinimal(sv, max, crash, st, p + [k]);
      var st1 := MinNode(sv, max, st, p + [k]);
      var c := At(st1.root, p + [k]);
      ChildDone(st.root, p, k, c);
      InPlaceChild(crash, st.root, p, k, c);
      ChildSettled(crash, st.root, p, k, c);
      var n1 := At(st1.root, p);
      WithKidSub(n, k, c, Kid(n, k));
      WithKidSame(n, k);
      HeightSub(n1, n);
      CountFromWith(n, k, c, k + 1);
      Resettled(crash, st.root, p, n1, k + 1);
      MinChildrenMinimal(sv, max, crash, st1, p, k + 1);
      var n' := At(MinChildren(sv, max, st1, p, k + 1).root, p);
      SubTrans(n', n1, n);
      Rebase(crash, st.root, p, n1, n');
    }
  }

  // The same facts about the node at p, seen from the tree it was put into.
  lemma Resettled(crash: Tree -> bool, root: Tree, p: Path, n: Tree, k: nat)
    requires ValidPath(root, p) && k <= NKids(n)
    requires forall j | 0 <= j < NKids(n) :: !InPlace(crash, root, p)(DropKid(n, j))
    requires forall j | 0 <= j < k :: Minimal(u => InPlace(crash, root, p)(WithKid(n, j, u)), Kid(n, j))
    ensures var root' := Plug(root, p, n);
            ValidPath(root', p) &&
            (forall j | 0 <= j < NKids(n) :: !InPlace(crash, root', p)(DropKid(n, j))) &&
            (forall j | 0 <= j < k :: Minimal(u => InPlace(crash, root', p)(WithKid(n, j, u)), Kid(n, j)))
  {
    PlugAt(root, p, n);
    var root' := Plug(root, p, n);
    forall j | 0 <= j < NKids(n)
      ensures !InPlace(crash, root', p)(DropKid(n, j))
    {
      InPlaceSame(crash, root, p, n, DropKid(n, j));
    }
    forall j | 0 <= j < k
      ensures Minimal(u => InPlace(crash, root', p)(WithKid(n, j, u)), Kid(n, j))
    {
      var A := u => InPlace(crash, root, p)(WithKid(n, j, u));
      var B := u => InPlace(crash, root', p)(WithKid(n, j, u));
      forall u: Tree | B(u)
        ensures A(u)
      {
        InPlaceSame(crash, root, p, n, WithKid(n, j, u));
      }
      MinimalWeaken(A, B, Kid(n, j));
    }
  }

  lemma {:induction false} TruncateHeight(t: Tree, depth: nat)
    requires depth <= MAX_SERIALIZE_DEPTH + 1
    ensures depth + Height(Truncate(t, depth)) <= CLONE_HEIGHT
    decreases t, 1
  {
    if depth <= MAX_SERIALIZE_DEPTH {
      match t
      case Obj(_, fields) => TruncateHeightFields(fields, |fields|, depth + 1);
      case Arr(_, items) => TruncateHeightItems(items, |items|, depth + 1);
      case _ =>
    }
  }

  lemma {:induction false} TruncateHeightFields(fs: seq<Field>, k: nat, depth: nat)
    requires depth <= MAX_SERIALIZE_DEPTH + 1 && k <= |fs|
    ensures depth + HeightFields(TruncateFields(fs, depth)[|fs| - k..]) <= CLONE_HEIGHT
    decreases fs, 0, k
  {
    if k > 0 {
      TruncateHeight(fs[|fs| - k].value, depth);
      TruncateHeightFields(fs, k - 1, depth);
      var r := TruncateFields(fs, depth)[|fs| - k..];
      assert r[1..] == TruncateFields(fs, depth)[|fs| - (k - 1)..];
      assert r[0] == TruncateFields(fs, depth)[|fs| - k];
    }
  }

  lemma {:induction false} TruncateHeightItems(xs: seq<Tree>, k: nat, depth: nat)
    requires depth <= MAX_SERIALIZE_DEPTH + 1 && k <= |xs|
    ensures depth + HeightItems(TruncateItems(xs, depth)[|xs| - k..]) <= CLONE_HEIGHT
    decreases xs, 0, k
  {
    if k > 0 {
      TruncateHeight(xs[|xs| - k], depth);
      TruncateHeightItems(xs, k - 1, depth);
      var r := TruncateItems(xs, depth)[|xs| - k..];
      assert r[1..] == TruncateItems(xs, depth)[|xs| - (k - 1)..];
      assert r[0] == TruncateItems(xs, depth)[|xs| - k];
    }
  }

  lemma UnblockedIsMinimal(sv: Server, max: nat, crash: Tree -> bool, tree: Tree, probes: nat, body: string, p: Path,
                           i: nat)
    requires Deterministic(sv, crash) && Monotone(crash)
    requires probes + Count(Truncate(tree, 0)) <= max
    requires Unblocked(Truncate(tree, 0), body)
    requires var r := MinTree(sv, max, Truncate(tree, 0), probes, body, tree).root;
             ValidPath(r, p) && i < NKids(At(r, p))
    ensures var r := MinTree(sv, max, Truncate(tree, 0), probes, body, tree).root;
            !crash(Plug(r, p, DropKid(At(r, p), i)))
  {
    var root := Truncate(tree, 0);
    var start := State(root, probes, body, tree, false, []);
    TruncateHeight(tree, 0);
    MinNodeMinimal(sv, max, crash, start, []);
    var r := MinNode(sv, max, start, []).root;
    MinimalEverywhere(InPlace(crash, root, []), r, p, i);
    InPlaceIs(crash, root, [], Plug(r, p, DropKid(At(r, p), i)));
  }

  // The Body of an item that was sent never makes the no-op guard throw a candidate away: as JSON it is in step with
  // the tree, and no other text starts like a candidate's.
  lemma SentUnblocked(tree: Tree, body: string)
    requires Sent(tree, body)
    ensures Unblocked(Truncate(tree, 0), body)
  {
    var root := Truncate(tree, 0);
    if body == Json(tree, 0) {
      JsonTruncate(tree, 0);
      InStepUnblocked(root);
    } else {
      SentOpens(tree, body);
      forall p: Path, i: nat | ValidPath(root, p) && |p| <= MAX_SERIALIZE_DEPTH && i < NKids(At(root, p))
        ensures Json(Candidate(root, p, i), 0) != body
      {
        CandidateOpens(root, p, i);
      }
    }
  }

  // For a deterministic, monotone target and a budget of one probe per element, whatever the content type of the
  // request was: nothing anywhere in the returned tree can be deleted without losing the crash.
  lemma MinimizerIsLocallyMinimal(sv: Server, max: nat, crash: Tree -> bool, tree: Tree, probes: nat, body: string,
                                  p: Path, i: nat)
    requires Deterministic(sv, crash) && Monotone(crash) && Sent(tree, body)
    requires probes + Count(Truncate(tree, 0)) <= max
    requires var r := MinTree(sv, max, Truncate(tree, 0), probes, body, tree).root;
             ValidPath(r, p) && i < NKids(At(r, p))
    ensures var r := MinTree(sv, max, Truncate(tree, 0), probes, body, tree).root;
            !crash(Plug(r, p, DropKid(At(r, p), i)))
  {
    SentUnblocked(tree, body);
    UnblockedIsMinimal(sv, max, crash, tree, probes, body, p, i);
  }

  // ---- two targets ----

  // One that crashes on everything: nothing is left to delete.
  lemma AlwaysCrashIsEmptied(sv: Server, max: nat, tree: Tree, probes: nat, body: string)
    requires forall n: nat, t: Tree {:trigger sv(n, t)} :: sv(n, t).Status? && sv(n, t).code >= 500
    requires Sent(tree, body) && probes + Count(Truncate(tree, 0)) <= max
    ensures NKids(MinTree(sv, max, Truncate(tree, 0), probes, body, tree).root) == 0
  {
    hide MinTree, Sent, Truncate, Count;
    var r := MinTree(sv, max, Truncate(tree, 0), probes, body, tree).root;
    if NKids(r) > 0 {
      var all := (t: Tree) => true;
      assert Deterministic(sv, all) && Monotone(all);
      var root: Path := [];
      assert ValidPath(r, root) && At(r, root) == r;
      MinimizerIsLocallyMinimal(sv, max, all, tree, probes, body, root, 0);
    }
  }

  predicate HasField(t: Tree, key: string) {
    t.Obj? && exists i :: 0 <= i < |t.fields| && t.fields[i].key == key
  }

  // One that crashes on every object with a certain field: that field is left, once, and nothing in it.
  lemma OneFieldIsLeft(sv: Server, max: nat, tree: Tree, probes: nat, body: string, key: string)
    requires forall n: nat, t: Tree {:trigger sv(n, t)} ::
               (sv(n, t).Status? && sv(n, t).code >= 500) <==> HasField(t, key)
    requires Sent(tree, body) && HasField(Truncate(tree, 0), key) && probes + Count(Truncate(tree, 0)) <= max
    ensures
      var r := MinTree(sv, max, Truncate(tree, 0), probes, body, tree).root;
      r.Obj? && |r.fields| == 1 && r.fields[0].key == key && NKids(r.fields[0].value) == 0
  {
    hide MinTree, Sent, Truncate, Count, HasField;
    var crash := (t: Tree) => HasField(t, key);
    var st := MinTree(sv, max, Truncate(tree, 0), probes, body, tree);
    assert Deterministic(sv, crash);
    MinimizerIsSafe(sv, max, Truncate(tree, 0), probes, body, tree);
    assert HasField(st.root, key);
    forall a: Tree, b: Tree | Sub(a, b) && crash(a)
      ensures crash(b)
    {
      MoreFields(a, b, key);
    }
    var i := FieldOf(st.root, key);
    forall p: Path, k: nat | ValidPath(st.root, p) && k < NKids(At(st.root, p))
      ensures !HasField(Plug(st.root, p, DropKid(At(st.root, p), k)), key)
    {
      MinimizerIsLocallyMinimal(sv, max, crash, tree, probes, body, p, k);
    }
    OnlyField(st.root, key, i);
  }

  lemma FieldOf(t: Tree, key: string) returns (i: nat)
    requires HasField(t, key)
    ensures t.Obj? && i < |t.fields| && t.fields[i].key == key
  {
    i :| 0 <= i < |t.fields| && t.fields[i].key == key;
  }

  lemma OnlyField(t: Tree, key: string, i: nat)
    requires t.Obj? && i < |t.fields| && t.fields[i].key == key
    requires forall p: Path, k: nat | ValidPath(t, p) && k < NKids(At(t, p)) ::
               !HasField(Plug(t, p, DropKid(At(t, p), k)), key)
    ensures |t.fields| == 1 && NKids(t.fields[0].value) == 0
  {
    hide HasField;
    if |t.fields| > 1 {
      FieldBeside(t, key, i, if i == 0 then 1 else 0);
    } else if NKids(t.fields[0].value) > 0 {
      FieldAround(t, key);
    }
  }

  // Without another field, or without a part of its value, the object still has the field.
  lemma FieldBeside(t: Tree, key: string, i: nat, k: nat)
    requires t.Obj? && i < |t.fields| && t.fields[i].key == key && k < |t.fields| && i != k
    ensures ValidPath(t, []) && At(t, []) == t && HasField(Plug(t, [], DropKid(At(t, []), k)), key)
  {
    var r := DropKid(t, k);
    assert r.fields[if i < k then i else i - 1] == t.fields[i];
  }

  lemma FieldAround(t: Tree, key: string)
    requires t.Obj? && t.fields != [] && t.fields[0].key == key && NKids(t.fields[0].value) > 0
    ensures ValidPath(t, [0]) && At(t, [0]) == t.fields[0].value
    ensures HasField(Plug(t, [0], DropKid(At(t, [0]), 0)), key)
  {
    var p: Path := [0];
    assert p[1..] == [] && Kid(t, 0) == t.fields[0].value;
    assert ValidPath(Kid(t, 0), p[1..]) && At(Kid(t, 0), p[1..]) == Kid(t, 0);
    assert ValidPath(t, p) && At(t, p) == t.fields[0].value;
    var r := Plug(t, p, DropKid(At(t, p), 0));
    assert r.Obj? && r.fields[0].key == key;
  }

  // A field of a part is a field of the whole.
  lemma MoreFields(a: Tree, b: Tree, key: string)
    requires Sub(a, b) && HasField(a, key)
    ensures HasField(b, key)
  {
    var i :| 0 <= i < |a.fields| && a.fields[i].key == key;
    var j := FieldAmong(a.fields, b.fields, i);
  }

  lemma {:induction false} FieldAmong(xs: seq<Field>, ys: seq<Field>, i: nat) returns (j: nat)
    requires SubFields(xs, ys) && i < |xs|
    ensures j < |ys| && ys[j].key == xs[i].key
    decreases ys
  {
    if SubFields(xs, ys[1..]) {
      j := FieldAmong(xs, ys[1..], i);
      j := j + 1;
    } else if i == 0 {
      j := 0;
    } else {
      j := FieldAmong(xs[1..], ys[1..], i - 1);
      j := j + 1;
    }
  }
}
