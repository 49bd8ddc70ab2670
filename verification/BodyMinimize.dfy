// minimize.go: the greedy tree minimizer, as a function of the value tree.
module BodyMinimize {
  import opened BodyTree
  import opened JsonPrinter

  // What one probe request comes back with.
  datatype Reply = NetError | Status(code: int)

  // The target, as seen by the minimizer: its answer to probe number n carrying the given body. Letting the
  // answer depend on n covers every target, deterministic or not.
  type Server = (nat, Tree) -> Reply

  predicate Crashed(r: Reply) {
    r.Status? && r.code >= 500
  }

  // root: the working tree; probes: requests sent so far; body, best: Body and BodyTree of the best item so far; sent:
  // the trees this pass sent, in order.
  datatype State = State(root: Tree, probes: nat, body: string, best: Tree, changed: bool, sent: seq<Tree>)

  // One probe of the working tree: skipped when the text is the current body or the budget is spent.
  function Attempt(sv: Server, max: nat, st: State): (State, bool) {
    var text := Json(st.root, 0);
    if text == st.body || st.probes >= max then (st, false)
    else if Crashed(sv(st.probes, st.root)) then
      (State(st.root, st.probes + 1, text, st.root, true, st.sent + [st.root]), true)
    else (st.(probes := st.probes + 1, sent := st.sent + [st.root]), false)
  }

  // Try to drop the children of the node at p, from position i on.
  function MinKids(sv: Server, max: nat, st: State, p: Path, i: nat): (r: State)
    requires ValidPath(st.root, p) && i <= NKids(At(st.root, p))
    ensures ValidPath(r.root, p) && r.root == Plug(st.root, p, At(r.root, p))
    decreases NKids(At(st.root, p)) - i
  {
    var n := At(st.root, p);
    PlugSame(st.root, p);
    if i == NKids(n) then st
    else
      var cut := DropKid(n, i);
      PlugAt(st.root, p, cut);
      var (st1, ok) := Attempt(sv, max, st.(root := Plug(st.root, p, cut)));
      if ok then
        var r := MinKids(sv, max, st1, p, i);
        PlugPlug(st.root, p, cut, At(r.root, p));
        r
      else MinKids(sv, max, st1.(root := st.root), p, i + 1)
  }

  function MinNode(sv: Server, max: nat, st: State, p: Path): (r: State)
    requires ValidPath(st.root, p)
    ensures ValidPath(r.root, p) && r.root == Plug(st.root, p, At(r.root, p))
    decreases MAX_SERIALIZE_DEPTH + 1 - |p|, 1, 0
  {
    PlugSame(st.root, p);
    if |p| > MAX_SERIALIZE_DEPTH then st
    else
      var st1 := MinKids(sv, max, st, p, 0);
      var r := MinChildren(sv, max, st1, p, 0);
      PlugPlug(st.root, p, At(st1.root, p), At(r.root, p));
      r
  }

  // Minimize the remaining children of the node at p, from position k on.
  function MinChildren(sv: Server, max: nat, st: State, p: Path, k: nat): (r: State)
    requires ValidPath(st.root, p) && k <= NKids(At(st.root, p)) && |p| <= MAX_SERIALIZE_DEPTH
    ensures ValidPath(r.root, p) && r.root == Plug(st.root, p, At(r.root, p))
    decreases MAX_SERIALIZE_DEPTH + 1 - |p|, 0, NKids(At(st.root, p)) - k
  {
    PlugSame(st.root, p);
    if k == NKids(At(st.root, p)) then st
    else
      PathSnoc(st.root, p, k);
      var st1 := MinNode(sv, max, st, p + [k]);
      ChildDone(st.root, p, k, At(st1.root, p + [k]));
      var r := MinChildren(sv, max, st1, p, k + 1);
      PlugPlug(st.root, p, At(st1.root, p), At(r.root, p));
      r
  }

  lemma ChildDone(t: Tree, p: Path, k: nat, u: Tree)
    requires ValidPath(t, p) && k < NKids(At(t, p))
    ensures ValidPath(t, p + [k])
    ensures var t1 := Plug(t, p + [k], u);
            ValidPath(t1, p) && At(t1, p) == WithKid(At(t, p), k, u) && t1 == Plug(t, p, At(t1, p))
  {
    PathSnoc(t, p, k);
    PlugSnoc(t, p, k, u);
    PlugAt(t, p, WithKid(At(t, p), k, u));
  }

  // The whole pass over a (cloned) tree, with the Body and probe count of the item it starts from.
  function MinTree(sv: Server, max: nat, root: Tree, probes: nat, body: string, best: Tree): State {
    MinNode(sv, max, State(root, probes, body, best, false, []), [])
  }
}
