// The mutable request-body tree and its shape invariant: acyclic, and no node reachable by two paths.
module BodyValues {
  import opened BodyTree

  datatype Kind = Object | Array | String | Number | Boolean | NullKind

  datatype BodyField = BodyField(key: string, value: BodyValue)

  class BodyValue {
    var kind: Kind
    var fields: seq<BodyField>
    var items: seq<BodyValue>
    var str: string
    var flag: bool
    var node: NodeId

    // A node without children, as the six new...Value functions make it.
    constructor (kind: Kind, node: NodeId, str: string, flag: bool)
      ensures CellOf(this) == Cell(kind, [], [], str, flag, node)
    {
      this.kind, this.node, this.str, this.flag := kind, node, str, flag;
      fields, items := [], [];
    }
  }

  // ---- heap snapshots: what the nodes of a set hold at one moment ----

  datatype Cell = Cell(kind: Kind, fields: seq<BodyField>, items: seq<BodyValue>, str: string, flag: bool, node: NodeId)

  function CellOf(v: BodyValue): Cell
    reads v
  {
    Cell(v.kind, v.fields, v.items, v.str, v.flag, v.node)
  }

  type Heap = map<BodyValue, Cell>

  ghost function Snap(S: set<BodyValue>): (m: Heap)
    reads S
    ensures m.Keys == S
  {
    map v | v in S :: CellOf(v)
  }

  function FieldValues(fs: seq<BodyField>): (r: seq<BodyValue>)
    ensures |r| == |fs| && forall i | 0 <= i < |fs| :: r[i] == fs[i].value
  {
    seq(|fs|, i requires 0 <= i < |fs| => fs[i].value)
  }

  // Every pointer a cell holds, whatever its kind.
  function Kids(c: Cell): seq<BodyValue> {
    FieldValues(c.fields) + c.items
  }

  // ---- shape: v is the root of a tree of at most h levels ----

  ghost predicate Owned(m: Heap, v: BodyValue, h: nat)
    decreases h, 0
  {
    h > 0 && v in m && Forest(m, Kids(m[v]), h - 1) && v !in FootAll(m, Kids(m[v]), h - 1)
  }

  ghost predicate Forest(m: Heap, ks: seq<BodyValue>, h: nat)
    decreases h, 1
  {
    (forall i | 0 <= i < |ks| :: Owned(m, ks[i], h)) &&
    (forall i, j | 0 <= i < j < |ks| :: Foot(m, ks[i], h) !! Foot(m, ks[j], h))
  }

  // The nodes of the tree.
  ghost function Foot(m: Heap, v: BodyValue, h: nat): (r: set<BodyValue>)
    ensures r <= m.Keys
    decreases h, 0
  {
    if h == 0 || v !in m then {} else {v} + FootAll(m, Kids(m[v]), h - 1)
  }

  ghost function FootAll(m: Heap, ks: seq<BodyValue>, h: nat): (r: set<BodyValue>)
    ensures r <= m.Keys
    decreases h, 1
  {
    set i, x | 0 <= i < |ks| && x in Foot(m, ks[i], h) :: x
  }

  // ---- abstraction ----

  // What a node shows, given what its fields and items mean.
  function TreeOf(c: Cell, fields: seq<Field>, items: seq<Tree>): (t: Tree)
    ensures t.node == c.node
  {
    match c.kind
    case Object => Obj(c.node, fields)
    case Array => Arr(c.node, items)
    case String => Str(c.node, c.str)
    case Number => Num(c.node, c.str)
    case Boolean => Bool(c.node, c.flag)
    case NullKind => Null(c.node)
  }

  ghost function View(m: Heap, v: BodyValue, h: nat): (t: Tree)
    decreases h, 0
  {
    if h == 0 || v !in m then Null(Nil)
    else TreeOf(m[v], ViewFields(m, m[v].fields, h - 1), ViewItems(m, m[v].items, h - 1))
  }

  ghost function ViewFields(m: Heap, fs: seq<BodyField>, h: nat): (r: seq<Field>)
    ensures |r| == |fs|
    ensures forall i {:trigger r[i]} | 0 <= i < |fs| :: r[i] == Field(fs[i].key, View(m, fs[i].value, h))
    decreases h, 1
  {
    seq(|fs|, i requires 0 <= i < |fs| => Field(fs[i].key, View(m, fs[i].value, h)))
  }

  ghost function ViewItems(m: Heap, ks: seq<BodyValue>, h: nat): (r: seq<Tree>)
    ensures |r| == |ks|
    ensures forall i {:trigger r[i]} | 0 <= i < |ks| :: r[i] == View(m, ks[i], h)
    decreases h, 1
  {
    seq(|ks|, i requires 0 <= i < |ks| => View(m, ks[i], h))
  }

  // The children a node of this kind shows.
  function ShownKids(c: Cell): seq<BodyValue> {
    match c.kind
    case Object => FieldValues(c.fields)
    case Array => c.items
    case _ => []
  }

  lemma ShownKidIsKid(c: Cell, i: nat) returns (j: nat)
    requires i < |ShownKids(c)|
    ensures j < |Kids(c)| && Kids(c)[j] == ShownKids(c)[i]
    ensures j == if c.kind.Object? then i else |c.fields| + i
  {
    j := if c.kind.Object? then i else |c.fields| + i;
  }

  lemma ShownKidsView(m: Heap, v: BodyValue, h: nat)
    requires Owned(m, v, h)
    ensures NKids(View(m, v, h)) == |ShownKids(m[v])|
    ensures forall i | 0 <= i < |ShownKids(m[v])| :: Kid(View(m, v, h), i) == View(m, ShownKids(m[v])[i], h - 1)
  {
  }

  lemma ShownKidOwned(m: Heap, v: BodyValue, h: nat, i: nat)
    requires Owned(m, v, h) && i < |ShownKids(m[v])|
    ensures Owned(m, ShownKids(m[v])[i], h - 1)
    ensures Foot(m, ShownKids(m[v])[i], h - 1) <= FootAll(m, Kids(m[v]), h - 1) <= Foot(m, v, h)
    ensures v !in Foot(m, ShownKids(m[v])[i], h - 1)
  {
    var j := ShownKidIsKid(m[v], i);
    assert Owned(m, Kids(m[v])[j], h - 1);
  }

  // n is the node at path p below v.
  ghost predicate IsAt(m: Heap, v: BodyValue, p: Path, n: BodyValue) {
    if p == [] then v == n
    else v in m && p[0] < |ShownKids(m[v])| && IsAt(m, ShownKids(m[v])[p[0]], p[1..], n)
  }

  // ---- framing: a tree depends on its own nodes only, and the level bound may be enlarged ----

  ghost predicate Agree(m: Heap, m2: Heap, X: set<BodyValue>) {
    X <= m.Keys && X <= m2.Keys && forall x | x in X :: m2[x] == m[x]
  }

  // Nothing but nodes of F was rewritten.
  ghost predicate SameOutside(m: Heap, m2: Heap, F: set<BodyValue>) {
    m2.Keys == m.Keys && forall x | x in m && x !in F :: m2[x] == m[x]
  }

  lemma FootUnfold(m: Heap, v: BodyValue, h: nat)
    requires h > 0 && v in m
    ensures Foot(m, v, h) == {v} + FootAll(m, Kids(m[v]), h - 1)
  {
  }

  lemma {:induction false} FrameShape(m: Heap, v: BodyValue, h: nat, m2: Heap, h2: nat)
    requires Owned(m, v, h) && h <= h2 && Agree(m, m2, Foot(m, v, h))
    ensures Owned(m2, v, h2) && Foot(m2, v, h2) == Foot(m, v, h)
    decreases h
  {
    var ks := Kids(m[v]);
    assert v in m2 && m2[v] == m[v] by {
      assert v in Foot(m, v, h);
    }
    forall i | 0 <= i < |ks|
      ensures Owned(m2, ks[i], h2 - 1) && Foot(m2, ks[i], h2 - 1) == Foot(m, ks[i], h - 1)
    {
      KidFoot(m, v, h, i);
      FrameShape(m, ks[i], h - 1, m2, h2 - 1);
    }
    ShapeOfKids(m, v, h, m2, h2);
  }

  lemma ShapeOfKids(m: Heap, v: BodyValue, h: nat, m2: Heap, h2: nat)
    requires Owned(m, v, h) && h2 > 0 && v in m2 && m2[v] == m[v]
    requires forall i | 0 <= i < |Kids(m[v])| ::
               Owned(m2, Kids(m[v])[i], h2 - 1) && Foot(m2, Kids(m[v])[i], h2 - 1) == Foot(m, Kids(m[v])[i], h - 1)
    ensures Owned(m2, v, h2) && Foot(m2, v, h2) == Foot(m, v, h)
  {
    var ks := Kids(m[v]);
    SameFootAll(m, ks, h - 1, m2, h2 - 1);
    assert Forest(m2, ks, h2 - 1);
  }

  lemma KidFoot(m: Heap, v: BodyValue, h: nat, i: nat)
    requires Owned(m, v, h) && i < |Kids(m[v])|
    ensures Owned(m, Kids(m[v])[i], h - 1) && Foot(m, Kids(m[v])[i], h - 1) <= Foot(m, v, h)
  {
  }

  lemma SameFootAll(m: Heap, ks: seq<BodyValue>, h: nat, m2: Heap, h2: nat)
    requires forall i | 0 <= i < |ks| :: Foot(m2, ks[i], h2) == Foot(m, ks[i], h)
    ensures FootAll(m2, ks, h2) == FootAll(m, ks, h)
  {
  }

  lemma {:induction false} FrameView(m: Heap, v: BodyValue, h: nat, m2: Heap, h2: nat)
    requires Owned(m, v, h) && h <= h2 && Agree(m, m2, Foot(m, v, h))
    ensures View(m2, v, h2) == View(m, v, h)
    decreases h, 0
  {
    var ks := Kids(m[v]);
    assert v in Foot(m, v, h);
    forall i | 0 <= i < |ks|
      ensures Same(m, ks[i], h - 1, m2, h2 - 1)
    {
      KidFoot(m, v, h, i);
      Frame(m, ks[i], h - 1, m2, h2 - 1);
    }
    ViewOfKids(m, v, h, m2, h2);
  }

  lemma Frame(m: Heap, v: BodyValue, h: nat, m2: Heap, h2: nat)
    requires Owned(m, v, h) && h <= h2 && Agree(m, m2, Foot(m, v, h))
    ensures Owned(m2, v, h2) && Same(m, v, h, m2, h2)
    decreases h, 1
  {
    FrameShape(m, v, h, m2, h2);
    FrameView(m, v, h, m2, h2);
  }

  ghost predicate SameKids(m: Heap, ks: seq<BodyValue>, h: nat, m2: Heap, h2: nat) {
    forall i | 0 <= i < |ks| :: Same(m, ks[i], h, m2, h2)
  }

  ghost predicate Same(m: Heap, v: BodyValue, h: nat, m2: Heap, h2: nat) {
    Foot(m2, v, h2) == Foot(m, v, h) && View(m2, v, h2) == View(m, v, h)
  }

  // A node that did not change and whose children look the same looks the same.
  lemma ViewOfKids(m: Heap, v: BodyValue, h: nat, m2: Heap, h2: nat)
    requires h > 0 && h2 > 0 && v in m && v in m2 && m2[v] == m[v]
    requires SameKids(m, Kids(m[v]), h - 1, m2, h2 - 1)
    ensures View(m2, v, h2) == View(m, v, h)
  {
    var c := m[v];
    var ks := Kids(c);
    if c.kind.Object? {
      var a, b := ViewFields(m2, c.fields, h2 - 1), ViewFields(m, c.fields, h - 1);
      forall i | 0 <= i < |a|
        ensures a[i] == b[i]
      {
        assert Same(m, ks[i], h - 1, m2, h2 - 1);
        assert c.fields[i].value == ks[i];
      }
    } else if c.kind.Array? {
      var a, b := ViewItems(m2, c.items, h2 - 1), ViewItems(m, c.items, h - 1);
      forall i | 0 <= i < |a|
        ensures a[i] == b[i]
      {
        assert Same(m, ks[|c.fields| + i], h - 1, m2, h2 - 1);
        assert c.items[i] == ks[|c.fields| + i];
      }
    }
  }

  lemma FrameForest(m: Heap, ks: seq<BodyValue>, h: nat, m2: Heap)
    requires Forest(m, ks, h) && Agree(m, m2, FootAll(m, ks, h))
    ensures Forest(m2, ks, h) && SameKids(m, ks, h, m2, h)
    ensures ViewItems(m2, ks, h) == ViewItems(m, ks, h) && FootAll(m2, ks, h) == FootAll(m, ks, h)
  {
    forall i | 0 <= i < |ks|
      ensures Owned(m2, ks[i], h) && Same(m, ks[i], h, m2, h)
    {
      assert Foot(m, ks[i], h) <= FootAll(m, ks, h);
      Frame(m, ks[i], h, m2, h);
    }
    SameViews(m, ks, h, m2);
    SameFootAll(m, ks, h, m2, h);
  }

  lemma SameViews(m: Heap, ks: seq<BodyValue>, h: nat, m2: Heap)
    requires SameKids(m, ks, h, m2, h)
    ensures ViewItems(m2, ks, h) == ViewItems(m, ks, h)
  {
    var a, b := ViewItems(m2, ks, h), ViewItems(m, ks, h);
    forall i | 0 <= i < |a|
      ensures a[i] == b[i]
    {
      assert Same(m, ks[i], h, m2, h);
    }
  }

  // ---- changing one node ----

  // The node at a valid path lies in the tree, is a tree itself, and means the subtree at that path.
  lemma {:induction false} IsAtOwned(m: Heap, v: BodyValue, h: nat, p: Path, n: BodyValue)
    requires Owned(m, v, h) && IsAt(m, v, p, n)
    ensures |p| < h && Owned(m, n, h - |p|)
    ensures n in Foot(m, v, h) && Foot(m, n, h - |p|) <= Foot(m, v, h)
    decreases |p|
  {
    if p != [] {
      ShownKidOwned(m, v, h, p[0]);
      IsAtOwned(m, ShownKids(m[v])[p[0]], h - 1, p[1..], n);
    }
  }

  lemma {:induction false} IsAtView(m: Heap, v: BodyValue, h: nat, p: Path, n: BodyValue)
    requires Owned(m, v, h) && IsAt(m, v, p, n) && |p| < h
    ensures ValidPath(View(m, v, h), p) && View(m, n, h - |p|) == At(View(m, v, h), p)
    decreases |p|
  {
    if p != [] {
      var k := ShownKids(m[v])[p[0]];
      assert p[0] < NKids(View(m, v, h)) && Kid(View(m, v, h), p[0]) == View(m, k, h - 1) by {
        ShownKidsView(m, v, h);
      }
      assert Owned(m, k, h - 1) by {
        ShownKidOwned(m, v, h, p[0]);
      }
      IsAtView(m, k, h - 1, p[1..], n);
      PathStep(View(m, v, h), p, View(m, k, h - 1), View(m, k, h - 1));
    }
  }

  // One child subtree was rewritten: k is child number j.
  lemma ChangeKid(m: Heap, ks: seq<BodyValue>, h: nat, j: nat, n: BodyValue, m2: Heap, h2: nat)
    requires Forest(m, ks, h) && j < |ks| && h <= h2
    requires n in Foot(m, ks[j], h) && Agree(m, m2, FootAll(m, ks, h) - {n})
    requires Owned(m2, ks[j], h2) && Foot(m2, ks[j], h2) * m.Keys <= Foot(m, ks[j], h)
    ensures Forest(m2, ks, h2)
    ensures FootAll(m2, ks, h2) * m.Keys <= FootAll(m, ks, h)
    ensures forall i | 0 <= i < |ks| && i != j :: Same(m, ks[i], h, m2, h2)
  {
    forall i | 0 <= i < |ks| && i != j
      ensures Owned(m2, ks[i], h2) && Same(m, ks[i], h, m2, h2)
    {
      assert Foot(m, ks[i], h) !! Foot(m, ks[j], h);
      assert Foot(m, ks[i], h) <= FootAll(m, ks, h);
      Frame(m, ks[i], h, m2, h2);
    }
    forall a, b | 0 <= a < b < |ks|
      ensures Foot(m2, ks[a], h2) !! Foot(m2, ks[b], h2)
    {
      assert Foot(m, ks[a], h) !! Foot(m, ks[b], h);
      if a != j { assert Same(m, ks[a], h, m2, h2); }
      if b != j { assert Same(m, ks[b], h, m2, h2); }
    }
    forall x | x in FootAll(m2, ks, h2) * m.Keys
      ensures x in FootAll(m, ks, h)
    {
      var i :| 0 <= i < |ks| && x in Foot(m2, ks[i], h2);
      if i != j { assert Same(m, ks[i], h, m2, h2); }
    }
  }

  lemma {:induction false} IsAtSnoc(m: Heap, v: BodyValue, p: Path, n: BodyValue, k: nat)
    requires IsAt(m, v, p, n) && n in m && k < |ShownKids(m[n])|
    ensures IsAt(m, v, p + [k], ShownKids(m[n])[k])
  {
    if p == [] {
      assert p + [k] == [k];
      assert IsAt(m, ShownKids(m[n])[k], [k][1..], ShownKids(m[n])[k]);
    } else {
      assert (p + [k])[1..] == p[1..] + [k];
      IsAtSnoc(m, ShownKids(m[v])[p[0]], p[1..], n, k);
    }
  }

  // Shown child number i was rewritten, and nothing else below v.
  ghost predicate ShownKidChanged(m: Heap, v: BodyValue, h: nat, i: nat, n: BodyValue, m2: Heap, h2: nat) {
    Owned(m, v, h) && 0 < h <= h2 && v in m2 && m2[v] == m[v] && i < |ShownKids(m[v])| &&
    Agree(m, m2, Foot(m, v, h) - {n}) &&
    var k := ShownKids(m[v])[i];
    n in Foot(m, k, h - 1) && Regrown(m, k, h - 1, m2, h2 - 1)
  }

  lemma ChangeShownKid(m: Heap, v: BodyValue, h: nat, i: nat, n: BodyValue, m2: Heap, h2: nat)
    requires ShownKidChanged(m, v, h, i, n, m2, h2)
    ensures Regrown(m, v, h, m2, h2)
  {
    var ks := Kids(m[v]);
    var j := ShownKidIsKid(m[v], i);
    FootUnfold(m, v, h);
    FootUnfold(m2, v, h2);
    ChangeKid(m, ks, h - 1, j, n, m2, h2 - 1);
    assert v !in FootAll(m2, ks, h2 - 1);
  }

  lemma ChangeShownKidView(m: Heap, v: BodyValue, h: nat, i: nat, n: BodyValue, m2: Heap, h2: nat)
    requires ShownKidChanged(m, v, h, i, n, m2, h2)
    ensures i < NKids(View(m, v, h))
    ensures View(m2, v, h2) == WithKid(View(m, v, h), i, View(m2, ShownKids(m[v])[i], h2 - 1))
  {
    var ks := Kids(m[v]);
    var j := ShownKidIsKid(m[v], i);
    FootUnfold(m, v, h);
    ChangeKid(m, ks, h - 1, j, n, m2, h2 - 1);
    ViewWithKid(m, v, h, i, m2, h2);
  }

  lemma ViewWithKid(m: Heap, v: BodyValue, h: nat, i: nat, m2: Heap, h2: nat)
    requires h > 0 && h2 > 0 && v in m && v in m2 && m2[v] == m[v] && i < |ShownKids(m[v])|
    requires var ks := Kids(m[v]);
             forall t | 0 <= t < |ks| && t != (if m[v].kind.Object? then i else |m[v].fields| + i) ::
               Same(m, ks[t], h - 1, m2, h2 - 1)
    ensures i < NKids(View(m, v, h))
    ensures View(m2, v, h2) == WithKid(View(m, v, h), i, View(m2, ShownKids(m[v])[i], h2 - 1))
  {
    var c := m[v];
    var ks := Kids(c);
    var u := View(m2, ShownKids(c)[i], h2 - 1);
    if c.kind.Object? {
      var a, b := ViewFields(m2, c.fields, h2 - 1), ViewFields(m, c.fields, h - 1);
      forall t | 0 <= t < |a|
        ensures a[t] == b[i := Field(b[i].key, u)][t]
      {
        assert c.fields[t].value == ks[t];
        if t != i { assert Same(m, ks[t], h - 1, m2, h2 - 1); }
      }
    } else {
      var a, b := ViewItems(m2, c.items, h2 - 1), ViewItems(m, c.items, h - 1);
      forall t | 0 <= t < |a|
        ensures a[t] == b[i := u][t]
      {
        assert c.items[t] == ks[|c.fields| + t];
        if t != i { assert Same(m, ks[|c.fields| + t], h - 1, m2, h2 - 1); }
      }
    }
  }

  // n, at path p of v, is the only node of v's tree that was rewritten.
  ghost predicate OnlyChanged(m: Heap, v: BodyValue, h: nat, p: Path, n: BodyValue, m2: Heap) {
    Owned(m, v, h) && IsAt(m, v, p, n) && Agree(m, m2, Foot(m, v, h) - {n})
  }

  // v is a tree again, holding no old node it did not hold before.
  ghost predicate Regrown(m: Heap, v: BodyValue, h: nat, m2: Heap, h2: nat) {
    Owned(m2, v, h2) && Foot(m2, v, h2) * m.Keys <= Foot(m, v, h)
  }

  lemma OnlyChangedBelow(m: Heap, v: BodyValue, h: nat, p: Path, n: BodyValue, m2: Heap)
    requires OnlyChanged(m, v, h, p, n, m2) && p != []
    ensures v in m2 && m2[v] == m[v]
    ensures OnlyChanged(m, ShownKids(m[v])[p[0]], h - 1, p[1..], n, m2)
    ensures n in Foot(m, ShownKids(m[v])[p[0]], h - 1)
  {
    ShownKidOwned(m, v, h, p[0]);
    IsAtOwned(m, ShownKids(m[v])[p[0]], h - 1, p[1..], n);
    assert v in Foot(m, v, h) - {n};
  }

  // The tree is still a tree ...
  lemma {:induction false} ChangeAtShape(m: Heap, v: BodyValue, h: nat, p: Path, n: BodyValue, m2: Heap, h2: nat)
    requires OnlyChanged(m, v, h, p, n, m2) && |p| < h <= h2 && Regrown(m, n, h - |p|, m2, h2 - |p|)
    ensures Regrown(m, v, h, m2, h2) && IsAt(m2, v, p, n)
    ensures p != [] ==> ShownKidChanged(m, v, h, p[0], n, m2, h2)
    decreases |p|
  {
    if p != [] {
      OnlyChangedBelow(m, v, h, p, n, m2);
      ChangeAtShape(m, ShownKids(m[v])[p[0]], h - 1, p[1..], n, m2, h2 - 1);
      ChangeShownKid(m, v, h, p[0], n, m2, h2);
    }
  }

  // ... and its meaning changed at p only.
  lemma {:induction false} ChangeAtView(m: Heap, v: BodyValue, h: nat, p: Path, n: BodyValue, m2: Heap, h2: nat)
    requires OnlyChanged(m, v, h, p, n, m2) && |p| < h <= h2 && Regrown(m, n, h - |p|, m2, h2 - |p|)
    ensures ValidPath(View(m, v, h), p)
    ensures View(m2, v, h2) == Plug(View(m, v, h), p, View(m2, n, h2 - |p|))
    decreases |p|
  {
    hide Owned, Foot, View, Regrown;
    if p != [] {
      var k := ShownKids(m[v])[p[0]];
      var t, u := View(m, v, h), View(m2, n, h2 - |p|);
      assert OnlyChanged(m, k, h - 1, p[1..], n, m2) by {
        OnlyChangedBelow(m, v, h, p, n, m2);
      }
      ChangeAtView(m, k, h - 1, p[1..], n, m2, h2 - 1);
      assert p[0] < NKids(t) && View(m2, v, h2) == WithKid(t, p[0], View(m2, k, h2 - 1)) by {
        ChangeAtShape(m, v, h, p, n, m2, h2);
        ChangeShownKidView(m, v, h, p[0], n, m2, h2);
      }
      assert Kid(t, p[0]) == View(m, k, h - 1) by {
        KidAt(m, v, h, p, n);
      }
      PathStep(t, p, View(m, k, h - 1), u);
    }
  }

  lemma ChangeAt(m: Heap, v: BodyValue, h: nat, p: Path, n: BodyValue, m2: Heap, h2: nat)
    requires OnlyChanged(m, v, h, p, n, m2) && |p| < h <= h2 && Regrown(m, n, h - |p|, m2, h2 - |p|)
    ensures Regrown(m, v, h, m2, h2) && IsAt(m2, v, p, n) && ValidPath(View(m, v, h), p)
    ensures View(m2, v, h2) == Plug(View(m, v, h), p, View(m2, n, h2 - |p|))
  {
    ChangeAtShape(m, v, h, p, n, m2, h2);
    ChangeAtView(m, v, h, p, n, m2, h2);
  }

  lemma KidAt(m: Heap, v: BodyValue, h: nat, p: Path, n: BodyValue)
    requires Owned(m, v, h) && IsAt(m, v, p, n) && p != []
    ensures p[0] < NKids(View(m, v, h))
    ensures Kid(View(m, v, h), p[0]) == View(m, ShownKids(m[v])[p[0]], h - 1)
  {
    ShownKidsView(m, v, h);
  }
}
