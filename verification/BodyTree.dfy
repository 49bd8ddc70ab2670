// Value-level view of a request body: what a BodyValue tree denotes, independent of the heap it lives in.
module BodyTree {

  // Identity of a schema node. Pointers into a schema graph are NodeIds; `Nil` is the null pointer.
  type NodeId = nat
  const Nil: NodeId := 0

  datatype Field = Field(key: string, value: Tree)

  // `node` is the originating schema node, Nil for synthetic values.
  datatype Tree =
    | Obj(node: NodeId, fields: seq<Field>)
    | Arr(node: NodeId, items: seq<Tree>)
    | Str(node: NodeId, text: string)
    | Num(node: NodeId, text: string)
    | Bool(node: NodeId, flag: bool)
    | Null(node: NodeId)

  // ---- children, addressed by position ----

  function NKids(t: Tree): nat {
    match t
    case Obj(_, fields) => |fields|
    case Arr(_, items) => |items|
    case _ => 0
  }

  function Kid(t: Tree, i: nat): Tree
    requires i < NKids(t)
  {
    match t
    case Obj(_, fields) => fields[i].value
    case Arr(_, items) => items[i]
  }

  function WithKid(t: Tree, i: nat, u: Tree): (r: Tree)
    requires i < NKids(t)
    ensures NKids(r) == NKids(t) && Kid(r, i) == u
    ensures forall j | 0 <= j < NKids(t) && j != i :: Kid(r, j) == Kid(t, j)
  {
    match t
    case Obj(n, fields) => Obj(n, fields[i := Field(fields[i].key, u)])
    case Arr(n, items) => Arr(n, items[i := u])
  }

  function DropKid(t: Tree, i: nat): (r: Tree)
    requires i < NKids(t)
    ensures NKids(r) == NKids(t) - 1
    ensures forall j | 0 <= j < NKids(r) :: Kid(r, j) == Kid(t, if j < i then j else j + 1)
  {
    match t
    case Obj(n, fields) => Obj(n, fields[..i] + fields[i + 1..])
    case Arr(n, items) => Arr(n, items[..i] + items[i + 1..])
  }

  function InsertField(u: Tree, at: nat, f: Field): Tree {
    if u.Obj? && at <= |u.fields| then Obj(u.node, u.fields[..at] + [f] + u.fields[at..]) else u
  }

  // ---- paths from the root ----

  type Path = seq<nat>

  predicate ValidPath(t: Tree, p: Path) {
    p == [] || (p[0] < NKids(t) && ValidPath(Kid(t, p[0]), p[1..]))
  }

  function At(t: Tree, p: Path): Tree
    requires ValidPath(t, p)
  {
    if p == [] then t else At(Kid(t, p[0]), p[1..])
  }

  function Plug(t: Tree, p: Path, u: Tree): Tree
    requires ValidPath(t, p)
  {
    if p == [] then u else WithKid(t, p[0], Plug(Kid(t, p[0]), p[1..], u))
  }

  // Paths, At and Plug, one step at a time: k is the first child on the way.
  lemma PathStep(t: Tree, p: Path, k: Tree, u: Tree)
    requires p != [] && p[0] < NKids(t) && Kid(t, p[0]) == k && ValidPath(k, p[1..])
    ensures ValidPath(t, p) && At(t, p) == At(k, p[1..])
    ensures Plug(t, p, u) == WithKid(t, p[0], Plug(k, p[1..], u))
  {
  }

  lemma {:induction false} PlugAt(t: Tree, p: Path, u: Tree)
    requires ValidPath(t, p)
    ensures ValidPath(Plug(t, p, u), p) && At(Plug(t, p, u), p) == u
  {
    if p != [] {
      PlugAt(Kid(t, p[0]), p[1..], u);
    }
  }

  lemma {:induction false} PlugPlug(t: Tree, p: Path, u: Tree, v: Tree)
    requires ValidPath(t, p)
    ensures ValidPath(Plug(t, p, u), p) && Plug(Plug(t, p, u), p, v) == Plug(t, p, v)
  {
    PlugAt(t, p, u);
    if p != [] {
      PlugPlug(Kid(t, p[0]), p[1..], u, v);
      WithKidTwice(t, p[0], Plug(Kid(t, p[0]), p[1..], u), Plug(Kid(t, p[0]), p[1..], v));
    }
  }

  lemma WithKidTwice(t: Tree, i: nat, u: Tree, v: Tree)
    requires i < NKids(t)
    ensures WithKid(WithKid(t, i, u), i, v) == WithKid(t, i, v)
  {
    match t
    case Obj(_, fields) => assert fields[i := Field(fields[i].key, u)][i := Field(fields[i].key, v)]
        == fields[i := Field(fields[i].key, v)];
    case Arr(_, items) => assert items[i := u][i := v] == items[i := v];
    case _ =>
  }

  lemma WithKidSame(t: Tree, i: nat)
    requires i < NKids(t)
    ensures WithKid(t, i, Kid(t, i)) == t
  {
    match t
    case Obj(_, fields) => assert fields[i := Field(fields[i].key, fields[i].value)] == fields;
    case Arr(_, items) => assert items[i := items[i]] == items;
    case _ =>
  }

  lemma {:induction false} PlugSame(t: Tree, p: Path)
    requires ValidPath(t, p)
    ensures Plug(t, p, At(t, p)) == t
  {
    if p != [] {
      PlugSame(Kid(t, p[0]), p[1..]);
      WithKidSame(t, p[0]);
    }
  }

  // A path one step longer is the parent's path followed by a child position.
  lemma {:induction false} PathSnoc(t: Tree, p: Path, k: nat)
    requires ValidPath(t, p)
    ensures ValidPath(t, p + [k]) <==> k < NKids(At(t, p))
    ensures k < NKids(At(t, p)) ==> At(t, p + [k]) == Kid(At(t, p), k)
  {
    if p == [] {
      assert p + [k] == [k];
      if k < NKids(t) { assert At(t, [k]) == At(Kid(t, k), []); }
    } else {
      assert (p + [k])[1..] == p[1..] + [k];
      PathSnoc(Kid(t, p[0]), p[1..], k);
    }
  }

  lemma {:induction false} PlugSnoc(t: Tree, p: Path, k: nat, u: Tree)
    requires ValidPath(t, p) && k < NKids(At(t, p))
    ensures ValidPath(t, p + [k])
    ensures Plug(t, p + [k], u) == Plug(t, p, WithKid(At(t, p), k, u))
  {
    PathSnoc(t, p, k);
    if p == [] {
      assert p + [k] == [k];
      assert Plug(t, [k], u) == WithKid(t, k, Plug(Kid(t, k), [], u));
    } else {
      assert (p + [k])[1..] == p[1..] + [k];
      PlugSnoc(Kid(t, p[0]), p[1..], k, u);
    }
  }

  // ---- deletion order: a is b with some fields and items removed, at any depth ----

  predicate Sub(a: Tree, b: Tree)
    decreases b, 1
  {
    a.node == b.node &&
    match b
    case Obj(_, fields) => a.Obj? && SubFields(a.fields, fields)
    case Arr(_, items) => a.Arr? && SubItems(a.items, items)
    case _ => a == b
  }

  predicate SubFields(xs: seq<Field>, ys: seq<Field>)
    decreases ys, 0
  {
    if ys == [] then xs == []
    else
      SubFields(xs, ys[1..]) ||
      (xs != [] && xs[0].key == ys[0].key && Sub(xs[0].value, ys[0].value) && SubFields(xs[1..], ys[1..]))
  }

  predicate SubItems(xs: seq<Tree>, ys: seq<Tree>)
    decreases ys, 0
  {
    if ys == [] then xs == []
    else
      SubItems(xs, ys[1..]) ||
      (xs != [] && Sub(xs[0], ys[0]) && SubItems(xs[1..], ys[1..]))
  }

  lemma {:induction false} SubRefl(t: Tree)
    ensures Sub(t, t)
    decreases t, 1
  {
    match t
    case Obj(_, fields) => SubFieldsRefl(fields);
    case Arr(_, items) => SubItemsRefl(items);
    case _ =>
  }

  lemma {:induction false} SubFieldsRefl(xs: seq<Field>)
    ensures SubFields(xs, xs)
    decreases xs, 0
  {
    if xs != [] {
      SubRefl(xs[0].value);
      SubFieldsRefl(xs[1..]);
    }
  }

  lemma {:induction false} SubItemsRefl(xs: seq<Tree>)
    ensures SubItems(xs, xs)
    decreases xs, 0
  {
    if xs != [] {
      SubRefl(xs[0]);
      SubItemsRefl(xs[1..]);
    }
  }

  lemma {:induction false} SubTrans(a: Tree, b: Tree, c: Tree)
    requires Sub(a, b) && Sub(b, c)
    ensures Sub(a, c)
    decreases c, 1
  {
    match c
    case Obj(_, fields) => SubFieldsTrans(a.fields, b.fields, fields);
    case Arr(_, items) => SubItemsTrans(a.items, b.items, items);
    case _ =>
  }

  lemma {:induction false} SubFieldsTrans(xs: seq<Field>, ys: seq<Field>, zs: seq<Field>)
    requires SubFields(xs, ys) && SubFields(ys, zs)
    ensures SubFields(xs, zs)
    decreases zs, 0, |ys|
  {
    if zs != [] {
      if SubFields(ys, zs[1..]) {
        SubFieldsTrans(xs, ys, zs[1..]);
      } else if SubFields(xs, ys[1..]) {
        SubFieldsTrans(xs, ys[1..], zs[1..]);
      } else {
        SubTrans(xs[0].value, ys[0].value, zs[0].value);
        SubFieldsTrans(xs[1..], ys[1..], zs[1..]);
      }
    }
  }

  lemma {:induction false} SubItemsTrans(xs: seq<Tree>, ys: seq<Tree>, zs: seq<Tree>)
    requires SubItems(xs, ys) && SubItems(ys, zs)
    ensures SubItems(xs, zs)
    decreases zs, 0, |ys|
  {
    if zs != [] {
      if SubItems(ys, zs[1..]) {
        SubItemsTrans(xs, ys, zs[1..]);
      } else if SubItems(xs, ys[1..]) {
        SubItemsTrans(xs, ys[1..], zs[1..]);
      } else {
        SubTrans(xs[0], ys[0], zs[0]);
        SubItemsTrans(xs[1..], ys[1..], zs[1..]);
      }
    }
  }

  // Prepending the same elements, and concatenating pointwise, keep the order.
  lemma {:induction false} SubFieldsAppend(xs: seq<Field>, ys: seq<Field>, us: seq<Field>, vs: seq<Field>)
    requires SubFields(xs, ys) && SubFields(us, vs)
    ensures SubFields(xs + us, ys + vs)
    decreases |ys|
  {
    if ys == [] {
      assert xs + us == us && ys + vs == vs;
    } else {
      assert (ys + vs)[1..] == ys[1..] + vs;
      if SubFields(xs, ys[1..]) {
        SubFieldsAppend(xs, ys[1..], us, vs);
      } else {
        assert (xs + us)[1..] == xs[1..] + us;
        SubFieldsAppend(xs[1..], ys[1..], us, vs);
      }
    }
  }

  lemma {:induction false} SubItemsAppend(xs: seq<Tree>, ys: seq<Tree>, us: seq<Tree>, vs: seq<Tree>)
    requires SubItems(xs, ys) && SubItems(us, vs)
    ensures SubItems(xs + us, ys + vs)
    decreases |ys|
  {
    if ys == [] {
      assert xs + us == us && ys + vs == vs;
    } else {
      assert (ys + vs)[1..] == ys[1..] + vs;
      if SubItems(xs, ys[1..]) {
        SubItemsAppend(xs, ys[1..], us, vs);
      } else {
        assert (xs + us)[1..] == xs[1..] + us;
        SubItemsAppend(xs[1..], ys[1..], us, vs);
      }
    }
  }

  lemma DropKidSub(t: Tree, i: nat)
    requires i < NKids(t)
    ensures Sub(DropKid(t, i), t)
  {
    match t
    case Obj(_, fields) =>
      assert fields == fields[..i] + ([fields[i]] + fields[i + 1..]);
      SubFieldsRefl(fields[..i]);
      SubFieldsRefl(fields[i + 1..]);
      assert ([fields[i]] + fields[i + 1..])[1..] == fields[i + 1..];
      SubFieldsAppend(fields[..i], fields[..i], fields[i + 1..], [fields[i]] + fields[i + 1..]);
    case Arr(_, items) =>
      assert items == items[..i] + ([items[i]] + items[i + 1..]);
      SubItemsRefl(items[..i]);
      SubItemsRefl(items[i + 1..]);
      assert ([items[i]] + items[i + 1..])[1..] == items[i + 1..];
      SubItemsAppend(items[..i], items[..i], items[i + 1..], [items[i]] + items[i + 1..]);
    case _ =>
  }

  lemma WithKidSub(t: Tree, i: nat, u: Tree, v: Tree)
    requires i < NKids(t) && Sub(u, v)
    ensures Sub(WithKid(t, i, u), WithKid(t, i, v))
  {
    match t
    case Obj(_, fields) =>
      var f, g := Field(fields[i].key, u), Field(fields[i].key, v);
      assert fields[i := f] == fields[..i] + ([f] + fields[i + 1..]);
      assert fields[i := g] == fields[..i] + ([g] + fields[i + 1..]);
      SubFieldsRefl(fields[..i]);
      SubFieldsRefl(fields[i + 1..]);
      assert ([f] + fields[i + 1..])[1..] == fields[i + 1..] == ([g] + fields[i + 1..])[1..];
      SubFieldsAppend(fields[..i], fields[..i], [f] + fields[i + 1..], [g] + fields[i + 1..]);
    case Arr(_, items) =>
      assert items[i := u] == items[..i] + ([u] + items[i + 1..]);
      assert items[i := v] == items[..i] + ([v] + items[i + 1..]);
      SubItemsRefl(items[..i]);
      SubItemsRefl(items[i + 1..]);
      assert ([u] + items[i + 1..])[1..] == items[i + 1..] == ([v] + items[i + 1..])[1..];
      SubItemsAppend(items[..i], items[..i], [u] + items[i + 1..], [v] + items[i + 1..]);
    case _ =>
  }

  lemma {:induction false} PlugSub(t: Tree, p: Path, u: Tree, v: Tree)
    requires ValidPath(t, p) && Sub(u, v)
    ensures Sub(Plug(t, p, u), Plug(t, p, v))
  {
    if p != [] {
      PlugSub(Kid(t, p[0]), p[1..], u, v);
      WithKidSub(t, p[0], Plug(Kid(t, p[0]), p[1..], u), Plug(Kid(t, p[0]), p[1..], v));
    }
  }

  // Deleting two different children commutes, so a second deletion keeps "x deleted" below its earlier self.
  lemma DropDropSub(t: Tree, i: nat, j: nat)
    requires j < i < NKids(t)
    ensures Sub(DropKid(DropKid(t, i), j), DropKid(t, j))
  {
    DropKidSub(DropKid(t, j), i - 1);
    if t.Obj? {
      DropDrop(t.fields, i, j);
    } else {
      DropDrop(t.items, i, j);
    }
  }

  lemma DropDrop<T>(s: seq<T>, i: nat, j: nat)
    requires j < i < |s|
    ensures var a, b := s[..i] + s[i + 1..], s[..j] + s[j + 1..];
            a[..j] + a[j + 1..] == b[..i - 1] + b[i..]
  {
    var a, b := s[..i] + s[i + 1..], s[..j] + s[j + 1..];
    assert a[..j] + a[j + 1..] == s[..j] + s[j + 1..i] + s[i + 1..];
    assert b[..i - 1] + b[i..] == s[..j] + s[j + 1..i] + s[i + 1..];
  }

  // Shrinking child k keeps "child j deleted" below its earlier self.
  lemma WithKidDropSub(t: Tree, k: nat, u: Tree, j: nat)
    requires k < NKids(t) && j < NKids(t) && Sub(u, Kid(t, k))
    ensures Sub(DropKid(WithKid(t, k, u), j), DropKid(t, j))
  {
    var d := DropKid(t, j);
    DropAfterWith(t, k, u, j);
    if j == k {
      SubRefl(d);
    } else {
      var k' := if k < j then k else k - 1;
      assert Kid(d, k') == Kid(t, k);
      WithKidSub(d, k', u, Kid(d, k'));
      WithKidSame(d, k');
    }
  }

  lemma DropAfterWith(t: Tree, k: nat, u: Tree, j: nat)
    requires k < NKids(t) && j < NKids(t)
    ensures j == k ==> DropKid(WithKid(t, k, u), j) == DropKid(t, j)
    ensures j != k ==> DropKid(WithKid(t, k, u), j) == WithKid(DropKid(t, j), if k < j then k else k - 1, u)
  {
    var a := DropKid(WithKid(t, k, u), j);
    var b := if j == k then DropKid(t, j) else WithKid(DropKid(t, j), if k < j then k else k - 1, u);
    if t.Obj? {
      assert a.fields == b.fields;
    } else {
      assert a.items == b.items;
    }
  }

  // Shrinking child k keeps "child m replaced by u" below its earlier self.
  lemma WithKidWithKidSub(t: Tree, k: nat, c: Tree, m: nat, u: Tree)
    requires k < NKids(t) && m < NKids(t) && k != m && Sub(c, Kid(t, k))
    ensures Sub(WithKid(WithKid(t, k, c), m, u), WithKid(t, m, u))
  {
    var d := WithKid(t, m, u);
    WithKidSub(d, k, c, Kid(d, k));
    WithKidSame(d, k);
    match t
    case Obj(_, fields) => assert WithKid(WithKid(t, k, c), m, u).fields == WithKid(d, k, c).fields;
    case Arr(_, items) => assert WithKid(WithKid(t, k, c), m, u).items == WithKid(d, k, c).items;
    case _ =>
  }

  // ---- size and height ----

  // Number of fields and items anywhere below the root.
  function Count(t: Tree): nat
    decreases t, NKids(t) + 1
  {
    NKids(t) + CountFrom(t, 0)
  }

  // The same below the children from number k on, those children themselves not counted.
  function CountFrom(t: Tree, k: nat): nat
    requires k <= NKids(t)
    decreases t, NKids(t) - k
  {
    if k == NKids(t) then 0 else Count(Kid(t, k)) + CountFrom(t, k + 1)
  }

  lemma {:induction false} CountFromDrop(t: Tree, i: nat, k: nat)
    requires i < NKids(t) && k <= NKids(t) - 1
    ensures k <= i ==> CountFrom(DropKid(t, i), k) + Count(Kid(t, i)) == CountFrom(t, k)
    ensures k > i ==> CountFrom(DropKid(t, i), k) == CountFrom(t, k + 1)
    decreases NKids(t) - k
  {
    if k < NKids(t) - 1 {
      CountFromDrop(t, i, k + 1);
    }
    if k == i && k < NKids(t) - 1 {
      assert Kid(DropKid(t, i), k) == Kid(t, k + 1);
    }
  }

  lemma {:induction false} CountFromWith(t: Tree, i: nat, u: Tree, k: nat)
    requires i < k <= NKids(t)
    ensures CountFrom(WithKid(t, i, u), k) == CountFrom(t, k)
    decreases NKids(t) - k
  {
    if k < NKids(t) {
      CountFromWith(t, i, u, k + 1);
    }
  }

  function Max(a: nat, b: nat): nat {
    if a < b then b else a
  }

  // Number of nodes on the longest path from the root to a leaf.
  function Height(t: Tree): nat
    decreases t, 1
  {
    1 + match t
        case Obj(_, fields) => HeightFields(fields)
        case Arr(_, items) => HeightItems(items)
        case _ => 0
  }

  function HeightFields(fs: seq<Field>): nat
    decreases fs, 0
  {
    if fs == [] then 0 else Max(Height(fs[0].value), HeightFields(fs[1..]))
  }

  function HeightItems(xs: seq<Tree>): nat
    decreases xs, 0
  {
    if xs == [] then 0 else Max(Height(xs[0]), HeightItems(xs[1..]))
  }

  lemma {:induction false} HeightKid(t: Tree, i: nat)
    requires i < NKids(t)
    ensures Height(Kid(t, i)) < Height(t)
  {
    match t
    case Obj(_, fields) => HeightField(fields, i);
    case Arr(_, items) => HeightItem(items, i);
    case _ =>
  }

  lemma {:induction false} HeightField(fs: seq<Field>, i: nat)
    requires i < |fs|
    ensures Height(fs[i].value) <= HeightFields(fs)
  {
    if i > 0 {
      HeightField(fs[1..], i - 1);
    }
  }

  lemma {:induction false} HeightItem(xs: seq<Tree>, i: nat)
    requires i < |xs|
    ensures Height(xs[i]) <= HeightItems(xs)
  {
    if i > 0 {
      HeightItem(xs[1..], i - 1);
    }
  }
}
