// Rewriting the child lists of one node: children dropped, kept or brought in fresh leave a tree.
module BodyEdits {
  import opened BodyTree
  import opened BodyValues
  import BodyClone

  // ls picks elements of all, none of them twice.
  ghost predicate Picks(all: seq<BodyValue>, pick: seq<nat>, ls: seq<BodyValue>) {
    && |ls| == |pick|
    && (forall i | 0 <= i < |pick| :: pick[i] < |all| && ls[i] == all[pick[i]])
    && (forall i, j | 0 <= i < j < |pick| :: pick[i] != pick[j])
  }

  lemma PickForest(m: Heap, all: seq<BodyValue>, h: nat, pick: seq<nat>, ls: seq<BodyValue>)
    requires Forest(m, all, h) && Picks(all, pick, ls)
    ensures Forest(m, ls, h) && FootAll(m, ls, h) <= FootAll(m, all, h)
  {
    forall i, j | 0 <= i < j < |ls|
      ensures Foot(m, ls[i], h) !! Foot(m, ls[j], h)
    {
      var a, b := pick[i], pick[j];
      if a < b {
        assert Foot(m, all[a], h) !! Foot(m, all[b], h);
      } else {
        assert Foot(m, all[b], h) !! Foot(m, all[a], h);
      }
    }
  }

  lemma FootAllAppend(m: Heap, ks: seq<BodyValue>, ls: seq<BodyValue>, h: nat)
    ensures FootAll(m, ks + ls, h) == FootAll(m, ks, h) + FootAll(m, ls, h)
  {
    var all := ks + ls;
    forall x | x in FootAll(m, ls, h)
      ensures x in FootAll(m, all, h)
    {
      var i :| 0 <= i < |ls| && x in Foot(m, ls[i], h);
      assert all[|ks| + i] == ls[i];
    }
    forall x | x in FootAll(m, ks, h)
      ensures x in FootAll(m, all, h)
    {
      var i :| 0 <= i < |ks| && x in Foot(m, ks[i], h);
      assert all[i] == ks[i];
    }
  }

  lemma JoinForest(m: Heap, ks: seq<BodyValue>, ls: seq<BodyValue>, h: nat)
    requires Forest(m, ks, h) && Forest(m, ls, h) && FootAll(m, ks, h) !! FootAll(m, ls, h)
    ensures Forest(m, ks + ls, h)
  {
    var all := ks + ls;
    forall i, j | 0 <= i < j < |all|
      ensures Foot(m, all[i], h) !! Foot(m, all[j], h)
    {
      if i < |ks| <= j {
        assert Foot(m, ks[i], h) <= FootAll(m, ks, h);
        assert Foot(m, ls[j - |ks|], h) <= FootAll(m, ls, h);
      } else if j < |ks| {
        assert all[i] == ks[i] && all[j] == ks[j];
      } else {
        assert all[i] == ls[i - |ks|] && all[j] == ls[j - |ks|];
      }
    }
  }

  lemma ReframeForest(m: Heap, ks: seq<BodyValue>, h: nat, m2: Heap, h2: nat)
    requires Forest(m, ks, h) && h <= h2 && Agree(m, m2, FootAll(m, ks, h))
    ensures Forest(m2, ks, h2) && FootAll(m2, ks, h2) == FootAll(m, ks, h)
    ensures ViewItems(m2, ks, h2) == ViewItems(m, ks, h)
  {
    forall i | 0 <= i < |ks|
      ensures Owned(m2, ks[i], h2) && Same(m, ks[i], h, m2, h2)
    {
      assert Foot(m, ks[i], h) <= FootAll(m, ks, h);
      Frame(m, ks[i], h, m2, h2);
    }
    SameFootAll(m, ks, h, m2, h2);
    var a, b := ViewItems(m2, ks, h2), ViewItems(m, ks, h);
    forall i | 0 <= i < |a|
      ensures a[i] == b[i]
    {
      assert Same(m, ks[i], h, m2, h2);
    }
  }

  // Old heap m, fresh heap mf, both still there in m2 except for what n holds.
  ghost predicate Extends(m: Heap, n: BodyValue, mf: Heap, m2: Heap) {
    n in m && m.Keys !! mf.Keys && n in m2 && Agree(m, m2, m.Keys - {n}) && Agree(mf, m2, mf.Keys)
  }

  // Node n now holds children picked from its old ones and from fresh trees fs.
  lemma Rekid(m: Heap, n: BodyValue, k: nat, mf: Heap, fs: seq<BodyValue>, kf: nat, pick: seq<nat>, m2: Heap, k2: nat)
    requires Owned(m, n, k) && Forest(mf, fs, kf) && Extends(m, n, mf, m2) && k <= k2 && kf < k2
    requires Picks(Kids(m[n]) + fs, pick, Kids(m2[n]))
    ensures Regrown(m, n, k, m2, k2)
    ensures ViewItems(m2, Kids(m[n]) + fs, k2 - 1) == ViewItems(m, Kids(m[n]), k - 1) + ViewItems(mf, fs, kf)
  {
    OldAndFresh(m, n, k, mf, fs, kf, m2, k2);
    RekidShape(m, n, k, mf, fs, kf, pick, m2, k2);
  }

  // Old children and fresh trees side by side form a forest and mean what they meant.
  lemma OldAndFresh(m: Heap, n: BodyValue, k: nat, mf: Heap, fs: seq<BodyValue>, kf: nat, m2: Heap, k2: nat)
    requires Owned(m, n, k) && Forest(mf, fs, kf) && Extends(m, n, mf, m2) && k <= k2 && kf < k2
    ensures
      var all := Kids(m[n]) + fs;
      && Forest(m2, all, k2 - 1)
      && FootAll(m2, all, k2 - 1) == FootAll(m, Kids(m[n]), k - 1) + FootAll(mf, fs, kf)
      && ViewItems(m2, all, k2 - 1) == ViewItems(m, Kids(m[n]), k - 1) + ViewItems(mf, fs, kf)
  {
    hide Foot, FootAll, View, ViewItems, Forest;
    SideBySide(m, Kids(m[n]), k - 1, mf, fs, kf, m2, k2 - 1);
  }

  lemma SideBySide(m: Heap, ks: seq<BodyValue>, k: nat, mf: Heap, fs: seq<BodyValue>, kf: nat, m2: Heap, h: nat)
    requires Forest(m, ks, k) && Forest(mf, fs, kf) && k <= h && kf <= h && m.Keys !! mf.Keys
    requires Agree(m, m2, FootAll(m, ks, k)) && Agree(mf, m2, mf.Keys)
    ensures Forest(m2, ks + fs, h) && FootAll(m2, ks + fs, h) == FootAll(m, ks, k) + FootAll(mf, fs, kf)
    ensures ViewItems(m2, ks + fs, h) == ViewItems(m, ks, k) + ViewItems(mf, fs, kf)
  {
    ReframeForest(m, ks, k, m2, h);
    ReframeForest(mf, fs, kf, m2, h);
    FootAllAppend(m2, ks, fs, h);
    BodyClone.ViewItemsAppend(m2, ks, fs, h);
    JoinForest(m2, ks, fs, h);
  }

  lemma RekidShape(m: Heap, n: BodyValue, k: nat, mf: Heap, fs: seq<BodyValue>, kf: nat, pick: seq<nat>, m2: Heap,
                   k2: nat)
    requires Owned(m, n, k) && n in m2 && k2 > 0 && m.Keys !! mf.Keys
    requires Picks(Kids(m[n]) + fs, pick, Kids(m2[n])) && Forest(m2, Kids(m[n]) + fs, k2 - 1)
    requires FootAll(m2, Kids(m[n]) + fs, k2 - 1) == FootAll(m, Kids(m[n]), k - 1) + FootAll(mf, fs, kf)
    ensures Regrown(m, n, k, m2, k2)
  {
    FootUnfold(m, n, k);
    PickForest(m2, Kids(m[n]) + fs, k2 - 1, pick, Kids(m2[n]));
    FootUnfold(m2, n, k2);
  }

  // ---- one field put in ----

  function WithFieldAt(c: Cell, at: nat, f: BodyField): Cell
    requires at <= |c.fields|
  {
    c.(fields := c.fields[..at] + [f] + c.fields[at..])
  }

  // Items next to fields that change.
  lemma ItemsStay(m: Heap, n: BodyValue, k: nat, fs: seq<BodyValue>, m2: Heap, k2: nat, views: seq<Tree>)
    requires n in m && n in m2 && k > 0 && k2 > 0 && m[n].kind.Array? && m2[n] == m[n].(fields := m2[n].fields)
    requires views == ViewItems(m2, Kids(m[n]) + fs, k2 - 1)
    requires ViewItems(m, Kids(m[n]), k - 1) <= views
    ensures View(m2, n, k2) == View(m, n, k)
  {
    var c, ks, all := m[n], Kids(m[n]), Kids(m[n]) + fs;
    var a, b := ViewItems(m2, c.items, k2 - 1), ViewItems(m, c.items, k - 1);
    forall i | 0 <= i < |a|
      ensures a[i] == b[i]
    {
      assert c.items[i] == ks[|c.fields| + i] == all[|c.fields| + i];
      assert views[|c.fields| + i] == ViewItems(m, ks, k - 1)[|c.fields| + i];
    }
  }

  lemma InsertFieldAt(m: Heap, n: BodyValue, k: nat, at: nat, f: BodyField, mf: Heap, kf: nat, m2: Heap, k2: nat)
    requires Owned(m, n, k) && Owned(mf, f.value, kf) && Extends(m, n, mf, m2) && k <= k2 && kf < k2
    requires at <= |m[n].fields| && m2[n] == WithFieldAt(m[n], at, f)
    ensures Regrown(m, n, k, m2, k2)
    ensures View(m2, n, k2) == InsertField(View(m, n, k), at, Field(f.key, View(mf, f.value, kf)))
  {
    var c, fs := m[n], [f.value];
    InsertKids(m, n, k, at, f, mf, kf, m2, k2);
    var views := ViewItems(m2, Kids(c) + fs, k2 - 1);
    if c.kind.Object? {
      InsertedFields(m, n, k, at, f, mf, kf, m2, k2, views);
    } else if c.kind.Array? {
      ItemsStay(m, n, k, fs, m2, k2, views);
    }
  }

  lemma InsertKids(m: Heap, n: BodyValue, k: nat, at: nat, f: BodyField, mf: Heap, kf: nat, m2: Heap, k2: nat)
    requires Owned(m, n, k) && Owned(mf, f.value, kf) && Extends(m, n, mf, m2) && k <= k2 && kf < k2
    requires at <= |m[n].fields| && m2[n] == WithFieldAt(m[n], at, f)
    ensures k > 0 && Regrown(m, n, k, m2, k2)
    ensures ViewItems(m2, Kids(m[n]) + [f.value], k2 - 1)
         == ViewItems(m, Kids(m[n]), k - 1) + [View(mf, f.value, kf)]
  {
    var ks, fs, ls := Kids(m[n]), [f.value], Kids(m2[n]);
    assert Forest(mf, fs, kf);
    hide Owned, Foot, FootAll, Forest, View, Regrown, Extends;
    var pick: seq<nat> := seq(|ls|, i => if i < at then i else if i == at then |ks| else i - 1);
    Rekid(m, n, k, mf, fs, kf, pick, m2, k2);
    assert ViewItems(mf, fs, kf) == [View(mf, f.value, kf)];
  }

  lemma InsertedFields(m: Heap, n: BodyValue, k: nat, at: nat, f: BodyField, mf: Heap, kf: nat, m2: Heap, k2: nat,
                       views: seq<Tree>)
    requires n in m && k > 0 && k2 > 0 && at <= |m[n].fields| && n in m2 && m2[n] == WithFieldAt(m[n], at, f)
    requires views == ViewItems(m2, Kids(m[n]) + [f.value], k2 - 1)
    requires views == ViewItems(m, Kids(m[n]), k - 1) + [View(mf, f.value, kf)]
    ensures
      var old' := ViewFields(m, m[n].fields, k - 1);
      ViewFields(m2, m2[n].fields, k2 - 1)
        == old'[..at] + [Field(f.key, View(mf, f.value, kf))] + old'[at..]
  {
    var c, ks := m[n], Kids(m[n]);
    var all := ks + [f.value];
    var a, old' := ViewFields(m2, m2[n].fields, k2 - 1), ViewFields(m, c.fields, k - 1);
    var b := old'[..at] + [Field(f.key, View(mf, f.value, kf))] + old'[at..];
    forall i | 0 <= i < |a|
      ensures a[i] == b[i]
    {
      if i == at {
        assert all[|ks|] == f.value && views[|ks|] == View(m2, f.value, k2 - 1);
      } else {
        var j := if i < at then i else i - 1;
        assert m2[n].fields[i] == c.fields[j] && all[j] == c.fields[j].value;
        assert views[j] == View(m2, all[j], k2 - 1);
      }
    }
  }

  // ---- one child replaced ----

  function WithKidCell(c: Cell, i: nat, v: BodyValue): (r: Cell)
    requires i < |ShownKids(c)|
  {
    if c.kind.Object? then c.(fields := c.fields[i := BodyField(c.fields[i].key, v)])
    else c.(items := c.items[i := v])
  }

  lemma ReplaceKid(m: Heap, n: BodyValue, k: nat, i: nat, v: BodyValue, mf: Heap, kf: nat, m2: Heap, k2: nat)
    requires Owned(m, n, k) && Owned(mf, v, kf) && Extends(m, n, mf, m2) && k <= k2 && kf < k2
    requires i < |ShownKids(m[n])| && m2[n] == WithKidCell(m[n], i, v)
    ensures Regrown(m, n, k, m2, k2)
    ensures i < NKids(View(m, n, k)) && View(m2, n, k2) == WithKid(View(m, n, k), i, View(mf, v, kf))
  {
    var c, ks, fs := m[n], Kids(m[n]), [v];
    var all, ls := ks + fs, Kids(m2[n]);
    assert Forest(mf, fs, kf);
    var j := ShownKidIsKid(c, i);
    assert ls == ks[j := v];
    var pick: seq<nat> := seq(|ls|, x => if x == j then |ks| else x);
    Rekid(m, n, k, mf, fs, kf, pick, m2, k2);
    ReplacedKid(m, n, k, i, v, View(mf, v, kf), m2, k2);
  }

  lemma ReplacedKid(m: Heap, n: BodyValue, k: nat, i: nat, v: BodyValue, u: Tree, m2: Heap, k2: nat)
    requires k > 0 && k2 > 0 && n in m && n in m2
    requires i < |ShownKids(m[n])| && m2[n] == WithKidCell(m[n], i, v)
    requires ViewItems(m2, Kids(m[n]) + [v], k2 - 1) == ViewItems(m, Kids(m[n]), k - 1) + [u]
    ensures i < NKids(View(m, n, k)) && View(m2, n, k2) == WithKid(View(m, n, k), i, u)
  {
    var c, ks := m[n], Kids(m[n]);
    var all := ks + [v];
    var views := ViewItems(m2, all, k2 - 1);
    assert views[|ks|] == View(m2, all[|ks|], k2 - 1) == View(m2, v, k2 - 1);
    if c.kind.Object? {
      var a, b := ViewFields(m2, m2[n].fields, k2 - 1), ViewFields(m, c.fields, k - 1);
      forall x | 0 <= x < |a|
        ensures a[x] == b[i := Field(b[i].key, u)][x]
      {
        assert x != i ==> all[x] == c.fields[x].value && views[x] == View(m2, all[x], k2 - 1);
      }
    } else {
      var a, b := ViewItems(m2, m2[n].items, k2 - 1), ViewItems(m, c.items, k - 1);
      forall x | 0 <= x < |a|
        ensures a[x] == b[i := u][x]
      {
        assert x != i ==> all[|c.fields| + x] == c.items[x] && views[|c.fields| + x] == View(m2, c.items[x], k2 - 1);
      }
    }
  }

  // ---- items cut off or appended ----

  // Only an array shows them.
  lemma ChangeItems(m: Heap, n: BodyValue, k: nat, keep: nat, mf: Heap, fs: seq<BodyValue>, kf: nat, m2: Heap, k2: nat)
    requires Owned(m, n, k) && Forest(mf, fs, kf) && Extends(m, n, mf, m2) && k <= k2 && kf < k2
    requires keep <= |m[n].items| && m2[n] == m[n].(items := m[n].items[..keep] + fs)
    ensures Regrown(m, n, k, m2, k2)
    ensures m[n].kind.Array? ==>
              View(m2, n, k2) == Arr(m[n].node, View(m, n, k).items[..keep] + ViewItems(mf, fs, kf))
    ensures !m[n].kind.Array? ==> View(m2, n, k2) == View(m, n, k)
  {
    var c, ks := m[n], Kids(m[n]);
    var all, ls := ks + fs, Kids(m2[n]);
    var nf := |c.fields|;
    assert ls == ks[..nf + keep] + fs;
    var pick: seq<nat> := seq(|ls|, x => if x < nf + keep then x else x - (nf + keep) + |ks|);
    Rekid(m, n, k, mf, fs, kf, pick, m2, k2);
    if c.kind.Array? {
      KeptItems(m, n, k, keep, fs, m2, k2, ViewItems(mf, fs, kf));
    } else if c.kind.Object? {
      FieldsStay(m, n, k, fs, m2, k2, ViewItems(m2, all, k2 - 1));
    }
  }

  // Fields next to items that change.
  lemma FieldsStay(m: Heap, n: BodyValue, k: nat, fs: seq<BodyValue>, m2: Heap, k2: nat, views: seq<Tree>)
    requires n in m && n in m2 && k > 0 && k2 > 0 && m[n].kind.Object? && m2[n] == m[n].(items := m2[n].items)
    requires views == ViewItems(m2, Kids(m[n]) + fs, k2 - 1)
    requires ViewItems(m, Kids(m[n]), k - 1) <= views
    ensures View(m2, n, k2) == View(m, n, k)
  {
    var c, ks, all := m[n], Kids(m[n]), Kids(m[n]) + fs;
    var a, b := ViewFields(m2, c.fields, k2 - 1), ViewFields(m, c.fields, k - 1);
    forall i | 0 <= i < |a|
      ensures a[i] == b[i]
    {
      assert c.fields[i].value == ks[i] == all[i];
      assert views[i] == ViewItems(m, ks, k - 1)[i];
    }
  }

  lemma KeptItems(m: Heap, n: BodyValue, k: nat, keep: nat, fs: seq<BodyValue>, m2: Heap, k2: nat, fresh': seq<Tree>)
    requires k > 0 && k2 > 0 && n in m && n in m2 && |fs| == |fresh'|
    requires m[n].kind.Array? && keep <= |m[n].items| && m2[n] == m[n].(items := m[n].items[..keep] + fs)
    requires ViewItems(m2, Kids(m[n]) + fs, k2 - 1) == ViewItems(m, Kids(m[n]), k - 1) + fresh'
    ensures View(m2, n, k2) == Arr(m[n].node, View(m, n, k).items[..keep] + fresh')
  {
    var c, ks := m[n], Kids(m[n]);
    var all, nf := ks + fs, |c.fields|;
    var views := ViewItems(m2, all, k2 - 1);
    var a, b := ViewItems(m2, m2[n].items, k2 - 1), View(m, n, k).items[..keep] + fresh';
    forall x | 0 <= x < |a|
      ensures a[x] == b[x]
    {
      var y := if x < keep then nf + x else x - keep + |ks|;
      assert m2[n].items[x] == all[y] && views[y] == View(m2, all[y], k2 - 1);
      if x < keep {
        assert ks[nf + x] == c.items[x];
        assert ViewItems(m, ks, k - 1)[nf + x] == View(m, c.items[x], k - 1);
      }
    }
  }

  // ---- one child dropped ----

  // The cell left when shown child number i goes.
  function CutCell(c: Cell, i: nat): (r: Cell)
    requires i < |ShownKids(c)|
  {
    if c.kind.Object? then c.(fields := c.fields[..i] + c.fields[i + 1..])
    else c.(items := c.items[..i] + c.items[i + 1..])
  }

  ghost function Cut(m: Heap, n: BodyValue, i: nat): Heap
    requires n in m && i < |ShownKids(m[n])|
  {
    m[n := CutCell(m[n], i)]
  }

  lemma CutLeft<T>(a: seq<T>, b: seq<T>, i: nat)
    requires i < |a|
    ensures (a + b)[..i] + (a + b)[i + 1..] == (a[..i] + a[i + 1..]) + b
  {
  }

  lemma CutRight<T>(a: seq<T>, b: seq<T>, i: nat)
    requires i < |b|
    ensures (a + b)[..|a| + i] + (a + b)[|a| + i + 1..] == a + (b[..i] + b[i + 1..])
  {
  }

  lemma CutFieldValues(fs: seq<BodyField>, i: nat)
    requires i < |fs|
    ensures FieldValues(fs[..i] + fs[i + 1..]) == FieldValues(fs)[..i] + FieldValues(fs)[i + 1..]
  {
  }

  lemma CutKids(c: Cell, i: nat)
    requires i < |ShownKids(c)|
    ensures var j := if c.kind.Object? then i else |c.fields| + i;
            j < |Kids(c)| && Kids(CutCell(c, i)) == Kids(c)[..j] + Kids(c)[j + 1..]
  {
    if c.kind.Object? {
      CutFieldValues(c.fields, i);
      CutLeft(FieldValues(c.fields), c.items, i);
    } else {
      CutRight(FieldValues(c.fields), c.items, i);
    }
  }

  // Node n of a tree lost shown child number i.
  lemma CutNode(m: Heap, n: BodyValue, k: nat, i: nat, m2: Heap)
    requires Owned(m, n, k) && i < |ShownKids(m[n])| && m2 == m[n := CutCell(m[n], i)]
    ensures Regrown(m, n, k, m2, k)
    ensures i < NKids(View(m, n, k)) && View(m2, n, k) == DropKid(View(m, n, k), i)
  {
    var c := m[n];
    var ks, cut := Kids(c), Kids(CutCell(c, i));
    assert Forest(m, cut, k - 1) && FootAll(m, cut, k - 1) <= FootAll(m, ks, k - 1) by {
      CutKids(c, i);
      SubForest(m, ks, if c.kind.Object? then i else |c.fields| + i, k - 1);
    }
    FrameForest(m, cut, k - 1, m2);
    FootUnfold(m, n, k);
    FootUnfold(m2, n, k);
    CutView(m, n, k, i, m2);
  }

  lemma SubForest(m: Heap, ks: seq<BodyValue>, j: nat, h: nat)
    requires Forest(m, ks, h) && j < |ks|
    ensures var cut := ks[..j] + ks[j + 1..]; Forest(m, cut, h) && FootAll(m, cut, h) <= FootAll(m, ks, h)
  {
  }

  lemma CutView(m: Heap, n: BodyValue, k: nat, i: nat, m2: Heap)
    requires k > 0 && n in m && i < |ShownKids(m[n])| && n in m2 && m2[n] == CutCell(m[n], i)
    requires SameKids(m, Kids(m2[n]), k - 1, m2, k - 1)
    ensures i < NKids(View(m, n, k)) && View(m2, n, k) == DropKid(View(m, n, k), i)
  {
    var c, c2 := m[n], m2[n];
    if c.kind.Object? {
      var a, b := ViewFields(m2, c2.fields, k - 1), ViewFields(m, c.fields, k - 1);
      forall t | 0 <= t < |a|
        ensures a[t] == (b[..i] + b[i + 1..])[t]
      {
        assert Same(m, Kids(c2)[t], k - 1, m2, k - 1);
      }
    } else {
      var a, b := ViewItems(m2, c2.items, k - 1), ViewItems(m, c.items, k - 1);
      forall t | 0 <= t < |a|
        ensures a[t] == (b[..i] + b[i + 1..])[t]
      {
        assert Same(m, Kids(c2)[|c2.fields| + t], k - 1, m2, k - 1);
      }
    }
  }

  // ---- the same on live nodes: S holds the tree, F the fresh tree that goes in ----

  ghost predicate Ready(S: set<BodyValue>, n: BodyValue, k: nat, F: set<BodyValue>, v: BodyValue, kf: nat)
    reads S, F
  {
    Owned(Snap(S), n, k) && Owned(Snap(F), v, kf) && S !! F
  }

  method PutField(n: BodyValue, at: nat, key: string, v: BodyValue, ghost S: set<BodyValue>, ghost k: nat,
                  ghost F: set<BodyValue>, ghost kf: nat, ghost k2: nat)
    requires Ready(S, n, k, F, v, kf) && at <= |n.fields| && k <= k2 && kf < k2
    modifies n`fields
    ensures CellOf(n) == WithFieldAt(old(CellOf(n)), at, BodyField(key, v))
    ensures Extends(old(Snap(S)), n, old(Snap(F)), Snap(S + F))
    ensures Regrown(old(Snap(S)), n, k, Snap(S + F), k2)
    ensures View(Snap(S + F), n, k2)
         == InsertField(old(View(Snap(S), n, k)), at, Field(key, old(View(Snap(F), v, kf))))
  {
    ghost var m, mf := Snap(S), Snap(F);
    n.fields := n.fields[..at] + [BodyField(key, v)] + n.fields[at..];
    InsertFieldAt(m, n, k, at, BodyField(key, v), mf, kf, Snap(S + F), k2);
  }

  method SetField(n: BodyValue, i: nat, v: BodyValue, ghost S: set<BodyValue>, ghost k: nat, ghost F: set<BodyValue>,
                  ghost kf: nat, ghost k2: nat)
    requires Ready(S, n, k, F, v, kf) && n.kind == Object && i < |n.fields| && k <= k2 && kf < k2
    modifies n`fields
    ensures CellOf(n) == WithKidCell(old(CellOf(n)), i, v)
    ensures Extends(old(Snap(S)), n, old(Snap(F)), Snap(S + F))
    ensures Regrown(old(Snap(S)), n, k, Snap(S + F), k2)
    ensures i < NKids(old(View(Snap(S), n, k)))
    ensures View(Snap(S + F), n, k2) == WithKid(old(View(Snap(S), n, k)), i, old(View(Snap(F), v, kf)))
  {
    ghost var m, mf := Snap(S), Snap(F);
    n.fields := n.fields[i := BodyField(n.fields[i].key, v)];
    ReplaceKid(m, n, k, i, v, mf, kf, Snap(S + F), k2);
  }

  method SetItem(n: BodyValue, i: nat, v: BodyValue, ghost S: set<BodyValue>, ghost k: nat, ghost F: set<BodyValue>,
                 ghost kf: nat, ghost k2: nat)
    requires Ready(S, n, k, F, v, kf) && n.kind == Array && i < |n.items| && k <= k2 && kf < k2
    modifies n`items
    ensures CellOf(n) == WithKidCell(old(CellOf(n)), i, v)
    ensures Extends(old(Snap(S)), n, old(Snap(F)), Snap(S + F))
    ensures Regrown(old(Snap(S)), n, k, Snap(S + F), k2)
    ensures i < NKids(old(View(Snap(S), n, k)))
    ensures View(Snap(S + F), n, k2) == WithKid(old(View(Snap(S), n, k)), i, old(View(Snap(F), v, kf)))
  {
    ghost var m, mf := Snap(S), Snap(F);
    n.items := n.items[i := v];
    ReplaceKid(m, n, k, i, v, mf, kf, Snap(S + F), k2);
  }
}
