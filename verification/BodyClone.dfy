// body_value.go: deep copies.
module BodyClone {
  import opened BodyTree
  import opened JsonPrinter
  import opened BodyValues

  // ---- growing a forest ----

  // Two forests without common nodes, side by side.
  lemma ForestJoin(m1: Heap, ks: seq<BodyValue>, m2: Heap, ls: seq<BodyValue>, mt: Heap, h: nat)
    requires Forest(m1, ks, h) && Forest(m2, ls, h) && m1.Keys !! m2.Keys
    requires Agree(m1, mt, m1.Keys) && Agree(m2, mt, m2.Keys)
    ensures Forest(mt, ks + ls, h)
    ensures ViewItems(mt, ks, h) == ViewItems(m1, ks, h) && ViewItems(mt, ls, h) == ViewItems(m2, ls, h)
  {
    FrameForest(m1, ks, h, mt);
    FrameForest(m2, ls, h, mt);
    var all := ks + ls;
    forall i, j | 0 <= i < j < |all|
      ensures Foot(mt, all[i], h) !! Foot(mt, all[j], h)
    {
      if i < |ks| <= j {
        assert Same(m1, ks[i], h, mt, h) && Same(m2, ls[j - |ks|], h, mt, h);
      }
    }
  }

  lemma SingleForest(m: Heap, k: BodyValue, h: nat)
    requires Owned(m, k, h)
    ensures Forest(m, [k], h) && ViewItems(m, [k], h) == [View(m, k, h)]
  {
  }

  // ---- what lists of children mean ----

  lemma ViewItemsAppend(m: Heap, ks: seq<BodyValue>, ls: seq<BodyValue>, h: nat)
    ensures ViewItems(m, ks + ls, h) == ViewItems(m, ks, h) + ViewItems(m, ls, h)
  {
  }

  lemma TruncateItemsAppend(xs: seq<Tree>, ys: seq<Tree>, depth: nat)
    ensures TruncateItems(xs + ys, depth) == TruncateItems(xs, depth) + TruncateItems(ys, depth)
  {
  }

  // ---- cloning ----

  // A clone consists of fresh nodes only, is itself a tree, and means the source cut at the depth cap.
  method Clone(v: BodyValue, ghost S: set<BodyValue>, ghost h: nat) returns (c: BodyValue, ghost T: set<BodyValue>)
    requires Owned(Snap(S), v, h)
    ensures fresh(T) && Owned(Snap(T), c, h)
    ensures View(Snap(T), c, h) == Truncate(View(Snap(S), v, h), 0)
  {
    c, T := CloneDepth(v, 0, S, h);
  }

  method CloneDepth(v: BodyValue, depth: nat, ghost S: set<BodyValue>, ghost h: nat)
    returns (c: BodyValue, ghost T: set<BodyValue>)
    requires Owned(Snap(S), v, h)
    ensures fresh(T) && Owned(Snap(T), c, h)
    ensures View(Snap(T), c, h) == Truncate(View(Snap(S), v, h), depth)
    decreases h, 1
  {
    if depth > MAX_SERIALIZE_DEPTH {
      c := new BodyValue(NullKind, v.node, "", false);
      T := {c};
      return;
    }
    ghost var m := Snap(S);
    KidsOwned(m, v, h);
    var values, T1 := CloneAll(FieldValues(v.fields), depth + 1, S, h - 1);
    ghost var m1 := Snap(T1);
    var items, T2 := CloneAll(v.items, depth + 1, S, h - 1);
    ghost var m2 := Snap(T2);
    c := NewNode(v, WithKeys(v.fields, values), items);
    T := T1 + T2 + {c};
    assert Snap(S) == m;
    assert Agree(m1, Snap(T), T1) && Agree(m2, Snap(T), T2);
    CloneNode(m, v, h, depth, m1, values, m2, items, c, Snap(T));
  }

  method NewNode(v: BodyValue, fields: seq<BodyField>, items: seq<BodyValue>) returns (c: BodyValue)
    ensures fresh(c) && CellOf(c) == CellOf(v).(fields := fields, items := items)
  {
    c := new BodyValue(v.kind, v.node, v.str, v.flag);
    c.fields := fields;
    c.items := items;
  }

  function WithKeys(fs: seq<BodyField>, values: seq<BodyValue>): (r: seq<BodyField>)
    requires |fs| == |values|
    ensures FieldValues(r) == values
  {
    seq(|fs|, i requires 0 <= i < |fs| => BodyField(fs[i].key, values[i]))
  }

  lemma KidsOwned(m: Heap, v: BodyValue, h: nat)
    requires Owned(m, v, h)
    ensures forall i | 0 <= i < |m[v].fields| :: Owned(m, FieldValues(m[v].fields)[i], h - 1)
    ensures forall i | 0 <= i < |m[v].items| :: Owned(m, m[v].items[i], h - 1)
  {
    forall i | 0 <= i < |m[v].fields|
      ensures Owned(m, FieldValues(m[v].fields)[i], h - 1)
    {
      KidFoot(m, v, h, i);
    }
    forall i | 0 <= i < |m[v].items|
      ensures Owned(m, m[v].items[i], h - 1)
    {
      KidFoot(m, v, h, |m[v].fields| + i);
    }
  }

  // The loop over the children of one node.
  method CloneAll(ks: seq<BodyValue>, depth: nat, ghost S: set<BodyValue>, ghost h: nat)
    returns (cs: seq<BodyValue>, ghost T: set<BodyValue>)
    requires forall i | 0 <= i < |ks| :: Owned(Snap(S), ks[i], h)
    ensures fresh(T) && |cs| == |ks| && Forest(Snap(T), cs, h)
    ensures ViewItems(Snap(T), cs, h) == TruncateItems(ViewItems(Snap(S), ks, h), depth)
    decreases h, 2
  {
    ghost var m := Snap(S);
    cs, T := [], {};
    for i := 0 to |ks|
      invariant |cs| == i && fresh(T) && Snap(S) == m
      invariant Forest(Snap(T), cs, h)
      invariant ViewItems(Snap(T), cs, h) == TruncateItems(ViewItems(m, ks[..i], h), depth)
    {
      var c, U := CloneDepth(ks[i], depth, S, h);
      CloneSnoc(m, ks, i, h, depth, Snap(T), cs, Snap(U), c, Snap(T + U));
      cs, T := cs + [c], T + U;
    }
    assert ks[..|ks|] == ks;
  }

  lemma CloneSnoc(m: Heap, ks: seq<BodyValue>, i: nat, h: nat, depth: nat, m1: Heap, cs: seq<BodyValue>, m2: Heap,
                  c: BodyValue, mt: Heap)
    requires i < |ks| && Forest(m1, cs, h) && Owned(m2, c, h)
    requires m1.Keys !! m2.Keys && Agree(m1, mt, m1.Keys) && Agree(m2, mt, m2.Keys)
    requires ViewItems(m1, cs, h) == TruncateItems(ViewItems(m, ks[..i], h), depth)
    requires View(m2, c, h) == Truncate(View(m, ks[i], h), depth)
    ensures Forest(mt, cs + [c], h)
    ensures ViewItems(mt, cs + [c], h) == TruncateItems(ViewItems(m, ks[..i + 1], h), depth)
  {
    SingleForest(m2, c, h);
    ForestJoin(m1, cs, m2, [c], mt, h);
    ViewItemsAppend(mt, cs, [c], h);
    assert ks[..i + 1] == ks[..i] + [ks[i]];
    ViewItemsAppend(m, ks[..i], [ks[i]], h);
    assert ViewItems(m, [ks[i]], h) == [View(m, ks[i], h)];
    TruncateItemsAppend(ViewItems(m, ks[..i], h), [View(m, ks[i], h)], depth);
    assert TruncateItems([View(m, ks[i], h)], depth) == [Truncate(View(m, ks[i], h), depth)];
  }

  // The node made from the two copied lists.
  lemma CloneNode(m: Heap, v: BodyValue, h: nat, depth: nat, m1: Heap, values: seq<BodyValue>, m2: Heap,
                  items: seq<BodyValue>, c: BodyValue, mc: Heap)
    requires h > 0 && v in m && depth <= MAX_SERIALIZE_DEPTH && |values| == |m[v].fields|
    requires Forest(m1, values, h - 1) && Forest(m2, items, h - 1) && m1.Keys !! m2.Keys
    requires c !in m1 && c !in m2 && c in mc && Agree(m1, mc, m1.Keys) && Agree(m2, mc, m2.Keys)
    requires mc[c] == m[v].(fields := WithKeys(m[v].fields, values), items := items)
    requires ViewItems(m1, values, h - 1) == TruncateItems(ViewItems(m, FieldValues(m[v].fields), h - 1), depth + 1)
    requires ViewItems(m2, items, h - 1) == TruncateItems(ViewItems(m, m[v].items, h - 1), depth + 1)
    ensures Owned(mc, c, h) && View(mc, c, h) == Truncate(View(m, v, h), depth)
  {
    ForestJoin(m1, values, m2, items, mc, h - 1);
    CloneShape(m1, values, m2, items, c, mc, h);
    ClonedFields(m, m[v].fields, mc, values, h - 1, depth + 1);
  }

  lemma CloneShape(m1: Heap, values: seq<BodyValue>, m2: Heap, items: seq<BodyValue>, c: BodyValue, mc: Heap, h: nat)
    requires h > 0 && c !in m1 && c !in m2 && c in mc && Kids(mc[c]) == values + items
    requires Forest(m1, values, h - 1) && Forest(m2, items, h - 1)
    requires Agree(m1, mc, m1.Keys) && Agree(m2, mc, m2.Keys) && Forest(mc, values + items, h - 1)
    ensures Owned(mc, c, h)
  {
    FrameForest(m1, values, h - 1, mc);
    FrameForest(m2, items, h - 1, mc);
    var ks := values + items;
    forall i | 0 <= i < |ks|
      ensures c !in Foot(mc, ks[i], h - 1)
    {
      if i < |values| {
        assert Same(m1, values[i], h - 1, mc, h - 1);
      } else {
        assert Same(m2, items[i - |values|], h - 1, mc, h - 1);
      }
    }
  }

  lemma ClonedFields(m: Heap, fs: seq<BodyField>, mc: Heap, values: seq<BodyValue>, h: nat, depth: nat)
    requires |values| == |fs|
    requires ViewItems(mc, values, h) == TruncateItems(ViewItems(m, FieldValues(fs), h), depth)
    ensures ViewFields(mc, WithKeys(fs, values), h) == TruncateFields(ViewFields(m, fs, h), depth)
  {
    var a, b := ViewFields(mc, WithKeys(fs, values), h), TruncateFields(ViewFields(m, fs, h), depth);
    forall i | 0 <= i < |a|
      ensures a[i] == b[i]
    {
      assert ViewItems(mc, values, h)[i] == TruncateItems(ViewItems(m, FieldValues(fs), h), depth)[i];
    }
  }
}
