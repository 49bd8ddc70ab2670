// body_serialize.go: writing a value tree as JSON text.
module BodySerialize {
  import opened BodyTree
  import opened JsonPrinter
  import opened BodyValues

  class StringBuilder {
    var text: string

    constructor ()
      ensures text == ""
    {
      text := "";
    }

    method WriteString(s: string)
      modifies this
      ensures text == old(text) + s
    {
      text := text + s;
    }
  }

  method ToJSON(v: BodyValue, ghost S: set<BodyValue>, ghost h: nat) returns (r: string)
    requires Owned(Snap(S), v, h)
    ensures r == Json(View(Snap(S), v, h), 0)
  {
    var b := new StringBuilder();
    WriteJSON(v, b, 0, S, h, View(Snap(S), v, h));
    r := b.text;
  }

  // t is what v means.
  method WriteJSON(v: BodyValue, b: StringBuilder, depth: nat, ghost S: set<BodyValue>, ghost h: nat, ghost t: Tree)
    requires Owned(Snap(S), v, h) && t == View(Snap(S), v, h)
    modifies b
    ensures b.text == old(b.text) + Json(t, depth)
    decreases h, 1
  {
    if depth > MAX_SERIALIZE_DEPTH {
      b.WriteString("null");
      return;
    }
    match v.kind
    case Object =>
      b.WriteString("{");
      WriteFields(v, b, depth, S, h, t.fields);
      b.WriteString("}");
      Enclosed(old(b.text), "{", JsonFields(t.fields, depth + 1), "}");
    case Array =>
      b.WriteString("[");
      WriteItems(v, b, depth, S, h, t.items);
      b.WriteString("]");
      Enclosed(old(b.text), "[", JsonItems(t.items, depth + 1), "]");
    case String =>
      var text := JsonEscapeString(v.str);
      b.WriteString(text);
    case Number =>
      if IsBlank(v.str) {
        b.WriteString("0");
      } else {
        b.WriteString(v.str);
      }
    case Boolean =>
      if v.flag {
        b.WriteString("true");
      } else {
        b.WriteString("false");
      }
    case NullKind =>
      b.WriteString("null");
  }

  lemma Enclosed(before: string, open: string, inside: string, close: string)
    ensures before + open + inside + close == before + (open + inside + close)
  {
  }

  // The loop over an object's fields.
  method WriteFields(v: BodyValue, b: StringBuilder, depth: nat, ghost S: set<BodyValue>, ghost h: nat,
                     ghost fs: seq<Field>)
    requires Owned(Snap(S), v, h) && fs == ViewFields(Snap(S), v.fields, h - 1)
    modifies b
    ensures b.text == old(b.text) + JsonFields(fs, depth + 1)
    decreases h, 0
  {
    hide Foot, Json, JsonString;
    ghost var m, before := Snap(S), b.text;
    for i := 0 to |v.fields|
      invariant b.text == before + JsonFields(fs[..i], depth + 1)
      invariant Snap(S) == m
    {
      if i > 0 {
        b.WriteString(",");
      }
      WriteKey(v.fields[i].key, b);
      assert Owned(m, v.fields[i].value, h - 1) by {
        KidFoot(m, v, h, i);
      }
      WriteJSON(v.fields[i].value, b, depth + 1, S, h - 1, fs[i].value);
      FieldWritten(before, fs, i, depth + 1);
    }
    assert fs[..|fs|] == fs;
  }

  method WriteKey(key: string, b: StringBuilder)
    modifies b
    ensures b.text == old(b.text) + JsonString(key) + ":"
  {
    var text := JsonEscapeString(key);
    b.WriteString(text);
    b.WriteString(":");
  }

  lemma FieldWritten(before: string, fs: seq<Field>, i: nat, depth: nat)
    requires i < |fs|
    ensures before + JsonFields(fs[..i], depth) + (if i > 0 then "," else "") + JsonString(fs[i].key) + ":"
              + Json(fs[i].value, depth)
         == before + JsonFields(fs[..i + 1], depth)
  {
    JsonFieldsSnoc(fs[..i], fs[i], depth);
    assert fs[..i] + [fs[i]] == fs[..i + 1];
    Spliced(before, JsonFields(fs[..i], depth), if i > 0 then "," else "", JsonString(fs[i].key),
            Json(fs[i].value, depth));
  }

  lemma Spliced(before: string, done: string, comma: string, key: string, value: string)
    ensures before + done + comma + key + ":" + value == before + (done + comma + (key + ":" + value))
  {
  }

  // The loop over an array's items.
  method WriteItems(v: BodyValue, b: StringBuilder, depth: nat, ghost S: set<BodyValue>, ghost h: nat,
                    ghost xs: seq<Tree>)
    requires Owned(Snap(S), v, h) && xs == ViewItems(Snap(S), v.items, h - 1)
    modifies b
    ensures b.text == old(b.text) + JsonItems(xs, depth + 1)
    decreases h, 0
  {
    hide Foot, Json, JsonString;
    ghost var m, before := Snap(S), b.text;
    for i := 0 to |v.items|
      invariant b.text == before + JsonItems(xs[..i], depth + 1)
      invariant Snap(S) == m
    {
      if i > 0 {
        b.WriteString(",");
      }
      assert Owned(m, v.items[i], h - 1) by {
        KidFoot(m, v, h, |v.fields| + i);
      }
      WriteJSON(v.items[i], b, depth + 1, S, h - 1, xs[i]);
      ItemWritten(before, xs, i, depth + 1);
    }
    assert xs[..|xs|] == xs;
  }

  lemma ItemWritten(before: string, xs: seq<Tree>, i: nat, depth: nat)
    requires i < |xs|
    ensures before + JsonItems(xs[..i], depth) + (if i > 0 then "," else "") + Json(xs[i], depth)
         == before + JsonItems(xs[..i + 1], depth)
  {
    JsonItemsSnoc(xs[..i], xs[i], depth);
    assert xs[..i] + [xs[i]] == xs[..i + 1];
    Enclosed(before, JsonItems(xs[..i], depth), if i > 0 then "," else "", Json(xs[i], depth));
  }

  method JsonEscapeString(s: string) returns (r: string)
    ensures r == JsonString(s)
  {
    r := "\"";
    for i := 0 to |s|
      invariant r + Escape(s[i..]) == "\"" + Escape(s)
    {
      assert s[i..][1..] == s[i + 1..];
      r := r + EscapeChar(s[i]);
    }
    assert Escape(s[|s|..]) == "";
    r := r + "\"";
  }
}
