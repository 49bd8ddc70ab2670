// The text ToJSON produces, as a function of the value tree.
module JsonPrinter {
  import opened BodyTree

  // Nodes deeper than this print as null.
  const MAX_SERIALIZE_DEPTH := 64

  function Json(t: Tree, depth: nat): string
    decreases t, 1
  {
    if depth > MAX_SERIALIZE_DEPTH then "null"
    else
      match t
      case Obj(_, fields) => "{" + JsonFields(fields, depth + 1) + "}"
      case Arr(_, items) => "[" + JsonItems(items, depth + 1) + "]"
      case Str(_, text) => JsonString(text)
      case Num(_, text) => NumberText(text)
      case Bool(_, flag) => if flag then "true" else "false"
      case Null(_) => "null"
  }

  function JsonFields(fs: seq<Field>, depth: nat): string
    decreases fs, 0
  {
    if fs == [] then "" else JsonField(fs[0], depth) + MoreFields(fs[1..], depth)
  }

  function JsonField(f: Field, depth: nat): string
    decreases f, 2
  {
    JsonString(f.key) + ":" + Json(f.value, depth)
  }

  // Every field after the first carries the comma before it.
  function MoreFields(fs: seq<Field>, depth: nat): string
    decreases fs, 0
  {
    if fs == [] then "" else "," + JsonField(fs[0], depth) + MoreFields(fs[1..], depth)
  }

  function JsonItems(xs: seq<Tree>, depth: nat): string
    decreases xs, 0
  {
    if xs == [] then "" else Json(xs[0], depth) + MoreItems(xs[1..], depth)
  }

  function MoreItems(xs: seq<Tree>, depth: nat): string
    decreases xs, 0
  {
    if xs == [] then "" else "," + Json(xs[0], depth) + MoreItems(xs[1..], depth)
  }

  // ---- scalars ----

  predicate IsSpace(c: char) {
    c in "\t\n\U{0B}\U{0C}\r \U{85}\U{A0}\U{1680}\U{2028}\U{2029}\U{202F}\U{205F}\U{3000}"
        || '\U{2000}' <= c <= '\U{200A}'
  }

  predicate IsBlank(s: string) {
    forall c | c in s :: IsSpace(c)
  }

  function NumberText(text: string): string {
    if IsBlank(text) then "0" else text
  }

  function JsonString(s: string): string {
    "\"" + Escape(s) + "\""
  }

  function Escape(s: string): string {
    if s == [] then "" else EscapeChar(s[0]) + Escape(s[1..])
  }

  function EscapeChar(c: char): string {
    if c == '"' then "\\\""
    else if c == '\\' then "\\\\"
    else if c == '\n' then "\\n"
    else if c == '\r' then "\\r"
    else if c == '\t' then "\\t"
    else if c < ' ' then "\\u" + Hex4(c as int)
    else [c]
  }

  function HexDigit(d: int): char
    requires 0 <= d < 16
  {
    "0123456789abcdef"[d]
  }

  function Hex4(n: int): string
    requires 0 <= n < 0x1_0000
  {
    [HexDigit(n / 16 / 16 / 16), HexDigit(n / 16 / 16 % 16), HexDigit(n / 16 % 16), HexDigit(n % 16)]
  }

  lemma {:induction false} MoreFieldsAppend(xs: seq<Field>, ys: seq<Field>, depth: nat)
    ensures MoreFields(xs + ys, depth) == MoreFields(xs, depth) + MoreFields(ys, depth)
    decreases |xs|
  {
    if xs == [] {
      assert xs + ys == ys;
    } else {
      assert (xs + ys)[1..] == xs[1..] + ys;
      MoreFieldsAppend(xs[1..], ys, depth);
    }
  }

  lemma {:induction false} MoreItemsAppend(xs: seq<Tree>, ys: seq<Tree>, depth: nat)
    ensures MoreItems(xs + ys, depth) == MoreItems(xs, depth) + MoreItems(ys, depth)
    decreases |xs|
  {
    if xs == [] {
      assert xs + ys == ys;
    } else {
      assert (xs + ys)[1..] == xs[1..] + ys;
      MoreItemsAppend(xs[1..], ys, depth);
    }
  }

  // ---- the text, letter by letter ----

  // Payloads reach the wire as they are: only quotes, backslashes and control characters are rewritten,
  lemma {:induction false} EscapeVerbatim(s: string)
    requires forall i | 0 <= i < |s| :: s[i] >= ' ' && s[i] != '"' && s[i] != '\\'
    ensures Escape(s) == s && JsonString(s) == "\"" + s + "\""
  {
    if s != "" {
      EscapeVerbatim(s[1..]);
    }
  }

  // character by character,
  lemma {:induction false} EscapeConcat(a: string, b: string)
    ensures Escape(a + b) == Escape(a) + Escape(b)
  {
    if a == "" {
      assert a + b == b;
    } else {
      assert (a + b)[1..] == a[1..] + b;
      EscapeConcat(a[1..], b);
    }
  }

  // to these.
  lemma SpecialsEscaped(c: char)
    ensures Escape("\"") == "\\\"" && Escape("\\") == "\\\\" && Escape("\n") == "\\n"
    ensures Escape("\r") == "\\r" && Escape("\t") == "\\t"
    ensures c < ' ' && c != '\n' && c != '\r' && c != '\t' ==>
              Escape([c]) == ['\\', 'u', '0', '0', if c as int < 16 then '0' else '1',
                              "0123456789abcdef"[c as int % 16]]
  {
    assert Escape("") == "";
    assert Escape([c]) == EscapeChar(c);
  }

  // Objects and arrays, one element after the other: commas between them, a colon behind the key, no white space.
  lemma ElementsPrint(node: NodeId, fs: seq<Field>, f: Field, xs: seq<Tree>, x: Tree, depth: nat)
    requires depth <= 64
    ensures Json(Obj(node, []), depth) == "{}" && Json(Arr(node, []), depth) == "[]"
    ensures Json(Obj(node, fs + [f]), depth)
         == "{" + (JsonFields(fs, depth + 1) + (if fs == [] then "" else ",")
                   + (JsonString(f.key) + ":" + Json(f.value, depth + 1))) + "}"
    ensures Json(Arr(node, xs + [x]), depth)
         == "[" + (JsonItems(xs, depth + 1) + (if xs == [] then "" else ",") + Json(x, depth + 1)) + "]"
  {
    FieldsPrint(fs, f, depth + 1);
    ItemsPrint(xs, x, depth + 1);
    assert JsonFields([], depth + 1) == "" && JsonItems([], depth + 1) == "";
    hide JsonFields, JsonItems, JsonString;
  }

  lemma FieldsPrint(fs: seq<Field>, f: Field, depth: nat)
    ensures JsonFields(fs + [f], depth)
         == JsonFields(fs, depth) + (if fs == [] then "" else ",") + (JsonString(f.key) + ":" + Json(f.value, depth))
  {
    hide Json, JsonString;
    var one := JsonField(f, depth);
    if fs == [] {
      assert fs + [f] == [f] && [f][1..] == [];
      assert one + "" == "" + "" + one;
    } else {
      assert (fs + [f])[0] == fs[0] && (fs + [f])[1..] == fs[1..] + [f];
      MoreFieldsAppend(fs[1..], [f], depth);
      assert [f][1..] == [] && MoreFields([f], depth) == "," + one + "" == "," + one;
      assert JsonField(fs[0], depth) + (MoreFields(fs[1..], depth) + ("," + one))
          == JsonField(fs[0], depth) + MoreFields(fs[1..], depth) + "," + one;
    }
  }

  lemma ItemsPrint(xs: seq<Tree>, x: Tree, depth: nat)
    ensures JsonItems(xs + [x], depth)
         == JsonItems(xs, depth) + (if xs == [] then "" else ",") + Json(x, depth)
  {
    hide Json;
    var one := Json(x, depth);
    if xs == [] {
      assert xs + [x] == [x] && [x][1..] == [];
      assert one + "" == "" + "" + one;
    } else {
      assert (xs + [x])[0] == xs[0] && (xs + [x])[1..] == xs[1..] + [x];
      MoreItemsAppend(xs[1..], [x], depth);
      assert [x][1..] == [] && MoreItems([x], depth) == "," + one + "" == "," + one;
      assert Json(xs[0], depth) + (MoreItems(xs[1..], depth) + ("," + one))
          == Json(xs[0], depth) + MoreItems(xs[1..], depth) + "," + one;
    }
  }

  // ---- the depth cap ----

  // What survives the cap: every node below it becomes null.
  function Truncate(t: Tree, depth: nat): (r: Tree)
    ensures r.node == t.node
    decreases t, 1
  {
    if depth > MAX_SERIALIZE_DEPTH then Null(t.node)
    else
      match t
      case Obj(n, fields) => Obj(n, TruncateFields(fields, depth + 1))
      case Arr(n, items) => Arr(n, TruncateItems(items, depth + 1))
      case _ => t
  }

  function TruncateFields(fs: seq<Field>, depth: nat): (r: seq<Field>)
    ensures |r| == |fs|
    ensures forall i {:trigger r[i]} | 0 <= i < |fs| :: r[i] == Field(fs[i].key, Truncate(fs[i].value, depth))
    decreases fs, 0
  {
    seq(|fs|, i requires 0 <= i < |fs| => Field(fs[i].key, Truncate(fs[i].value, depth)))
  }

  function TruncateItems(xs: seq<Tree>, depth: nat): (r: seq<Tree>)
    ensures |r| == |xs|
    ensures forall i {:trigger r[i]} | 0 <= i < |xs| :: r[i] == Truncate(xs[i], depth)
    decreases xs, 0
  {
    seq(|xs|, i requires 0 <= i < |xs| => Truncate(xs[i], depth))
  }

  // Printing never looks past the cap: a tree and its truncation print alike.
  lemma {:induction false} JsonTruncate(t: Tree, depth: nat)
    ensures Json(Truncate(t, depth), depth) == Json(t, depth)
    decreases t, 1
  {
    if depth <= MAX_SERIALIZE_DEPTH {
      match t
      case Obj(_, fields) => JsonTruncateFields(fields, depth + 1);
      case Arr(_, items) => JsonTruncateItems(items, depth + 1);
      case _ =>
    }
  }

  lemma {:induction false} JsonTruncateFields(fs: seq<Field>, depth: nat)
    ensures JsonFields(TruncateFields(fs, depth), depth) == JsonFields(fs, depth)
    ensures MoreFields(TruncateFields(fs, depth), depth) == MoreFields(fs, depth)
    decreases fs, 0
  {
    if fs != [] {
      JsonTruncate(fs[0].value, depth);
      JsonTruncateFields(fs[1..], depth);
      assert TruncateFields(fs, depth)[1..] == TruncateFields(fs[1..], depth);
    }
  }

  lemma {:induction false} JsonTruncateItems(xs: seq<Tree>, depth: nat)
    ensures JsonItems(TruncateItems(xs, depth), depth) == JsonItems(xs, depth)
    ensures MoreItems(TruncateItems(xs, depth), depth) == MoreItems(xs, depth)
    decreases xs, 0
  {
    if xs != [] {
      JsonTruncate(xs[0], depth);
      JsonTruncateItems(xs[1..], depth);
      assert TruncateItems(xs, depth)[1..] == TruncateItems(xs[1..], depth);
    }
  }

  lemma {:induction false} TruncateIdentity(t: Tree, depth: nat)
    requires depth + Height(t) <= MAX_SERIALIZE_DEPTH + 1
    ensures Truncate(t, depth) == t
    decreases t, 1
  {
    match t
    case Obj(_, fields) => TruncateFieldsIdentity(fields, depth + 1);
    case Arr(_, items) => TruncateItemsIdentity(items, depth + 1);
    case _ =>
  }

  lemma {:induction false} TruncateFieldsIdentity(fs: seq<Field>, depth: nat)
    requires depth + HeightFields(fs) <= MAX_SERIALIZE_DEPTH + 1
    ensures TruncateFields(fs, depth) == fs
    decreases fs, 0
  {
    if fs != [] {
      TruncateIdentity(fs[0].value, depth);
      TruncateFieldsIdentity(fs[1..], depth);
    }
  }

  lemma {:induction false} TruncateItemsIdentity(xs: seq<Tree>, depth: nat)
    requires depth + HeightItems(xs) <= MAX_SERIALIZE_DEPTH + 1
    ensures TruncateItems(xs, depth) == xs
    decreases xs, 0
  {
    if xs != [] {
      TruncateIdentity(xs[0], depth);
      TruncateItemsIdentity(xs[1..], depth);
    }
  }

  // ---- deleting an element shortens the text ----

  lemma {:induction false} JsonNonEmpty(t: Tree, depth: nat)
    ensures Json(t, depth) != ""
  {
  }

  lemma FieldsCommaLed(fs: seq<Field>, depth: nat)
    ensures MoreFields(fs, depth) == if fs == [] then "" else "," + JsonFields(fs, depth)
    ensures |JsonFields(fs, depth)| == if fs == [] then 0 else |MoreFields(fs, depth)| - 1
  {
  }

  lemma FieldsHeadLength(f: Field, ys: seq<Field>, depth: nat)
    ensures |MoreFields([f] + ys, depth)| == 1 + |JsonField(f, depth)| + |MoreFields(ys, depth)|
  {
    assert ([f] + ys)[1..] == ys && ([f] + ys)[0] == f;
  }

  // Length of the list text around one element.
  lemma FieldsLength(fs: seq<Field>, f: Field, ys: seq<Field>, depth: nat)
    ensures |JsonFields(fs + ([f] + ys), depth)|
              == |MoreFields(fs, depth)| + |JsonField(f, depth)| + |MoreFields(ys, depth)|
    ensures |JsonFields(fs + ys, depth)| <= |MoreFields(fs, depth)| + |MoreFields(ys, depth)|
  {
    MoreFieldsAppend(fs, [f] + ys, depth);
    MoreFieldsAppend(fs, ys, depth);
    FieldsHeadLength(f, ys, depth);
    FieldsCommaLed(fs + ([f] + ys), depth);
    FieldsCommaLed(fs + ys, depth);
  }

  lemma ItemsCommaLed(xs: seq<Tree>, depth: nat)
    ensures MoreItems(xs, depth) == if xs == [] then "" else "," + JsonItems(xs, depth)
    ensures |JsonItems(xs, depth)| == if xs == [] then 0 else |MoreItems(xs, depth)| - 1
  {
  }

  lemma ItemsHeadLength(x: Tree, ys: seq<Tree>, depth: nat)
    ensures |MoreItems([x] + ys, depth)| == 1 + |Json(x, depth)| + |MoreItems(ys, depth)|
  {
    assert ([x] + ys)[1..] == ys && ([x] + ys)[0] == x;
  }

  // Length of the list text around one element.
  lemma ItemsLength(xs: seq<Tree>, x: Tree, ys: seq<Tree>, depth: nat)
    ensures |JsonItems(xs + ([x] + ys), depth)| == |MoreItems(xs, depth)| + |Json(x, depth)| + |MoreItems(ys, depth)|
    ensures |JsonItems(xs + ys, depth)| <= |MoreItems(xs, depth)| + |MoreItems(ys, depth)|
  {
    MoreItemsAppend(xs, [x] + ys, depth);
    MoreItemsAppend(xs, ys, depth);
    ItemsHeadLength(x, ys, depth);
    ItemsCommaLed(xs + ([x] + ys), depth);
    ItemsCommaLed(xs + ys, depth);
  }

  lemma JsonFieldsSnoc(fs: seq<Field>, f: Field, depth: nat)
    ensures JsonFields(fs + [f], depth) == JsonFields(fs, depth) + (if fs == [] then "" else ",") + JsonField(f, depth)
  {
    var last := JsonField(f, depth);
    assert MoreFields([f], depth) == "," + last by {
      assert MoreFields([f][1..], depth) == "";
    }
    if fs == [] {
      assert fs + [f] == [f];
      FieldsCommaLed([f], depth);
    } else {
      MoreFieldsAppend(fs, [f], depth);
      FieldsCommaLed(fs, depth);
      FieldsCommaLed(fs + [f], depth);
      DropComma(JsonFields(fs + [f], depth), JsonFields(fs, depth), last);
    }
  }

  lemma JsonItemsSnoc(xs: seq<Tree>, x: Tree, depth: nat)
    ensures JsonItems(xs + [x], depth) == JsonItems(xs, depth) + (if xs == [] then "" else ",") + Json(x, depth)
  {
    var last := Json(x, depth);
    assert MoreItems([x], depth) == "," + last by {
      assert MoreItems([x][1..], depth) == "";
    }
    if xs == [] {
      assert xs + [x] == [x];
      ItemsCommaLed([x], depth);
    } else {
      MoreItemsAppend(xs, [x], depth);
      ItemsCommaLed(xs, depth);
      ItemsCommaLed(xs + [x], depth);
      DropComma(JsonItems(xs + [x], depth), JsonItems(xs, depth), last);
    }
  }

  lemma DropComma(a: string, b: string, c: string)
    requires "," + a == "," + b + ("," + c)
    ensures a == b + "," + c
  {
    assert a == ("," + a)[1..];
    assert b + "," + c == ("," + b + ("," + c))[1..];
  }

  lemma ContainerLength(t: Tree, depth: nat)
    requires depth <= MAX_SERIALIZE_DEPTH
    ensures t.Obj? ==> |Json(t, depth)| == 2 + |JsonFields(t.fields, depth + 1)|
    ensures t.Arr? ==> |Json(t, depth)| == 2 + |JsonItems(t.items, depth + 1)|
  {
  }

  lemma DropFieldShortens(fs: seq<Field>, i: nat, depth: nat)
    requires i < |fs|
    ensures |JsonFields(fs[..i] + fs[i + 1..], depth)| < |JsonFields(fs, depth)|
  {
    assert fs == fs[..i] + ([fs[i]] + fs[i + 1..]);
    FieldsLength(fs[..i], fs[i], fs[i + 1..], depth);
    FieldNonEmpty(fs[i], depth);
  }

  lemma FieldNonEmpty(f: Field, depth: nat)
    ensures |JsonField(f, depth)| > 0
  {
  }

  lemma DropItemShortens(xs: seq<Tree>, i: nat, depth: nat)
    requires i < |xs|
    ensures |JsonItems(xs[..i] + xs[i + 1..], depth)| < |JsonItems(xs, depth)|
  {
    assert xs == xs[..i] + ([xs[i]] + xs[i + 1..]);
    ItemsLength(xs[..i], xs[i], xs[i + 1..], depth);
    JsonNonEmpty(xs[i], depth);
  }

  lemma DropKidShortens(t: Tree, i: nat, depth: nat)
    requires i < NKids(t) && depth <= MAX_SERIALIZE_DEPTH
    ensures |Json(DropKid(t, i), depth)| < |Json(t, depth)|
  {
    ContainerLength(t, depth);
    ContainerLength(DropKid(t, i), depth);
    if t.Obj? {
      DropFieldShortens(t.fields, i, depth + 1);
    } else {
      DropItemShortens(t.items, i, depth + 1);
    }
  }

  lemma WithFieldShortens(fs: seq<Field>, i: nat, f: Field, depth: nat)
    requires i < |fs| && |JsonField(f, depth)| < |JsonField(fs[i], depth)|
    ensures |JsonFields(fs[i := f], depth)| < |JsonFields(fs, depth)|
  {
    assert fs == fs[..i] + ([fs[i]] + fs[i + 1..]);
    assert fs[i := f] == fs[..i] + ([f] + fs[i + 1..]);
    FieldsLength(fs[..i], fs[i], fs[i + 1..], depth);
    FieldsLength(fs[..i], f, fs[i + 1..], depth);
  }

  lemma WithItemShortens(xs: seq<Tree>, i: nat, u: Tree, depth: nat)
    requires i < |xs| && |Json(u, depth)| < |Json(xs[i], depth)|
    ensures |JsonItems(xs[i := u], depth)| < |JsonItems(xs, depth)|
  {
    assert xs == xs[..i] + ([xs[i]] + xs[i + 1..]);
    assert xs[i := u] == xs[..i] + ([u] + xs[i + 1..]);
    ItemsLength(xs[..i], xs[i], xs[i + 1..], depth);
    ItemsLength(xs[..i], u, xs[i + 1..], depth);
  }

  // Replacing a child by one with shorter text shortens the text.
  lemma WithKidShortens(t: Tree, i: nat, u: Tree, depth: nat)
    requires i < NKids(t) && depth <= MAX_SERIALIZE_DEPTH
    requires |Json(u, depth + 1)| < |Json(Kid(t, i), depth + 1)|
    ensures |Json(WithKid(t, i, u), depth)| < |Json(t, depth)|
  {
    ContainerLength(t, depth);
    ContainerLength(WithKid(t, i, u), depth);
    if t.Obj? {
      WithFieldShortens(t.fields, i, Field(t.fields[i].key, u), depth + 1);
    } else {
      WithItemShortens(t.items, i, u, depth + 1);
    }
  }

  // A deletion anywhere at or above the cap is visible in the text: it becomes strictly shorter.
  lemma {:induction false} DeletionShortens(t: Tree, p: Path, i: nat, depth: nat)
    requires ValidPath(t, p) && i < NKids(At(t, p))
    requires depth + |p| <= MAX_SERIALIZE_DEPTH
    ensures |Json(Plug(t, p, DropKid(At(t, p), i)), depth)| < |Json(t, depth)|
    decreases |p|
  {
    if p == [] {
      DropKidShortens(t, i, depth);
    } else {
      DeletionShortens(Kid(t, p[0]), p[1..], i, depth + 1);
      WithKidShortens(t, p[0], Plug(Kid(t, p[0]), p[1..], DropKid(At(t, p), i)), depth);
    }
  }
}
