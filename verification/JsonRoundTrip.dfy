// Reading undoes printing, for strings and for whole trees.
module JsonRoundTrip {
  import opened BodyTree
  import opened JsonPrinter
  import R = JsonReader

  // The characters that Unicode calls white space.
  predicate WhiteSpace(c: char) {
    var n := c as int;
    || 9 <= n <= 13 || n == 0x20 || n == 0x85 || n == 0xA0 || n == 0x1680 || 0x2000 <= n <= 0x200A
    || n == 0x2028 || n == 0x2029 || n == 0x202F || n == 0x205F || n == 0x3000
  }

  // What a tree says once it is JSON: schema origins are forgotten, order and repeated keys are not; a number is its
  // text, or 0 if that is blank.
  function Meaning(t: Tree): R.Json
    decreases t, 1
  {
    match t
    case Obj(_, fields) => R.Object(MeaningFields(fields))
    case Arr(_, items) => R.Array(MeaningItems(items))
    case Str(_, text) => R.Text(text)
    case Num(_, text) => R.Number(if forall c | c in text :: WhiteSpace(c) then "0" else text)
    case Bool(_, flag) => R.Boolean(flag)
    case Null(_) => R.NullValue
  }

  function MeaningFields(fs: seq<Field>): seq<R.Member>
    decreases fs, 0
  {
    if fs == [] then [] else [R.Member(fs[0].key, Meaning(fs[0].value))] + MeaningFields(fs[1..])
  }

  function MeaningItems(xs: seq<Tree>): seq<R.Json>
    decreases xs, 0
  {
    if xs == [] then [] else [Meaning(xs[0])] + MeaningItems(xs[1..])
  }

  // Every number literal is blank (printed as 0) or follows section 6 of RFC 8259.
  predicate NumbersOk(t: Tree)
    decreases t, 1
  {
    match t
    case Obj(_, fields) => forall f | f in fields :: NumbersOk(f.value)
    case Arr(_, items) => forall x | x in items :: NumbersOk(x)
    case Num(_, text) => (forall c | c in text :: WhiteSpace(c)) || R.ValidNumber(text)
    case _ => true
  }

  lemma BlankIsWhiteSpace(text: string)
    ensures IsBlank(text) <==> forall c | c in text :: WhiteSpace(c)
  {
    forall c: char
      ensures IsSpace(c) <==> WhiteSpace(c)
    {
    }
  }

  // ---- strings ----

  lemma HexDigitValue(d: int)
    requires 0 <= d < 16
    ensures R.IsHex(HexDigit(d)) && R.HexValue(HexDigit(d)) == d
  {
  }

  lemma Hex4Value(n: int, x: string)
    requires 0 <= n < 0x1_0000
    ensures R.FourHex(Hex4(n) + x) && R.HexValue4(Hex4(n) + x) == n
  {
    var a, b, c, d := n / 16 / 16 / 16, n / 16 / 16 % 16, n / 16 % 16, n % 16;
    HexDigitValue(a);
    HexDigitValue(b);
    HexDigitValue(c);
    HexDigitValue(d);
    var s := Hex4(n) + x;
    assert s[0] == HexDigit(a) && s[1] == HexDigit(b) && s[2] == HexDigit(c) && s[3] == HexDigit(d);
  }

  lemma ReadEscapedChar(c: char, x: string)
    ensures R.ReadString(EscapeChar(c) + x) == R.Push(c, R.ReadString(x))
  {
    var s := EscapeChar(c) + x;
    if c != '"' && c != '\\' && c >= ' ' {
      assert s[1..] == x;
    } else if c == '"' || c == '\\' || c == '\n' || c == '\r' || c == '\t' {
      assert s[2..] == x;
    } else {
      assert s[2..] == Hex4(c as int) + x;
      Hex4Value(c as int, x);
      assert s[6..] == x;
    }
  }

  // Unescaping undoes jsonEscapeString, whatever follows the closing quote.
  lemma {:induction false} UnescapeEscape(text: string, rest: string)
    ensures R.ReadString(Escape(text) + "\"" + rest) == R.Ok(text, rest)
  {
    if text == [] {
      assert Escape(text) + "\"" + rest == "\"" + rest;
      assert ("\"" + rest)[1..] == rest;
    } else {
      var x := Escape(text[1..]) + "\"" + rest;
      assert Escape(text) + "\"" + rest == EscapeChar(text[0]) + x;
      ReadEscapedChar(text[0], x);
      UnescapeEscape(text[1..], rest);
      assert [text[0]] + text[1..] == text;
    }
  }

  lemma ReadJsonString(text: string, rest: string)
    ensures JsonString(text) + rest != [] && (JsonString(text) + rest)[0] == '"'
    ensures R.ReadString((JsonString(text) + rest)[1..]) == R.Ok(text, rest)
  {
    assert (JsonString(text) + rest)[1..] == Escape(text) + "\"" + rest;
    UnescapeEscape(text, rest);
  }

  // ---- numbers ----

  // Text that may follow a value: it cannot prolong a number literal.
  predicate Delimited(rest: string) {
    rest == [] || !R.IsNumberChar(rest[0])
  }

  lemma {:induction false} DigitsSpan(s: string)
    ensures R.NumberSpan(R.DropDigits(s)) == |R.DropDigits(s)| ==> R.NumberSpan(s) == |s|
  {
    if s != [] && R.IsDigit(s[0]) {
      DigitsSpan(s[1..]);
    }
  }

  lemma ExponentSpan(s: string)
    requires R.ValidExponent(s)
    ensures R.NumberSpan(s) == |s|
  {
    if s != [] {
      var a := if |s| > 1 && (s[1] == '+' || s[1] == '-') then s[2..] else s[1..];
      DigitsSpan(a);
      if |s| > 1 && (s[1] == '+' || s[1] == '-') {
        assert s[1..][1..] == a;
      }
    }
  }

  lemma ValidNumberSpan(s: string)
    requires R.ValidNumber(s)
    ensures R.NumberSpan(s) == |s| && s != []
    ensures s[0] == '-' || R.IsDigit(s[0])
  {
    var a := if s[0] == '-' then s[1..] else s;
    var b := if a[0] == '0' then a[1..] else R.DropDigits(a);
    if b != [] && b[0] == '.' {
      ExponentSpan(R.DropDigits(b[1..]));
      DigitsSpan(b[1..]);
    } else {
      ExponentSpan(b);
    }
    assert R.NumberSpan(b) == |b|;
    DigitsSpan(a);
  }

  lemma {:induction false} SpanStops(s: string, rest: string)
    requires R.NumberSpan(s) == |s| && Delimited(rest)
    ensures R.NumberSpan(s + rest) == |s|
  {
    if s == [] {
      assert s + rest == rest;
    } else {
      assert (s + rest)[1..] == s[1..] + rest;
      SpanStops(s[1..], rest);
    }
  }

  lemma ReadNumber(lit: string, rest: string)
    requires R.ValidNumber(lit) && Delimited(rest)
    ensures R.ReadValue(lit + rest) == R.Ok(R.Number(lit), rest)
  {
    ValidNumberSpan(lit);
    SpanStops(lit, rest);
    var s := lit + rest;
    assert s[0] == lit[0];
    assert R.SkipWs(s) == s;
    assert s[..|lit|] == lit && s[|lit|..] == rest;
  }

  lemma ZeroIsANumber()
    ensures R.ValidNumber("0")
  {
    assert "0"[1..] == [];
  }

  // ---- values ----

  predicate StartsValue(s: string) {
    s != [] && (s[0] in "{[\"-tfn" || R.IsDigit(s[0]))
  }

  lemma JsonStartsValue(t: Tree, depth: nat)
    requires NumbersOk(t)
    ensures StartsValue(Json(t, depth))
  {
    if t.Num? {
      BlankIsWhiteSpace(t.text);
      if !IsBlank(t.text) {
        ValidNumberSpan(t.text);
      }
    }
  }

  // The two container cases, given what the list inside reads as.
  lemma ReadObject(inside: string, ms: seq<R.Member>, rest: string)
    requires if ms == [] then inside == "}" + rest else inside != [] && inside[0] == '"'
    requires ms != [] ==> R.ReadMembers(inside) == R.Ok(ms, rest)
    ensures R.ReadValue("{" + inside) == R.Ok(R.Object(ms), rest)
  {
    var s := "{" + inside;
    assert R.SkipWs(s) == s && s[1..] == inside;
    assert R.SkipWs(inside) == inside;
  }

  lemma ReadArray(inside: string, es: seq<R.Json>, rest: string)
    requires if es == [] then inside == "]" + rest else StartsValue(inside)
    requires es != [] ==> R.ReadElements(inside) == R.Ok(es, rest)
    ensures R.ReadValue("[" + inside) == R.Ok(R.Array(es), rest)
  {
    var s := "[" + inside;
    assert R.SkipWs(s) == s && s[1..] == inside;
    assert R.SkipWs(inside) == inside;
  }

  lemma ReadLiteral(word: string, rest: string)
    requires word in {"null", "true", "false"}
    ensures R.ReadValue(word + rest)
         == R.Ok(if word == "null" then R.NullValue else R.Boolean(word == "true"), rest)
  {
    var s := word + rest;
    assert word <= s && s[|word|..] == rest && s[0] == word[0];
    assert R.SkipWs(s) == s;
  }

  lemma RegroupMember(name: string, value: string, more: string, close: string, rest: string)
    ensures name + ":" + value + more + close + rest == name + ":" + (value + (more + close + rest))
  {
  }

  lemma Bracketed(open: string, text: string, close: string, rest: string)
    ensures open + text + close + rest == open + (text + close + rest)
  {
  }

  lemma Regroup(a: string, b: string, close: string, rest: string)
    ensures a + b + close + rest == a + (b + close + rest)
  {
  }

  lemma FieldsTextSplits(fs: seq<Field>, depth: nat, rest: string)
    requires fs != []
    ensures JsonFields(fs, depth) + "}" + rest
         == JsonString(fs[0].key) + ":" + (Json(fs[0].value, depth) + (MoreFields(fs[1..], depth) + "}" + rest))
  {
    RegroupMember(JsonString(fs[0].key), Json(fs[0].value, depth), MoreFields(fs[1..], depth), "}", rest);
  }

  lemma ItemsTextSplits(xs: seq<Tree>, depth: nat, rest: string)
    requires xs != []
    ensures JsonItems(xs, depth) + "]" + rest == Json(xs[0], depth) + (MoreItems(xs[1..], depth) + "]" + rest)
  {
    Regroup(Json(xs[0], depth), MoreItems(xs[1..], depth), "]", rest);
  }

  // What follows the first element of a list: the end of the list, or a comma and the others.
  predicate ListTail(tail: string, last: bool, close: char, others: string, rest: string) {
    tail != [] && if last then tail[0] == close && tail[1..] == rest else tail[0] == ',' && tail[1..] == others
  }

  lemma ListTailHolds(more: string, last: bool, close: char, others: string, rest: string)
    requires more == if last then "" else "," + others
    ensures ListTail(more + [close] + rest, last, close, others + [close] + rest, rest)
  {
    if last {
      assert more + [close] + rest == [close] + rest;
    } else {
      assert more + [close] + rest == "," + (others + [close] + rest);
    }
  }

  lemma MeaningFieldsSplits(fs: seq<Field>, depth: nat)
    requires fs != []
    ensures MeaningFields(TruncateFields(fs, depth))
         == [R.Member(fs[0].key, Meaning(Truncate(fs[0].value, depth)))] + MeaningFields(TruncateFields(fs[1..], depth))
    ensures fs[1..] == [] ==>
              MeaningFields(TruncateFields(fs, depth)) == [R.Member(fs[0].key, Meaning(Truncate(fs[0].value, depth)))]
  {
    assert TruncateFields(fs, depth)[1..] == TruncateFields(fs[1..], depth);
  }

  lemma MeaningItemsSplits(xs: seq<Tree>, depth: nat)
    requires xs != []
    ensures MeaningItems(TruncateItems(xs, depth))
         == [Meaning(Truncate(xs[0], depth))] + MeaningItems(TruncateItems(xs[1..], depth))
    ensures xs[1..] == [] ==> MeaningItems(TruncateItems(xs, depth)) == [Meaning(Truncate(xs[0], depth))]
  {
    assert TruncateItems(xs, depth)[1..] == TruncateItems(xs[1..], depth);
  }

  // Reading the text of a tree gives back its meaning, up to the depth cap, and leaves what follows untouched.
  lemma {:induction false} ReadJson(t: Tree, depth: nat, rest: string)
    requires NumbersOk(t) && Delimited(rest)
    ensures R.ReadValue(Json(t, depth) + rest) == R.Ok(Meaning(Truncate(t, depth)), rest)
    decreases t, 1
  {
    if depth > MAX_SERIALIZE_DEPTH || t.Null? {
      ReadLiteral("null", rest);
    } else if t.Obj? {
      ReadJsonObject(t, depth, rest);
    } else if t.Arr? {
      ReadJsonArray(t, depth, rest);
    } else if t.Str? {
      ReadJsonString(t.text, rest);
      var s := JsonString(t.text) + rest;
      assert R.SkipWs(s) == s;
    } else if t.Num? {
      ZeroIsANumber();
      BlankIsWhiteSpace(t.text);
      ReadNumber(NumberText(t.text), rest);
    } else {
      ReadLiteral(if t.flag then "true" else "false", rest);
    }
  }

  lemma {:induction false} ReadJsonObject(t: Tree, depth: nat, rest: string)
    requires t.Obj? && NumbersOk(t) && depth <= MAX_SERIALIZE_DEPTH
    ensures R.ReadValue(Json(t, depth) + rest) == R.Ok(Meaning(Truncate(t, depth)), rest)
    decreases t, 0
  {
    var text := JsonFields(t.fields, depth + 1);
    var inside := text + "}" + rest;
    if t.fields == [] {
      assert inside == "}" + rest;
    } else {
      ReadJsonFields(t.fields, depth + 1, rest);
      MeaningFieldsSplits(t.fields, depth + 1);
    }
    ReadObject(inside, MeaningFields(TruncateFields(t.fields, depth + 1)), rest);
    Bracketed("{", text, "}", rest);
  }

  lemma {:induction false} ReadJsonArray(t: Tree, depth: nat, rest: string)
    requires t.Arr? && NumbersOk(t) && depth <= MAX_SERIALIZE_DEPTH
    ensures R.ReadValue(Json(t, depth) + rest) == R.Ok(Meaning(Truncate(t, depth)), rest)
    decreases t, 0
  {
    var text := JsonItems(t.items, depth + 1);
    var inside := text + "]" + rest;
    if t.items == [] {
      assert inside == "]" + rest;
    } else {
      ReadJsonItems(t.items, depth + 1, rest);
      MeaningItemsSplits(t.items, depth + 1);
    }
    ReadArray(inside, MeaningItems(TruncateItems(t.items, depth + 1)), rest);
    Bracketed("[", text, "]", rest);
  }

  lemma ReadOneMember(key: string, valueText: string, value: R.Json, tail: string)
    requires R.ReadValue(valueText) == R.Ok(value, tail)
    requires tail != [] && (tail[0] == '}' || tail[0] == ',')
    ensures var s := JsonString(key) + ":" + valueText;
            s[0] == '"' &&
            R.ReadMembers(s) ==
            if tail[0] == '}' then R.Ok([R.Member(key, value)], tail[1..])
            else match R.ReadMembers(tail[1..])
                 case Fail => R.Fail
                 case Ok(ms, rest) => R.Ok([R.Member(key, value)] + ms, rest)
  {
    hide R.ReadString, R.ReadValue;
    var s := JsonString(key) + ":" + valueText;
    assert s == JsonString(key) + (":" + valueText);
    ReadJsonString(key, ":" + valueText);
    assert R.SkipWs(s) == s;
    assert (":" + valueText)[1..] == valueText;
    assert R.SkipWs(":" + valueText) == ":" + valueText;
    assert R.SkipWs(tail) == tail;
  }

  lemma ReadOneElement(s: string, value: R.Json, tail: string)
    requires R.ReadValue(s) == R.Ok(value, tail)
    requires tail != [] && (tail[0] == ']' || tail[0] == ',')
    ensures R.ReadElements(s) ==
            if tail[0] == ']' then R.Ok([value], tail[1..])
            else match R.ReadElements(tail[1..])
                 case Fail => R.Fail
                 case Ok(es, rest) => R.Ok([value] + es, rest)
  {
    assert R.SkipWs(tail) == tail;
  }

  lemma {:induction false} ReadJsonFields(fs: seq<Field>, depth: nat, rest: string)
    requires fs != [] && (forall f | f in fs :: NumbersOk(f.value))
    ensures R.ReadMembers(JsonFields(fs, depth) + "}" + rest) == R.Ok(MeaningFields(TruncateFields(fs, depth)), rest)
    ensures var s := JsonFields(fs, depth) + "}" + rest; s != [] && s[0] == '"'
    decreases fs, 0
  {
    var f, others := fs[0], fs[1..];
    var tail := MoreFields(others, depth) + "}" + rest;
    FieldsCommaLed(others, depth);
    ListTailHolds(MoreFields(others, depth), others == [], '}', JsonFields(others, depth), rest);
    ReadJson(f.value, depth, tail);
    ReadOneMember(f.key, Json(f.value, depth) + tail, Meaning(Truncate(f.value, depth)), tail);
    FieldsTextSplits(fs, depth, rest);
    MeaningFieldsSplits(fs, depth);
    if others != [] {
      ReadJsonFields(others, depth, rest);
    }
  }

  lemma {:induction false} ReadJsonItems(xs: seq<Tree>, depth: nat, rest: string)
    requires xs != [] && (forall x | x in xs :: NumbersOk(x))
    ensures R.ReadElements(JsonItems(xs, depth) + "]" + rest) == R.Ok(MeaningItems(TruncateItems(xs, depth)), rest)
    ensures StartsValue(JsonItems(xs, depth) + "]" + rest)
    decreases xs, 0
  {
    var x, others := xs[0], xs[1..];
    var tail := MoreItems(others, depth) + "]" + rest;
    ItemsCommaLed(others, depth);
    ListTailHolds(MoreItems(others, depth), others == [], ']', JsonItems(others, depth), rest);
    JsonStartsValue(x, depth);
    ReadJson(x, depth, tail);
    ReadOneElement(Json(x, depth) + tail, Meaning(Truncate(x, depth)), tail);
    ItemsTextSplits(xs, depth, rest);
    assert (Json(x, depth) + tail)[0] == Json(x, depth)[0];
    MeaningItemsSplits(xs, depth);
    if others != [] {
      ReadJsonItems(others, depth, rest);
    }
  }

  // ---- the depth cap ----

  lemma {:induction false} TruncateAt(t: Tree, depth: nat, p: Path)
    requires ValidPath(t, p) && depth + |p| <= MAX_SERIALIZE_DEPTH + 1
    ensures ValidPath(Truncate(t, depth), p) && At(Truncate(t, depth), p) == Truncate(At(t, p), depth + |p|)
    decreases |p|
  {
    if p != [] {
      TruncateAt(Kid(t, p[0]), depth + 1, p[1..]);
    }
  }

  // Sixty-five levels are kept as they are, and what is one level further down reads as null.
  lemma LevelSixtySix(t: Tree, p: Path)
    requires ValidPath(t, p) && |p| <= 65
    ensures ValidPath(Truncate(t, 0), p)
    ensures |p| == 65 ==> Meaning(At(Truncate(t, 0), p)) == R.NullValue
    ensures |p| < 65 && NKids(At(t, p)) == 0 ==> At(Truncate(t, 0), p) == At(t, p)
  {
    TruncateAt(t, 0, p);
    if |p| < 65 && NKids(At(t, p)) == 0 {
      EmptyIsKept(At(t, p), |p|);
    }
  }

  lemma EmptyIsKept(t: Tree, depth: nat)
    requires NKids(t) == 0 && depth <= 64
    ensures Truncate(t, depth) == t
  {
  }

  // ---- the theorems ----

  // A JSON reader undoes ToJSON on every tree, except that what lies below the depth cap reads as null.
  lemma ReadTextToJson(t: Tree)
    requires NumbersOk(t)
    ensures R.ReadText(Json(t, 0)) == R.Ok(Meaning(Truncate(t, 0)), [])
  {
    ReadJson(t, 0, []);
    assert Json(t, 0) + [] == Json(t, 0);
  }

  lemma ReadTextToJsonWithinCap(t: Tree)
    requires NumbersOk(t) && Height(t) <= 65
    ensures R.ReadText(Json(t, 0)) == R.Ok(Meaning(t), [])
  {
    ReadTextToJson(t);
    TruncateIdentity(t, 0);
  }

  // Two trees within the cap print alike exactly when they mean the same JSON.
  lemma ToJsonInjective(a: Tree, b: Tree)
    requires NumbersOk(a) && Height(a) <= 65
    requires NumbersOk(b) && Height(b) <= 65
    ensures Json(a, 0) == Json(b, 0) <==> Meaning(a) == Meaning(b)
  {
    ReadTextToJsonWithinCap(a);
    ReadTextToJsonWithinCap(b);
    if Meaning(a) == Meaning(b) {
      SameMeaningSameText(a, b, 0);
    }
  }

  lemma {:induction false} SameMeaningSameText(a: Tree, b: Tree, depth: nat)
    requires Meaning(a) == Meaning(b)
    ensures Json(a, depth) == Json(b, depth)
    decreases a, 1
  {
    match a
    case Obj(_, fields) => SameMeaningFields(fields, b.fields, depth + 1);
    case Arr(_, items) => SameMeaningItems(items, b.items, depth + 1);
    case _ =>
  }

  lemma {:induction false} SameMeaningFields(xs: seq<Field>, ys: seq<Field>, depth: nat)
    requires MeaningFields(xs) == MeaningFields(ys)
    ensures JsonFields(xs, depth) == JsonFields(ys, depth)
    ensures MoreFields(xs, depth) == MoreFields(ys, depth)
    decreases xs, 0
  {
    if xs != [] && ys != [] {
      assert MeaningFields(xs)[0] == MeaningFields(ys)[0];
      assert MeaningFields(xs)[1..] == MeaningFields(xs[1..]);
      assert MeaningFields(ys)[1..] == MeaningFields(ys[1..]);
      SameMeaningText(xs[0], ys[0], depth);
      SameMeaningFields(xs[1..], ys[1..], depth);
    }
  }

  lemma {:induction false} SameMeaningText(f: Field, g: Field, depth: nat)
    requires f.key == g.key && Meaning(f.value) == Meaning(g.value)
    ensures JsonField(f, depth) == JsonField(g, depth)
    decreases f, 2
  {
    SameMeaningSameText(f.value, g.value, depth);
  }

  lemma {:induction false} SameMeaningItems(xs: seq<Tree>, ys: seq<Tree>, depth: nat)
    requires MeaningItems(xs) == MeaningItems(ys)
    ensures JsonItems(xs, depth) == JsonItems(ys, depth)
    ensures MoreItems(xs, depth) == MoreItems(ys, depth)
    decreases xs, 0
  {
    if xs != [] && ys != [] {
      assert MeaningItems(xs)[0] == MeaningItems(ys)[0];
      assert MeaningItems(xs)[1..] == MeaningItems(xs[1..]);
      assert MeaningItems(ys)[1..] == MeaningItems(ys[1..]);
      SameMeaningSameText(xs[0], ys[0], depth);
      SameMeaningItems(xs[1..], ys[1..], depth);
    }
  }
}
