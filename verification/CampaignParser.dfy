// parser.py, second half: blocks of lines into nested mappings and sequences, and the printer they undo.
module CampaignParser {
  import opened Wrappers
  import opened CampaignLines

  // Scalars are what coerce makes of their text; None is a key without a value.
  datatype Value<V> = Scalar(v: V) | Sequence(items: seq<V>) | Mapping(entries: seq<(string, Value<V>)>) | Nothing

  // A parsed block and the index behind it.
  datatype Parsed<V> = Parsed(value: Value<V>, next: nat)

  // ---- line shapes ----

  // ^-\s?(.*)$
  function ListItem(content: string): Option<string> {
    if content == [] || content[0] != '-' then None
    else if |content| > 1 && IsSpace(content[1]) then Some(content[2..])
    else Some(content[1..])
  }

  function Colon(s: string): (i: nat)
    ensures i <= |s|
    ensures i < |s| ==> s[i] == ':'
    ensures forall j | 0 <= j < i :: s[j] != ':'
  {
    if s == [] || s[0] == ':' then 0 else 1 + Colon(s[1..])
  }

  // ^([^:\s][^:]*):\s?(.*)$
  function KeyValue(content: string): Option<(string, string)> {
    var i := Colon(content);
    if i == 0 || i == |content| || IsSpace(content[0]) then None
    else
      var rest := content[i + 1..];
      Some((content[..i], if rest != [] && IsSpace(rest[0]) then rest[1..] else rest))
  }

  // Items: a dash, one white space if there is one, the text.
  lemma ItemShape(text: string, blank: char, content: string)
    requires IsSpace(blank) && (content == "" || content[0] != '-')
    ensures ListItem("-" + ([blank] + text)) == Some(text)
    ensures ListItem("-" + text) == Some(if text != "" && IsSpace(text[0]) then text[1..] else text)
    ensures ListItem(content) == None
  {
    var a, b := "-" + ([blank] + text), "-" + text;
    assert a[1] == blank && a[2..] == text && b[1..] == text;
    if text != "" {
      assert b[1] == text[0] && b[2..] == text[1..];
    }
  }

  // Entries: text up to the first colon, neither empty nor starting with white space; one white space behind the colon
  // is passed over. Nothing else is an entry.
  lemma EntryShape(key: string, rest: string, content: string)
    requires ':' !in key && (':' !in content || IsSpace(content[0]) || content[0] == ':')
    ensures key != "" && !IsSpace(key[0]) ==>
              KeyValue(key + (":" + rest))
              == Some((key, if rest != "" && IsSpace(rest[0]) then rest[1..] else rest))
    ensures KeyValue(content) == None
  {
    var a := key + (":" + rest);
    ColonAfter(key, rest);
    assert a[..|key|] == key && a[|key| + 1..] == rest;
    if key != "" {
      assert a[0] == key[0];
    }
  }

  // ---- dictionaries keep the place of a key and take its latest value ----

  function Put<V>(d: seq<(string, Value<V>)>, key: string, v: Value<V>): seq<(string, Value<V>)> {
    if d == [] then [(key, v)]
    else if d[0].0 == key then [(key, v)] + d[1..]
    else [d[0]] + Put(d[1..], key, v)
  }

  function KeysOf<V>(d: seq<(string, Value<V>)>): (r: seq<string>)
    ensures |r| == |d| && forall i {:trigger r[i]} | 0 <= i < |d| :: r[i] == d[i].0
  {
    seq(|d|, i requires 0 <= i < |d| => d[i].0)
  }

  // A known key keeps its place and takes the new value.
  lemma {:induction false} PutKnown<V>(d: seq<(string, Value<V>)>, i: nat, v: Value<V>)
    requires i < |d| && forall j | 0 <= j < i :: d[j].0 != d[i].0
    ensures Put(d, d[i].0, v) == d[i := (d[i].0, v)]
  {
    if i > 0 {
      PutKnown(d[1..], i - 1, v);
    }
  }

  // A new one goes to the end.
  lemma {:induction false} PutNew<V>(d: seq<(string, Value<V>)>, key: string, v: Value<V>)
    requires key !in KeysOf(d)
    ensures Put(d, key, v) == d + [(key, v)]
  {
    if d != [] {
      assert KeysOf(d)[0] == d[0].0;
      assert KeysOf(d[1..]) == KeysOf(d)[1..];
      PutNew(d[1..], key, v);
    }
  }

  // ---- parsing, as functions on what lies from `start` on ----

  function ParseBlock<V>(coerce: string -> V, lines: seq<Line>, start: nat, indent: nat): (r: Result<Parsed<V>>)
    requires start < |lines|
    ensures r.Ok? ==> start < r.value.next <= |lines|
    decreases |lines| - start, 1
  {
    if lines[start].indent != indent then Err("inconsistent indentation")
    else if ListItem(lines[start].content).Some? then ParseSequence(coerce, lines, start, indent, [])
    else ParseMapping(coerce, lines, start, indent, [])
  }

  function ParseSequence<V>(coerce: string -> V, lines: seq<Line>, i: nat, indent: nat,
                            out: seq<V>): (r: Result<Parsed<V>>)
    requires i <= |lines|
    ensures r.Ok? ==> i <= r.value.next <= |lines|
    ensures r.Ok? && i < |lines| && lines[i].indent == indent && ListItem(lines[i].content).Some? ==> i < r.value.next
    decreases |lines| - i, 0
  {
    if i == |lines| || lines[i].indent != indent || ListItem(lines[i].content).None? then Ok(Parsed(Sequence(out), i))
    else
      var text := ListItem(lines[i].content).value;
      if text == "" then Err("a sequence item with a nested block value is not supported")
      else if KeyValue(text).Some? then Err("a sequence of mappings is not supported")
      else ParseSequence(coerce, lines, i + 1, indent, out + [coerce(text)])
  }

  function ParseMapping<V>(coerce: string -> V, lines: seq<Line>, i: nat, indent: nat, out: seq<(string, Value<V>)>)
    : (r: Result<Parsed<V>>)
    requires i <= |lines|
    ensures r.Ok? ==> i <= r.value.next <= |lines|
    ensures r.Ok? && i < |lines| && lines[i].indent == indent ==> i < r.value.next
    decreases |lines| - i, 0
  {
    if i == |lines| || lines[i].indent != indent then Ok(Parsed(Mapping(out), i))
    else
      match KeyValue(lines[i].content)
      case None => Err("expected 'key: value'")
      case Some(kv) =>
        var key, rest := Strip(kv.0), Strip(kv.1);
        if rest != "" then ParseMapping(coerce, lines, i + 1, indent, Put(out, key, Scalar(coerce(rest))))
        else if i + 1 < |lines| && lines[i + 1].indent > indent then
          match ParseBlock(coerce, lines, i + 1, lines[i + 1].indent)
          case Err(e) => Err(e)
          case Ok(child) => ParseMapping(coerce, lines, child.next, indent, Put(out, key, child.value))
        else ParseMapping(coerce, lines, i + 1, indent, Put(out, key, Nothing))
  }

  // The whole document: nothing may be left over.
  function ParseLines<V>(coerce: string -> V, lines: seq<Line>): Result<Value<V>> {
    if lines == [] then Ok(Mapping([]))
    else
      match ParseBlock(coerce, lines, 0, lines[0].indent)
      case Err(e) => Err(e)
      case Ok(r) => if r.next != |lines| then Err("unexpected indentation/structure") else Ok(r.value)
  }

  function ParseSimpleYaml<V>(coerce: string -> V, text: string): Result<Value<V>> {
    match ReadLines(SplitLines(text))
    case Err(e) => Err(e)
    case Ok(lines) => ParseLines(coerce, lines)
  }

  // ---- every line is read once ----

  // How many lines a value stands for: one for each item and each entry, those of nested blocks included.
  function LineCount<V>(v: Value<V>): nat
    decreases v
  {
    match v
    case Sequence(items) => |items|
    case Mapping(entries) => EntryCount(entries)
    case _ => 0
  }

  function EntryCount<V>(entries: seq<(string, Value<V>)>): nat
    decreases entries
  {
    if entries == [] then 0 else OneEntry(entries[0]) + EntryCount(entries[1..])
  }

  function OneEntry<V>(entry: (string, Value<V>)): nat
    decreases entry
  {
    match entry
    case (_, value) => 1 + LineCount(value)
  }

  // While these lines are read, no mapping is given a key that it has.
  predicate NewKeysOnly<V(==)>(coerce: string -> V, lines: seq<Line>, i: nat, indent: nat,
                               out: seq<(string, Value<V>)>)
    requires i <= |lines|
    decreases |lines| - i, 0
  {
    i < |lines| && lines[i].indent == indent && KeyValue(lines[i].content).Some? ==>
      var kv := KeyValue(lines[i].content).value;
      var key, rest := Strip(kv.0), Strip(kv.1);
      && key !in KeysOf(out)
      && if rest != "" then NewKeysOnly(coerce, lines, i + 1, indent, Put(out, key, Scalar(coerce(rest))))
         else if i + 1 < |lines| && lines[i + 1].indent > indent then
           var child := ParseBlock(coerce, lines, i + 1, lines[i + 1].indent);
           child.Ok? ==>
             && BlockNewKeysOnly(coerce, lines, i + 1, lines[i + 1].indent)
             && NewKeysOnly(coerce, lines, child.value.next, indent, Put(out, key, child.value.value))
         else NewKeysOnly(coerce, lines, i + 1, indent, Put(out, key, Nothing))
  }

  predicate BlockNewKeysOnly<V(==)>(coerce: string -> V, lines: seq<Line>, start: nat, indent: nat)
    requires start < |lines|
    decreases |lines| - start, 1
  {
    ListItem(lines[start].content).None? ==> NewKeysOnly(coerce, lines, start, indent, [])
  }

  // A new key adds its line and those of its value; a known one loses the lines it had.
  lemma {:induction false} PutCount<V>(d: seq<(string, Value<V>)>, key: string, v: Value<V>)
    ensures EntryCount(Put(d, key, v)) <= EntryCount(d) + 1 + LineCount(v)
    ensures EntryCount(Put(d, key, v)) == EntryCount(d) + 1 + LineCount(v) <==> key !in KeysOf(d)
  {
    if d == [] {
      assert Put(d, key, v)[1..] == [];
    } else {
      var r := Put(d, key, v);
      assert KeysOf(d) == [d[0].0] + KeysOf(d[1..]);
      if d[0].0 == key {
        assert r[1..] == d[1..];
      } else {
        assert r[1..] == Put(d[1..], key, v);
        PutCount(d[1..], key, v);
      }
    }
  }

  lemma {:induction false} SequenceLines<V>(coerce: string -> V, lines: seq<Line>, i: nat, indent: nat, out: seq<V>)
    requires i <= |lines| && ParseSequence(coerce, lines, i, indent, out).Ok?
    ensures
      var r := ParseSequence(coerce, lines, i, indent, out).value;
      r.value.Sequence? && |r.value.items| == |out| + r.next - i
    decreases |lines| - i
  {
    hide KeyValue, ListItem;
    if i < |lines| && lines[i].indent == indent && ListItem(lines[i].content).Some? {
      SequenceLines(coerce, lines, i + 1, indent, out + [coerce(ListItem(lines[i].content).value)]);
    }
  }

  lemma {:induction false} MappingLines<V>(coerce: string -> V, lines: seq<Line>, i: nat, indent: nat,
                                           out: seq<(string, Value<V>)>)
    requires i <= |lines| && ParseMapping(coerce, lines, i, indent, out).Ok?
    ensures
      var r := ParseMapping(coerce, lines, i, indent, out).value;
      && r.value.Mapping? && EntryCount(r.value.entries) <= EntryCount(out) + r.next - i
      && (EntryCount(r.value.entries) == EntryCount(out) + r.next - i <==> NewKeysOnly(coerce, lines, i, indent, out))
    decreases |lines| - i, 0
  {
    hide KeyValue, ListItem, Strip, Put, KeysOf, EntryCount, ParseBlock, BlockNewKeysOnly;
    if i < |lines| && lines[i].indent == indent {
      var kv := KeyValue(lines[i].content).value;
      var key, rest := Strip(kv.0), Strip(kv.1);
      if rest != "" {
        PutCount(out, key, Scalar(coerce(rest)));
        MappingLines(coerce, lines, i + 1, indent, Put(out, key, Scalar(coerce(rest))));
      } else if i + 1 < |lines| && lines[i + 1].indent > indent {
        var child := ParseBlock(coerce, lines, i + 1, lines[i + 1].indent).value;
        BlockLines(coerce, lines, i + 1, lines[i + 1].indent);
        PutCount(out, key, child.value);
        MappingLines(coerce, lines, child.next, indent, Put(out, key, child.value));
      } else {
        PutCount(out, key, Nothing);
        MappingLines(coerce, lines, i + 1, indent, Put(out, key, Nothing));
      }
    }
  }

  lemma {:induction false} BlockLines<V>(coerce: string -> V, lines: seq<Line>, start: nat, indent: nat)
    requires start < |lines| && ParseBlock(coerce, lines, start, indent).Ok?
    ensures
      var r := ParseBlock(coerce, lines, start, indent).value;
      && LineCount(r.value) <= r.next - start
      && (LineCount(r.value) == r.next - start <==> BlockNewKeysOnly(coerce, lines, start, indent))
    decreases |lines| - start, 1
  {
    hide KeyValue, ListItem, ParseSequence, ParseMapping, NewKeysOnly;
    if ListItem(lines[start].content).Some? {
      SequenceLines(coerce, lines, start, indent, []);
    } else {
      MappingLines(coerce, lines, start, indent, []);
    }
  }

  // A document that parses has at most one item or entry a line, and exactly one if and only if no key is repeated.
  lemma {:induction false} EveryLineOnce<V>(coerce: string -> V, lines: seq<Line>)
    requires ParseLines(coerce, lines).Ok?
    ensures
      var n := LineCount(ParseLines(coerce, lines).value);
      && n <= |lines|
      && (n == |lines| <==> lines == [] || BlockNewKeysOnly(coerce, lines, 0, lines[0].indent))
  {
    hide ParseBlock, BlockNewKeysOnly;
    if lines != [] {
      BlockLines(coerce, lines, 0, lines[0].indent);
    }
  }

  // ---- what is accepted has the form it should have ----

  // A line is an entry, or an item that is neither empty nor an entry itself.
  predicate WellFormed(l: Line) {
    KeyValue(l.content).Some?
    || (ListItem(l.content).Some? && ListItem(l.content).value != "" && KeyValue(ListItem(l.content).value).None?)
  }

  // Only an entry without a text of its own has a deeper line behind it.
  predicate WellPlaced(a: Line, b: Line) {
    b.indent > a.indent ==> KeyValue(a.content).Some? && Strip(KeyValue(a.content).value.1) == ""
  }

  ghost predicate WellLaidOut(lines: seq<Line>, i: nat, n: nat, indent: nat) {
    && i <= n <= |lines|
    && (i < n ==> lines[i].indent == indent)
    && (forall k | i <= k < n :: lines[k].indent >= indent && WellFormed(lines[k]))
    && (forall k {:trigger lines[k]} | i <= k < n - 1 :: WellPlaced(lines[k], lines[k + 1]))
  }

  // A line, its block if it has one, and what follows at its own indentation.
  lemma EntryLaidOut(lines: seq<Line>, i: nat, j: nat, n: nat, indent: nat, deeper: nat)
    requires i < |lines| && lines[i].indent == indent && WellFormed(lines[i]) && WellLaidOut(lines, j, n, indent)
    requires if j == i + 1 then true
             else
               && indent < deeper && i + 1 < j && WellLaidOut(lines, i + 1, j, deeper)
               && WellPlaced(lines[i], lines[i + 1])
    ensures WellLaidOut(lines, i, n, indent)
  {
    hide WellFormed, WellPlaced;
    forall k | i <= k < n - 1
      ensures WellPlaced(lines[k], lines[k + 1])
    {
      if k == j - 1 {
        NotDeeper(lines[k], lines[j]);
      }
    }
  }

  lemma NotDeeper(a: Line, b: Line)
    requires b.indent <= a.indent
    ensures WellPlaced(a, b)
  {
  }

  lemma NothingLaidOut(lines: seq<Line>, i: nat, indent: nat)
    requires i <= |lines|
    ensures WellLaidOut(lines, i, i, indent)
  {
  }

  lemma {:induction false} SequenceLaidOut<V>(coerce: string -> V, lines: seq<Line>, i: nat, indent: nat, out: seq<V>)
    requires i <= |lines| && ParseSequence(coerce, lines, i, indent, out).Ok?
    ensures WellLaidOut(lines, i, ParseSequence(coerce, lines, i, indent, out).value.next, indent)
    decreases |lines| - i
  {
    hide KeyValue, ListItem, WellLaidOut;
    NothingLaidOut(lines, i, indent);
    if i < |lines| && lines[i].indent == indent && ListItem(lines[i].content).Some? {
      var more := out + [coerce(ListItem(lines[i].content).value)];
      SequenceLaidOut(coerce, lines, i + 1, indent, more);
      EntryLaidOut(lines, i, i + 1, ParseSequence(coerce, lines, i + 1, indent, more).value.next, indent, indent);
    }
  }

  lemma {:induction false} MappingLaidOut<V>(coerce: string -> V, lines: seq<Line>, i: nat, indent: nat,
                                             out: seq<(string, Value<V>)>)
    requires i <= |lines| && ParseMapping(coerce, lines, i, indent, out).Ok?
    ensures WellLaidOut(lines, i, ParseMapping(coerce, lines, i, indent, out).value.next, indent)
    decreases |lines| - i, 0
  {
    hide KeyValue, ListItem, Strip, Put, ParseBlock, WellLaidOut;
    NothingLaidOut(lines, i, indent);
    if i < |lines| && lines[i].indent == indent {
      var kv := KeyValue(lines[i].content).value;
      var key, rest := Strip(kv.0), Strip(kv.1);
      var n := ParseMapping(coerce, lines, i, indent, out).value.next;
      if rest != "" {
        MappingLaidOut(coerce, lines, i + 1, indent, Put(out, key, Scalar(coerce(rest))));
        EntryLaidOut(lines, i, i + 1, n, indent, indent);
      } else if i + 1 < |lines| && lines[i + 1].indent > indent {
        var child := ParseBlock(coerce, lines, i + 1, lines[i + 1].indent).value;
        BlockLaidOut(coerce, lines, i + 1, lines[i + 1].indent);
        MappingLaidOut(coerce, lines, child.next, indent, Put(out, key, child.value));
        EntryLaidOut(lines, i, child.next, n, indent, lines[i + 1].indent);
      } else {
        MappingLaidOut(coerce, lines, i + 1, indent, Put(out, key, Nothing));
        EntryLaidOut(lines, i, i + 1, n, indent, indent);
      }
    }
  }

  lemma {:induction false} BlockLaidOut<V>(coerce: string -> V, lines: seq<Line>, start: nat, indent: nat)
    requires start < |lines| && ParseBlock(coerce, lines, start, indent).Ok?
    ensures WellLaidOut(lines, start, ParseBlock(coerce, lines, start, indent).value.next, indent)
    decreases |lines| - start, 1
  {
    hide KeyValue, ListItem, ParseSequence, ParseMapping, WellLaidOut;
    if ListItem(lines[start].content).Some? {
      SequenceLaidOut(coerce, lines, start, indent, []);
    } else {
      MappingLaidOut(coerce, lines, start, indent, []);
    }
  }

  // Whatever parses: every line is an entry or a scalar item, none is indented less than the first one, and none is
  // indented deeper than the line before unless that is a key without a value.
  lemma {:induction false} AcceptedIsLaidOut<V>(coerce: string -> V, lines: seq<Line>)
    requires lines != [] && ParseLines(coerce, lines).Ok?
    ensures forall k | 0 <= k < |lines| :: lines[k].indent >= lines[0].indent && WellFormed(lines[k])
    ensures forall k {:trigger lines[k]} | 0 <= k < |lines| - 1 :: WellPlaced(lines[k], lines[k + 1])
  {
    hide ParseBlock;
    BlockLaidOut(coerce, lines, 0, lines[0].indent);
  }

  // ---- parsing, as the loops run ----

  method RunBlock<V>(coerce: string -> V, lines: seq<Line>, start: nat, indent: nat) returns (r: Result<Parsed<V>>)
    requires start < |lines|
    ensures r == ParseBlock(coerce, lines, start, indent)
    decreases |lines| - start, 1
  {
    if lines[start].indent != indent {
      return Err("inconsistent indentation");
    }
    if ListItem(lines[start].content).Some? {
      r := RunSequence(coerce, lines, start, indent);
    } else {
      r := RunMapping(coerce, lines, start, indent);
    }
  }

  method RunSequence<V>(coerce: string -> V, lines: seq<Line>, start: nat, indent: nat) returns (r: Result<Parsed<V>>)
    requires start <= |lines|
    ensures r == ParseSequence(coerce, lines, start, indent, [])
    decreases |lines| - start, 0
  {
    var out: seq<V> := [];
    var i := start;
    while i < |lines|
      invariant start <= i <= |lines|
      invariant ParseSequence(coerce, lines, i, indent, out) == ParseSequence(coerce, lines, start, indent, [])
    {
      if lines[i].indent != indent {
        break;
      }
      var m := ListItem(lines[i].content);
      if m.None? {
        break;
      }
      if m.value == "" {
        return Err("a sequence item with a nested block value is not supported");
      }
      if KeyValue(m.value).Some? {
        return Err("a sequence of mappings is not supported");
      }
      out := out + [coerce(m.value)];
      i := i + 1;
    }
    return Ok(Parsed(Sequence(out), i));
  }

  method RunMapping<V>(coerce: string -> V, lines: seq<Line>, start: nat, indent: nat) returns (r: Result<Parsed<V>>)
    requires start <= |lines|
    ensures r == ParseMapping(coerce, lines, start, indent, [])
    decreases |lines| - start, 0
  {
    var out: seq<(string, Value<V>)> := [];
    var i := start;
    while i < |lines|
      invariant start <= i <= |lines|
      invariant ParseMapping(coerce, lines, i, indent, out) == ParseMapping(coerce, lines, start, indent, [])
    {
      if lines[i].indent != indent {
        break;
      }
      var m := KeyValue(lines[i].content);
      if m.None? {
        return Err("expected 'key: value'");
      }
      var key, rest := Strip(m.value.0), Strip(m.value.1);
      i := i + 1;
      if rest == "" {
        if i < |lines| && lines[i].indent > indent {
          var child := RunBlock(coerce, lines, i, lines[i].indent);
          if child.Err? {
            return child;
          }
          out, i := Put(out, key, child.value.value), child.value.next;
        } else {
          out := Put(out, key, Nothing);
        }
      } else {
        out := Put(out, key, Scalar(coerce(rest)));
      }
    }
    return Ok(Parsed(Mapping(out), i));
  }

  method RunSimpleYaml<V>(coerce: string -> V, text: string) returns (r: Result<Value<V>>)
    ensures r == ParseSimpleYaml(coerce, text)
  {
    hide ParseBlock, ReadLines, SplitLines;
    var collected := CollectLines(SplitLines(text));
    match collected
    case Err(e) => return Err(e);
    case Ok(lines) =>
      if lines == [] {
        return Ok(Mapping([]));
      }
      var block := RunBlock(coerce, lines, 0, lines[0].indent);
      match block
      case Err(e) => return Err(e);
      case Ok(parsed) =>
        if parsed.next != |lines| {
          return Err("unexpected indentation/structure");
        }
        return Ok(parsed.value);
  }

  // ---- documents and their printed lines ----

  // A child block sits `extra` + 1 columns deeper than its key; a key may have no value at all.
  datatype Doc =
    | Leaf(text: string) | List(extra: nat, items: seq<string>) | Map(extra: nat, entries: seq<Entry>) | Empty
  datatype Entry = Entry(key: string, doc: Doc)

  function PrintItems(items: seq<string>, indent: nat): (r: seq<Line>)
    ensures |r| == |items| && forall i {:trigger r[i]} | 0 <= i < |items| :: r[i] == Line(indent, "- " + items[i])
  {
    seq(|items|, i requires 0 <= i < |items| => Line(indent, "- " + items[i]))
  }

  function PrintEntry(e: Entry, indent: nat): (r: seq<Line>)
    ensures r != []
    decreases e, 1
  {
    match e.doc
    case Leaf(text) => [Line(indent, e.key + ": " + text)]
    case List(extra, items) => [Line(indent, e.key + ":")] + PrintItems(items, indent + extra + 1)
    case Map(extra, entries) => [Line(indent, e.key + ":")] + PrintEntries(entries, indent + extra + 1)
    case Empty => [Line(indent, e.key + ":")]
  }

  function PrintEntries(entries: seq<Entry>, indent: nat): seq<Line>
    decreases entries
  {
    if entries == [] then [] else PrintEntry(entries[0], indent) + PrintEntries(entries[1..], indent)
  }

  // What a document means.
  function Meaning<V>(coerce: string -> V, d: Doc): Value<V>
    decreases d
  {
    match d
    case Leaf(text) => Scalar(coerce(text))
    case List(_, items) => Sequence(Coerced(coerce, items))
    case Map(_, entries) => Mapping(Entries(coerce, entries))
    case Empty => Nothing
  }

  function Coerced<V>(coerce: string -> V, items: seq<string>): (r: seq<V>)
    ensures |r| == |items| && forall i {:trigger r[i]} | 0 <= i < |items| :: r[i] == coerce(items[i])
  {
    seq(|items|, i requires 0 <= i < |items| => coerce(items[i]))
  }

  function Entries<V>(coerce: string -> V, entries: seq<Entry>): (r: seq<(string, Value<V>)>)
    ensures |r| == |entries|
    ensures forall i {:trigger r[i]} | 0 <= i < |entries| :: r[i] == (entries[i].key, Meaning(coerce, entries[i].doc))
    decreases entries
  {
    seq(|entries|, i requires 0 <= i < |entries| => (entries[i].key, Meaning(coerce, entries[i].doc)))
  }

  // ---- documents that can be printed ----

  predicate KeyOk(k: string) {
    Trimmed(k) && ':' !in k
  }

  // An item must not look like "key: value" itself.
  predicate ItemOk(s: string) {
    Trimmed(s) && KeyValue(s).None?
  }

  predicate DistinctKeys(entries: seq<Entry>) {
    forall i, j | 0 <= i < j < |entries| :: entries[i].key != entries[j].key
  }

  // Non-empty mappings with distinct keys, scalar texts, non-empty sequences of scalars; the first key of a mapping
  // must not look like a sequence item.
  predicate Printable(d: Doc)
    decreases d
  {
    match d
    case Leaf(text) => Trimmed(text)
    case List(_, items) => items != [] && forall i | 0 <= i < |items| :: ItemOk(items[i])
    case Map(_, entries) => BlockOk(entries)
    case Empty => true
  }

  predicate BlockOk(entries: seq<Entry>)
    decreases entries
  {
    entries != [] && DistinctKeys(entries) && EntriesOk(entries) && entries[0].key[0] != '-'
  }

  predicate EntriesOk(entries: seq<Entry>)
    ensures EntriesOk(entries) ==> forall i | 0 <= i < |entries| :: KeyOk(entries[i].key)
    decreases entries, 0
  {
    forall i | 0 <= i < |entries| :: KeyOk(entries[i].key) && Printable(entries[i].doc)
  }

  // ---- the parser undoes the printer ----

  lemma {:induction false} ColonAfter(a: string, b: string)
    requires ':' !in a
    ensures Colon(a + (":" + b)) == |a|
  {
    if a == [] {
      assert a + (":" + b) == ":" + b;
    } else {
      assert (a + (":" + b))[1..] == a[1..] + (":" + b);
      ColonAfter(a[1..], b);
    }
  }

  lemma KeyLines(key: string, text: string)
    requires KeyOk(key)
    ensures KeyValue(key + ":") == Some((key, "")) && Strip("") == "" && Strip(key) == key
    ensures KeyValue(key + ": " + text) == Some((key, text))
    ensures (key + ":")[0] == key[0] && (key + ": " + text)[0] == key[0]
  {
    hide Strip;
    StripTrimmed(key);
    assert Strip("") == "" by {
      StripEmpty();
    }
    var a, b := key + ":", key + ": " + text;
    assert a == key + (":" + "") && b == key + (":" + (" " + text));
    ColonAfter(key, "");
    ColonAfter(key, " " + text);
    assert a[..|key|] == key && b[..|key|] == key;
    assert a[|key| + 1..] == "" && b[|key| + 1..] == " " + text;
    assert (" " + text)[1..] == text;
  }

  lemma StripEmpty()
    ensures Strip("") == ""
  {
  }

  lemma ItemLine(text: string)
    ensures ListItem("- " + text) == Some(text)
  {
    assert ("- " + text)[2..] == text;
  }

  // What follows a block is not indented like it.
  predicate Ends(lines: seq<Line>, j: nat, indent: nat) {
    j == |lines| || (j < |lines| && lines[j].indent < indent)
  }

  // lines holds block from i on.
  predicate At(lines: seq<Line>, i: nat, block: seq<Line>) {
    i + |block| <= |lines| && lines[i..i + |block|] == block
  }

  lemma AtSplit(lines: seq<Line>, i: nat, a: seq<Line>, b: seq<Line>)
    requires At(lines, i, a + b)
    ensures At(lines, i, a) && At(lines, i + |a|, b)
    ensures a != [] ==> lines[i] == a[0]
    ensures b != [] ==> lines[i + |a|] == b[0]
  {
    var c := lines[i..i + |a + b|];
    assert lines[i..i + |a|] == c[..|a|] == a;
    assert lines[i + |a|..i + |a| + |b|] == c[|a|..] == b;
    assert a != [] ==> lines[i] == c[0];
    assert b != [] ==> lines[i + |a|] == c[|a|];
  }

  lemma {:induction false} SequenceRead<V>(coerce: string -> V, lines: seq<Line>, i: nat, indent: nat,
                                           items: seq<string>,
                                           out: seq<V>)
    requires (forall k | 0 <= k < |items| :: ItemOk(items[k])) && At(lines, i, PrintItems(items, indent))
    requires Ends(lines, i + |items|, indent)
    ensures ParseSequence(coerce, lines, i, indent, out)
         == Ok(Parsed(Sequence(out + Coerced(coerce, items)), i + |items|))
    decreases |items|
  {
    hide KeyValue, ListItem, Trimmed;
    if items == [] {
      assert out + Coerced(coerce, items) == out;
    } else {
      var rest := PrintItems(items[1..], indent);
      PrintItemsHead(items, indent);
      AtSplit(lines, i, [Line(indent, "- " + items[0])], rest);
      ItemLine(items[0]);
      ItemNonEmpty(items[0]);
      SequenceRead(coerce, lines, i + 1, indent, items[1..], out + [coerce(items[0])]);
      CoercedHead(coerce, items, out);
    }
  }

  lemma ItemNonEmpty(item: string)
    requires ItemOk(item)
    ensures item != "" && KeyValue(item).None?
  {
  }

  lemma PrintItemsHead(items: seq<string>, indent: nat)
    requires items != []
    ensures PrintItems(items, indent) == [Line(indent, "- " + items[0])] + PrintItems(items[1..], indent)
  {
  }

  lemma CoercedHead<V>(coerce: string -> V, items: seq<string>, out: seq<V>)
    requires items != []
    ensures out + [coerce(items[0])] + Coerced(coerce, items[1..]) == out + Coerced(coerce, items)
  {
  }

  // Reading one printed entry puts it into the dictionary and goes on behind it.
  lemma {:induction false} EntryRead<V>(coerce: string -> V, lines: seq<Line>, i: nat, indent: nat, e: Entry,
                                        out: seq<(string, Value<V>)>)
    requires KeyOk(e.key) && Printable(e.doc) && At(lines, i, PrintEntry(e, indent))
    requires Ends(lines, i + |PrintEntry(e, indent)|, indent + 1)
    ensures
      var j := i + |PrintEntry(e, indent)|;
      ParseMapping(coerce, lines, i, indent, out)
        == ParseMapping(coerce, lines, j, indent, Put(out, e.key, Meaning(coerce, e.doc)))
    decreases e, 1
  {
    hide ParseMapping, ParseBlock, Put, KeyValue;
    match e.doc
    case Leaf(text) => LeafRead(coerce, lines, i, indent, e, out);
    case List(extra, items) =>
      var ci := indent + extra + 1;
      assert i + |PrintEntry(e, indent)| == i + 1 + |items|;
      AtSplit(lines, i, [Line(indent, e.key + ":")], PrintItems(items, ci));
      ListBlockRead(coerce, lines, i + 1, ci, items);
      NestedRead(coerce, lines, i, indent, ci, e.key, out);
    case Map(extra, entries) =>
      var ci := indent + extra + 1;
      assert i + |PrintEntry(e, indent)| == i + 1 + |PrintEntries(entries, ci)|;
      AtSplit(lines, i, [Line(indent, e.key + ":")], PrintEntries(entries, ci));
      BlockRead(coerce, lines, i + 1, ci, entries);
      NestedRead(coerce, lines, i, indent, ci, e.key, out);
    case Empty => EmptyRead(coerce, lines, i, indent, e, out);
  }

  // A key without a value and without a deeper line behind it.
  lemma EmptyRead<V>(coerce: string -> V, lines: seq<Line>, i: nat, indent: nat, e: Entry,
                     out: seq<(string, Value<V>)>)
    requires KeyOk(e.key) && e.doc.Empty? && At(lines, i, PrintEntry(e, indent)) && Ends(lines, i + 1, indent + 1)
    ensures ParseMapping(coerce, lines, i, indent, out)
         == ParseMapping(coerce, lines, i + 1, indent, Put(out, e.key, Nothing))
  {
    hide KeyValue, Strip;
    assert lines[i] == lines[i..i + 1][0];
    KeyLines(e.key, "");
    StripTrimmed(e.key);
  }

  lemma LeafRead<V>(coerce: string -> V, lines: seq<Line>, i: nat, indent: nat, e: Entry, out: seq<(string, Value<V>)>)
    requires KeyOk(e.key) && e.doc.Leaf? && Printable(e.doc) && At(lines, i, PrintEntry(e, indent))
    ensures ParseMapping(coerce, lines, i, indent, out)
         == ParseMapping(coerce, lines, i + 1, indent, Put(out, e.key, Scalar(coerce(e.doc.text))))
  {
    hide KeyValue, Strip;
    assert lines[i] == lines[i..i + 1][0];
    KeyLines(e.key, e.doc.text);
    StripTrimmed(e.doc.text);
    StripTrimmed(e.key);
  }

  // A key without a value in front of a deeper block that parses.
  lemma NestedRead<V>(coerce: string -> V, lines: seq<Line>, i: nat, indent: nat, ci: nat, key: string,
                      out: seq<(string, Value<V>)>)
    requires KeyOk(key) && i + 1 < |lines| && lines[i] == Line(indent, key + ":")
    requires lines[i + 1].indent == ci > indent && ParseBlock(coerce, lines, i + 1, ci).Ok?
    ensures
      var child := ParseBlock(coerce, lines, i + 1, ci).value;
      ParseMapping(coerce, lines, i, indent, out)
        == ParseMapping(coerce, lines, child.next, indent, Put(out, key, child.value))
  {
    hide KeyValue, Strip, ParseBlock;
    KeyLines(key, "");
    StripTrimmed(key);
  }

  lemma ListBlockRead<V>(coerce: string -> V, lines: seq<Line>, i: nat, indent: nat, items: seq<string>)
    requires items != [] && (forall k | 0 <= k < |items| :: ItemOk(items[k])) && At(lines, i, PrintItems(items, indent))
    requires Ends(lines, i + |items|, indent)
    ensures lines[i].indent == indent
    ensures ParseBlock(coerce, lines, i, indent) == Ok(Parsed(Sequence(Coerced(coerce, items)), i + |items|))
  {
    hide KeyValue, ListItem, ParseSequence;
    PrintItemsHead(items, indent);
    AtSplit(lines, i, [Line(indent, "- " + items[0])], PrintItems(items[1..], indent));
    ItemLine(items[0]);
    SequenceRead(coerce, lines, i, indent, items, []);
    assert [] + Coerced(coerce, items) == Coerced(coerce, items);
  }

  // A printed mapping, as a block of its own.
  lemma BlockRead<V>(coerce: string -> V, lines: seq<Line>, i: nat, indent: nat, entries: seq<Entry>)
    requires BlockOk(entries) && At(lines, i, PrintEntries(entries, indent))
    requires Ends(lines, i + |PrintEntries(entries, indent)|, indent)
    ensures |PrintEntries(entries, indent)| > 0 && lines[i].indent == indent
    ensures ParseBlock(coerce, lines, i, indent)
         == Ok(Parsed(Mapping(Entries(coerce, entries)), i + |PrintEntries(entries, indent)|))
    decreases entries, 1
  {
    var first, rest := PrintEntry(entries[0], indent), PrintEntries(entries[1..], indent);
    assert KeyOk(entries[0].key);
    hide ParseMapping, PrintEntry, Entries, Trimmed, KeyValue;
    AtSplit(lines, i, first, rest);
    FirstLine(entries[0], indent);
    assert ListItem(lines[i].content) == None;
    MappingRead(coerce, lines, i, indent, entries, []);
    assert [] + Entries(coerce, entries) == Entries(coerce, entries);
  }

  lemma FirstLine(e: Entry, indent: nat)
    requires KeyOk(e.key)
    ensures PrintEntry(e, indent)[0].indent == indent && PrintEntry(e, indent)[0].content != []
    ensures PrintEntry(e, indent)[0].content[0] == e.key[0]
  {
    KeyLines(e.key, if e.doc.Leaf? then e.doc.text else "");
  }

  ghost predicate NewKeys<V>(entries: seq<Entry>, out: seq<(string, Value<V>)>) {
    forall k | 0 <= k < |entries| :: entries[k].key !in KeysOf(out)
  }

  lemma {:induction false} MappingRead<V>(coerce: string -> V, lines: seq<Line>, i: nat, indent: nat,
                                          entries: seq<Entry>,
                                          out: seq<(string, Value<V>)>)
    requires EntriesOk(entries) && DistinctKeys(entries) && At(lines, i, PrintEntries(entries, indent))
    requires NewKeys(entries, out)
    requires Ends(lines, i + |PrintEntries(entries, indent)|, indent)
    ensures ParseMapping(coerce, lines, i, indent, out)
         == Ok(Parsed(Mapping(out + Entries(coerce, entries)), i + |PrintEntries(entries, indent)|))
    decreases entries, 0
  {
    hide *;
    if entries == [] {
      MappingEnd(coerce, lines, i, indent, entries, out);
    } else {
      var e, more := entries[0], entries[1..];
      var first, rest := PrintEntry(e, indent), PrintEntries(more, indent);
      var j := i + |first|;
      FirstEntry(entries, indent);
      AtSplit(lines, i, first, rest);
      EntryEnds(lines, j, indent, more);
      EntryRead(coerce, lines, i, indent, e, out);
      NextKeys(coerce, entries, out);
      MappingRead(coerce, lines, j, indent, more, Put(out, e.key, Meaning(coerce, e.doc)));
    }
  }

  lemma FirstEntry(entries: seq<Entry>, indent: nat)
    requires entries != [] && EntriesOk(entries) && DistinctKeys(entries)
    ensures PrintEntries(entries, indent) == PrintEntry(entries[0], indent) + PrintEntries(entries[1..], indent)
    ensures KeyOk(entries[0].key) && Printable(entries[0].doc) && EntriesOk(entries[1..]) && DistinctKeys(entries[1..])
  {
  }

  lemma MappingEnd<V>(coerce: string -> V, lines: seq<Line>, i: nat, indent: nat, none: seq<Entry>,
                      out: seq<(string, Value<V>)>)
    requires none == [] && Ends(lines, i + |PrintEntries(none, indent)|, indent)
    ensures ParseMapping(coerce, lines, i, indent, out)
         == Ok(Parsed(Mapping(out + Entries(coerce, none)), i + |PrintEntries(none, indent)|))
  {
    assert out + Entries(coerce, none) == out;
  }

  // Putting the first entry in leaves the later keys new, and their entries to follow.
  lemma NextKeys<V>(coerce: string -> V, entries: seq<Entry>, out: seq<(string, Value<V>)>)
    requires entries != [] && EntriesOk(entries) && DistinctKeys(entries)
    requires NewKeys(entries, out)
    ensures
      var next := Put(out, entries[0].key, Meaning(coerce, entries[0].doc));
      && NewKeys(entries[1..], next)
      && next + Entries(coerce, entries[1..]) == out + Entries(coerce, entries)
  {
    var e := entries[0];
    var v := Meaning(coerce, e.doc);
    hide Meaning;
    PutNew(out, e.key, v);
    var next := out + [(e.key, v)];
    assert KeysOf(next) == KeysOf(out) + [e.key];
    EntriesHead(coerce, entries, out);
  }

  // Behind an entry comes a sibling, or what ends the mapping.
  lemma EntryEnds(lines: seq<Line>, j: nat, indent: nat, more: seq<Entry>)
    requires EntriesOk(more) && At(lines, j, PrintEntries(more, indent))
    requires Ends(lines, j + |PrintEntries(more, indent)|, indent)
    ensures Ends(lines, j, indent + 1)
  {
    if more != [] {
      FirstLine(more[0], indent);
      AtSplit(lines, j, PrintEntry(more[0], indent), PrintEntries(more[1..], indent));
    }
  }

  lemma EntriesHead<V>(coerce: string -> V, entries: seq<Entry>, out: seq<(string, Value<V>)>)
    requires entries != []
    ensures out + [(entries[0].key, Meaning(coerce, entries[0].doc))] + Entries(coerce, entries[1..])
         == out + Entries(coerce, entries)
  {
  }

  // Parsing what was printed gives the document back, whatever the indentation steps.
  lemma ParsePrinted<V>(coerce: string -> V, indent: nat, entries: seq<Entry>)
    requires BlockOk(entries)
    ensures ParseLines(coerce, PrintEntries(entries, indent)) == Ok(Mapping(Entries(coerce, entries)))
  {
    var lines := PrintEntries(entries, indent);
    assert lines[0..0 + |lines|] == lines;
    assert lines == PrintEntry(entries[0], indent) + PrintEntries(entries[1..], indent);
    FirstLine(entries[0], indent);
    BlockRead(coerce, lines, 0, indent, entries);
  }

  // The same from the text of the file, for lines the first pass leaves alone.
  function Raw(lines: seq<Line>): (r: seq<string>)
    ensures |r| == |lines|
    ensures forall i {:trigger r[i]} | 0 <= i < |lines| :: r[i] == Spaces(lines[i].indent) + lines[i].content
  {
    seq(|lines|, i requires 0 <= i < |lines| => Spaces(lines[i].indent) + lines[i].content)
  }

  predicate AllPlain(lines: seq<Line>) {
    forall i | 0 <= i < |lines| :: Trimmed(lines[i].content) && Plain(lines[i].content) && lines[i].content != "---"
  }

  lemma {:induction false} ReadPlain(lines: seq<Line>)
    requires AllPlain(lines)
    ensures ReadLines(Raw(lines)) == Ok(lines)
  {
    hide ReadLine, Plain, Trimmed;
    if lines != [] {
      PlainLineSurvives(lines[0].indent, lines[0].content);
      assert Raw(lines)[1..] == Raw(lines[1..]);
      ReadPlain(lines[1..]);
      assert [lines[0]] + lines[1..] == lines;
    }
  }

  lemma PlainIsOneLine(n: nat, s: string)
    requires Plain(s)
    ensures OneLine(Spaces(n) + s)
  {
    var r := Spaces(n) + s;
    forall i | 0 <= i < |r|
      ensures !IsBreak(r[i])
    {
      if i >= n {
        assert PlainChar(s[i - n]) && r[i] == s[i - n];
      }
    }
  }

  lemma ParsePrintedText<V>(coerce: string -> V, indent: nat, entries: seq<Entry>)
    requires BlockOk(entries) && AllPlain(PrintEntries(entries, indent))
    ensures ParseSimpleYaml(coerce, JoinLines(Raw(PrintEntries(entries, indent))))
              == Ok(Mapping(Entries(coerce, entries)))
  {
    var lines := PrintEntries(entries, indent);
    forall i | 0 <= i < |lines|
      ensures OneLine(Raw(lines)[i])
    {
      PlainIsOneLine(lines[i].indent, lines[i].content);
    }
    SplitJoin(Raw(lines));
    ReadPlain(lines);
    ParsePrinted(coerce, indent, entries);
  }

  // A document that is one sequence.
  lemma ParsePrintedList<V>(coerce: string -> V, indent: nat, items: seq<string>)
    requires items != [] && forall i | 0 <= i < |items| :: ItemOk(items[i])
    ensures ParseLines(coerce, PrintItems(items, indent)) == Ok(Sequence(Coerced(coerce, items)))
  {
    hide ParseBlock, ItemOk;
    var lines := PrintItems(items, indent);
    assert lines[0..0 + |lines|] == lines;
    ListBlockRead(coerce, lines, 0, indent, items);
  }

  // A small campaign: a name, a list of two steps and an open end.
  lemma ExampleParses<V>(coerce: string -> V)
    ensures ParseLines(coerce, [Line(0, "name: nightly"), Line(0, "steps:"), Line(2, "- login"), Line(2, "- order"),
                                Line(0, "note:")])
         == Ok(Mapping([("name", Scalar(coerce("nightly"))), ("steps", Sequence([coerce("login"), coerce("order")])),
                        ("note", Nothing)]))
  {
    var items := ["login", "order"];
    var entries := [Entry("name", Leaf("nightly")), Entry("steps", List(1, items)), Entry("note", Empty)];
    ExamplePrinted(items, entries);
    ExamplePrintable(items, entries);
    hide ParseLines, PrintEntries, BlockOk;
    ParsePrinted(coerce, 0, entries);
    assert Coerced(coerce, items) == [coerce("login"), coerce("order")];
    assert Entries(coerce, entries)
        == [("name", Scalar(coerce("nightly"))), ("steps", Sequence([coerce("login"), coerce("order")])),
            ("note", Nothing)];
  }

  lemma ExamplePrinted(items: seq<string>, entries: seq<Entry>)
    requires items == ["login", "order"]
    requires entries == [Entry("name", Leaf("nightly")), Entry("steps", List(1, items)), Entry("note", Empty)]
    ensures PrintEntries(entries, 0)
         == [Line(0, "name: nightly"), Line(0, "steps:"), Line(2, "- login"), Line(2, "- order"), Line(0, "note:")]
  {
    assert "name" + ": " + "nightly" == "name: nightly" && "steps" + ":" == "steps:" && "note" + ":" == "note:";
    assert "- " + "login" == "- login" && "- " + "order" == "- order";
    assert PrintItems(items, 2) == [Line(2, "- login"), Line(2, "- order")];
    var e1, e2 := entries[1..], [entries[2]];
    assert e1[1..] == e2 && e2[1..] == [];
    assert PrintEntries(e2, 0) == PrintEntry(entries[2], 0) + [] == [Line(0, "note:")];
    assert PrintEntries(e1, 0) == PrintEntry(entries[1], 0) + PrintEntries(e2, 0);
    assert PrintEntry(entries[1], 0) == [Line(0, "steps:")] + PrintItems(items, 2);
    assert PrintEntries(entries, 0) == PrintEntry(entries[0], 0) + PrintEntries(e1, 0);
    assert PrintEntry(entries[0], 0) == [Line(0, "name: nightly")];
  }

  lemma ExamplePrintable(items: seq<string>, entries: seq<Entry>)
    requires items == ["login", "order"]
    requires entries == [Entry("name", Leaf("nightly")), Entry("steps", List(1, items)), Entry("note", Empty)]
    ensures BlockOk(entries)
  {
    assert IsSpace('n') == IsSpace('e') == IsSpace('s') == IsSpace('y') == false;
    assert IsSpace('l') == IsSpace('o') == IsSpace('r') == false;
    ItemsOk(items);
    hide ItemOk, IsSpace;
    assert KeyOk("name") && KeyOk("steps") && KeyOk("note") && Trimmed("nightly");
    assert Printable(entries[0].doc) && Printable(entries[1].doc) && Printable(entries[2].doc);
  }

  lemma ItemsOk(items: seq<string>)
    requires forall i | 0 <= i < |items| :: Trimmed(items[i]) && ':' !in items[i]
    ensures forall i | 0 <= i < |items| :: ItemOk(items[i])
  {
    forall i | 0 <= i < |items|
      ensures ItemOk(items[i])
    {
      assert Colon(items[i]) == |items[i]|;
    }
  }
}
