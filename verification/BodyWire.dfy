// What the Body of an item holds after a request: its tree as JSON, form or multipart text.
module BodyWire {
  import opened BodyTree
  import opened JsonPrinter

  // ---- form text, as url.Values encodes it ----

  predicate Unreserved(c: char) {
    'a' <= c <= 'z' || 'A' <= c <= 'Z' || '0' <= c <= '9' || c in "-_.~"
  }

  function Utf8(c: char): (bytes: seq<nat>)
    ensures bytes != [] && forall i | 0 <= i < |bytes| :: bytes[i] < 256
  {
    var n := c as int;
    if n < 0x80 then [n]
    else if n < 0x800 then [0xC0 + n / 0x40, 0x80 + n % 0x40]
    else if n < 0x1_0000 then [0xE0 + n / 0x1000, 0x80 + n / 0x40 % 0x40, 0x80 + n % 0x40]
    else [0xF0 + n / 0x4_0000, 0x80 + n / 0x1000 % 0x40, 0x80 + n / 0x40 % 0x40, 0x80 + n % 0x40]
  }

  function Percent(bytes: seq<nat>): (s: string)
    requires forall i | 0 <= i < |bytes| :: bytes[i] < 256
    ensures bytes != [] ==> s != "" && s[0] == '%'
  {
    if bytes == [] then ""
    else
      var digits := "0123456789ABCDEF";
      ['%', digits[bytes[0] / 16], digits[bytes[0] % 16]] + Percent(bytes[1..])
  }

  function EscapeChar(c: char): (s: string)
    ensures s != "" && s[0] != '{' && s[0] != '['
  {
    if Unreserved(c) then [c] else if c == ' ' then "+" else Percent(Utf8(c))
  }

  function QueryEscape(s: string): string {
    if s == "" then "" else EscapeChar(s[0]) + QueryEscape(s[1..])
  }

  function FormText(pairs: seq<(string, string)>): string {
    if pairs == [] then ""
    else
      QueryEscape(pairs[0].0) + "=" + QueryEscape(pairs[0].1)
      + if |pairs| == 1 then "" else "&" + FormText(pairs[1..])
  }

  // Escaping goes character by character,
  lemma {:induction false} EscapeJoin(a: string, b: string)
    ensures QueryEscape(a + b) == QueryEscape(a) + QueryEscape(b)
  {
    if a == "" {
      assert a + b == b;
    } else {
      assert (a + b)[1..] == a[1..] + b;
      EscapeJoin(a[1..], b);
    }
  }

  // leaves letters, digits and -_.~ alone, makes a space a plus,
  lemma {:induction false} EscapeKeeps(s: string)
    requires forall i | 0 <= i < |s| ::
               'a' <= s[i] <= 'z' || 'A' <= s[i] <= 'Z' || '0' <= s[i] <= '9' || s[i] in "-_.~"
    ensures QueryEscape(s) == s && QueryEscape(" ") == "+"
  {
    if s != "" {
      EscapeKeeps(s[1..]);
    }
  }

  // and spells everything else out byte by byte.
  lemma EscapeSpells(c: char)
    requires c as int < 0x80 && !Unreserved(c) && c != ' '
    ensures QueryEscape([c]) == ['%', "0123456789ABCDEF"[c as int / 16], "0123456789ABCDEF"[c as int % 16]]
  {
    var bytes: seq<nat> := [c as int];
    assert Utf8(c) == bytes && bytes[1..] == [] && Percent([]) == "";
    assert EscapeChar(c) == Percent(bytes);
    assert [c][1..] == "" && QueryEscape("") == "";
  }

  // Pairs are joined by ampersands.
  lemma FormIs(pair: (string, string), more: seq<(string, string)>)
    ensures FormText([]) == "" && FormText([pair]) == QueryEscape(pair.0) + "=" + QueryEscape(pair.1)
    ensures more != [] ==> FormText([pair] + more) == FormText([pair]) + "&" + FormText(more)
  {
    hide QueryEscape;
    assert [pair][1..] == [] && ([pair] + more)[1..] == more;
    var one := QueryEscape(pair.0) + "=" + QueryEscape(pair.1);
    assert one + "" == one && one + ("&" + FormText(more)) == one + "&" + FormText(more);
  }

  // ---- the Body of a sent item ----

  predicate OpensContainer(s: string) {
    s != "" && (s[0] == '{' || s[0] == '[')
  }

  // Whatever pairs a form holds, tokens included, and whatever follows a boundary.
  ghost predicate Sent(tree: Tree, body: string) {
    || body == Json(tree, 0)
    || (exists pairs :: body == FormText(pairs))
    || (exists boundary, rest :: body == "--" + boundary + rest)
  }

  lemma FormOpens(pairs: seq<(string, string)>)
    ensures !OpensContainer(FormText(pairs))
  {
    if pairs != [] && pairs[0].0 != "" {
      assert QueryEscape(pairs[0].0)[0] == EscapeChar(pairs[0].0[0])[0];
    }
  }

  lemma SentOpens(tree: Tree, body: string)
    requires Sent(tree, body) && body != Json(tree, 0)
    ensures !OpensContainer(body)
  {
    if pairs: seq<(string, string)> :| body == FormText(pairs) {
      FormOpens(pairs);
    }
  }

  // A tree with something to delete prints as a container, and so does what is left of it.
  lemma CandidateOpens(t: Tree, p: Path, i: nat)
    requires ValidPath(t, p) && i < NKids(At(t, p))
    ensures OpensContainer(Json(Plug(t, p, DropKid(At(t, p), i)), 0))
  {
  }
}
