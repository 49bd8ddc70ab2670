// parser.py, first half: from raw text lines to (indent, content) lines, refusing what the subset does not cover.
module CampaignLines {
  import opened Wrappers

  datatype Result<+T> = Ok(value: T) | Err(message: string)

  // A line that carries something: leading spaces, the text after them.
  datatype Line = Line(indent: nat, content: string)

  // str.isspace: what strip removes and \s matches.
  predicate IsSpace(c: char) {
    var n := c as int;
    || 9 <= n <= 13 || 28 <= n <= 32 || n == 0x85 || n == 0xA0 || n == 0x1680 || 0x2000 <= n <= 0x200A
    || n == 0x2028 || n == 0x2029 || n == 0x202F || n == 0x205F || n == 0x3000
  }

  // Where splitlines cuts.
  predicate IsBreak(c: char) {
    var n := c as int;
    10 <= n <= 13 || 28 <= n <= 30 || n == 0x85 || n == 0x2028 || n == 0x2029
  }

  function BreakAt(s: string): (i: nat)
    ensures i <= |s| && (i < |s| ==> IsBreak(s[i])) && forall k | 0 <= k < i :: !IsBreak(s[k])
  {
    if s == [] || IsBreak(s[0]) then 0 else 1 + BreakAt(s[1..])
  }

  // str.splitlines: a carriage return and the line feed behind it are one break; a final break ends the last line.
  function SplitLines(s: string): seq<string>
    decreases |s|
  {
    if s == [] then []
    else
      var i := BreakAt(s);
      if i == |s| then [s]
      else
        var j := if s[i] == '\r' && i + 1 < |s| && s[i + 1] == '\n' then i + 2 else i + 1;
        [s[..i]] + SplitLines(s[j..])
  }

  function JoinLines(lines: seq<string>): string {
    if lines == [] then [] else lines[0] + "\n" + JoinLines(lines[1..])
  }

  predicate OneLine(s: string) {
    forall i | 0 <= i < |s| :: !IsBreak(s[i])
  }

  // What stands before the first break is a line; the rest follows behind the break, or behind both of \r\n.
  lemma SplitFirst(l: string, c: char, rest: string)
    requires OneLine(l) && IsBreak(c)
    ensures SplitLines(l + ([c] + rest))
         == [l] + SplitLines(if c == '\r' && rest != "" && rest[0] == '\n' then rest[1..] else rest)
    ensures SplitLines(l) == if l == "" then [] else [l]
  {
    hide BreakAt, IsBreak;
    var s := l + ([c] + rest);
    BreakBehind(l, [c] + rest);
    NoBreak(l);
    assert s[|l|] == c && s[..|l|] == l && s[|l| + 1..] == rest;
    if rest != "" {
      assert s[|l| + 1] == rest[0] && s[|l| + 2..] == rest[1..];
    }
  }

  lemma {:induction false} NoBreak(l: string)
    requires OneLine(l)
    ensures BreakAt(l) == |l|
  {
    if l != "" {
      NoBreak(l[1..]);
    }
  }

  lemma {:induction false} BreakBehind(l: string, rest: string)
    requires OneLine(l) && rest != [] && IsBreak(rest[0])
    ensures BreakAt(l + rest) == |l|
  {
    hide IsBreak;
    if l == [] {
      assert l + rest == rest;
    } else {
      assert (l + rest)[1..] == l[1..] + rest;
      BreakBehind(l[1..], rest);
    }
  }

  lemma {:induction false} SplitJoin(lines: seq<string>)
    requires forall i | 0 <= i < |lines| :: OneLine(lines[i])
    ensures SplitLines(JoinLines(lines)) == lines
  {
    if lines != [] {
      var rest := JoinLines(lines[1..]);
      assert JoinLines(lines) == lines[0] + (['\n'] + rest);
      hide SplitLines, OneLine;
      SplitFirst(lines[0], '\n', rest);
      SplitJoin(lines[1..]);
    }
  }

  function LStrip(s: string): (r: string)
    ensures r == [] || !IsSpace(r[0])
    ensures |r| <= |s| && r == s[|s| - |r|..] && forall i | 0 <= i < |s| - |r| :: IsSpace(s[i])
  {
    if s != [] && IsSpace(s[0]) then LStrip(s[1..]) else s
  }

  function RStrip(s: string): (r: string)
    ensures r == [] || !IsSpace(r[|r| - 1])
    ensures |r| <= |s| && r == s[..|r|] && forall i | |r| <= i < |s| :: IsSpace(s[i])
  {
    if s != [] && IsSpace(s[|s| - 1]) then RStrip(s[..|s| - 1]) else s
  }

  function Strip(s: string): string {
    LStrip(RStrip(s))
  }

  predicate Trimmed(s: string) {
    s != [] && !IsSpace(s[0]) && !IsSpace(s[|s| - 1])
  }

  lemma StripTrimmed(s: string)
    requires Trimmed(s)
    ensures Strip(s) == s && RStrip(s) == s && LStrip(s) == s
  {
  }

  // White space goes from both ends.
  lemma StripIs(lead: string, core: string, trail: string)
    requires Trimmed(core) && forall i | 0 <= i < |lead| :: IsSpace(lead[i])
    requires forall i | 0 <= i < |trail| :: IsSpace(trail[i])
    ensures Strip(lead + (core + trail)) == core && Strip(lead) == ""
  {
    hide IsSpace;
    var s := lead + (core + trail);
    var r := RStrip(s);
    assert s[..|lead| + |core|] == lead + core;
    assert |r| == |lead| + |core| by {
      assert s[|lead| + |core| - 1] == core[|core| - 1];
      assert forall i | |lead| + |core| <= i < |s| :: s[i] == trail[i - |lead| - |core|];
      assert r != [] ==> r[|r| - 1] == s[|r| - 1];
    }
    var l := LStrip(r);
    assert |l| == |core| by {
      assert r[|lead|] == core[0];
      assert forall i | 0 <= i < |lead| :: r[i] == lead[i];
      assert l != [] ==> l[0] == r[|r| - |l|];
    }
    assert r[|lead|..] == core;
  }

  // ---- comments ----

  // Position of the first # outside quotes, |s| if there is none.
  function CommentAt(s: string, inSingle: bool, inDouble: bool): (i: nat)
    ensures i <= |s| && (i < |s| ==> s[i] == '#')
  {
    if s == [] then 0
    else if s[0] == '\'' && !inDouble then 1 + CommentAt(s[1..], !inSingle, inDouble)
    else if s[0] == '"' && !inSingle then 1 + CommentAt(s[1..], inSingle, !inDouble)
    else if s[0] == '#' && !inSingle && !inDouble then 0
    else 1 + CommentAt(s[1..], inSingle, inDouble)
  }

  // Text without quotes and # is passed over, and the first # behind it found.
  lemma CommentFound(u: string, w: string)
    requires forall i | 0 <= i < |u| :: u[i] != '#' && u[i] != '\'' && u[i] != '"'
    ensures CommentAt(u, false, false) == |u|
    ensures CommentAt(u + ("#" + w), false, false) == |u|
  {
    hide CommentAt;
    QuoteStep('"', w);
    PassOver(u, "", false, false);
    assert u + "" == u;
    PassOver(u, "#" + w, false, false);
  }

  // A quoted text is passed over, whatever else is in the quotes; only the same quote ends it.
  lemma QuotedIsSkipped(quote: char, v: string, w: string)
    requires (quote == '\'' || quote == '"') && quote !in v
    ensures CommentAt([quote] + (v + ([quote] + w)), false, false) == |v| + 2 + CommentAt(w, false, false)
  {
    hide CommentAt;
    QuoteStep(quote, v + ([quote] + w));
    InQuotes(v, [quote] + w, quote);
    QuoteStep(quote, w);
  }

  // One that is not closed hides everything behind it.
  lemma UnclosedQuote(quote: char, v: string)
    requires (quote == '\'' || quote == '"') && quote !in v
    ensures CommentAt([quote] + v, false, false) == 1 + |v|
  {
    hide CommentAt;
    QuoteStep(quote, v);
    InQuotes(v, "", quote);
    assert v + "" == v;
  }

  // Opening a quote, closing it, a comment, the end.
  lemma QuoteStep(quote: char, rest: string)
    requires quote == '\'' || quote == '"'
    ensures CommentAt([quote] + rest, false, false) == 1 + CommentAt(rest, quote == '\'', quote == '"')
    ensures CommentAt([quote] + rest, quote == '\'', quote == '"') == 1 + CommentAt(rest, false, false)
    ensures CommentAt("#" + rest, false, false) == 0
    ensures CommentAt("", false, false) == CommentAt("", quote == '\'', quote == '"') == 0
  {
    assert ([quote] + rest)[1..] == rest;
  }

  // Text without quotes and # leaves the search where it is, inside or outside of quotes.
  lemma {:induction false} PassOver(u: string, w: string, inSingle: bool, inDouble: bool)
    requires forall i | 0 <= i < |u| :: u[i] != '#' && u[i] != '\'' && u[i] != '"'
    ensures CommentAt(u + w, inSingle, inDouble) == |u| + CommentAt(w, inSingle, inDouble)
  {
    if u == "" {
      assert u + w == w;
    } else {
      assert (u + w)[1..] == u[1..] + w;
      PassOver(u[1..], w, inSingle, inDouble);
    }
  }

  lemma {:induction false} InQuotes(v: string, w: string, quote: char)
    requires (quote == '\'' || quote == '"') && quote !in v
    ensures CommentAt(v + w, quote == '\'', quote == '"') == |v| + CommentAt(w, quote == '\'', quote == '"')
  {
    if v == "" {
      assert v + w == w;
    } else {
      assert (v + w)[1..] == v[1..] + w;
      InQuotes(v[1..], w, quote);
    }
  }

  method StripComment(line: string) returns (r: string)
    ensures r == line[..CommentAt(line, false, false)]
  {
    var inSingle, inDouble := false, false;
    var i := 0;
    while i < |line|
      invariant i <= |line|
      invariant i + CommentAt(line[i..], inSingle, inDouble) == CommentAt(line, false, false)
    {
      var ch := line[i];
      assert line[i..][1..] == line[i + 1..];
      if ch == '\'' && !inDouble {
        inSingle := !inSingle;
      } else if ch == '"' && !inSingle {
        inDouble := !inDouble;
      } else if ch == '#' && !inSingle && !inDouble {
        return line[..i];
      }
      i := i + 1;
    }
    return line;
  }

  // ---- what is refused ----

  function LeadingBlanks(s: string): (r: string)
    ensures |r| <= |s| && r == s[..|r|]
  {
    if s != [] && (s[0] == ' ' || s[0] == '\t') then [s[0]] + LeadingBlanks(s[1..]) else []
  }

  function LeadingSpaces(s: string): (n: nat)
    ensures n <= |s|
  {
    if s != [] && s[0] == ' ' then 1 + LeadingSpaces(s[1..]) else 0
  }

  predicate IsWordChar(c: char) {
    'a' <= c <= 'z' || 'A' <= c <= 'Z' || '0' <= c <= '9' || c == '_'
  }

  // &name or *name anywhere.
  predicate HasAnchor(s: string) {
    exists i :: 0 <= i < |s| - 1 && (s[i] == '&' || s[i] == '*') && IsWordChar(s[i + 1])
  }

  // What stands between the brackets of a trailing ": [ ... ]".
  function InlineList(s: string): Option<string> {
    if s == [] then None
    else if s[0] == ':' then
      var t := LStrip(s[1..]);
      if |t| >= 2 && t[0] == '[' && t[|t| - 1] == ']' then Some(t[1..|t| - 1]) else InlineList(s[1..])
    else InlineList(s[1..])
  }

  predicate BadBrackets(s: string) {
    match InlineList(s)
    case Some(inner) => '[' in inner
    case None => '[' in s
  }

  // One raw line: refused, nothing, or a line.
  function ReadLine(raw: string): Result<Option<Line>> {
    if '\t' in LeadingBlanks(raw) then Err("tab indentation is not supported")
    else
      var stripped := RStrip(raw[..CommentAt(raw, false, false)]);
      if Strip(stripped) == "" then Ok(None)
      else if Strip(stripped) == "---" then Err("multi-document streams are not supported")
      else if HasAnchor(stripped) then Err("anchors/aliases are not supported")
      else if '{' in stripped then Err("flow mappings are not supported")
      else if LStrip(stripped) != [] && LStrip(stripped)[0] == '[' then Err("a bare flow-style value needs a key")
      else if BadBrackets(stripped) then Err("flow style is only supported as a full value")
      else Ok(Some(Line(LeadingSpaces(stripped), Strip(stripped))))
  }

  // A colon that a bracketed text follows, white space aside, up to the end of the line.
  predicate OpensList(s: string, i: nat)
    requires i < |s|
  {
    s[i] == ':' &&
    var t := LStrip(s[i + 1..]);
    |t| >= 2 && t[0] == '[' && t[|t| - 1] == ']'
  }

  function BehindColon(s: string, i: nat): string
    requires i < |s| && OpensList(s, i)
  {
    var t := LStrip(s[i + 1..]);
    t[1..|t| - 1]
  }

  // The text between the brackets behind the first such colon.
  lemma {:induction false} InlineListIs(s: string) returns (i: nat)
    ensures i <= |s| && (i < |s| ==> OpensList(s, i)) && forall j | 0 <= j < i :: !OpensList(s, j)
    ensures InlineList(s) == if i == |s| then None else Some(BehindColon(s, i))
  {
    hide LStrip, InlineList, OpensList, BehindColon;
    InlineListStep(s);
    if s == "" || OpensList(s, 0) {
      i := 0;
    } else {
      var k := InlineListIs(s[1..]);
      i := k + 1;
      forall j | 0 < j < |s|
        ensures OpensList(s, j) == OpensList(s[1..], j - 1)
        ensures OpensList(s, j) ==> BehindColon(s, j) == BehindColon(s[1..], j - 1)
      {
        OpensLater(s, j);
      }
    }
  }

  lemma InlineListStep(s: string)
    ensures InlineList(s) == if s == "" then None
                             else if OpensList(s, 0) then Some(BehindColon(s, 0)) else InlineList(s[1..])
  {
    hide LStrip;
  }

  lemma OpensLater(s: string, j: nat)
    requires 0 < j < |s|
    ensures OpensList(s, j) == OpensList(s[1..], j - 1)
    ensures OpensList(s, j) ==> BehindColon(s, j) == BehindColon(s[1..], j - 1)
  {
    hide LStrip;
    assert s[1..][j - 1] == s[j] && s[1..][j..] == s[j + 1..];
  }

  // A tab among the blanks a line starts with.
  predicate TabIndented(raw: string) {
    exists k :: 0 <= k < |raw| && raw[k] == '\t' && forall j | 0 <= j < k :: raw[j] == ' ' || raw[j] == '\t'
  }

  lemma {:induction false} TabIsLeading(raw: string)
    ensures '\t' in LeadingBlanks(raw) <==> TabIndented(raw)
  {
    var b := LeadingBlanks(raw);
    LeadingBlanksAre(raw);
    if k :| 0 <= k < |raw| && raw[k] == '\t' && forall j | 0 <= j < k :: raw[j] == ' ' || raw[j] == '\t' {
      assert k < |b| && b[k] == '\t';
    }
    if '\t' in b {
      var k :| 0 <= k < |b| && b[k] == '\t';
      assert raw[k] == '\t';
    }
  }

  lemma {:induction false} LeadingBlanksAre(raw: string)
    ensures
      var b := LeadingBlanks(raw);
      && (forall i | 0 <= i < |b| :: b[i] == raw[i] && (raw[i] == ' ' || raw[i] == '\t'))
      && (|b| < |raw| ==> raw[|b|] != ' ' && raw[|b|] != '\t')
  {
    if raw != "" && (raw[0] == ' ' || raw[0] == '\t') {
      LeadingBlanksAre(raw[1..]);
      assert forall i | 0 < i < |raw| :: raw[i] == raw[1..][i - 1];
    }
  }

  lemma {:induction false} LeadingSpacesAre(s: string)
    ensures
      var n := LeadingSpaces(s);
      (forall j | 0 <= j < n :: s[j] == ' ') && (n < |s| ==> s[n] != ' ')
  {
    if s != "" && s[0] == ' ' {
      LeadingSpacesAre(s[1..]);
      assert forall i | 0 < i < |s| :: s[i] == s[1..][i - 1];
    }
  }

  // What one raw line comes to, c being what is left of it without its comment and the white space behind it, i the
  // first colon in it that opens a list, n its indentation.
  lemma ReadLineIs(raw: string, c: string, i: nat, n: nat)
    requires c == RStrip(raw[..CommentAt(raw, false, false)])
    requires i <= |c| && (i < |c| ==> OpensList(c, i)) && forall j | 0 <= j < i :: !OpensList(c, j)
    requires n <= |c| && (n < |c| ==> c[n] != ' ') && forall j | 0 <= j < n :: c[j] == ' '
    ensures ReadLine(raw).Err? <==> TabIndented(raw) || (Strip(c) != "" && Refusable(c, i))
    ensures ReadLine(raw).Ok? ==> ReadLine(raw).value == if Strip(c) == "" then None else Some(Line(n, Strip(c)))
  {
    hide *;
    FirstList(c, i);
    IndentIs(c, n);
    TabIsLeading(raw);
    StripHead(c);
    RefusedIff(c, i);
    ReadLineCases(raw, c);
  }

  lemma FirstList(c: string, i: nat)
    requires i <= |c| && (i < |c| ==> OpensList(c, i)) && forall j | 0 <= j < i :: !OpensList(c, j)
    ensures InlineList(c) == if i == |c| then None else Some(BehindColon(c, i))
  {
    hide OpensList, InlineList, BehindColon;
    var k := InlineListIs(c);
    assert k == i;
  }

  lemma IndentIs(c: string, n: nat)
    requires n <= |c| && (n < |c| ==> c[n] != ' ') && forall j | 0 <= j < n :: c[j] == ' '
    ensures n == LeadingSpaces(c)
  {
    hide LeadingSpaces;
    LeadingSpacesAre(c);
  }

  lemma ReadLineCases(raw: string, c: string)
    requires c == RStrip(raw[..CommentAt(raw, false, false)])
    ensures ReadLine(raw).Err? <==>
              '\t' in LeadingBlanks(raw) ||
              (Strip(c) != "" && (Strip(c) == "---" || HasAnchor(c) || '{' in c || BadBrackets(c)
                                  || (LStrip(c) != [] && LStrip(c)[0] == '[')))
    ensures ReadLine(raw).Ok? ==>
              ReadLine(raw).value == if Strip(c) == "" then None else Some(Line(LeadingSpaces(c), Strip(c)))
  {
    hide CommentAt, LeadingBlanks, LeadingSpaces, HasAnchor, BadBrackets, LStrip, RStrip, Strip;
  }

  // Anything but blank: a document mark, a flow mapping, a value that is not a key's, an anchor or alias, a bracket
  // in a list or anywhere but around one.
  predicate Refusable(c: string, i: nat)
    requires i <= |c| && (i < |c| ==> OpensList(c, i))
  {
    || Strip(c) == "---" || '{' in c || (Strip(c) != "" && Strip(c)[0] == '[')
    || (exists k :: 0 <= k < |c| - 1 && (c[k] == '&' || c[k] == '*') && IsWordChar(c[k + 1]))
    || '[' in if i < |c| then BehindColon(c, i) else c
  }

  lemma RefusedIff(c: string, i: nat)
    requires i <= |c| && (i < |c| ==> OpensList(c, i))
    requires InlineList(c) == if i == |c| then None else Some(BehindColon(c, i))
    requires LStrip(c) != [] && LStrip(c)[0] == '[' <==> Strip(c) != "" && Strip(c)[0] == '['
    ensures Refusable(c, i) <==>
              || Strip(c) == "---" || HasAnchor(c) || '{' in c || (LStrip(c) != [] && LStrip(c)[0] == '[')
              || BadBrackets(c)
  {
    hide OpensList, InlineList, BehindColon, LStrip, Strip, IsWordChar;
  }

  // A text without trailing white space starts alike however it is stripped.
  lemma StripHead(c: string)
    requires c == "" || !IsSpace(c[|c| - 1])
    ensures Strip(c) == LStrip(c)
  {
  }

  function ReadLines(raw: seq<string>): Result<seq<Line>> {
    if raw == [] then Ok([])
    else
      match ReadLine(raw[0])
      case Err(e) => Err(e)
      case Ok(None) => ReadLines(raw[1..])
      case Ok(Some(line)) =>
        match ReadLines(raw[1..])
        case Err(e) => Err(e)
        case Ok(lines) => Ok([line] + lines)
  }

  // The loop: the first line that is refused ends it.
  method CollectLines(raw: seq<string>) returns (r: Result<seq<Line>>)
    ensures r == ReadLines(raw)
  {
    hide ReadLines, ReadLine, Before;
    var lines: seq<Line> := [];
    var i := 0;
    assert raw[0..] == raw;
    BeforeAll(lines, ReadLines(raw));
    while i < |raw|
      invariant i <= |raw|
      invariant ReadLines(raw) == Before(lines, ReadLines(raw[i..]))
    {
      ReadNext(raw, i, lines);
      var line := CollectLine(raw[i]);
      if line.Err? {
        return Err(line.message);
      }
      if line.value.Some? {
        lines := lines + [line.value.value];
      }
      i := i + 1;
    }
    assert raw[i..] == [];
    BeforeAll(lines, ReadLines(raw));
    return Ok(lines);
  }

  function Before(lines: seq<Line>, rest: Result<seq<Line>>): Result<seq<Line>> {
    match rest
    case Err(e) => Err(e)
    case Ok(more) => Ok(lines + more)
  }

  lemma BeforeAll(lines: seq<Line>, rest: Result<seq<Line>>)
    ensures Before([], rest) == rest && Before(lines, ReadLines([])) == Ok(lines)
  {
    assert lines + [] == lines;
    if rest.Ok? {
      assert [] + rest.value == rest.value;
    }
  }

  lemma ReadNext(raw: seq<string>, i: nat, lines: seq<Line>)
    requires i < |raw|
    ensures
      var rest := ReadLines(raw[i + 1..]);
      Before(lines, ReadLines(raw[i..]))
        == match ReadLine(raw[i])
           case Err(e) => Err(e)
           case Ok(None) => Before(lines, rest)
           case Ok(Some(l)) => Before(lines + [l], rest)
  {
    hide ReadLine;
    var tail, rest := raw[i..], ReadLines(raw[i + 1..]);
    assert tail[0] == raw[i] && tail[1..] == raw[i + 1..];
    if rest.Ok? && ReadLine(raw[i]).Ok? && ReadLine(raw[i]).value.Some? {
      var l := ReadLine(raw[i]).value.value;
      assert lines + ([l] + rest.value) == lines + [l] + rest.value;
    }
  }

  method CollectLine(raw: string) returns (r: Result<Option<Line>>)
    ensures r == ReadLine(raw)
  {
    hide LeadingBlanks, CommentAt, RStrip, LStrip, Strip, HasAnchor, BadBrackets, LeadingSpaces;
    if '\t' in LeadingBlanks(raw) {
      return Err("tab indentation is not supported");
    }
    var line := StripComment(raw);
    var stripped := RStrip(line);
    if Strip(stripped) == "" {
      return Ok(None);
    }
    if Strip(stripped) == "---" {
      return Err("multi-document streams are not supported");
    }
    if HasAnchor(stripped) {
      return Err("anchors/aliases are not supported");
    }
    if '{' in stripped {
      return Err("flow mappings are not supported");
    }
    if LStrip(stripped) != [] && LStrip(stripped)[0] == '[' {
      return Err("a bare flow-style value needs a key");
    }
    if BadBrackets(stripped) {
      return Err("flow style is only supported as a full value");
    }
    return Ok(Some(Line(LeadingSpaces(stripped), Strip(stripped))));
  }

  // ---- plain lines come through as they are ----

  predicate PlainChar(c: char) {
    c != '#' && c != '\'' && c != '"' && c != '&' && c != '*' && c != '{' && c != '[' && !IsBreak(c)
  }

  predicate Plain(s: string) {
    forall i | 0 <= i < |s| :: PlainChar(s[i])
  }

  function Spaces(n: nat): (s: string)
    ensures |s| == n && forall i | 0 <= i < n :: s[i] == ' '
  {
    seq(n, _ => ' ')
  }

  lemma {:induction false} NoComment(s: string, a: bool, b: bool)
    requires Plain(s)
    ensures CommentAt(s, a, b) == |s|
  {
    if s != [] {
      assert PlainChar(s[0]);
      NoComment(s[1..], a, b);
    }
  }

  lemma {:induction false} Indented(n: nat, s: string)
    requires Trimmed(s)
    ensures LStrip(Spaces(n) + s) == s && LeadingSpaces(Spaces(n) + s) == n && LeadingBlanks(Spaces(n) + s) == Spaces(n)
  {
    hide LStrip, LeadingSpaces, LeadingBlanks, Trimmed;
    if n == 0 {
      assert Spaces(0) + s == s && Spaces(0) == [];
      TrimmedStart(s);
    } else {
      Indented(n - 1, s);
      assert Spaces(n) + s == [' '] + (Spaces(n - 1) + s) && [' '] + Spaces(n - 1) == Spaces(n);
      OneSpaceMore(Spaces(n - 1) + s);
    }
  }

  lemma TrimmedStart(s: string)
    requires Trimmed(s)
    ensures LStrip(s) == s && LeadingSpaces(s) == 0 && LeadingBlanks(s) == []
  {
  }

  lemma OneSpaceMore(s: string)
    ensures LStrip([' '] + s) == LStrip(s)
    ensures LeadingSpaces([' '] + s) == 1 + LeadingSpaces(s) && LeadingBlanks([' '] + s) == [' '] + LeadingBlanks(s)
  {
    assert ([' '] + s)[1..] == s;
  }

  lemma {:induction false} NoInlineList(s: string)
    requires '[' !in s
    ensures !BadBrackets(s) && InlineList(s) == None
  {
    if s != [] {
      NoInlineList(s[1..]);
      if s[0] == ':' {
        var t := LStrip(s[1..]);
        assert t != [] ==> t[0] in s;
      }
    }
  }

  // A trimmed text without special characters, indented by any number of spaces, is read as exactly that.
  lemma PlainLineSurvives(n: nat, s: string)
    requires Trimmed(s) && Plain(s) && s != "---"
    ensures ReadLine(Spaces(n) + s) == Ok(Some(Line(n, s)))
  {
    hide *;
    NoTrailing(Spaces(n) + s, n, s);
    PlainRaw(n, s);
    NoComment(Spaces(n) + s, false, false);
    Indented(n, s);
    NoInlineList(Spaces(n) + s);
    PlainStart(s);
    PlainRead(Spaces(n) + s, n, s);
  }

  lemma PlainRead(raw: string, n: nat, s: string)
    requires LeadingBlanks(raw) == Spaces(n) && CommentAt(raw, false, false) == |raw|
    requires RStrip(raw) == raw && Strip(raw) == LStrip(raw) == s && LeadingSpaces(raw) == n
    requires s != "" && s[0] != '[' && s != "---" && !HasAnchor(raw) && '{' !in raw && !BadBrackets(raw)
    ensures ReadLine(raw) == Ok(Some(Line(n, s)))
  {
    hide LStrip, RStrip, Strip, CommentAt, LeadingBlanks, LeadingSpaces, InlineList, BadBrackets, HasAnchor;
    assert raw[..|raw|] == raw;
    assert '\t' !in Spaces(n);
  }

  lemma NoTrailing(raw: string, n: nat, s: string)
    requires raw == Spaces(n) + s && Trimmed(s)
    ensures RStrip(raw) == raw && Strip(raw) == LStrip(raw)
  {
    assert raw[|raw| - 1] == s[|s| - 1];
  }

  lemma PlainStart(s: string)
    requires Plain(s) && Trimmed(s)
    ensures s != "" && s[0] != '['
  {
    assert PlainChar(s[0]);
  }

  lemma PlainRaw(n: nat, s: string)
    requires Plain(s)
    ensures Plain(Spaces(n) + s) && !HasAnchor(Spaces(n) + s) && '{' !in Spaces(n) + s && '[' !in Spaces(n) + s
  {
    var raw := Spaces(n) + s;
    forall i | 0 <= i < |raw|
      ensures PlainChar(raw[i])
    {
      if i >= n {
        assert raw[i] == s[i - n];
      }
    }
  }
}
