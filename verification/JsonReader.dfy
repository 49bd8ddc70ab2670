// A JSON reader for RFC 8259, written from the grammar and not from the printer. Members keep their order
// and repeated names are kept; this is what makes it able to undo ToJSON.
module JsonReader {

  datatype Member = Member(name: string, value: Json)

  datatype Json =
    | Object(members: seq<Member>)
    | Array(elements: seq<Json>)
    | Text(s: string)
    | Number(literal: string)
    | Boolean(b: bool)
    | NullValue

  datatype Result<+T> = Fail | Ok(value: T, rest: string)

  // ---- lexical level: white space, literals, numbers (section 6), strings (section 7) ----

  predicate IsWs(c: char) {
    c == ' ' || c == '\t' || c == '\n' || c == '\r'
  }

  function SkipWs(s: string): (r: string)
    ensures |r| <= |s|
  {
    if s != [] && IsWs(s[0]) then SkipWs(s[1..]) else s
  }

  predicate IsDigit(c: char) {
    '0' <= c <= '9'
  }

  predicate IsNumberChar(c: char) {
    IsDigit(c) || c == '-' || c == '+' || c == '.' || c == 'e' || c == 'E'
  }

  function DropDigits(s: string): (r: string)
    ensures |r| <= |s|
  {
    if s != [] && IsDigit(s[0]) then DropDigits(s[1..]) else s
  }

  // number = [ minus ] int [ frac ] [ exp ]
  predicate ValidNumber(s: string) {
    var a := if s != [] && s[0] == '-' then s[1..] else s;
    a != [] && IsDigit(a[0]) && ValidFraction(if a[0] == '0' then a[1..] else DropDigits(a))
  }

  predicate ValidFraction(s: string) {
    if s != [] && s[0] == '.'
    then |s| > 1 && IsDigit(s[1]) && ValidExponent(DropDigits(s[1..]))
    else ValidExponent(s)
  }

  predicate ValidExponent(s: string) {
    s == [] ||
    ((s[0] == 'e' || s[0] == 'E') &&
     var a := if |s| > 1 && (s[1] == '+' || s[1] == '-') then s[2..] else s[1..];
     a != [] && IsDigit(a[0]) && DropDigits(a) == [])
  }

  // Length of the longest prefix of number characters.
  function NumberSpan(s: string): (n: nat)
    ensures n <= |s|
  {
    if s != [] && IsNumberChar(s[0]) then 1 + NumberSpan(s[1..]) else 0
  }

  predicate IsHex(c: char) {
    IsDigit(c) || 'a' <= c <= 'f' || 'A' <= c <= 'F'
  }

  function HexValue(c: char): (v: int)
    requires IsHex(c)
    ensures 0 <= v < 16
  {
    if IsDigit(c) then c as int - '0' as int
    else if 'a' <= c <= 'f' then c as int - 'a' as int + 10
    else c as int - 'A' as int + 10
  }

  predicate FourHex(s: string) {
    |s| >= 4 && IsHex(s[0]) && IsHex(s[1]) && IsHex(s[2]) && IsHex(s[3])
  }

  function HexValue4(s: string): (v: int)
    requires FourHex(s)
    ensures 0 <= v < 0x1_0000
  {
    0x1000 * HexValue(s[0]) + 0x100 * HexValue(s[1]) + 16 * HexValue(s[2]) + HexValue(s[3])
  }

  function Push(c: char, r: Result<string>): Result<string> {
    match r
    case Fail => Fail
    case Ok(v, rest) => Ok([c] + v, rest)
  }

  // The rest of a string whose opening quote has been read.
  function ReadString(s: string): (r: Result<string>)
    ensures r.Ok? ==> |r.rest| < |s|
    decreases |s|
  {
    if s == [] || s[0] < ' ' then Fail
    else if s[0] == '"' then Ok("", s[1..])
    else if s[0] != '\\' then Push(s[0], ReadString(s[1..]))
    else if |s| < 2 then Fail
    else if s[1] == 'u' then ReadUnicodeEscape(s)
    else
      match SimpleEscape(s[1])
      case None => Fail
      case Some(c) => Push(c, ReadString(s[2..]))
  }

  datatype MaybeChar = None | Some(c: char)

  function SimpleEscape(c: char): MaybeChar {
    if c == '"' || c == '\\' || c == '/' then Some(c)
    else if c == 'b' then Some('\U{08}')
    else if c == 'f' then Some('\U{0C}')
    else if c == 'n' then Some('\n')
    else if c == 'r' then Some('\r')
    else if c == 't' then Some('\t')
    else None
  }

  // \uXXXX, or two of them when the first is a high surrogate.
  function ReadUnicodeEscape(s: string): (r: Result<string>)
    requires |s| >= 2
    ensures r.Ok? ==> |r.rest| < |s|
    decreases |s|, 0
  {
    if !FourHex(s[2..]) then Fail
    else
      var unit := HexValue4(s[2..]);
      if 0xD800 <= unit < 0xDC00 then
        if |s| >= 8 && s[6] == '\\' && s[7] == 'u' && FourHex(s[8..]) && 0xDC00 <= HexValue4(s[8..]) < 0xE000 then
          Push((0x1_0000 + (unit - 0xD800) * 0x400 + (HexValue4(s[8..]) - 0xDC00)) as char, ReadString(s[12..]))
        else Fail
      else if 0xDC00 <= unit < 0xE000 then Fail
      else Push(unit as char, ReadString(s[6..]))
  }

  // ---- values (sections 3 to 5) ----

  function ReadValue(input: string): (r: Result<Json>)
    ensures r.Ok? ==> |r.rest| < |input|
    decreases |input|, 0
  {
    var s := SkipWs(input);
    if s == [] then Fail
    else if s[0] == '{' then
      var a := SkipWs(s[1..]);
      if a != [] && a[0] == '}' then Ok(Object([]), a[1..])
      else
        match ReadMembers(s[1..])
        case Fail => Fail
        case Ok(ms, rest) => Ok(Object(ms), rest)
    else if s[0] == '[' then
      var a := SkipWs(s[1..]);
      if a != [] && a[0] == ']' then Ok(Array([]), a[1..])
      else
        match ReadElements(s[1..])
        case Fail => Fail
        case Ok(es, rest) => Ok(Array(es), rest)
    else if s[0] == '"' then
      match ReadString(s[1..])
      case Fail => Fail
      case Ok(text, rest) => Ok(Text(text), rest)
    else if "true" <= s then Ok(Boolean(true), s[4..])
    else if "false" <= s then Ok(Boolean(false), s[5..])
    else if "null" <= s then Ok(NullValue, s[4..])
    else
      var n := NumberSpan(s);
      if n > 0 && ValidNumber(s[..n]) then Ok(Number(s[..n]), s[n..]) else Fail
  }

  // member *( "," member ) "}"
  function ReadMembers(input: string): (r: Result<seq<Member>>)
    ensures r.Ok? ==> |r.rest| < |input|
    decreases |input|, 1
  {
    var s := SkipWs(input);
    if s == [] || s[0] != '"' then Fail
    else
      match ReadString(s[1..])
      case Fail => Fail
      case Ok(name, afterName) =>
        var colon := SkipWs(afterName);
        if colon == [] || colon[0] != ':' then Fail
        else
          match ReadValue(colon[1..])
          case Fail => Fail
          case Ok(value, afterValue) =>
            var next := SkipWs(afterValue);
            if next != [] && next[0] == '}' then Ok([Member(name, value)], next[1..])
            else if next != [] && next[0] == ',' then
              match ReadMembers(next[1..])
              case Fail => Fail
              case Ok(ms, rest) => Ok([Member(name, value)] + ms, rest)
            else Fail
  }

  // value *( "," value ) "]"
  function ReadElements(input: string): (r: Result<seq<Json>>)
    ensures r.Ok? ==> |r.rest| < |input|
    decreases |input|, 1
  {
    match ReadValue(input)
    case Fail => Fail
    case Ok(value, afterValue) =>
      var next := SkipWs(afterValue);
      if next != [] && next[0] == ']' then Ok([value], next[1..])
      else if next != [] && next[0] == ',' then
        match ReadElements(next[1..])
        case Fail => Fail
        case Ok(es, rest) => Ok([value] + es, rest)
      else Fail
  }

  // JSON-text = ws value ws
  function ReadText(s: string): Result<Json> {
    match ReadValue(s)
    case Fail => Fail
    case Ok(v, rest) => if SkipWs(rest) == [] then Ok(v, []) else Fail
  }
}
