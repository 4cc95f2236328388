/**
 * JSON values, the text JSON.stringify writes for them, and a parser for the
 * grammar of RFC 8259 that reads any JSON text. Writing and then parsing gives
 * the value back, in any surrounding text.
 */
module JsonText {
  import opened Common

  datatype Json =
    | Str(s: string)
    | Lit(text: string)
    | Arr(items: seq<Json>)
    | Obj(members: seq<Member>)

  datatype Member = Member(key: string, value: Json)

  // ---- Literals ----

  /** Numbers, booleans and null are written with these characters only. */
  predicate LitChar(c: char) {
    'a' <= c <= 'z' || 'A' <= c <= 'Z' || '0' <= c <= '9' || c == '.' || c == '-' || c == '+'
  }

  predicate Digit(c: char) {
    '0' <= c <= '9'
  }

  /** The position after the digits that start at i. */
  function DigitsEnd(t: string, i: nat): (j: nat)
    requires i <= |t|
    ensures i <= j <= |t|
    decreases |t| - i
  {
    if i < |t| && Digit(t[i]) then DigitsEnd(t, i + 1) else i
  }

  /** An optional exponent from i to the end of the text. */
  predicate ExponentTo(t: string, i: nat)
    requires i <= |t|
  {
    if i == |t| then true
    else if t[i] != 'e' && t[i] != 'E' then false
    else
      var j := if i + 1 < |t| && (t[i + 1] == '+' || t[i + 1] == '-') then i + 2 else i + 1;
      j < |t| && DigitsEnd(t, j) == |t|
  }

  /** A number in the grammar of RFC 8259, section 6. */
  predicate IsNumber(t: string) {
    var i := if t != "" && t[0] == '-' then 1 else 0;
    var j := DigitsEnd(t, i);
    && j > i && (t[i] == '0' ==> j == i + 1)
    && if j < |t| && t[j] == '.'
       then var k := DigitsEnd(t, j + 1); k > j + 1 && ExponentTo(t, k)
       else ExponentTo(t, j)
  }

  predicate IsLiteral(t: string) {
    && t != "" && (forall i :: 0 <= i < |t| ==> LitChar(t[i]))
    && (t == "true" || t == "false" || t == "null" || IsNumber(t))
  }

  /** A value that JSON.stringify can write: all its literals are JSON literals. */
  predicate Writable(v: Json) {
    match v
    case Str(_) => true
    case Lit(text) => IsLiteral(text)
    case Arr(items) => forall i :: 0 <= i < |items| ==> Writable(items[i])
    case Obj(members) => forall i :: 0 <= i < |members| ==> Writable(members[i].value)
  }

  // ---- Writing ----

  function Hex(n: nat): char
    requires n < 16
  {
    "0123456789abcdef"[n]
  }

  /** A character inside a JSON string. */
  function EscapeChar(c: char): string {
    if c == '"' then "\\\""
    else if c == '\\' then "\\\\"
    else if c == '\U{8}' then "\\b"
    else if c == '\U{c}' then "\\f"
    else if c == '\n' then "\\n"
    else if c == '\r' then "\\r"
    else if c == '\t' then "\\t"
    else if c < ' ' then "\\u00" + [Hex(c as int / 16), Hex(c as int % 16)]
    else [c]
  }

  function Escape(s: string): string {
    if s == "" then "" else EscapeChar(s[0]) + Escape(s[1..])
  }

  function Quote(s: string): string {
    "\"" + Escape(s) + "\""
  }

  function Stringify(v: Json): string
    decreases v, 1
  {
    match v
    case Str(s) => Quote(s)
    case Lit(text) => text
    case Arr(items) => if items == [] then "[]" else "[" + StringifyItems(items) + "]"
    case Obj(members) => if members == [] then "{}" else "{" + StringifyMembers(members) + "}"
  }

  function StringifyItems(items: seq<Json>): string
    requires items != []
    decreases items, 0
  {
    if |items| == 1 then Stringify(items[0])
    else Stringify(items[0]) + "," + StringifyItems(items[1..])
  }

  function StringifyMembers(members: seq<Member>): string
    requires members != []
    decreases members, 0
  {
    var head := Quote(members[0].key) + ":" + Stringify(members[0].value);
    if |members| == 1 then head else head + "," + StringifyMembers(members[1..])
  }

  // ---- Parsing: the pieces ----

  /** What the parser finds at a position: a value and the position after it. */
  datatype Parsed<+T> = Fail | Ok(value: T, end: nat)

  predicate IsJsonSpace(c: char) {
    c == ' ' || c == '\t' || c == '\n' || c == '\r'
  }

  /** The first position from i that holds no whitespace. */
  function SkipSpace(t: string, i: nat): (j: nat)
    requires i <= |t|
    ensures i <= j <= |t| && forall k :: i <= k < j ==> IsJsonSpace(t[k])
    ensures j < |t| ==> !IsJsonSpace(t[j])
    decreases |t| - i
  {
    if i < |t| && IsJsonSpace(t[i]) then SkipSpace(t, i + 1) else i
  }

  /** The end of the longest stretch of literal characters that starts at i. */
  function LitEnd(t: string, i: nat): (j: nat)
    requires i <= |t|
    ensures i <= j <= |t| && forall k :: i <= k < j ==> LitChar(t[k])
    ensures j < |t| ==> !LitChar(t[j])
    decreases |t| - i
  {
    if i < |t| && LitChar(t[i]) then LitEnd(t, i + 1) else i
  }

  function HexValue(c: char): Option<nat> {
    if '0' <= c <= '9' then Some(c as int - '0' as int)
    else if 'a' <= c <= 'f' then Some(c as int - 'a' as int + 10)
    else if 'A' <= c <= 'F' then Some(c as int - 'A' as int + 10)
    else None
  }

  /** The number written with four hexadecimal digits at i. */
  function HexQuad(t: string, i: nat): (r: Option<nat>)
    ensures r.Some? ==> i + 4 <= |t| && r.value < 0x10000
  {
    if i + 4 > |t| then None
    else
      match (HexValue(t[i]), HexValue(t[i + 1]), HexValue(t[i + 2]), HexValue(t[i + 3]))
      case (Some(a), Some(b), Some(c), Some(d)) =>
        if a < 16 && b < 16 && c < 16 && d < 16 then Some(a * 4096 + b * 256 + c * 16 + d) else None
      case _ => None
  }

  /** A numeric escape, whose backslash is at i; two of them may stand for one character. */
  function ParseUnicode(t: string, i: nat): (r: Parsed<char>)
    requires i < |t|
    ensures r.Ok? ==> i < r.end <= |t|
  {
    match HexQuad(t, i + 2)
    case None => Fail
    case Some(n) =>
      if n < 0xD800 || n >= 0xE000 then Ok(n as char, i + 6)
      else if n < 0xDC00 && i + 8 <= |t| && t[i + 6] == '\\' && t[i + 7] == 'u' then
        match HexQuad(t, i + 8)
        case Some(m) =>
          if 0xDC00 <= m < 0xE000
          then Ok((0x10000 + (n - 0xD800) * 0x400 + (m - 0xDC00)) as char, i + 12)
          else Fail
        case None => Fail
      else Fail
  }

  /** The character that a backslash and c stand for. */
  function Unescaped(c: char): Option<char> {
    if c == 'b' then Some('\U{8}')
    else if c == 'f' then Some('\U{c}')
    else if c == 'n' then Some('\n')
    else if c == 'r' then Some('\r')
    else if c == 't' then Some('\t')
    else if c == '"' || c == '\\' || c == '/' then Some(c)
    else None
  }

  /** One character of a string, and the position after it. */
  function ParseChar(t: string, i: nat): (r: Parsed<char>)
    requires i < |t|
    ensures r.Ok? ==> i < r.end <= |t|
  {
    if t[i] < ' ' then Fail
    else if t[i] != '\\' then Ok(t[i], i + 1)
    else if i + 1 >= |t| then Fail
    else if t[i + 1] == 'u' then ParseUnicode(t, i)
    else
      match Unescaped(t[i + 1])
      case Some(c) => Ok(c, i + 2)
      case None => Fail
  }

  /** The rest of a string from i, and the position after its closing quote. */
  function ParseString(t: string, i: nat): (r: Parsed<string>)
    requires i <= |t|
    ensures r.Ok? ==> i < r.end <= |t|
    decreases |t| - i
  {
    if i == |t| then Fail
    else if t[i] == '"' then Ok("", i + 1)
    else
      match ParseChar(t, i)
      case Fail => Fail
      case Ok(c, j) =>
        match ParseString(t, j)
        case Fail => Fail
        case Ok(s, k) => Ok([c] + s, k)
  }

  // ---- Parsing: values ----

  /** The value that comes next from i, after any whitespace. */
  function ParseValue(t: string, i: nat): (r: Parsed<Json>)
    requires i <= |t|
    ensures r.Ok? ==> i < r.end <= |t|
    decreases |t| - i, 0
  {
    var q := SkipSpace(t, i);
    if q == |t| then Fail
    else if t[q] == '"' then
      match ParseString(t, q + 1)
      case Ok(s, e) => Ok(Str(s), e)
      case Fail => Fail
    else if t[q] == '[' then
      var k := SkipSpace(t, q + 1);
      if k < |t| && t[k] == ']' then Ok(Arr([]), k + 1)
      else
        match ParseItems(t, q + 1)
        case Ok(items, e) => Ok(Arr(items), e)
        case Fail => Fail
    else if t[q] == '{' then
      var k := SkipSpace(t, q + 1);
      if k < |t| && t[k] == '}' then Ok(Obj([]), k + 1)
      else
        match ParseMembers(t, q + 1)
        case Ok(members, e) => Ok(Obj(members), e)
        case Fail => Fail
    else
      var e := LitEnd(t, q);
      if IsLiteral(t[q..e]) then Ok(Lit(t[q..e]), e) else Fail
  }

  /** The items of an array from i to its closing bracket: at least one. */
  function ParseItems(t: string, i: nat): (r: Parsed<seq<Json>>)
    requires i <= |t|
    ensures r.Ok? ==> i < r.end <= |t| && r.value != []
    decreases |t| - i, 1
  {
    match ParseValue(t, i)
    case Fail => Fail
    case Ok(v, j) =>
      var k := SkipSpace(t, j);
      if k == |t| then Fail
      else if t[k] == ']' then Ok([v], k + 1)
      else if t[k] == ',' then
        match ParseItems(t, k + 1)
        case Ok(rest, e) => Ok([v] + rest, e)
        case Fail => Fail
      else Fail
  }

  /** A member `"key": value` from i. */
  function ParseMember(t: string, i: nat): (r: Parsed<Member>)
    requires i <= |t|
    ensures r.Ok? ==> i < r.end <= |t|
    decreases |t| - i, 1
  {
    var q := SkipSpace(t, i);
    if q == |t| || t[q] != '"' then Fail
    else
      match ParseString(t, q + 1)
      case Fail => Fail
      case Ok(key, j) =>
        var c := SkipSpace(t, j);
        if c == |t| || t[c] != ':' then Fail
        else
          match ParseValue(t, c + 1)
          case Ok(v, e) => Ok(Member(key, v), e)
          case Fail => Fail
  }

  /** The members of an object from i to its closing brace: at least one. */
  function ParseMembers(t: string, i: nat): (r: Parsed<seq<Member>>)
    requires i <= |t|
    ensures r.Ok? ==> i < r.end <= |t| && r.value != []
    decreases |t| - i, 2
  {
    match ParseMember(t, i)
    case Fail => Fail
    case Ok(m, j) =>
      var k := SkipSpace(t, j);
      if k == |t| then Fail
      else if t[k] == '}' then Ok([m], k + 1)
      else if t[k] == ',' then
        match ParseMembers(t, k + 1)
        case Ok(rest, e) => Ok([m] + rest, e)
        case Fail => Fail
      else Fail
  }

  /** The value of a whole text, None if the text is not JSON. */
  function ParseJson(t: string): Option<Json> {
    match ParseValue(t, 0)
    case Ok(v, e) => if SkipSpace(t, e) == |t| then Some(v) else None
    case Fail => None
  }

  // ---- How larger values are put together ----

  /** After any whitespace from i, character c stands at k. */
  ghost predicate NextAt(t: string, i: nat, k: nat, c: char) {
    i <= |t| && SkipSpace(t, i) == k < |t| && t[k] == c
  }

  ghost predicate CharsAt(t: string, i: nat, s: string, e: nat) {
    i <= |t| && ParseString(t, i) == Ok(s, e)
  }

  ghost predicate ValueAt(t: string, i: nat, v: Json, e: nat) {
    i <= |t| && ParseValue(t, i) == Ok(v, e)
  }

  ghost predicate ItemsAt(t: string, i: nat, items: seq<Json>, e: nat) {
    i <= |t| && ParseItems(t, i) == Ok(items, e)
  }

  ghost predicate MemberAt(t: string, i: nat, m: Member, e: nat) {
    i <= |t| && ParseMember(t, i) == Ok(m, e)
  }

  ghost predicate MembersAt(t: string, i: nat, members: seq<Member>, e: nat) {
    i <= |t| && ParseMembers(t, i) == Ok(members, e)
  }

  lemma StrIs(t: string, i: nat, q: nat, s: string, e: nat)
    requires NextAt(t, i, q, '"') && CharsAt(t, q + 1, s, e)
    ensures ValueAt(t, i, Str(s), e)
  {
  }

  lemma EmptyArrayIs(t: string, i: nat, q: nat, k: nat)
    requires NextAt(t, i, q, '[') && NextAt(t, q + 1, k, ']')
    ensures ValueAt(t, i, Arr([]), k + 1)
  {
  }

  lemma ArrayIs(t: string, i: nat, q: nat, items: seq<Json>, e: nat)
    requires NextAt(t, i, q, '[') && ItemsAt(t, q + 1, items, e)
    ensures ValueAt(t, i, Arr(items), e)
  {
    ItemsStart(t, q + 1, items, e);
  }

  lemma EmptyObjectIs(t: string, i: nat, q: nat, k: nat)
    requires NextAt(t, i, q, '{') && NextAt(t, q + 1, k, '}')
    ensures ValueAt(t, i, Obj([]), k + 1)
  {
  }

  lemma ObjectIs(t: string, i: nat, q: nat, members: seq<Member>, e: nat)
    requires NextAt(t, i, q, '{') && MembersAt(t, q + 1, members, e)
    ensures ValueAt(t, i, Obj(members), e)
  {
    assert ParseMember(t, q + 1).Ok?;
  }

  /** No value starts with a closing bracket, so a list of items does not either. */
  lemma ItemsStart(t: string, i: nat, items: seq<Json>, e: nat)
    requires ItemsAt(t, i, items, e)
    ensures !NextAt(t, i, SkipSpace(t, i), ']')
  {
    ParseValueStart(t, i);
  }

  lemma ParseValueStart(t: string, i: nat)
    requires i <= |t| && ParseValue(t, i).Ok?
    ensures SkipSpace(t, i) < |t| && t[SkipSpace(t, i)] != ']' && t[SkipSpace(t, i)] != ','
  {
  }

  lemma LastItem(t: string, i: nat, items: seq<Json>, j: nat, k: nat)
    requires |items| == 1 && ValueAt(t, i, items[0], j) && NextAt(t, j, k, ']')
    ensures ItemsAt(t, i, items, k + 1)
  {
    assert items == [items[0]];
  }

  lemma MoreItems(t: string, i: nat, items: seq<Json>, j: nat, k: nat, e: nat)
    requires items != [] && ValueAt(t, i, items[0], j) && NextAt(t, j, k, ',') && ItemsAt(t, k + 1, items[1..], e)
    ensures ItemsAt(t, i, items, e)
  {
    assert items == [items[0]] + items[1..];
  }

  lemma MemberIs(t: string, i: nat, q: nat, m: Member, j: nat, c: nat, e: nat)
    requires NextAt(t, i, q, '"') && CharsAt(t, q + 1, m.key, j)
    requires NextAt(t, j, c, ':') && ValueAt(t, c + 1, m.value, e)
    ensures MemberAt(t, i, m, e)
  {
    hide ParseString, ParseValue, SkipSpace;
  }

  lemma LastMember(t: string, i: nat, members: seq<Member>, j: nat, k: nat)
    requires |members| == 1 && MemberAt(t, i, members[0], j) && NextAt(t, j, k, '}')
    ensures MembersAt(t, i, members, k + 1)
  {
    assert members == [members[0]];
  }

  lemma MoreMembers(t: string, i: nat, members: seq<Member>, j: nat, k: nat, e: nat)
    requires members != [] && MemberAt(t, i, members[0], j)
    requires NextAt(t, j, k, ',') && MembersAt(t, k + 1, members[1..], e)
    ensures MembersAt(t, i, members, e)
  {
    assert members == [members[0]] + members[1..];
  }

  // ---- And what they consist of ----

  lemma LitParts(t: string, i: nat, v: Json, e: nat) returns (q: nat)
    requires ValueAt(t, i, v, e) && v.Lit?
    ensures i <= q < e <= |t| && NextAt(t, i, q, t[q]) && v.text == t[q..e] && IsLiteral(t[q..e])
  {
    q := SkipSpace(t, i);
    hide IsLiteral;
    if e == q {
      EmptyIsNoLiteral();
    }
  }

  lemma EmptyIsNoLiteral()
    ensures !IsLiteral("")
  {
  }

  lemma StrParts(t: string, i: nat, s: string, e: nat) returns (q: nat)
    requires ValueAt(t, i, Str(s), e)
    ensures i <= q < e <= |t| && NextAt(t, i, q, '"') && CharsAt(t, q + 1, s, e)
  {
    q := SkipSpace(t, i);
  }

  lemma ArrayParts(t: string, i: nat, items: seq<Json>, e: nat) returns (q: nat, k: nat)
    requires ValueAt(t, i, Arr(items), e)
    ensures i <= q < e <= |t| && NextAt(t, i, q, '[')
    ensures if items == [] then NextAt(t, q + 1, k, ']') && e == k + 1 else ItemsAt(t, q + 1, items, e)
  {
    q := SkipSpace(t, i);
    k := SkipSpace(t, q + 1);
  }

  lemma ObjectParts(t: string, i: nat, members: seq<Member>, e: nat) returns (q: nat, k: nat)
    requires ValueAt(t, i, Obj(members), e)
    ensures i <= q < e <= |t| && NextAt(t, i, q, '{')
    ensures if members == [] then NextAt(t, q + 1, k, '}') && e == k + 1 else MembersAt(t, q + 1, members, e)
  {
    q := SkipSpace(t, i);
    k := SkipSpace(t, q + 1);
  }

  lemma ItemsParts(t: string, i: nat, items: seq<Json>, e: nat) returns (j: nat, k: nat)
    requires ItemsAt(t, i, items, e)
    ensures items != [] && i < j <= k < e <= |t| && ValueAt(t, i, items[0], j)
    ensures if |items| == 1 then NextAt(t, j, k, ']') && e == k + 1
            else NextAt(t, j, k, ',') && ItemsAt(t, k + 1, items[1..], e)
  {
    j := ParseValue(t, i).end;
    k := SkipSpace(t, j);
    if t[k] == ',' {
      assert items[1..] == ParseItems(t, k + 1).value;
    }
  }

  lemma MemberParts(t: string, i: nat, m: Member, e: nat) returns (q: nat, j: nat, c: nat)
    requires MemberAt(t, i, m, e)
    ensures i <= q < j <= c < e <= |t| && NextAt(t, i, q, '"') && CharsAt(t, q + 1, m.key, j)
    ensures NextAt(t, j, c, ':') && ValueAt(t, c + 1, m.value, e)
  {
    q := SkipSpace(t, i);
    j := ParseString(t, q + 1).end;
    c := SkipSpace(t, j);
  }

  lemma MembersParts(t: string, i: nat, members: seq<Member>, e: nat) returns (j: nat, k: nat)
    requires MembersAt(t, i, members, e)
    ensures members != [] && i < j <= k < e <= |t| && MemberAt(t, i, members[0], j)
    ensures if |members| == 1 then NextAt(t, j, k, '}') && e == k + 1
            else NextAt(t, j, k, ',') && MembersAt(t, k + 1, members[1..], e)
  {
    j := ParseMember(t, i).end;
    k := SkipSpace(t, j);
    if t[k] == ',' {
      assert members[1..] == ParseMembers(t, k + 1).value;
    }
  }

  // ---- What is parsed depends only on the text up to its end ----

  /** Text b holds, from position d, what text a holds up to position j. */
  ghost predicate Agree(a: string, b: string, d: nat, j: nat) {
    j <= |a| && d + j <= |b| && forall k :: 0 <= k < j ==> a[k] == b[d + k]
  }

  lemma AgreeUpTo(a: string, b: string, d: nat, j: nat, e: nat)
    requires Agree(a, b, d, e) && j <= e
    ensures Agree(a, b, d, j)
  {
  }

  /** No literal runs on at position j. */
  predicate Ends(t: string, j: nat) {
    j >= |t| || !LitChar(t[j])
  }

  lemma {:induction false} SkipSpaceIs(t: string, i: nat, j: nat)
    requires i <= j <= |t| && forall k :: i <= k < j ==> IsJsonSpace(t[k])
    requires j < |t| ==> !IsJsonSpace(t[j])
    ensures SkipSpace(t, i) == j
  {
  }

  lemma {:induction false} LitEndIs(t: string, i: nat, j: nat)
    requires i <= j <= |t| && (forall k :: i <= k < j ==> LitChar(t[k])) && Ends(t, j)
    ensures LitEnd(t, i) == j
  {
  }

  lemma LitIs(t: string, i: nat, q: nat, v: Json, e: nat)
    requires v.Lit? && q < e <= |t| && NextAt(t, i, q, t[q]) && v.text == t[q..e] && IsLiteral(t[q..e]) && Ends(t, e)
    ensures ValueAt(t, i, v, e)
  {
    forall k | q <= k < e
      ensures LitChar(t[k])
    {
      assert t[q..e][k - q] == t[k];
    }
    LitEndIs(t, q, e);
    hide IsLiteral;
    assert LitChar(t[q]);
  }

  lemma NextSame(a: string, b: string, d: nat, i: nat, k: nat, c: char)
    requires NextAt(a, i, k, c) && Agree(a, b, d, k + 1)
    ensures NextAt(b, d + i, d + k, c)
  {
    forall x | d + i <= x < d + k
      ensures IsJsonSpace(b[x])
    {
      assert a[x - d] == b[x];
    }
    SkipSpaceIs(b, d + i, d + k);
  }

  /** What follows a value inside an array or object is whitespace or punctuation. */
  lemma EndsBefore(t: string, j: nat, k: nat, c: char)
    requires NextAt(t, j, k, c) && !LitChar(c)
    ensures Ends(t, j)
  {
  }

  lemma NextAndEnds(a: string, b: string, d: nat, j: nat, k: nat, c: char)
    requires NextAt(a, j, k, c) && Agree(a, b, d, k + 1) && !LitChar(c)
    ensures NextAt(b, d + j, d + k, c) && Ends(b, d + j)
  {
    NextSame(a, b, d, j, k, c);
  }

  lemma ParseCharSame(a: string, b: string, d: nat, i: nat)
    requires i < |a| && ParseChar(a, i).Ok? && Agree(a, b, d, ParseChar(a, i).end)
    ensures ParseChar(b, d + i) == Ok(ParseChar(a, i).value, d + ParseChar(a, i).end)
  {
    assert b[d + i] == a[i];
  }

  lemma {:induction false} CharsSame(a: string, b: string, d: nat, i: nat, s: string, e: nat)
    requires CharsAt(a, i, s, e) && Agree(a, b, d, e)
    ensures CharsAt(b, d + i, s, d + e)
    decreases |a| - i
  {
    hide ParseChar;
    if a[i] != '"' {
      var p := ParseChar(a, i);
      CharsSame(a, b, d, p.end, ParseString(a, p.end).value, e);
      ParseCharSame(a, b, d, i);
    }
  }

  lemma LitSame(a: string, b: string, d: nat, i: nat, v: Json, e: nat)
    requires ValueAt(a, i, v, e) && v.Lit? && Agree(a, b, d, e) && Ends(b, d + e)
    ensures ValueAt(b, d + i, v, d + e)
  {
    hide *;
    var q := LitParts(a, i, v, e);
    AgreeUpTo(a, b, d, q + 1, e);
    NextSame(a, b, d, i, q, a[q]);
    SliceSame(a, b, d, q, e);
    LitIs(b, d + i, d + q, v, d + e);
  }

  lemma SliceSame(a: string, b: string, d: nat, q: nat, e: nat)
    requires q <= e && Agree(a, b, d, e)
    ensures e <= |a| && d + e <= |b| && a[q..e] == b[d + q..d + e]
  {
  }

  lemma StrSame(a: string, b: string, d: nat, i: nat, s: string, e: nat)
    requires ValueAt(a, i, Str(s), e) && Agree(a, b, d, e)
    ensures ValueAt(b, d + i, Str(s), d + e)
  {
    hide *;
    var q := StrParts(a, i, s, e);
    AgreeUpTo(a, b, d, q + 1, e);
    NextSame(a, b, d, i, q, '"');
    CharsSame(a, b, d, q + 1, s, e);
    StrIs(b, d + i, d + q, s, d + e);
  }

  /** A value is parsed the same in every text that holds the same up to its end, anywhere, if no literal runs on. */
  lemma {:induction false} ValueSame(a: string, b: string, d: nat, i: nat, v: Json, e: nat)
    requires ValueAt(a, i, v, e) && Agree(a, b, d, e) && Ends(b, d + e)
    ensures ValueAt(b, d + i, v, d + e)
    decreases |a| - i, 0, 1
  {
    hide *;
    match v
    case Lit(_) => LitSame(a, b, d, i, v, e);
    case Str(s) => StrSame(a, b, d, i, s, e);
    case Arr(items) => ArraySame(a, b, d, i, items, e);
    case Obj(members) => ObjectSame(a, b, d, i, members, e);
  }

  lemma {:induction false} ArraySame(a: string, b: string, d: nat, i: nat, items: seq<Json>, e: nat)
    requires ValueAt(a, i, Arr(items), e) && Agree(a, b, d, e)
    ensures ValueAt(b, d + i, Arr(items), d + e)
    decreases |a| - i, 0, 0
  {
    hide *;
    var q, k := ArrayParts(a, i, items, e);
    AgreeUpTo(a, b, d, q + 1, e);
    NextSame(a, b, d, i, q, '[');
    if items == [] {
      NextSame(a, b, d, q + 1, k, ']');
      EmptyArrayIs(b, d + i, d + q, d + k);
    } else {
      ItemsSame(a, b, d, q + 1, items, e);
      ArrayIs(b, d + i, d + q, items, d + e);
    }
  }

  lemma {:induction false} ObjectSame(a: string, b: string, d: nat, i: nat, members: seq<Member>, e: nat)
    requires ValueAt(a, i, Obj(members), e) && Agree(a, b, d, e)
    ensures ValueAt(b, d + i, Obj(members), d + e)
    decreases |a| - i, 0, 0
  {
    hide *;
    var q, k := ObjectParts(a, i, members, e);
    AgreeUpTo(a, b, d, q + 1, e);
    NextSame(a, b, d, i, q, '{');
    if members == [] {
      NextSame(a, b, d, q + 1, k, '}');
      EmptyObjectIs(b, d + i, d + q, d + k);
    } else {
      MembersSame(a, b, d, q + 1, members, e);
      ObjectIs(b, d + i, d + q, members, d + e);
    }
  }

  lemma {:induction false} ItemsSame(a: string, b: string, d: nat, i: nat, items: seq<Json>, e: nat)
    requires ItemsAt(a, i, items, e) && Agree(a, b, d, e)
    ensures ItemsAt(b, d + i, items, d + e)
    decreases |a| - i, 1
  {
    hide *;
    var j, k := ItemsParts(a, i, items, e);
    ItemEnds(a, b, d, items, j, k, e);
    ValueSame(a, b, d, i, items[0], j);
    if |items| == 1 {
      LastItem(b, d + i, items, d + j, d + k);
    } else {
      ItemsSame(a, b, d, k + 1, items[1..], e);
      MoreItems(b, d + i, items, d + j, d + k, d + e);
    }
  }

  lemma ItemEnds(a: string, b: string, d: nat, items: seq<Json>, j: nat, k: nat, e: nat)
    requires items != [] && j <= k < e && Agree(a, b, d, e) && NextAt(a, j, k, if |items| == 1 then ']' else ',')
    ensures Agree(a, b, d, j) && Ends(b, d + j) && NextAt(b, d + j, d + k, if |items| == 1 then ']' else ',')
  {
    assert !LitChar(']') && !LitChar(',');
    hide *;
    AgreeUpTo(a, b, d, j, e);
    AgreeUpTo(a, b, d, k + 1, e);
    NextAndEnds(a, b, d, j, k, if |items| == 1 then ']' else ',');
  }

  lemma {:induction false} MemberSame(a: string, b: string, d: nat, i: nat, m: Member, e: nat)
    requires MemberAt(a, i, m, e) && Agree(a, b, d, e) && Ends(b, d + e)
    ensures MemberAt(b, d + i, m, d + e)
    decreases |a| - i, 1
  {
    hide *;
    var q, j, c := MemberParts(a, i, m, e);
    AgreeUpTo(a, b, d, q + 1, e);
    AgreeUpTo(a, b, d, j, e);
    AgreeUpTo(a, b, d, c + 1, e);
    NextSame(a, b, d, i, q, '"');
    CharsSame(a, b, d, q + 1, m.key, j);
    NextSame(a, b, d, j, c, ':');
    ValueSame(a, b, d, c + 1, m.value, e);
    MemberIs(b, d + i, d + q, m, d + j, d + c, d + e);
  }

  lemma {:induction false} MembersSame(a: string, b: string, d: nat, i: nat, members: seq<Member>, e: nat)
    requires MembersAt(a, i, members, e) && Agree(a, b, d, e)
    ensures MembersAt(b, d + i, members, d + e)
    decreases |a| - i, 2
  {
    hide *;
    var j, k := MembersParts(a, i, members, e);
    MemberEnds(a, b, d, members, j, k, e);
    MemberSame(a, b, d, i, members[0], j);
    if |members| == 1 {
      LastMember(b, d + i, members, d + j, d + k);
    } else {
      MembersSame(a, b, d, k + 1, members[1..], e);
      MoreMembers(b, d + i, members, d + j, d + k, d + e);
    }
  }

  lemma MemberEnds(a: string, b: string, d: nat, members: seq<Member>, j: nat, k: nat, e: nat)
    requires members != [] && j <= k < e && Agree(a, b, d, e) && NextAt(a, j, k, if |members| == 1 then '}' else ',')
    ensures Agree(a, b, d, j) && Ends(b, d + j) && NextAt(b, d + j, d + k, if |members| == 1 then '}' else ',')
  {
    assert !LitChar('}') && !LitChar(',');
    hide *;
    AgreeUpTo(a, b, d, j, e);
    AgreeUpTo(a, b, d, k + 1, e);
    NextAndEnds(a, b, d, j, k, if |members| == 1 then '}' else ',');
  }

  // ---- What is written can be parsed ----

  lemma HexRoundTrip(n: nat)
    requires n < 16
    ensures HexValue(Hex(n)) == Some(n)
  {
  }

  /** Part s of a text stands from position i to position e. */
  ghost predicate StandsAt(t: string, i: nat, s: string, e: nat) {
    e == i + |s| && e <= |t| && forall k :: 0 <= k < |s| ==> t[i + k] == s[k]
  }

  ghost predicate HasAt(t: string, i: nat, c: char) {
    i < |t| && t[i] == c
  }

  lemma StandsSplit(t: string, i: nat, a: string, b: string, e: nat) returns (j: nat)
    requires StandsAt(t, i, a + b, e)
    ensures j == i + |a| && StandsAt(t, i, a, j) && StandsAt(t, j, b, e)
  {
    j := i + |a|;
    assert forall k :: 0 <= k < |a| ==> (a + b)[k] == a[k];
    forall k | 0 <= k < |b|
      ensures t[j + k] == b[k]
    {
      assert (a + b)[|a| + k] == b[k];
    }
  }

  /** A part between two characters. */
  lemma StandsBetween(t: string, i: nat, open: char, s: string, close: char, e: nat) returns (k: nat)
    requires StandsAt(t, i, [open] + s + [close], e)
    ensures HasAt(t, i, open) && StandsAt(t, i + 1, s, k) && HasAt(t, k, close) && e == k + 1
  {
    k := StandsSplit(t, i, [open] + s, [close], e);
    var j := StandsSplit(t, i, [open], s, k);
    assert t[i + 0] == [open][0] && t[k + 0] == [close][0];
  }

  /** Two parts on both sides of a character. */
  lemma StandsAround(t: string, i: nat, a: string, c: char, b: string, e: nat) returns (j: nat)
    requires StandsAt(t, i, a + [c] + b, e)
    ensures StandsAt(t, i, a, j) && HasAt(t, j, c) && StandsAt(t, j + 1, b, e)
  {
    var k := StandsSplit(t, i, a + [c], b, e);
    j := StandsSplit(t, i, a, [c], k);
    assert t[j + 0] == [c][0];
  }

  lemma ParseNumericEscape(t: string, i: nat, c: char)
    requires c < ' ' && StandsAt(t, i, "\\u00" + [Hex(c as int / 16), Hex(c as int % 16)], i + 6)
    ensures ParseChar(t, i) == Ok(c, i + 6)
  {
    var n := c as int;
    var e := "\\u00" + [Hex(n / 16), Hex(n % 16)];
    assert t[i + 0] == e[0] && t[i + 1] == e[1] && t[i + 2] == e[2];
    assert t[i + 3] == e[3] && t[i + 4] == e[4] && t[i + 5] == e[5];
    HexRoundTrip(n / 16);
    HexRoundTrip(n % 16);
    hide Hex, StandsAt;
    assert HexQuad(t, i + 2) == Some(n / 16 * 16 + n % 16);
  }

  /** An escaped character is read as the character. */
  lemma ParseEscapedChar(t: string, i: nat, c: char, e: nat)
    requires StandsAt(t, i, EscapeChar(c), e)
    ensures CharAt(t, i, c, e)
  {
    var x := EscapeChar(c);
    assert t[i + 0] == x[0];
    if |x| == 6 {
      ParseNumericEscape(t, i, c);
    } else if |x| == 2 {
      assert t[i + 1] == x[1];
    }
  }

  /** A character of a string is read at i. */
  ghost predicate CharAt(t: string, i: nat, c: char, e: nat) {
    i < |t| && t[i] != '"' && ParseChar(t, i) == Ok(c, e)
  }

  lemma CharsMore(t: string, i: nat, s: string, j: nat, e: nat)
    requires s != "" && CharAt(t, i, s[0], j) && CharsAt(t, j, s[1..], e)
    ensures CharsAt(t, i, s, e)
  {
    assert s == [s[0]] + s[1..];
  }

  lemma CharsEnd(t: string, i: nat, s: string, e: nat)
    requires s == "" && StandsAt(t, i, Escape(s), e) && HasAt(t, e, '"')
    ensures CharsAt(t, i, s, e + 1)
  {
  }

  lemma EscapeStands(t: string, i: nat, s: string, e: nat) returns (j: nat)
    requires s != "" && StandsAt(t, i, Escape(s), e)
    ensures StandsAt(t, i, EscapeChar(s[0]), j) && StandsAt(t, j, Escape(s[1..]), e)
  {
    hide EscapeChar, StandsAt;
    j := StandsSplit(t, i, EscapeChar(s[0]), Escape(s[1..]), e);
  }

  /** An escaped string and a quote are read as the string. */
  lemma {:induction false} ParseEscaped(t: string, i: nat, s: string, e: nat)
    requires StandsAt(t, i, Escape(s), e) && HasAt(t, e, '"')
    ensures CharsAt(t, i, s, e + 1)
    decreases |s|
  {
    hide *;
    if s == "" {
      CharsEnd(t, i, s, e);
    } else {
      var j := EscapeStands(t, i, s, e);
      ParseEscapedChar(t, i, s[0], j);
      ParseEscaped(t, j, s[1..], e);
      CharsMore(t, i, s, j, e + 1);
    }
  }

  lemma NextStands(t: string, i: nat, c: char)
    requires HasAt(t, i, c) && !IsJsonSpace(c)
    ensures NextAt(t, i, i, c)
  {
  }

  /** A quoted string is read as the string. */
  lemma ParseQuoted(t: string, i: nat, s: string, e: nat)
    requires StandsAt(t, i, Quote(s), e)
    ensures NextAt(t, i, i, '"') && CharsAt(t, i + 1, s, e)
  {
    hide StandsAt, Escape, CharsAt, HasAt, NextAt;
    var k := StandsBetween(t, i, '"', Escape(s), '"', e);
    NextStands(t, i, '"');
    ParseEscaped(t, i + 1, s, k);
  }

  lemma ParseLit(t: string, i: nat, text: string, e: nat)
    requires IsLiteral(text) && StandsAt(t, i, text, e) && Ends(t, e)
    ensures ValueAt(t, i, Lit(text), e)
  {
    forall k | i <= k < e
      ensures LitChar(t[k])
    {
      assert t[i + (k - i)] == text[k - i];
    }
    LitEndIs(t, i, e);
    hide IsLiteral;
    assert t[i..e] == text;
    assert LitChar(t[i]);
  }

  /** A written value is read as that value wherever it stands, if no literal runs on after it. */
  lemma {:induction false} ParseStringify(t: string, i: nat, v: Json, e: nat)
    requires Writable(v) && StandsAt(t, i, Stringify(v), e) && Ends(t, e)
    ensures ValueAt(t, i, v, e)
    decreases v, 1
  {
    match v
    case Str(s) =>
      hide Quote, StandsAt, ValueAt, CharsAt, NextAt, Ends;
      ParseQuoted(t, i, s, e);
      StrIs(t, i, i, s, e);
    case Lit(text) => ParseLit(t, i, text, e);
    case Arr(items) => ParseArray(t, i, items, e);
    case Obj(members) => ParseObject(t, i, members, e);
  }

  lemma {:induction false} ParseArray(t: string, i: nat, items: seq<Json>, e: nat)
    requires Writable(Arr(items)) && StandsAt(t, i, Stringify(Arr(items)), e)
    ensures ValueAt(t, i, Arr(items), e)
    decreases Arr(items), 0
  {
    hide *;
    var k := ArrayStands(t, i, items, e);
    if items == [] {
      EmptyArrayIs(t, i, i, k);
    } else {
      ParseStringifyItems(t, i + 1, items, k);
      ArrayIs(t, i, i, items, e);
    }
  }

  lemma ArrayStands(t: string, i: nat, items: seq<Json>, e: nat) returns (k: nat)
    requires StandsAt(t, i, Stringify(Arr(items)), e)
    ensures NextAt(t, i, i, '[') && HasAt(t, k, ']') && NextAt(t, k, k, ']') && e == k + 1
    ensures if items == [] then k == i + 1 else StandsAt(t, i + 1, StringifyItems(items), k)
  {
    hide StringifyItems;
    var inside := if items == [] then "" else StringifyItems(items);
    assert Stringify(Arr(items)) == ['['] + inside + [']'];
    hide StandsAt, Stringify;
    k := StandsBetween(t, i, '[', inside, ']', e);
    NextStands(t, i, '[');
    NextStands(t, k, ']');
  }

  lemma {:induction false} ParseObject(t: string, i: nat, members: seq<Member>, e: nat)
    requires Writable(Obj(members)) && StandsAt(t, i, Stringify(Obj(members)), e)
    ensures ValueAt(t, i, Obj(members), e)
    decreases Obj(members), 0
  {
    hide *;
    var k := ObjectStands(t, i, members, e);
    if members == [] {
      EmptyObjectIs(t, i, i, k);
    } else {
      ParseStringifyMembers(t, i + 1, members, k);
      ObjectIs(t, i, i, members, e);
    }
  }

  lemma ObjectStands(t: string, i: nat, members: seq<Member>, e: nat) returns (k: nat)
    requires StandsAt(t, i, Stringify(Obj(members)), e)
    ensures NextAt(t, i, i, '{') && HasAt(t, k, '}') && NextAt(t, k, k, '}') && e == k + 1
    ensures if members == [] then k == i + 1 else StandsAt(t, i + 1, StringifyMembers(members), k)
  {
    hide StringifyMembers;
    var inside := if members == [] then "" else StringifyMembers(members);
    assert Stringify(Obj(members)) == ['{'] + inside + ['}'];
    hide StandsAt, Stringify;
    k := StandsBetween(t, i, '{', inside, '}', e);
    NextStands(t, i, '{');
    NextStands(t, k, '}');
  }

  lemma WritableItems(items: seq<Json>)
    requires items != [] && Writable(Arr(items))
    ensures Writable(items[0]) && Writable(Arr(items[1..]))
  {
  }

  lemma {:induction false} ParseStringifyItems(t: string, i: nat, items: seq<Json>, e: nat)
    requires items != [] && Writable(Arr(items)) && StandsAt(t, i, StringifyItems(items), e) && HasAt(t, e, ']')
    ensures ItemsAt(t, i, items, e + 1)
    decreases items, 0
  {
    hide *;
    WritableItems(items);
    var j := ItemsStand(t, i, items, e);
    ParseStringify(t, i, items[0], j);
    if |items| == 1 {
      LastItem(t, i, items, j, j);
    } else {
      ParseStringifyItems(t, j + 1, items[1..], e);
      MoreItems(t, i, items, j, j, e + 1);
    }
  }

  lemma ItemsStand(t: string, i: nat, items: seq<Json>, e: nat) returns (j: nat)
    requires items != [] && StandsAt(t, i, StringifyItems(items), e) && HasAt(t, e, ']')
    ensures StandsAt(t, i, Stringify(items[0]), j) && Ends(t, j)
    ensures if |items| == 1 then j == e && NextAt(t, j, j, ']')
            else NextAt(t, j, j, ',') && StandsAt(t, j + 1, StringifyItems(items[1..]), e)
  {
    hide Stringify, StandsAt;
    if |items| == 1 {
      j := e;
    } else {
      j := StandsAround(t, i, Stringify(items[0]), ',', StringifyItems(items[1..]), e);
    }
    var c := if |items| == 1 then ']' else ',';
    NextStands(t, j, c);
    EndsBefore(t, j, j, c);
  }

  /** The text of a member, as in the text of an object. */
  function StringifyMember(m: Member): string {
    Quote(m.key) + ":" + Stringify(m.value)
  }

  lemma MemberStands(t: string, i: nat, m: Member, e: nat) returns (c: nat)
    requires StandsAt(t, i, StringifyMember(m), e)
    ensures StandsAt(t, i, Quote(m.key), c) && NextAt(t, c, c, ':') && StandsAt(t, c + 1, Stringify(m.value), e)
  {
    hide Quote, Stringify, StandsAt;
    c := StandsAround(t, i, Quote(m.key), ':', Stringify(m.value), e);
    NextStands(t, c, ':');
  }

  lemma {:induction false} ParseStringifyMember(t: string, i: nat, m: Member, e: nat)
    requires Writable(m.value) && StandsAt(t, i, StringifyMember(m), e) && Ends(t, e)
    ensures MemberAt(t, i, m, e)
    decreases m, 2
  {
    hide *;
    var c := MemberStands(t, i, m, e);
    ParseQuoted(t, i, m.key, c);
    ParseStringify(t, c + 1, m.value, e);
    MemberIs(t, i, i, m, c, c, e);
  }

  lemma WritableMembers(members: seq<Member>)
    requires members != [] && Writable(Obj(members))
    ensures Writable(members[0].value) && Writable(Obj(members[1..]))
  {
  }

  lemma {:induction false} ParseStringifyMembers(t: string, i: nat, members: seq<Member>, e: nat)
    requires members != [] && Writable(Obj(members))
    requires StandsAt(t, i, StringifyMembers(members), e) && HasAt(t, e, '}')
    ensures MembersAt(t, i, members, e + 1)
    decreases members, 0
  {
    hide *;
    WritableMembers(members);
    var j := MembersStand(t, i, members, e);
    ParseStringifyMember(t, i, members[0], j);
    if |members| == 1 {
      LastMember(t, i, members, j, j);
    } else {
      ParseStringifyMembers(t, j + 1, members[1..], e);
      MoreMembers(t, i, members, j, j, e + 1);
    }
  }

  lemma MembersStand(t: string, i: nat, members: seq<Member>, e: nat) returns (j: nat)
    requires members != [] && StandsAt(t, i, StringifyMembers(members), e) && HasAt(t, e, '}')
    ensures StandsAt(t, i, StringifyMember(members[0]), j) && Ends(t, j)
    ensures if |members| == 1 then j == e && NextAt(t, j, j, '}')
            else NextAt(t, j, j, ',') && StandsAt(t, j + 1, StringifyMembers(members[1..]), e)
  {
    hide Stringify, Quote, StandsAt;
    if |members| == 1 {
      j := e;
    } else {
      j := StandsAround(t, i, StringifyMember(members[0]), ',', StringifyMembers(members[1..]), e);
    }
    var c := if |members| == 1 then '}' else ',';
    NextStands(t, j, c);
    EndsBefore(t, j, j, c);
  }

  /** Parsing the text of a value gives the value back. */
  lemma JsonRoundTrip(v: Json)
    requires Writable(v)
    ensures ParseJson(Stringify(v)) == Some(v)
  {
    hide Stringify, ParseValue, Writable;
    ParseStringify(Stringify(v), 0, v, |Stringify(v)|);
  }

  // ---- Whitespace around a text ----

  lemma {:induction false} SkipSpaceThrough(t: string, i: nat, j: nat)
    requires i <= j <= |t| && forall k :: i <= k < j ==> IsJsonSpace(t[k])
    ensures SkipSpace(t, i) == SkipSpace(t, j)
    decreases j - i
  {
    if i < j {
      SkipSpaceThrough(t, i + 1, j);
    }
  }

  lemma ValueAfterSpace(t: string, i: nat, v: Json, e: nat)
    requires ValueAt(t, i, v, e) && forall k :: 0 <= k < i ==> IsJsonSpace(t[k])
    ensures ValueAt(t, 0, v, e)
  {
    SkipSpaceThrough(t, 0, i);
  }

  ghost predicate AllJsonSpace(s: string) {
    forall k :: 0 <= k < |s| ==> IsJsonSpace(s[k])
  }

  lemma PaddedParts(p: string, t: string, q: string, e: nat)
    requires AllJsonSpace(p) && e <= |t| && SkipSpace(t, e) == |t| && (q != "" ==> !LitChar(q[0]))
    ensures Agree(t, p + t + q, |p|, e) && Ends(p + t + q, |p| + e)
    ensures forall k :: 0 <= k < |p| ==> IsJsonSpace((p + t + q)[k])
  {
    var u := p + t + q;
    assert forall k :: 0 <= k < |t| ==> t[k] == u[|p| + k];
    assert e < |t| ==> u[|p| + e] == t[e];
    assert forall k :: 0 <= k < |p| ==> u[k] == p[k];
  }

  /** Where the value of a text ends when whitespace stands before it and something else than a literal after it. */
  lemma PaddedValue(p: string, t: string, q: string, v: Json) returns (e: nat)
    requires AllJsonSpace(p) && ParseJson(t) == Some(v) && (q != "" ==> !LitChar(q[0]))
    ensures e <= |t| && SkipSpace(t, e) == |t| && ValueAt(p + t + q, 0, v, |p| + e)
  {
    e := ParseValue(t, 0).end;
    assert ValueAt(t, 0, v, e);
    hide ValueAt, Agree, Ends, ParseValue, ParseJson, LitChar, SkipSpace, AllJsonSpace;
    PaddedParts(p, t, q, e);
    ValueSame(t, p + t + q, |p|, 0, v, e);
    ValueAfterSpace(p + t + q, |p|, v, |p| + e);
  }

  /** Whitespace around a text makes no difference to its value; anything else after it spoils it. */
  lemma PaddedJson(p: string, t: string, q: string, v: Json)
    requires AllJsonSpace(p) && ParseJson(t) == Some(v) && (q != "" ==> !LitChar(q[0]))
    ensures ParseJson(p + t + q) == if AllJsonSpace(q) then Some(v) else None
  {
    var e := PaddedValue(p, t, q, v);
    SpaceAfter(p, t, q, e);
    hide SkipSpace, LitChar, AllJsonSpace;
  }

  lemma SpaceAfter(p: string, t: string, q: string, e: nat)
    requires e <= |t| && SkipSpace(t, e) == |t|
    ensures SkipSpace(p + t + q, |p| + e) == |p + t + q| <==> AllJsonSpace(q)
  {
    var u := p + t + q;
    forall k | |p| + e <= k < |p| + |t|
      ensures IsJsonSpace(u[k])
    {
      assert u[k] == t[k - |p|];
    }
    assert forall k :: 0 <= k < |q| ==> u[|p| + |t| + k] == q[k];
    hide SkipSpace;
    SkipSpaceThrough(u, |p| + e, |p| + |t|);
    if AllJsonSpace(q) {
      SkipSpaceThrough(u, |p| + |t|, |u|);
    }
  }
}
