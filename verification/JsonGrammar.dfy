/**
 * The grammar of JSON texts of RFC 8259, stated without reference to the parser: which
 * stretches of a text spell which value, by the existence of the places where it can be
 * cut. The parser finds a value exactly when the grammar allows it.
 */
module JsonGrammar {
  import opened Common
  import opened JsonText

  // ---- Numbers ----

  predicate AllDigits(s: string) {
    forall i :: 0 <= i < |s| ==> '0' <= s[i] <= '9'
  }

  predicate IsInteger(s: string) {
    s == "0" || (s != "" && AllDigits(s) && s[0] != '0')
  }

  predicate IsFraction(s: string) {
    s == "" || (|s| >= 2 && s[0] == '.' && AllDigits(s[1..]))
  }

  predicate IsExponent(s: string) {
    || s == ""
    || (|s| >= 2 && (s[0] == 'e' || s[0] == 'E') && AllDigits(s[1..]))
    || (|s| >= 3 && (s[0] == 'e' || s[0] == 'E') && (s[1] == '+' || s[1] == '-') && AllDigits(s[2..]))
  }

  /** A sign up to i, an integer up to j, a fraction up to k, and an exponent. */
  ghost predicate NumberParts(t: string, i: int, j: int, k: int) {
    && 0 <= i <= j <= k <= |t|
    && (t[..i] == "" || t[..i] == "-")
    && IsInteger(t[i..j]) && IsFraction(t[j..k]) && IsExponent(t[k..])
  }

  ghost predicate SpellsNumber(t: string) {
    exists i, j, k :: NumberParts(t, i, j, k)
  }

  lemma {:induction false} DigitsEndExact(t: string, i: nat)
    requires i <= |t|
    ensures AllDigits(t[i..DigitsEnd(t, i)])
    ensures DigitsEnd(t, i) < |t| ==> !('0' <= t[DigitsEnd(t, i)] <= '9')
    decreases |t| - i
  {
    if i < |t| && Digit(t[i]) {
      DigitsEndExact(t, i + 1);
      var j := DigitsEnd(t, i);
      assert t[i..j] == [t[i]] + t[i + 1..j];
    }
  }

  lemma {:induction false} DigitsEndIs(t: string, i: nat, j: nat)
    requires i <= j <= |t| && AllDigits(t[i..j]) && (j < |t| ==> !('0' <= t[j] <= '9'))
    ensures DigitsEnd(t, i) == j
    decreases j - i
  {
    if i < j {
      assert t[i] == t[i..j][0] && t[i + 1..j] == t[i..j][1..];
      DigitsEndIs(t, i + 1, j);
    }
  }

  lemma ExponentExact(t: string, i: nat)
    requires i <= |t|
    ensures ExponentTo(t, i) <==> IsExponent(t[i..])
  {
    if i < |t| {
      var s := t[i..];
      assert s[0] == t[i] && (|s| > 1 ==> s[1] == t[i + 1]);
      DigitsToEnd(t, i + 1);
      assert s[1..] == t[i + 1..];
      if i + 2 <= |t| {
        DigitsToEnd(t, i + 2);
        assert s[2..] == t[i + 2..];
        assert |s| >= 2 && (s[1] == '+' || s[1] == '-') ==> !AllDigits(s[1..]) by {
          assert s[1..][0] == s[1];
        }
      }
    }
  }

  lemma DigitsToEnd(t: string, i: nat)
    requires i <= |t|
    ensures DigitsEnd(t, i) == |t| <==> AllDigits(t[i..])
  {
    DigitsEndExact(t, i);
    assert t[i..|t|] == t[i..];
    if AllDigits(t[i..]) {
      DigitsEndIs(t, i, |t|);
    }
  }

  lemma SignAndInteger(t: string, i: nat, j: nat)
    requires i < j <= |t| && i == (if t[0] == '-' then 1 else 0) && AllDigits(t[i..j]) && (t[i] == '0' ==> j == i + 1)
    ensures (t[..i] == "" || t[..i] == "-") && IsInteger(t[i..j])
  {
    assert t[i..j][0] == t[i];
    assert t[i] == '0' ==> t[i..j] == "0";
    assert i == 1 ==> t[..i] == "-";
  }

  lemma FractionIs(t: string, j: nat, k: nat)
    requires j + 1 < k <= |t| && t[j] == '.' && AllDigits(t[j + 1..k])
    ensures IsFraction(t[j..k])
  {
    assert t[j..k][1..] == t[j + 1..k] && t[j..k][0] == t[j];
  }

  /** The parts that the parser cuts a number into. */
  lemma NumberHasParts(t: string) returns (i: nat, j: nat, k: nat)
    requires IsNumber(t)
    ensures NumberParts(t, i, j, k)
  {
    i := if t != "" && t[0] == '-' then 1 else 0;
    j := DigitsEnd(t, i);
    k := if j < |t| && t[j] == '.' then DigitsEnd(t, j + 1) else j;
    assert k == j || j + 1 < k;
    assert ExponentTo(t, k);
    DigitsEndExact(t, i);
    hide ExponentTo, IsInteger, IsFraction, IsExponent, AllDigits, DigitsEnd;
    SignAndInteger(t, i, j);
    if k > j {
      DigitsEndExact(t, j + 1);
      FractionIs(t, j, k);
    } else {
      NoFraction();
      assert t[j..k] == "";
    }
    ExponentExact(t, k);
  }

  lemma NoFraction()
    ensures IsFraction("")
  {
  }

  lemma AfterNumber(t: string, i: nat, j: nat, k: nat)
    requires NumberParts(t, i, j, k)
    ensures j < |t| ==> !('0' <= t[j] <= '9') && (t[j] == '.' <==> j < k)
    ensures k < |t| ==> !('0' <= t[k] <= '9')
  {
    assert j < k ==> t[j..k][0] == t[j];
    assert k < |t| ==> t[k..][0] == t[k];
  }

  lemma PartsMakeNumber(t: string, i: nat, j: nat, k: nat)
    requires NumberParts(t, i, j, k)
    ensures IsNumber(t)
  {
    AfterNumber(t, i, j, k);
    assert t[i..j][0] == t[i];
    assert i == 1 ==> t[0] == t[..i][0];
    assert i == if t[0] == '-' then 1 else 0;
    DigitsEndIs(t, i, j);
    ExponentExact(t, k);
    if j < k {
      assert t[j..k][1..] == t[j + 1..k];
      DigitsEndIs(t, j + 1, k);
    }
  }

  /** A text is taken for a number exactly if the grammar makes it one. */
  lemma NumberExact(t: string)
    ensures IsNumber(t) <==> SpellsNumber(t)
  {
    if IsNumber(t) {
      var i, j, k := NumberHasParts(t);
    }
    if SpellsNumber(t) {
      var i, j, k :| NumberParts(t, i, j, k);
      PartsMakeNumber(t, i, j, k);
    }
  }

  ghost predicate SpellsLiteral(t: string) {
    t == "true" || t == "false" || t == "null" || SpellsNumber(t)
  }

  lemma NumberChars(t: string, i: nat, j: nat, k: nat)
    requires NumberParts(t, i, j, k)
    ensures t != "" && forall n :: 0 <= n < |t| ==> LitChar(t[n])
  {
    forall n | 0 <= n < |t|
      ensures LitChar(t[n])
    {
      if n < i {
        assert t[n] == t[..i][n];
      } else if n < j {
        assert t[n] == t[i..j][n - i];
      } else if n < k {
        assert t[n] == t[j..k][n - j];
        assert n > j ==> t[n] == t[j..k][1..][n - j - 1];
      } else {
        var s := t[k..];
        assert t[n] == s[n - k];
        assert n > k ==> t[n] == s[1..][n - k - 1];
        assert n > k + 1 ==> t[n] == s[2..][n - k - 2];
      }
    }
  }

  /** The literals are true, false, null and the numbers. */
  lemma LiteralExact(t: string)
    ensures IsLiteral(t) <==> SpellsLiteral(t)
  {
    NumberExact(t);
    if SpellsNumber(t) {
      var i, j, k :| NumberParts(t, i, j, k);
      NumberChars(t, i, j, k);
    }
    hide IsNumber, SpellsNumber;
  }

  /** The decimal notation of a natural number. */
  function Decimal(n: nat): string {
    if n < 10 then [('0' as int + n) as char] else Decimal(n / 10) + [('0' as int + n % 10) as char]
  }

  lemma {:induction false} DecimalIsInteger(n: nat)
    ensures IsInteger(Decimal(n)) && (n > 0 ==> Decimal(n)[0] != '0')
  {
    if n >= 10 {
      DecimalIsInteger(n / 10);
    }
  }

  /** The notation of every natural number, also with a minus sign, is a literal, and so are true, false and null. */
  lemma LiteralsAreWritable(n: nat)
    ensures Writable(Lit(Decimal(n))) && Writable(Lit("-" + Decimal(n)))
    ensures ParseJson(Decimal(n)) == Some(Lit(Decimal(n)))
    ensures Writable(Lit("true")) && Writable(Lit("false")) && Writable(Lit("null"))
    ensures forall t :: t in {"true", "false", "null"} ==> ParseJson(t) == Some(Lit(t))
  {
    var d, m := Decimal(n), "-" + Decimal(n);
    DecimalIsInteger(n);
    assert d[0..|d|] == d && m[1..|m|] == d && m[..1] == "-" && d[|d|..] == "" == m[|m|..];
    assert NumberParts(d, 0, |d|, |d|) && NumberParts(m, 1, |m|, |m|);
    LiteralExact(d);
    LiteralExact(m);
    LiteralExact("true");
    LiteralExact("false");
    LiteralExact("null");
    hide IsLiteral, ParseJson, Decimal, SpellsNumber, IsInteger;
    JsonRoundTrip(Lit(d));
    JsonRoundTrip(Lit("true"));
    JsonRoundTrip(Lit("false"));
    JsonRoundTrip(Lit("null"));
  }

  // ---- Strings ----

  /** The character is the hexadecimal digit of the value. */
  predicate DigitIs(c: char, d: int) {
    || (0 <= d < 10 && c as int == 48 + d)
    || (10 <= d < 16 && (c as int == 87 + d || c as int == 55 + d))
  }

  ghost predicate HexDigits(t: string, i: nat, a: int, b: int, c: int, d: int) {
    i + 4 <= |t| && DigitIs(t[i], a) && DigitIs(t[i + 1], b) && DigitIs(t[i + 2], c) && DigitIs(t[i + 3], d)
  }

  /** Four hexadecimal digits at i spell the number. */
  ghost predicate HexSpells(t: string, i: nat, n: int) {
    exists a, b, c, d :: HexDigits(t, i, a, b, c, d) && n == 4096 * a + 256 * b + 16 * c + d
  }

  /** The character that a backslash and one more character stand for. */
  predicate ShortEscape(x: char, c: char) {
    || (x == '"' && c == '"') || (x == '\\' && c == '\\') || (x == '/' && c == '/')
    || (x == 'b' && c as int == 8) || (x == 'f' && c as int == 12) || (x == 'n' && c as int == 10)
    || (x == 'r' && c as int == 13) || (x == 't' && c as int == 9)
  }

  /** A backslash and u at i, followed by the number. */
  ghost predicate EscapedUnit(t: string, i: nat, n: int) {
    i + 6 <= |t| && t[i] == '\\' && t[i + 1] == 'u' && HexSpells(t, i + 2, n)
  }

  ghost predicate EscapedUnits(t: string, i: nat, n: int, m: int) {
    EscapedUnit(t, i, n) && EscapedUnit(t, i + 6, m)
  }

  /** Two units that stand for one character beyond the first 65536, as UTF-16 writes it. */
  ghost predicate EscapedPair(t: string, i: nat, c: char) {
    exists n, m :: EscapedUnits(t, i, n, m) &&
                   0xD800 <= n < 0xDC00 && 0xDC00 <= m < 0xE000 &&
                   c as int == 0x10000 + (n - 0xD800) * 0x400 + (m - 0xDC00)
  }

  /** The text from i to e spells one character of a string. */
  ghost predicate CharSpells(t: string, i: nat, c: char, e: nat) {
    && i < e <= |t|
    && (|| (e == i + 1 && t[i] == c && c != '"' && c != '\\' && c as int >= 32)
        || (e == i + 2 && t[i] == '\\' && ShortEscape(t[i + 1], c))
        || (e == i + 6 && EscapedUnit(t, i, c as int))
        || (e == i + 12 && EscapedPair(t, i, c)))
  }

  /** The text from i to e spells the inside of a string. */
  ghost predicate CharsSpell(t: string, i: nat, s: string, e: nat)
    decreases |s|
  {
    if s == "" then i == e <= |t|
    else exists j: nat :: CharSpells(t, i, s[0], j) && CharsSpell(t, j, s[1..], e)
  }

  // ---- Values ----

  ghost predicate Spaces(t: string, i: int, j: int) {
    0 <= i <= j <= |t| && forall k :: i <= k < j ==> t[k] == ' ' || t[k] == '\t' || t[k] == '\n' || t[k] == '\r'
  }

  /** A quoted string from i to e. */
  ghost predicate StringSpells(t: string, i: nat, s: string, e: nat) {
    i + 2 <= e <= |t| && t[i] == '"' && CharsSpell(t, i + 1, s, e - 1) && t[e - 1] == '"'
  }

  /** The text from i to e spells the value, without whitespace around it. */
  ghost predicate ValueSpells(t: string, i: nat, v: Json, e: nat)
    decreases v
  {
    match v
    case Str(s) => StringSpells(t, i, s, e)
    case Lit(text) => i <= e <= |t| && t[i..e] == text && SpellsLiteral(text)
    case Arr(items) =>
      && i + 2 <= e <= |t| && t[i] == '[' && t[e - 1] == ']'
      && if items == [] then Spaces(t, i + 1, e - 1) else ItemsSpell(t, i + 1, items, e - 1)
    case Obj(members) =>
      && i + 2 <= e <= |t| && t[i] == '{' && t[e - 1] == '}'
      && if members == [] then Spaces(t, i + 1, e - 1) else MembersSpell(t, i + 1, members, e - 1)
  }

  /** The text from i to e spells items with commas between them and whitespace around each. */
  ghost predicate ItemsSpell(t: string, i: nat, items: seq<Json>, e: nat)
    requires items != []
    decreases items
  {
    exists a: nat, b: nat, k: nat ::
      && Spaces(t, i, a) && ValueSpells(t, a, items[0], b) && Spaces(t, b, k)
      && if |items| == 1 then k == e else k < |t| && t[k] == ',' && ItemsSpell(t, k + 1, items[1..], e)
  }

  /** The same for members of the form string, colon, value. */
  ghost predicate MembersSpell(t: string, i: nat, members: seq<Member>, e: nat)
    requires members != []
    decreases members
  {
    exists b: nat, k: nat ::
      && MemberSpells(t, i, members[0], b) && Spaces(t, b, k)
      && if |members| == 1 then k == e else k < |t| && t[k] == ',' && MembersSpell(t, k + 1, members[1..], e)
  }

  ghost predicate MemberSpells(t: string, i: nat, m: Member, e: nat)
    decreases m
  {
    exists q: nat, j: nat, c: nat, a: nat ::
      && Spaces(t, i, q) && StringSpells(t, q, m.key, j) && Spaces(t, j, c)
      && c < |t| && t[c] == ':' && Spaces(t, c + 1, a) && ValueSpells(t, a, m.value, e)
  }

  /** The whole text spells the value, with whitespace around it. */
  ghost predicate TextSpells(t: string, v: Json) {
    exists i: nat, e: nat :: Spaces(t, 0, i) && ValueSpells(t, i, v, e) && Spaces(t, e, |t|)
  }

  // ---- What the parser finds is spelled ----

  lemma HexDigitExact(c: char, d: int)
    ensures HexValue(c).Some? && HexValue(c).value == d <==> DigitIs(c, d)
  {
  }

  lemma HexSound(t: string, i: nat)
    requires HexQuad(t, i).Some?
    ensures HexSpells(t, i, HexQuad(t, i).value)
  {
    var a, b := HexValue(t[i]).value, HexValue(t[i + 1]).value;
    var c, d := HexValue(t[i + 2]).value, HexValue(t[i + 3]).value;
    HexDigitExact(t[i], a);
    HexDigitExact(t[i + 1], b);
    HexDigitExact(t[i + 2], c);
    HexDigitExact(t[i + 3], d);
    assert HexDigits(t, i, a, b, c, d);
  }

  lemma HexComplete(t: string, i: nat, n: int)
    requires HexSpells(t, i, n)
    ensures HexQuad(t, i).Some? && HexQuad(t, i).value == n
  {
    var a, b, c, d :| HexDigits(t, i, a, b, c, d) && n == 4096 * a + 256 * b + 16 * c + d;
    HexDigitExact(t[i], a);
    HexDigitExact(t[i + 1], b);
    HexDigitExact(t[i + 2], c);
    HexDigitExact(t[i + 3], d);
  }

  lemma UnicodeSound(t: string, i: nat, c: char, e: nat)
    requires i + 1 < |t| && t[i] == '\\' && t[i + 1] == 'u' && ParseUnicode(t, i) == Ok(c, e)
    ensures CharSpells(t, i, c, e)
  {
    var n := HexQuad(t, i + 2).value;
    HexSound(t, i + 2);
    assert EscapedUnit(t, i, n);
    if 0xD800 <= n < 0xE000 {
      HexSound(t, i + 8);
      assert EscapedUnits(t, i, n, HexQuad(t, i + 8).value);
      assert EscapedPair(t, i, c);
    }
  }

  lemma CharSound(t: string, i: nat, c: char, e: nat)
    requires i < |t| && t[i] != '"' && ParseChar(t, i) == Ok(c, e)
    ensures CharSpells(t, i, c, e)
  {
    hide ParseUnicode;
    if t[i] == '\\' && t[i + 1] == 'u' {
      UnicodeSound(t, i, c, e);
    }
  }

  lemma UnitComplete(t: string, i: nat, c: char)
    requires EscapedUnit(t, i, c as int)
    ensures ParseChar(t, i) == Ok(c, i + 6)
  {
    HexComplete(t, i + 2, c as int);
  }

  lemma PairComplete(t: string, i: nat, c: char)
    requires EscapedPair(t, i, c)
    ensures ParseChar(t, i) == Ok(c, i + 12)
  {
    var n, m :| EscapedUnits(t, i, n, m) &&
                0xD800 <= n < 0xDC00 && 0xDC00 <= m < 0xE000 &&
                c as int == 0x10000 + (n - 0xD800) * 0x400 + (m - 0xDC00);
    HexComplete(t, i + 2, n);
    HexComplete(t, i + 8, m);
    hide HexQuad, HexSpells;
  }

  lemma CharComplete(t: string, i: nat, c: char, e: nat)
    requires CharSpells(t, i, c, e)
    ensures CharAt(t, i, c, e)
  {
    if e == i + 6 {
      UnitComplete(t, i, c);
    } else if e == i + 12 {
      PairComplete(t, i, c);
    }
  }

  lemma {:induction false} CharsSound(t: string, i: nat, s: string, e: nat)
    requires CharsAt(t, i, s, e)
    ensures i < e <= |t| && t[e - 1] == '"' && CharsSpell(t, i, s, e - 1)
    decreases |t| - i
  {
    if t[i] != '"' {
      var p := ParseChar(t, i);
      CharSound(t, i, p.value, p.end);
      assert s[0] == p.value && s[1..] == ParseString(t, p.end).value;
      CharsSound(t, p.end, s[1..], e);
    }
  }

  lemma {:induction false} CharsComplete(t: string, i: nat, s: string, e: nat)
    requires CharsSpell(t, i, s, e) && HasAt(t, e, '"')
    ensures CharsAt(t, i, s, e + 1)
    decreases |s|
  {
    if s != "" {
      var j: nat :| CharSpells(t, i, s[0], j) && CharsSpell(t, j, s[1..], e);
      hide CharsSpell, CharSpells, CharAt, CharsAt;
      CharComplete(t, i, s[0], j);
      CharsComplete(t, j, s[1..], e);
      CharsMore(t, i, s, j, e + 1);
    }
  }

  lemma NextSpaces(t: string, i: nat, k: nat, c: char)
    requires NextAt(t, i, k, c)
    ensures Spaces(t, i, k) && HasAt(t, k, c)
  {
  }

  lemma SpacesNext(t: string, i: nat, k: nat, c: char)
    requires Spaces(t, i, k) && HasAt(t, k, c) && !IsJsonSpace(c)
    ensures NextAt(t, i, k, c)
  {
    SkipSpaceIs(t, i, k);
  }

  lemma StringSound(t: string, q: nat, s: string, e: nat)
    requires q < |t| && t[q] == '"' && CharsAt(t, q + 1, s, e)
    ensures StringSpells(t, q, s, e)
  {
    hide CharsAt, CharsSpell;
    CharsSound(t, q + 1, s, e);
  }

  lemma LitSound(t: string, i: nat, v: Json, e: nat) returns (q: nat)
    requires ValueAt(t, i, v, e) && v.Lit?
    ensures Spaces(t, i, q) && ValueSpells(t, q, v, e)
  {
    hide IsLiteral, SpellsLiteral;
    q := LitParts(t, i, v, e);
    NextSpaces(t, i, q, t[q]);
    LiteralExact(v.text);
  }

  lemma StrSound(t: string, i: nat, s: string, e: nat) returns (q: nat)
    requires ValueAt(t, i, Str(s), e)
    ensures Spaces(t, i, q) && ValueSpells(t, q, Str(s), e)
  {
    hide ValueAt, CharsAt, StringSpells;
    q := StrParts(t, i, s, e);
    NextSpaces(t, i, q, '"');
    StringSound(t, q, s, e);
  }

  /** What the parser takes for a value is spelled as the grammar says. */
  lemma {:induction false} ValueSound(t: string, i: nat, v: Json, e: nat) returns (q: nat)
    requires ValueAt(t, i, v, e)
    ensures Spaces(t, i, q) && ValueSpells(t, q, v, e)
    decreases |t| - i, 0
  {
    hide ValueAt, ValueSpells, Spaces;
    match v
    case Lit(_) => q := LitSound(t, i, v, e);
    case Str(s) => q := StrSound(t, i, s, e);
    case Arr(items) =>
      var k: nat;
      q, k := ArrayParts(t, i, items, e);
      NextSpaces(t, i, q, '[');
      if items == [] {
        NextSpaces(t, q + 1, k, ']');
      } else {
        ItemsSound(t, q + 1, items, e);
      }
      ArraySpelled(t, q, items, e);
    case Obj(members) =>
      var k: nat;
      q, k := ObjectParts(t, i, members, e);
      NextSpaces(t, i, q, '{');
      if members == [] {
        NextSpaces(t, q + 1, k, '}');
      } else {
        MembersSound(t, q + 1, members, e);
      }
      ObjectSpelled(t, q, members, e);
  }

  lemma ArraySpelled(t: string, q: nat, items: seq<Json>, e: nat)
    requires HasAt(t, q, '[') && q + 2 <= e && HasAt(t, e - 1, ']')
    requires if items == [] then Spaces(t, q + 1, e - 1) else ItemsSpell(t, q + 1, items, e - 1)
    ensures ValueSpells(t, q, Arr(items), e)
  {
  }

  lemma ObjectSpelled(t: string, q: nat, members: seq<Member>, e: nat)
    requires HasAt(t, q, '{') && q + 2 <= e && HasAt(t, e - 1, '}')
    requires if members == [] then Spaces(t, q + 1, e - 1) else MembersSpell(t, q + 1, members, e - 1)
    ensures ValueSpells(t, q, Obj(members), e)
  {
  }

  lemma {:induction false} ItemsSound(t: string, i: nat, items: seq<Json>, e: nat)
    requires ItemsAt(t, i, items, e)
    ensures items != [] && i < e && HasAt(t, e - 1, ']') && ItemsSpell(t, i, items, e - 1)
    decreases |t| - i, 1
  {
    hide ItemsAt, ValueAt, ValueSpells, Spaces, HasAt, NextAt, ItemsSpell;
    var j, k := ItemsParts(t, i, items, e);
    var a := ValueSound(t, i, items[0], j);
    if |items| == 1 {
      NextSpaces(t, j, k, ']');
    } else {
      NextSpaces(t, j, k, ',');
      ItemsSound(t, k + 1, items[1..], e);
    }
    ItemsSpelled(t, i, items, a, j, k, e - 1);
  }

  lemma ItemsSpelled(t: string, i: nat, items: seq<Json>, a: nat, b: nat, k: nat, e: nat)
    requires items != [] && Spaces(t, i, a) && ValueSpells(t, a, items[0], b) && Spaces(t, b, k)
    requires if |items| == 1 then k == e else HasAt(t, k, ',') && ItemsSpell(t, k + 1, items[1..], e)
    ensures ItemsSpell(t, i, items, e)
  {
  }

  lemma {:induction false} MemberSound(t: string, i: nat, m: Member, e: nat)
    requires MemberAt(t, i, m, e)
    ensures MemberSpells(t, i, m, e)
    decreases |t| - i, 1
  {
    hide MemberAt, ValueAt, ValueSpells, Spaces, CharsAt, StringSpells;
    var q, j, c := MemberParts(t, i, m, e);
    NextSpaces(t, i, q, '"');
    StringSound(t, q, m.key, j);
    NextSpaces(t, j, c, ':');
    var a := ValueSound(t, c + 1, m.value, e);
  }

  lemma {:induction false} MembersSound(t: string, i: nat, members: seq<Member>, e: nat)
    requires MembersAt(t, i, members, e)
    ensures members != [] && i < e && HasAt(t, e - 1, '}') && MembersSpell(t, i, members, e - 1)
    decreases |t| - i, 2
  {
    hide MembersAt, MemberAt, MemberSpells, Spaces, HasAt, NextAt, MembersSpell;
    var j, k := MembersParts(t, i, members, e);
    MemberSound(t, i, members[0], j);
    if |members| == 1 {
      NextSpaces(t, j, k, '}');
    } else {
      NextSpaces(t, j, k, ',');
      MembersSound(t, k + 1, members[1..], e);
    }
    MembersSpelled(t, i, members, j, k, e - 1);
  }

  lemma MembersSpelled(t: string, i: nat, members: seq<Member>, b: nat, k: nat, e: nat)
    requires members != [] && MemberSpells(t, i, members[0], b) && Spaces(t, b, k)
    requires if |members| == 1 then k == e else HasAt(t, k, ',') && MembersSpell(t, k + 1, members[1..], e)
    ensures MembersSpell(t, i, members, e)
  {
  }

  // ---- What is spelled, the parser finds ----

  lemma StringComplete(t: string, i: nat, q: nat, s: string, e: nat)
    requires Spaces(t, i, q) && StringSpells(t, q, s, e)
    ensures NextAt(t, i, q, '"') && CharsAt(t, q + 1, s, e)
  {
    hide CharsSpell, CharsAt;
    SpacesNext(t, i, q, '"');
    CharsComplete(t, q + 1, s, e - 1);
  }

  lemma LitComplete(t: string, i: nat, q: nat, v: Json, e: nat)
    requires Spaces(t, i, q) && v.Lit? && ValueSpells(t, q, v, e) && Ends(t, e)
    ensures ValueAt(t, i, v, e)
  {
    LiteralExact(v.text);
    EmptyIsNoLiteral();
    assert v.text[0] == t[q];
    assert LitChar(t[q]);
    hide IsLiteral, SpellsLiteral;
    SpacesNext(t, i, q, t[q]);
    LitIs(t, i, q, v, e);
  }

  /** What the grammar makes a value, the parser takes for that value, if no literal runs on. */
  lemma {:induction false} ValueComplete(t: string, i: nat, q: nat, v: Json, e: nat)
    requires Spaces(t, i, q) && ValueSpells(t, q, v, e) && Ends(t, e)
    ensures ValueAt(t, i, v, e)
    decreases v, 2
  {
    hide *;
    match v
    case Lit(_) => LitComplete(t, i, q, v, e);
    case Str(s) => StrComplete(t, i, q, s, e);
    case Arr(items) => ArrayComplete(t, i, q, items, e);
    case Obj(members) => ObjectComplete(t, i, q, members, e);
  }

  lemma StrComplete(t: string, i: nat, q: nat, s: string, e: nat)
    requires Spaces(t, i, q) && ValueSpells(t, q, Str(s), e)
    ensures ValueAt(t, i, Str(s), e)
  {
    hide StringSpells, ValueAt, NextAt, CharsAt, Spaces;
    StringComplete(t, i, q, s, e);
    StrIs(t, i, q, s, e);
  }

  lemma {:induction false} ArrayComplete(t: string, i: nat, q: nat, items: seq<Json>, e: nat)
    requires Spaces(t, i, q) && ValueSpells(t, q, Arr(items), e)
    ensures ValueAt(t, i, Arr(items), e)
    decreases Arr(items), 1
  {
    hide *;
    var k := ArrayCut(t, i, q, items, e);
    if items == [] {
      EmptyArrayIs(t, i, q, k);
    } else {
      ItemsComplete(t, q + 1, items, k);
      ArrayIs(t, i, q, items, e);
    }
  }

  lemma ArrayCut(t: string, i: nat, q: nat, items: seq<Json>, e: nat) returns (k: nat)
    requires Spaces(t, i, q) && ValueSpells(t, q, Arr(items), e)
    ensures NextAt(t, i, q, '[') && HasAt(t, k, ']') && e == k + 1
    ensures if items == [] then NextAt(t, q + 1, k, ']') else ItemsSpell(t, q + 1, items, k)
  {
    hide ItemsSpell, NextAt, Spaces;
    k := e - 1;
    SpacesNext(t, i, q, '[');
    if items == [] {
      SpacesNext(t, q + 1, k, ']');
    }
  }

  lemma {:induction false} ObjectComplete(t: string, i: nat, q: nat, members: seq<Member>, e: nat)
    requires Spaces(t, i, q) && ValueSpells(t, q, Obj(members), e)
    ensures ValueAt(t, i, Obj(members), e)
    decreases Obj(members), 1
  {
    hide *;
    var k := ObjectCut(t, i, q, members, e);
    if members == [] {
      EmptyObjectIs(t, i, q, k);
    } else {
      MembersComplete(t, q + 1, members, k);
      ObjectIs(t, i, q, members, e);
    }
  }

  lemma ObjectCut(t: string, i: nat, q: nat, members: seq<Member>, e: nat) returns (k: nat)
    requires Spaces(t, i, q) && ValueSpells(t, q, Obj(members), e)
    ensures NextAt(t, i, q, '{') && HasAt(t, k, '}') && e == k + 1
    ensures if members == [] then NextAt(t, q + 1, k, '}') else MembersSpell(t, q + 1, members, k)
  {
    hide MembersSpell, NextAt, Spaces;
    k := e - 1;
    SpacesNext(t, i, q, '{');
    if members == [] {
      SpacesNext(t, q + 1, k, '}');
    }
  }

  lemma {:induction false} ItemsComplete(t: string, i: nat, items: seq<Json>, e: nat)
    requires items != [] && ItemsSpell(t, i, items, e) && HasAt(t, e, ']')
    ensures ItemsAt(t, i, items, e + 1)
    decreases items, 0
  {
    hide *;
    var a, b, k := ItemsCut(t, i, items, e);
    ValueComplete(t, i, a, items[0], b);
    if |items| == 1 {
      LastItem(t, i, items, b, e);
    } else {
      ItemsComplete(t, k + 1, items[1..], e);
      MoreItems(t, i, items, b, k, e + 1);
    }
  }

  lemma ItemsCut(t: string, i: nat, items: seq<Json>, e: nat) returns (a: nat, b: nat, k: nat)
    requires items != [] && ItemsSpell(t, i, items, e) && HasAt(t, e, ']')
    ensures Spaces(t, i, a) && ValueSpells(t, a, items[0], b) && Ends(t, b)
    ensures if |items| == 1 then NextAt(t, b, e, ']')
            else NextAt(t, b, k, ',') && ItemsSpell(t, k + 1, items[1..], e)
  {
    a, b, k :|
      && Spaces(t, i, a) && ValueSpells(t, a, items[0], b) && Spaces(t, b, k)
      && if |items| == 1 then k == e else k < |t| && t[k] == ',' && ItemsSpell(t, k + 1, items[1..], e);
    hide ItemsSpell, ValueSpells, Spaces, NextAt, Ends;
    if |items| == 1 {
      SpacesNext(t, b, k, ']');
      EndsBefore(t, b, k, ']');
    } else {
      SpacesNext(t, b, k, ',');
      EndsBefore(t, b, k, ',');
    }
  }

  lemma {:induction false} MemberComplete(t: string, i: nat, m: Member, e: nat)
    requires MemberSpells(t, i, m, e) && Ends(t, e)
    ensures MemberAt(t, i, m, e)
    decreases m, 2
  {
    hide *;
    var q, j, c, a := MemberCut(t, i, m, e);
    ValueComplete(t, c + 1, a, m.value, e);
    MemberIs(t, i, q, m, j, c, e);
  }

  lemma MemberCut(t: string, i: nat, m: Member, e: nat) returns (q: nat, j: nat, c: nat, a: nat)
    requires MemberSpells(t, i, m, e)
    ensures NextAt(t, i, q, '"') && CharsAt(t, q + 1, m.key, j)
    ensures NextAt(t, j, c, ':') && Spaces(t, c + 1, a) && ValueSpells(t, a, m.value, e)
  {
    hide StringSpells, ValueSpells, Spaces;
    q, j, c, a :|
      && Spaces(t, i, q) && StringSpells(t, q, m.key, j) && Spaces(t, j, c)
      && c < |t| && t[c] == ':' && Spaces(t, c + 1, a) && ValueSpells(t, a, m.value, e);
    hide MemberSpells, NextAt, CharsAt;
    StringComplete(t, i, q, m.key, j);
    SpacesNext(t, j, c, ':');
  }

  lemma {:induction false} MembersComplete(t: string, i: nat, members: seq<Member>, e: nat)
    requires members != [] && MembersSpell(t, i, members, e) && HasAt(t, e, '}')
    ensures MembersAt(t, i, members, e + 1)
    decreases members, 0
  {
    hide *;
    var b, k := MembersCut(t, i, members, e);
    MemberComplete(t, i, members[0], b);
    if |members| == 1 {
      LastMember(t, i, members, b, e);
    } else {
      MembersComplete(t, k + 1, members[1..], e);
      MoreMembers(t, i, members, b, k, e + 1);
    }
  }

  lemma MembersCut(t: string, i: nat, members: seq<Member>, e: nat) returns (b: nat, k: nat)
    requires members != [] && MembersSpell(t, i, members, e) && HasAt(t, e, '}')
    ensures MemberSpells(t, i, members[0], b) && Ends(t, b)
    ensures if |members| == 1 then NextAt(t, b, e, '}')
            else NextAt(t, b, k, ',') && MembersSpell(t, k + 1, members[1..], e)
  {
    hide MemberSpells, Spaces;
    b, k :|
      && MemberSpells(t, i, members[0], b) && Spaces(t, b, k)
      && if |members| == 1 then k == e else k < |t| && t[k] == ',' && MembersSpell(t, k + 1, members[1..], e);
    hide MembersSpell, NextAt, Ends;
    if |members| == 1 {
      SpacesNext(t, b, k, '}');
      EndsBefore(t, b, k, '}');
    } else {
      SpacesNext(t, b, k, ',');
      EndsBefore(t, b, k, ',');
    }
  }

  // ---- Main result ----

  lemma SpacesToEnd(t: string, e: nat)
    requires e <= |t|
    ensures Spaces(t, e, |t|) <==> SkipSpace(t, e) == |t|
    ensures Spaces(t, e, |t|) ==> Ends(t, e)
  {
    if Spaces(t, e, |t|) {
      SkipSpaceIs(t, e, |t|);
    }
  }

  /**
   * A text is parsed as a value exactly if the grammar makes it a text of that value; so a
   * text that is none of any value is refused, and no text is one of two values.
   */
  lemma ParseExact(t: string, v: Json)
    ensures ParseJson(t) == Some(v) <==> TextSpells(t, v)
  {
    if ParseJson(t) == Some(v) {
      var e := ParseValue(t, 0).end;
      assert ValueAt(t, 0, v, e);
      hide ValueAt, ValueSpells;
      var i := ValueSound(t, 0, v, e);
      SpacesToEnd(t, e);
    }
    if TextSpells(t, v) {
      var i: nat, e: nat :| Spaces(t, 0, i) && ValueSpells(t, i, v, e) && Spaces(t, e, |t|);
      hide ValueSpells;
      SpacesToEnd(t, e);
      ValueComplete(t, 0, i, v, e);
    }
  }

  // ---- JSON.stringify writes the shortest text ----

  lemma CharShortest(t: string, i: nat, c: char, e: nat)
    requires CharSpells(t, i, c, e)
    ensures |EscapeChar(c)| <= e - i
  {
    hide EscapedUnit, EscapedPair;
  }

  lemma {:induction false} CharsShortest(t: string, i: nat, s: string, e: nat)
    requires CharsSpell(t, i, s, e)
    ensures |Escape(s)| <= e - i
    decreases |s|
  {
    if s != "" {
      var j: nat :| CharSpells(t, i, s[0], j) && CharsSpell(t, j, s[1..], e);
      hide CharSpells, CharsSpell, EscapeChar;
      CharShortest(t, i, s[0], j);
      CharsShortest(t, j, s[1..], e);
    }
  }

  lemma StringShortest(t: string, i: nat, s: string, e: nat)
    requires StringSpells(t, i, s, e)
    ensures |Quote(s)| <= e - i
  {
    hide CharsSpell, Escape;
    CharsShortest(t, i + 1, s, e - 1);
  }

  /** No text of a value is shorter than the one JSON.stringify writes. */
  lemma {:induction false} StringifyShortest(t: string, i: nat, v: Json, e: nat)
    requires ValueSpells(t, i, v, e)
    ensures |Stringify(v)| <= e - i
    decreases v, 1
  {
    hide StringSpells, ItemsSpell, MembersSpell, SpellsLiteral, Quote, StringifyItems, StringifyMembers;
    match v
    case Str(s) => StringShortest(t, i, s, e);
    case Lit(_) =>
    case Arr(items) =>
      if items != [] {
        ItemsShortest(t, i + 1, items, e - 1);
      }
    case Obj(members) =>
      if members != [] {
        MembersShortest(t, i + 1, members, e - 1);
      }
  }

  lemma {:induction false} ItemsShortest(t: string, i: nat, items: seq<Json>, e: nat)
    requires items != [] && ItemsSpell(t, i, items, e)
    ensures |StringifyItems(items)| <= e - i
    decreases items, 0
  {
    hide ItemsSpell, ValueSpells, Stringify;
    var a, b, k := ItemsStep(t, i, items, e);
    StringifyShortest(t, a, items[0], b);
    if |items| > 1 {
      ItemsShortest(t, k + 1, items[1..], e);
    }
  }

  lemma ItemsStep(t: string, i: nat, items: seq<Json>, e: nat) returns (a: nat, b: nat, k: nat)
    requires items != [] && ItemsSpell(t, i, items, e)
    ensures i <= a && ValueSpells(t, a, items[0], b) && b <= k
    ensures if |items| == 1 then k == e else ItemsSpell(t, k + 1, items[1..], e)
  {
    hide ValueSpells;
    a, b, k :|
      && Spaces(t, i, a) && ValueSpells(t, a, items[0], b) && Spaces(t, b, k)
      && if |items| == 1 then k == e else k < |t| && t[k] == ',' && ItemsSpell(t, k + 1, items[1..], e);
  }

  lemma MemberShortest(t: string, q: nat, j: nat, a: nat, m: Member, b: nat)
    requires StringSpells(t, q, m.key, j) && j < a && |Stringify(m.value)| <= b - a
    ensures |StringifyMember(m)| <= b - q
  {
    hide StringSpells, Stringify, Quote;
    StringShortest(t, q, m.key, j);
  }

  lemma {:induction false} MembersShortest(t: string, i: nat, members: seq<Member>, e: nat)
    requires members != [] && MembersSpell(t, i, members, e)
    ensures |StringifyMembers(members)| <= e - i
    decreases members, 0
  {
    hide MemberSpells, Spaces, Stringify, Quote;
    var b, k := MembersStep(t, i, members, e);
    var q, j, c, a := MemberStep(t, i, members[0], b);
    hide MembersSpell;
    StringifyShortest(t, a, members[0].value, b);
    MemberShortest(t, q, j, a, members[0], b);
    if |members| > 1 {
      MembersShortest(t, k + 1, members[1..], e);
    }
  }

  lemma MembersStep(t: string, i: nat, members: seq<Member>, e: nat) returns (b: nat, k: nat)
    requires members != [] && MembersSpell(t, i, members, e)
    ensures MemberSpells(t, i, members[0], b) && b <= k
    ensures if |members| == 1 then k == e else MembersSpell(t, k + 1, members[1..], e)
  {
    hide MemberSpells;
    b, k :|
      && MemberSpells(t, i, members[0], b) && Spaces(t, b, k)
      && if |members| == 1 then k == e else k < |t| && t[k] == ',' && MembersSpell(t, k + 1, members[1..], e);
  }

  lemma MemberStep(t: string, i: nat, m: Member, e: nat) returns (q: nat, j: nat, c: nat, a: nat)
    requires MemberSpells(t, i, m, e)
    ensures i <= q && StringSpells(t, q, m.key, j) && j < a && ValueSpells(t, a, m.value, e)
  {
    hide StringSpells, ValueSpells;
    q, j, c, a :|
      && Spaces(t, i, q) && StringSpells(t, q, m.key, j) && Spaces(t, j, c)
      && c < |t| && t[c] == ':' && Spaces(t, c + 1, a) && ValueSpells(t, a, m.value, e);
  }

  /** JSON.stringify writes a text of the value, and no text of it is shorter. */
  lemma StringifyIsShortestText(v: Json, t: string)
    requires Writable(v)
    ensures TextSpells(Stringify(v), v)
    ensures TextSpells(t, v) ==> |Stringify(v)| <= |t|
  {
    hide Stringify, Writable, ParseJson, ValueSpells;
    JsonRoundTrip(v);
    ParseExact(Stringify(v), v);
    if TextSpells(t, v) {
      var i: nat, e: nat :| Spaces(t, 0, i) && ValueSpells(t, i, v, e) && Spaces(t, e, |t|);
      StringifyShortest(t, i, v, e);
    }
  }
}
