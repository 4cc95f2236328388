/** The text operations the log reader uses: searching, splitting, stripping, reading text files. */
module Text {
  import opened Common

  // ---- Searching ----

  predicate OccursAt(s: string, sep: string, i: int) {
    0 <= i <= |s| - |sep| && forall k :: 0 <= k < |sep| ==> s[i + k] == sep[k]
  }

  /** No occurrence of sep anywhere in s. */
  ghost predicate Free(s: string, sep: string) {
    forall i :: !OccursAt(s, sep, i)
  }

  /** The position of the first occurrence. */
  function Find(s: string, sep: string): (r: Option<nat>)
    requires sep != ""
    ensures r.None? ==> Free(s, sep)
    ensures r.Some? ==> r.value + |sep| <= |s|
    ensures r.Some? ==> OccursAt(s, sep, r.value) && forall j :: j < r.value ==> !OccursAt(s, sep, j)
  {
    if OccursAt(s, sep, 0) then Some(0)
    else if s == "" then None
    else
      var r := Find(s[1..], sep);
      assert forall j :: j > 0 ==> (OccursAt(s, sep, j) <==> OccursAt(s[1..], sep, j - 1));
      match r
      case None => None
      case Some(i) => Some(i + 1)
  }

  /** The first occurrence is at i if there is one at i and none before. */
  lemma FindAt(s: string, sep: string, i: nat)
    requires sep != "" && OccursAt(s, sep, i) && forall j :: j < i ==> !OccursAt(s, sep, j)
    ensures Find(s, sep) == Some(i)
  {
  }

  /** An occurrence inside a middle part is an occurrence in the whole, and conversely. */
  lemma OccursInside(p: string, s: string, q: string, sep: string, i: int)
    requires 0 <= i <= |s| - |sep|
    ensures OccursAt(s, sep, i) <==> OccursAt(p + s + q, sep, |p| + i)
  {
    forall k | 0 <= k < |sep|
      ensures s[i + k] == sep[k] <==> (p + s + q)[|p| + i + k] == sep[k]
    {
    }
  }

  lemma OccursInSlice(s: string, sep: string, i: nat, j: nat, k: int)
    requires i <= j <= |s|
    ensures OccursAt(s[i..j], sep, k) ==> OccursAt(s, sep, i + k)
  {
    assert s == s[..i] + s[i..j] + s[j..];
    if 0 <= k <= j - i - |sep| {
      OccursInside(s[..i], s[i..j], s[j..], sep, k);
    }
  }

  lemma FreeSlice(s: string, sep: string, i: nat, j: nat)
    requires Free(s, sep) && i <= j <= |s|
    ensures Free(s[i..j], sep)
  {
    forall k
      ensures !OccursAt(s[i..j], sep, k)
    {
      OccursInSlice(s, sep, i, j, k);
    }
  }

  lemma OccursOnOneSide(a: string, c: char, b: string, sep: string, k: int)
    requires sep != "" && c !in sep
    ensures OccursAt(a + [c] + b, sep, k) ==> OccursAt(a, sep, k) || OccursAt(b, sep, k - |a| - 1)
  {
    if 0 <= k <= |a| - |sep| {
      OccursInside("", a, [c] + b, sep, k);
      assert "" + a + ([c] + b) == a + [c] + b;
    } else if |a| < k <= |a| + 1 + |b| - |sep| {
      OccursInside(a + [c], b, "", sep, k - |a| - 1);
      assert a + [c] + b + "" == a + [c] + b;
    } else if 0 <= k <= |a| {
      assert sep[|a| - k] in sep;
      assert (a + [c] + b)[k + (|a| - k)] == c;
    }
  }

  /** A separator cannot reach across a character it does not contain. */
  lemma FreeAcross(a: string, c: char, b: string, sep: string)
    requires sep != "" && c !in sep && Free(a, sep) && Free(b, sep)
    ensures Free(a + [c] + b, sep)
  {
    forall k
      ensures !OccursAt(a + [c] + b, sep, k)
    {
      OccursOnOneSide(a, c, b, sep, k);
    }
  }

  lemma FreeOfChar(s: string, c: char)
    ensures Free(s, [c]) <==> c !in s
  {
    assert forall i :: 0 <= i < |s| ==> (OccursAt(s, [c], i) <==> s[i] == [c][0]);
  }

  // ---- Splitting ----

  /** Cut at every occurrence of sep, from left to right (Python's str.split(sep)). */
  function SplitOn(s: string, sep: string): (r: seq<string>)
    requires sep != ""
    ensures r != []
    decreases |s|
  {
    match Find(s, sep)
    case None => [s]
    case Some(i) => [s[..i]] + SplitOn(s[i + |sep|..], sep)
  }

  function Join(parts: seq<string>, sep: string): string
    requires parts != []
  {
    if |parts| == 1 then parts[0] else parts[0] + sep + Join(parts[1..], sep)
  }

  /** Splitting loses nothing, and no part contains the separator. */
  lemma {:induction false} SplitIsExact(s: string, sep: string)
    requires sep != ""
    ensures Join(SplitOn(s, sep), sep) == s
    ensures forall part :: part in SplitOn(s, sep) ==> Free(part, sep)
    decreases |s|
  {
    match Find(s, sep)
    case None =>
    case Some(i) =>
      var rest := s[i + |sep|..];
      SplitIsExact(rest, sep);
      assert SplitOn(s, sep)[1..] == SplitOn(rest, sep);
      assert s == s[..i] + sep + rest;
      forall k
        ensures !OccursAt(s[..i], sep, k)
      {
        OccursInSlice(s, sep, 0, i, k);
      }
  }

  /** Every part is a slice, so it is free of whatever the whole text is free of. */
  lemma {:induction false} SplitKeepsFree(s: string, sep: string, other: string)
    requires sep != "" && Free(s, other)
    ensures forall part :: part in SplitOn(s, sep) ==> Free(part, other)
    decreases |s|
  {
    match Find(s, sep)
    case None =>
    case Some(i) =>
      FreeSlice(s, other, 0, i);
      FreeSlice(s, other, i + |sep|, |s|);
      assert s[i + |sep|..|s|] == s[i + |sep|..];
      SplitKeepsFree(s[i + |sep|..], sep, other);
  }

  lemma SplitFree(s: string, sep: string)
    requires sep != "" && Free(s, sep)
    ensures SplitOn(s, sep) == [s]
  {
  }

  /** No occurrence that starts in a reaches into a separator written after it. */
  ghost predicate NoStraddle(a: string, sep: string) {
    forall i :: |a| - |sep| < i < |a| ==> !OccursAt(a + sep, sep, i)
  }

  lemma OccursBefore(a: string, sep: string, b: string, i: int)
    requires NoStraddle(a, sep) && i < |a|
    ensures OccursAt(a + sep + b, sep, i) <==> OccursAt(a, sep, i)
  {
    if 0 <= i <= |a| - |sep| {
      OccursInside("", a, sep + b, sep, i);
      assert "" + a + (sep + b) == a + sep + b;
    } else if 0 <= i {
      OccursInside("", a + sep, b, sep, i);
      assert "" + (a + sep) + b == a + sep + b;
    }
  }

  lemma NoStraddleAfter(a: string, sep: string, i: nat)
    requires NoStraddle(a, sep) && i <= |a|
    ensures NoStraddle(a[i..], sep)
  {
    forall k | |a[i..]| - |sep| < k < |a[i..]|
      ensures !OccursAt(a[i..] + sep, sep, k)
    {
      assert (a + sep)[i..|a + sep|] == a[i..] + sep;
      OccursInSlice(a + sep, sep, i, |a + sep|, k);
    }
  }

  /** Where the first separator is found when another one follows the text. */
  lemma FindInConcat(a: string, sep: string, b: string)
    requires sep != "" && NoStraddle(a, sep)
    ensures Find(a + sep + b, sep) == if Find(a, sep).Some? then Find(a, sep) else Some(|a|)
  {
    var s := a + sep + b;
    assert OccursAt(s, sep, |a|);
    hide NoStraddle, OccursAt;
    forall i | i < |a|
      ensures OccursAt(s, sep, i) <==> OccursAt(a, sep, i)
    {
      OccursBefore(a, sep, b, i);
    }
    FindAt(s, sep, if Find(a, sep).Some? then Find(a, sep).value else |a|);
  }

  /** A separator that nothing straddles cuts the text: both sides are split on their own. */
  lemma {:induction false} SplitAtSeparator(a: string, sep: string, b: string)
    requires sep != "" && NoStraddle(a, sep)
    ensures SplitOn(a + sep + b, sep) == SplitOn(a, sep) + SplitOn(b, sep)
    decreases |a|
  {
    hide NoStraddle, OccursAt, Find;
    var s := a + sep + b;
    FindInConcat(a, sep, b);
    match Find(a, sep)
    case None =>
      assert s[..|a|] == a && s[|a| + |sep|..] == b;
    case Some(i) =>
      var rest := a[i + |sep|..];
      assert s[..i] == a[..i] && s[i + |sep|..] == rest + sep + b;
      NoStraddleAfter(a, sep, i + |sep|);
      SplitAtSeparator(rest, sep, b);
      assert SplitOn(s, sep) == [a[..i]] + (SplitOn(rest, sep) + SplitOn(b, sep));
  }

  // ---- Whitespace ----

  /** The whitespace characters of Python's str.strip. */
  predicate IsSpace(c: char) {
    || '\U{9}' <= c <= '\U{d}'
    || '\U{1c}' <= c <= '\U{20}'
    || c == '\U{85}' || c == '\U{a0}' || c == '\U{1680}'
    || '\U{2000}' <= c <= '\U{200a}'
    || c == '\U{2028}' || c == '\U{2029}' || c == '\U{202f}' || c == '\U{205f}' || c == '\U{3000}'
  }

  /** The whitespace characters of JavaScript's String.prototype.trim. */
  predicate IsJsSpace(c: char) {
    || '\U{9}' <= c <= '\U{d}'
    || c == '\U{20}' || c == '\U{a0}' || c == '\U{1680}'
    || '\U{2000}' <= c <= '\U{200a}'
    || c == '\U{2028}' || c == '\U{2029}' || c == '\U{202f}' || c == '\U{205f}' || c == '\U{3000}'
    || c == '\U{feff}'
  }

  /** The code points of Python's whitespace. */
  const SPACE_CODES: seq<int> := [
    9, 10, 11, 12, 13, 28, 29, 30, 31, 32, 133, 160, 5760,
    8192, 8193, 8194, 8195, 8196, 8197, 8198, 8199, 8200, 8201, 8202, 8232, 8233, 8239, 8287, 12288]

  /** Python's whitespace, code by code, and how JavaScript's differs: four separators, NEL, and the byte order mark. */
  lemma SpaceCodes(c: char)
    ensures IsSpace(c) <==> c as int in SPACE_CODES
    ensures IsSpace(c) && !IsJsSpace(c) <==> c as int in [28, 29, 30, 31, 133]
    ensures IsJsSpace(c) && !IsSpace(c) <==> c as int == 65279
  {
  }

  predicate All(s: string, ws: char -> bool) {
    forall i :: 0 <= i < |s| ==> ws(s[i])
  }

  predicate TrimmedOf(s: string, ws: char -> bool) {
    s == "" || (!ws(s[0]) && !ws(Last(s)))
  }

  function LStrip(s: string, ws: char -> bool): string {
    if s != "" && ws(s[0]) then LStrip(s[1..], ws) else s
  }

  function RStrip(s: string, ws: char -> bool): string {
    if s != "" && ws(Last(s)) then RStrip(DropLast(s), ws) else s
  }

  function StripOf(s: string, ws: char -> bool): string {
    RStrip(LStrip(s, ws), ws)
  }

  predicate AllSpace(s: string) {
    All(s, IsSpace)
  }

  predicate Trimmed(s: string) {
    TrimmedOf(s, IsSpace)
  }

  /** Python's str.strip(). */
  function Strip(s: string): string {
    StripOf(s, IsSpace)
  }

  /** JavaScript's String.prototype.trim(). */
  function Trim(s: string): string {
    StripOf(s, IsJsSpace)
  }

  lemma {:induction false} LStripParts(s: string, ws: char -> bool) returns (p: string)
    ensures All(p, ws) && s == p + LStrip(s, ws)
    ensures LStrip(s, ws) == "" || !ws(LStrip(s, ws)[0])
  {
    if s != "" && ws(s[0]) {
      var p' := LStripParts(s[1..], ws);
      p := [s[0]] + p';
    } else {
      p := "";
    }
  }

  lemma {:induction false} RStripParts(s: string, ws: char -> bool) returns (q: string)
    ensures All(q, ws) && s == RStrip(s, ws) + q
    ensures RStrip(s, ws) == "" || !ws(Last(RStrip(s, ws)))
  {
    if s != "" && ws(Last(s)) {
      var q' := RStripParts(DropLast(s), ws);
      q := q' + [Last(s)];
    } else {
      q := "";
    }
  }

  /** Stripping removes whitespace at both ends and nothing else. */
  lemma StripPartsOf(s: string, ws: char -> bool) returns (p: string, q: string)
    ensures All(p, ws) && All(q, ws) && s == p + StripOf(s, ws) + q && TrimmedOf(StripOf(s, ws), ws)
  {
    p := LStripParts(s, ws);
    q := RStripParts(LStrip(s, ws), ws);
    if StripOf(s, ws) != "" {
      assert LStrip(s, ws)[0] == StripOf(s, ws)[0];
    }
  }

  lemma StripParts(s: string) returns (p: string, q: string)
    ensures AllSpace(p) && AllSpace(q) && s == p + Strip(s) + q && Trimmed(Strip(s))
  {
    p, q := StripPartsOf(s, IsSpace);
  }

  lemma {:induction false} LStripSkips(p: string, s: string, ws: char -> bool)
    requires All(p, ws)
    ensures LStrip(p + s, ws) == LStrip(s, ws)
  {
    if p == "" {
      assert p + s == s;
    } else {
      assert (p + s)[1..] == p[1..] + s;
      LStripSkips(p[1..], s, ws);
    }
  }

  lemma {:induction false} RStripSkips(s: string, q: string, ws: char -> bool)
    requires All(q, ws)
    ensures RStrip(s + q, ws) == RStrip(s, ws)
  {
    if q == "" {
      assert s + q == s;
    } else {
      assert DropLast(s + q) == s + DropLast(q);
      RStripSkips(s, DropLast(q), ws);
    }
  }

  /** Stripping is determined by its result: trimmed text with whitespace around it. */
  lemma StripAroundOf(p: string, m: string, q: string, ws: char -> bool)
    requires All(p, ws) && All(q, ws) && TrimmedOf(m, ws)
    ensures StripOf(p + m + q, ws) == m
  {
    assert p + m + q == p + (m + q);
    LStripSkips(p, m + q, ws);
    if m == "" {
      assert m + q == q + "" && "" + q == q;
      LStripSkips(q, "", ws);
    } else {
      assert (m + q)[0] == m[0];
      RStripSkips(m, q, ws);
    }
  }

  lemma StripAround(p: string, m: string, q: string)
    requires AllSpace(p) && AllSpace(q) && Trimmed(m)
    ensures Strip(p + m + q) == m
  {
    StripAroundOf(p, m, q, IsSpace);
  }

  /** Whitespace added at either end makes no difference. */
  lemma StripIgnores(p: string, s: string, q: string)
    requires AllSpace(p) && AllSpace(q)
    ensures Strip(p + s + q) == Strip(s)
  {
    var p', q' := StripParts(s);
    assert p + s + q == (p + p') + Strip(s) + (q' + q);
    StripAround(p + p', Strip(s), q' + q);
  }

  lemma StripKeepsFree(s: string, sep: string)
    requires Free(s, sep)
    ensures Free(Strip(s), sep)
  {
    var p, q := StripParts(s);
    assert s[|p|..|p| + |Strip(s)|] == Strip(s);
    FreeSlice(s, sep, |p|, |p| + |Strip(s)|);
  }

  /** Two lists of parts that are the same once stripped. */
  ghost predicate SameStripped(a: seq<string>, b: seq<string>) {
    |a| == |b| && forall i :: 0 <= i < |a| ==> Strip(a[i]) == Strip(b[i])
  }

  lemma OccursAround(p: string, s: string, q: string, sep: string, i: int)
    requires sep != "" && forall c :: c in sep ==> c !in p && c !in q
    ensures OccursAt(p + s + q, sep, i) <==> OccursAt(s, sep, i - |p|)
  {
    var t := p + s + q;
    if OccursAt(t, sep, i) {
      var e := |sep| - 1;
      assert sep[0] in sep && t[i + 0] == sep[0];
      assert sep[e] in sep && t[i + e] == sep[e];
    }
    if 0 <= i - |p| <= |s| - |sep| {
      OccursInside(p, s, q, sep, i - |p|);
    }
  }

  /** Whitespace around a text ends up around its first and last part. */
  lemma {:induction false} SplitAround(p: string, s: string, q: string, sep: string)
    requires sep != "" && AllSpace(p) && AllSpace(q)
    requires forall c :: c in sep ==> c !in p && c !in q
    ensures SameStripped(SplitOn(p + s + q, sep), SplitOn(s, sep))
    decreases |s|
  {
    hide Strip, OccursAt;
    var t := p + s + q;
    forall i
      ensures OccursAt(t, sep, i) <==> OccursAt(s, sep, i - |p|)
    {
      OccursAround(p, s, q, sep, i);
    }
    match Find(s, sep)
    case None =>
      assert Free(t, sep);
      StripIgnores(p, s, q);
    case Some(i) =>
      FindAt(t, sep, |p| + i);
      var rest := s[i + |sep|..];
      assert t[..|p| + i] == p + s[..i] + "";
      assert t[|p| + i + |sep|..] == "" + rest + q;
      StripIgnores(p, s[..i], "");
      SplitAround("", rest, q, sep);
  }

  // ---- Text files ----

  /** Python reads a text file with "\r\n" and a lone "\r" turned into "\n". */
  function UniversalNewlines(s: string): string
    decreases |s|
  {
    if s == "" then ""
    else if s[0] != '\r' then [s[0]] + UniversalNewlines(s[1..])
    else ['\n'] + UniversalNewlines(if |s| > 1 && s[1] == '\n' then s[2..] else s[1..])
  }

  /** What is read contains no carriage return; text without one is read as it is. */
  lemma {:induction false} NewlinesRead(s: string)
    ensures '\r' !in UniversalNewlines(s)
    ensures '\r' !in s ==> UniversalNewlines(s) == s
    decreases |s|
  {
    if s != "" {
      NewlinesRead(if s[0] == '\r' && |s| > 1 && s[1] == '\n' then s[2..] else s[1..]);
    }
  }

  /** The first character read, and how much of the text it takes. */
  function FirstRead(s: string): char
    requires s != ""
  {
    if s[0] == '\r' then '\n' else s[0]
  }

  function FirstLength(s: string): nat
    requires s != ""
    ensures 1 <= FirstLength(s) <= |s|
  {
    if s[0] == '\r' && |s| > 1 && s[1] == '\n' then 2 else 1
  }

  lemma NewlinesStep(s: string)
    requires s != ""
    ensures UniversalNewlines(s) == [FirstRead(s)] + UniversalNewlines(s[FirstLength(s)..])
  {
  }

  lemma FirstOfConcat(a: string, b: string)
    requires a != "" && (b == "" || b[0] != '\n')
    ensures FirstLength(a + b) == FirstLength(a) && FirstRead(a + b) == FirstRead(a)
    ensures (a + b)[FirstLength(a)..] == a[FirstLength(a)..] + b
  {
  }

  lemma Associative(a: string, b: string, c: string)
    ensures a + (b + c) == a + b + c
  {
  }

  /** Reading works piece by piece, unless a piece starts with the second half of "\r\n". */
  lemma {:induction false} NewlinesConcat(a: string, b: string)
    requires b == "" || b[0] != '\n'
    ensures UniversalNewlines(a + b) == UniversalNewlines(a) + UniversalNewlines(b)
    decreases |a|
  {
    if a == "" {
      assert a + b == b;
      assert "" + UniversalNewlines(b) == UniversalNewlines(b);
    } else {
      NewlinesStep(a);
      NewlinesStep(a + b);
      FirstOfConcat(a, b);
      hide UniversalNewlines, FirstRead, FirstLength;
      var rest := a[FirstLength(a)..];
      NewlinesConcat(rest, b);
      Associative([FirstRead(a)], UniversalNewlines(rest), UniversalNewlines(b));
    }
  }
}
