/**
 * Appending a value to a JSON array by patching its text: the last character is cut
 * off and a comma, the value and a bracket are put in its place. When this gives the
 * longer array, when it does not, and what any number of patches makes of a file.
 */
module JsonPatch {
  import opened Common
  import opened Text
  import opened JsonText

  /** What a handler writes after reading data: the array's text with one more element. */
  function Patch(data: string, entry: string): string {
    var t := Trim(data);
    if t == "" || t == "[]" then "[" + entry + "]" else t[..|t| - 1] + "," + entry + "]"
  }

  /** The content of a log file, None if it is missing, after entries have been patched into it one by one. */
  function TextAfter(file: Option<string>, entries: seq<Json>): Option<string> {
    if entries == [] then file
    else Some(Patch(TextAfter(file, DropLast(entries)).GetOr(""), Stringify(Last(entries))))
  }

  /** A file that is blank or missing, for no values, or holds a JSON array of the values. */
  ghost predicate HoldsArray(file: Option<string>, base: seq<Json>) {
    var t := Trim(file.GetOr(""));
    (t == "" && base == []) || ParseJson(t) == Some(Arr(base))
  }

  /** Patching meets an empty array only in the one form that the source looks for. */
  predicate PatchesWell(file: Option<string>, base: seq<Json>) {
    var t := Trim(file.GetOr(""));
    base != [] || t == "" || t == "[]"
  }

  ghost predicate AllWritable(values: seq<Json>) {
    forall i :: 0 <= i < |values| ==> Writable(values[i])
  }

  // ---- The ends of an array's text ----

  predicate Bracketed(t: string) {
    |t| >= 2 && t[0] == '[' && Last(t) == ']'
  }

  lemma TrimBracketed(t: string)
    requires Bracketed(t)
    ensures Trim(t) == t
  {
    StripAroundOf("", t, "", IsJsSpace);
    assert "" + t + "" == t;
  }

  lemma PatchIsBracketed(data: string, v: Json)
    requires Trim(data) == "" || Bracketed(Trim(data))
    ensures Bracketed(Patch(data, Stringify(v)))
  {
    hide Trim, Stringify;
  }

  lemma TrimIsTrimmed(data: string)
    ensures TrimmedOf(Trim(data), IsJsSpace)
  {
    var p, q := StripPartsOf(data, IsJsSpace);
  }

  lemma SkipsToEnd(t: string, e: nat)
    requires e <= |t| && t != "" && !IsJsonSpace(Last(t)) && SkipSpace(t, e) == |t|
    ensures e == |t|
  {
  }

  /** The text of an array, trimmed: from its opening to its closing bracket. */
  lemma ArrayText(data: string, base: seq<Json>)
    requires ParseJson(Trim(data)) == Some(Arr(base))
    ensures var t := Trim(data);
            && Bracketed(t) && (base != [] ==> ItemsAt(t, 1, base, |t|))
            && (base == [] ==> NextAt(t, 1, |t| - 1, ']'))
  {
    var t := Trim(data);
    TrimIsTrimmed(data);
    hide Trim, ParseItems, ParseMembers, IsLiteral;
    var e := ParseValue(t, 0).end;
    assert !IsJsonSpace(t[0]) && SkipSpace(t, 0) == 0 && t[0] == '[';
    SkipsToEnd(t, e);
    var k := SkipSpace(t, 1);
    if k < |t| && t[k] == ']' {
      assert NextAt(t, 1, k, ']');
    } else {
      assert ItemsAt(t, 1, base, e);
      ItemsEnd(t, 1, base, e);
    }
  }

  lemma {:induction false} ItemsEnd(t: string, i: nat, items: seq<Json>, e: nat)
    requires ItemsAt(t, i, items, e)
    ensures i < e <= |t| && t[e - 1] == ']'
    decreases |items|
  {
    hide ItemsAt, ValueAt;
    var j, k := ItemsParts(t, i, items, e);
    if |items| > 1 {
      ItemsEnd(t, k + 1, items[1..], e);
    }
  }

  // ---- Where the patch works ----

  /** The text of items up to the closing bracket, with one more value put before it. */
  function Extended(t: string, v: Json): string
    requires t != ""
  {
    t[..|t| - 1] + "," + Stringify(v) + "]"
  }

  lemma ExtendedParts(t: string, v: Json)
    requires t != ""
    ensures var u, n := Extended(t, v), |t| - 1;
            && Agree(t, u, 0, n) && HasAt(u, n, ',')
            && StandsAt(u, n + 1, Stringify(v), |u| - 1) && HasAt(u, |u| - 1, ']')
  {
    var u, n := Extended(t, v), |t| - 1;
    assert u[..n] == t[..n];
    assert forall k :: 0 <= k < |Stringify(v)| ==> u[n + 1 + k] == Stringify(v)[k];
  }

  /** A comma in place of the closing bracket. */
  lemma CommaForBracket(t: string, u: string, j: nat, k: nat)
    requires NextAt(t, j, k, ']') && Agree(t, u, 0, k) && HasAt(u, k, ',')
    ensures NextAt(u, j, k, ',') && Ends(u, j)
  {
    forall x | j <= x < k
      ensures IsJsonSpace(u[x])
    {
      assert t[x] == u[0 + x];
    }
    SkipSpaceIs(u, j, k);
  }

  lemma NewLastItem(u: string, i: nat, v: Json)
    requires Writable(v) && |u| > 0 && StandsAt(u, i, Stringify(v), |u| - 1) && HasAt(u, |u| - 1, ']')
    ensures ItemsAt(u, i, [v], |u|)
  {
    var k := |u| - 1;
    hide Writable, Stringify, StandsAt, ItemsAt, ValueAt;
    NextStands(u, k, ']');
    EndsBefore(u, k, k, ']');
    ParseStringify(u, i, v, k);
    LastItem(u, i, [v], k, k);
  }

  lemma SnocTail(items: seq<Json>, v: Json)
    requires items != []
    ensures (items + [v])[0] == items[0] && (items + [v])[1..] == items[1..] + [v]
  {
  }

  /** The extended text is read as the items and the new value. */
  lemma {:induction false} ItemsPatch(t: string, i: nat, items: seq<Json>, v: Json)
    requires ItemsAt(t, i, items, |t|) && Writable(v)
    ensures t != "" && ItemsAt(Extended(t, v), i, items + [v], |Extended(t, v)|)
    decreases |items|
  {
    hide *;
    var j, k := ItemsParts(t, i, items, |t|);
    var u := Extended(t, v);
    SnocTail(items, v);
    CommaKept(t, i, items, v, j, k);
    ValueSame(t, u, 0, i, items[0], j);
    if |items| == 1 {
      ExtendedParts(t, v);
      NewLastItem(u, k + 1, v);
      assert items[1..] + [v] == [v];
    } else {
      ItemsPatch(t, k + 1, items[1..], v);
    }
    MoreItems(u, i, items + [v], j, k, |u|);
  }

  /** What follows the first item in the extended text is a comma. */
  lemma CommaKept(t: string, i: nat, items: seq<Json>, v: Json, j: nat, k: nat)
    requires t != "" && items != [] && j <= k < |t|
    requires if |items| == 1 then NextAt(t, j, k, ']') && |t| == k + 1
             else NextAt(t, j, k, ',') && ItemsAt(t, k + 1, items[1..], |t|)
    ensures NextAt(Extended(t, v), j, k, ',') && Ends(Extended(t, v), j) && Agree(t, Extended(t, v), 0, j)
  {
    assert !LitChar(',');
    hide *;
    var u, n := Extended(t, v), |t| - 1;
    ExtendedParts(t, v);
    AgreeUpTo(t, u, 0, j, n);
    if |items| == 1 {
      CommaForBracket(t, u, j, k);
    } else {
      ItemsEnd(t, k + 1, items[1..], |t|);
      AgreeUpTo(t, u, 0, k + 1, n);
      NextAndEnds(t, u, 0, j, k, ',');
    }
  }

  lemma ArrayJson(t: string, items: seq<Json>)
    requires t != "" && t[0] == '[' && ItemsAt(t, 1, items, |t|)
    ensures ParseJson(t) == Some(Arr(items))
  {
    assert NextAt(t, 0, 0, '[');
    hide ParseValue, ParseItems;
    ArrayIs(t, 0, 0, items, |t|);
  }

  lemma PatchNonempty(data: string, base: seq<Json>, v: Json)
    requires ParseJson(Trim(data)) == Some(Arr(base)) && base != [] && Writable(v)
    ensures ParseJson(Patch(data, Stringify(v))) == Some(Arr(base + [v]))
  {
    var t := Trim(data);
    ArrayText(data, base);
    hide Trim, ParseJson, ItemsAt, Writable, Stringify;
    ItemsPatch(t, 1, base, v);
    ItemsEnd(t, 1, base, |t|);
    NotEmptyBrackets(t, base);
    ArrayJson(Extended(t, v), base + [v]);
  }

  lemma NotEmptyBrackets(t: string, base: seq<Json>)
    requires ItemsAt(t, 1, base, |t|)
    ensures t != "" && t != "[]"
  {
    ItemsStart(t, 1, base, |t|);
  }

  lemma PatchEmpty(data: string, v: Json)
    requires (Trim(data) == "" || Trim(data) == "[]") && Writable(v)
    ensures ParseJson(Patch(data, Stringify(v))) == Some(Arr([v]))
  {
    hide Trim, ParseJson, IsLiteral;
    JsonRoundTrip(Arr([v]));
    assert Stringify(Arr([v])) == "[" + Stringify(v) + "]";
  }

  // ---- Where it does not ----

  /** An array that starts with a comma: no JSON, and no further patch mends it. */
  ghost predicate Spoiled(t: string) {
    Bracketed(t) && NextAt(t, 1, SkipSpace(t, 1), ',')
  }

  lemma SpoiledIsNoJson(t: string)
    requires Spoiled(t)
    ensures ParseJson(t) == None
  {
    assert SkipSpace(t, 0) == 0;
    if ParseItems(t, 1).Ok? {
      assert ParseValue(t, 1).Ok?;
      ParseValueStart(t, 1);
    }
  }

  /** An extension keeps what stands at the start of the array, if that is not its end. */
  lemma StartKept(t: string, v: Json, k: nat, c: char)
    requires |t| >= 2 && t[0] == '[' && NextAt(t, 1, k, c) && !IsJsonSpace(',')
    ensures Bracketed(Extended(t, v))
    ensures NextAt(Extended(t, v), 1, k, if k == |t| - 1 then ',' else c)
  {
    var u := Extended(t, v);
    ExtendedParts(t, v);
    hide Stringify, Extended, StandsAt;
    SkipSpaceIs(u, 1, k);
  }

  lemma SpoiledForGood(data: string, v: Json)
    requires Spoiled(data)
    ensures Spoiled(Patch(data, Stringify(v)))
  {
    TrimBracketed(data);
    hide Trim, Stringify, SkipSpace;
    var k := SkipSpace(data, 1);
    assert data[|data| - 1] == ']' && data[k] == ',';
    StartKept(data, v, k, ',');
    assert data != "[]";
  }

  lemma PatchSpoils(data: string, v: Json)
    requires ParseJson(Trim(data)) == Some(Arr([])) && Trim(data) != "[]"
    ensures Spoiled(Patch(data, Stringify(v)))
  {
    ArrayText(data, []);
    hide Trim, Stringify, ParseJson, SkipSpace;
    StartKept(Trim(data), v, |Trim(data)| - 1, ']');
  }

  // ---- Main results ----

  /** Patching an array's text appends the value exactly if the array has an element or is written `[]`. */
  lemma PatchExact(data: string, base: seq<Json>, v: Json)
    requires ParseJson(Trim(data)) == Some(Arr(base)) && Writable(v)
    ensures ParseJson(Patch(data, Stringify(v))) == Some(Arr(base + [v])) <==> base != [] || Trim(data) == "[]"
    ensures ParseJson(Patch(data, Stringify(v))) == None <==> base == [] && Trim(data) != "[]"
  {
    hide Trim, ParseJson, Patch, Spoiled, Writable, Stringify;
    if base != [] {
      PatchNonempty(data, base, v);
    } else if Trim(data) == "[]" {
      assert [] + [v] == [v];
      PatchEmpty(data, v);
    } else {
      PatchSpoils(data, v);
      SpoiledIsNoJson(Patch(data, Stringify(v)));
    }
  }

  /** An empty array with a space inside is a legal log, and one patch makes it unreadable. */
  lemma SpacedEmptyArray(v: Json)
    requires Writable(v)
    ensures HoldsArray(Some("[ ]"), []) && ParseJson(Patch("[ ]", Stringify(v))) == None
  {
    var t := "[ ]";
    assert SkipSpace(t, 0) == 0 && SkipSpace(t, 3) == 3;
    SkipSpaceIs(t, 1, 2);
    TrimBracketed(t);
    hide Trim, Patch, Stringify, Writable;
    assert ParseValue(t, 0) == Ok(Arr([]), 3);
    PatchExact(t, [], v);
  }

  lemma EmptyIsNoJson()
    ensures ParseJson("") == None
  {
  }

  /** What the text t holds once a value has been patched in: the values, or no JSON if some patch went wrong. */
  ghost predicate HoldsOnly(t: string, well: bool, values: seq<Json>) {
    Bracketed(t) && if well then ParseJson(t) == Some(Arr(values)) else Spoiled(t) && ParseJson(t) == None
  }

  /** The first patch of a file. */
  lemma FirstPatch(file: Option<string>, base: seq<Json>, v: Json)
    requires HoldsArray(file, base) && Writable(v)
    ensures HoldsOnly(Patch(file.GetOr(""), Stringify(v)), PatchesWell(file, base), base + [v])
  {
    var data := file.GetOr("");
    var t := Trim(data);
    var u := Patch(data, Stringify(v));
    EmptyIsNoJson();
    assert PatchesWell(file, base) <==> base != [] || t == "" || t == "[]";
    hide PatchesWell, Trim, ParseJson, Patch, Spoiled, Writable, Stringify, Bracketed;
    if t != "" {
      ArrayText(data, base);
    }
    PatchIsBracketed(data, v);
    if base != [] {
      PatchNonempty(data, base, v);
    } else if t == "" || t == "[]" {
      assert [] + [v] == [v];
      PatchEmpty(data, v);
    } else {
      PatchSpoils(data, v);
      SpoiledIsNoJson(u);
    }
  }

  /** Every later patch. */
  lemma LaterPatch(t: string, well: bool, values: seq<Json>, v: Json)
    requires HoldsOnly(t, well, values) && values != [] && Writable(v)
    ensures HoldsOnly(Patch(t, Stringify(v)), well, values + [v])
  {
    TrimBracketed(t);
    hide Trim, ParseJson, Patch, Spoiled, Writable, Stringify, Bracketed;
    PatchIsBracketed(t, v);
    if well {
      PatchNonempty(t, values, v);
    } else {
      SpoiledForGood(t, v);
      SpoiledIsNoJson(Patch(t, Stringify(v)));
    }
  }

  /**
   * What a file holds after any number of patches: the initial values and the entries,
   * in order, if the first patch met no spaced empty array, and otherwise no JSON at all.
   */
  lemma {:induction false} PatchedFile(file: Option<string>, base: seq<Json>, entries: seq<Json>)
    requires HoldsArray(file, base) && AllWritable(entries) && entries != []
    ensures HoldsOnly(TextAfter(file, entries).value, PatchesWell(file, base), base + entries)
  {
    var earlier, v := DropLast(entries), Last(entries);
    assert base + entries == base + earlier + [v];
    assert Writable(v);
    hide HoldsArray, PatchesWell, HoldsOnly, Patch, Writable, Stringify;
    if earlier == [] {
      assert base + earlier == base;
      FirstPatch(file, base, v);
    } else {
      PatchedFile(file, base, earlier);
      LaterPatch(TextAfter(file, earlier).value, PatchesWell(file, base), base + earlier, v);
    }
  }

  // ---- Files that are read before they are patched ----

  /** Only whitespace of JSON stands around the array; JavaScript trims other characters, too. */
  predicate JsonSpaced(data: string) {
    StripOf(data, IsJsonSpace) == Trim(data)
  }

  lemma JsSpaceStartsNothing(c: char)
    requires IsJsSpace(c)
    ensures !LitChar(c) && c != '"' && c != '[' && c != '{'
  {
  }

  /** Text that starts with another character that JavaScript takes for whitespace is no JSON. */
  lemma OddSpaceIsNoJson(data: string)
    requires SkipSpace(data, 0) < |data| ==> IsJsSpace(data[SkipSpace(data, 0)])
    ensures ParseJson(data) == None
  {
    var k := SkipSpace(data, 0);
    EmptyIsNoLiteral();
    if k < |data| {
      JsSpaceStartsNothing(data[k]);
      assert LitEnd(data, k) == k && data[k..k] == "";
    }
    hide IsLiteral;
  }

  /** A text is spaced as JSON exactly if the whitespace that is trimmed on both sides is. */
  lemma JsonSpacedIs(p: string, t: string, q: string)
    requires All(p, IsJsSpace) && All(q, IsJsSpace) && Bracketed(t)
    ensures JsonSpaced(p + t + q) <==> AllJsonSpace(p) && AllJsonSpace(q)
  {
    var u := p + t + q;
    StripAroundOf(p, t, q, IsJsSpace);
    if AllJsonSpace(p) && AllJsonSpace(q) {
      StripAroundOf(p, t, q, IsJsonSpace);
    } else if JsonSpaced(u) {
      var p', q' := StripPartsOf(u, IsJsonSpace);
      SameCut(p, t, q, p', q');
    }
  }

  /** A text is cut in one way only around a bracketed part by whitespace. */
  lemma SameCut(p: string, t: string, q: string, p': string, q': string)
    requires All(p, IsJsSpace) && All(p', IsJsSpace) && Bracketed(t) && p + t + q == p' + t + q'
    ensures p == p' && q == q'
  {
    assert p + (t + q) == p + t + q && p' + (t + q') == p' + t + q';
    LStripSkips(p, t + q, IsJsSpace);
    LStripSkips(p', t + q', IsJsSpace);
    assert t + q == t + q' && (t + q)[|t|..] == q && (t + q')[|t|..] == q';
    assert p == (p + (t + q))[..|p|] && p' == (p' + (t + q'))[..|p'|];
  }

  /** A legal file that nobody has patched is read as its values exactly if it is not blank and spaced as JSON. */
  lemma UntouchedReads(data: string, base: seq<Json>)
    requires HoldsArray(Some(data), base)
    ensures ParseJson(data) == if Trim(data) != "" && JsonSpaced(data) then Some(Arr(base)) else None
  {
    var t := Trim(data);
    var p, q := StripPartsOf(data, IsJsSpace);
    if t == "" {
      assert data == p + q;
      OddSpaceIsNoJson(data);
    } else {
      ArrayText(data, base);
      hide *;
      JsonSpacedIs(p, t, q);
      UntouchedArray(p, t, q, base);
    }
  }

  lemma UntouchedArray(p: string, t: string, q: string, base: seq<Json>)
    requires All(p, IsJsSpace) && All(q, IsJsSpace) && ParseJson(t) == Some(Arr(base))
    ensures ParseJson(p + t + q) == if AllJsonSpace(p) && AllJsonSpace(q) then Some(Arr(base)) else None
  {
    if AllJsonSpace(p) {
      if q != "" {
        JsSpaceStartsNothing(q[0]);
      }
      hide *;
      PaddedJson(p, t, q, Arr(base));
    } else {
      OddPrefix(p, t + q);
      assert p + t + q == p + (t + q);
      hide ParseJson;
      OddSpaceIsNoJson(p + t + q);
    }
  }

  lemma OddPrefix(p: string, rest: string)
    requires All(p, IsJsSpace) && !AllJsonSpace(p)
    ensures var u := p + rest;
            SkipSpace(u, 0) < |u| && IsJsSpace(u[SkipSpace(u, 0)])
  {
    var u := p + rest;
    var k :| 0 <= k < |p| && !IsJsonSpace(p[k]);
    assert u[k] == p[k];
    assert SkipSpace(u, 0) <= k;
    assert u[SkipSpace(u, 0)] == p[SkipSpace(u, 0)];
  }

  // ---- Files written by JSON.stringify ----

  /** A file that is blank or missing, for no values, or holds the array's text as JSON.stringify writes it. */
  ghost predicate Stringified(file: Option<string>, base: seq<Json>) {
    var t := Trim(file.GetOr(""));
    (t == "" && base == []) || t == Stringify(Arr(base))
  }

  lemma {:induction false} StringifySnoc(items: seq<Json>, v: Json)
    requires items != []
    ensures StringifyItems(items + [v]) == StringifyItems(items) + "," + Stringify(v)
  {
    hide Stringify;
    if |items| == 1 {
      assert (items + [v])[1..] == [v];
    } else {
      assert (items + [v])[1..] == items[1..] + [v];
      StringifySnoc(items[1..], v);
      var first, rest := Stringify(items[0]), StringifyItems(items[1..]);
      assert first + "," + (rest + "," + Stringify(v)) == first + "," + rest + "," + Stringify(v);
    }
  }

  lemma StringifyItemsNonempty(items: seq<Json>)
    requires items != [] && Writable(items[0])
    ensures StringifyItems(items) != ""
  {
    hide StringifyMembers, Escape, LitChar, IsNumber;
    assert Stringify(items[0]) != "" by {
      if items[0].Str? {
        assert |Quote(items[0].s)| >= 2;
      }
    }
  }

  /** The text of an array is patched into the text of the longer array. */
  lemma PatchAppends(file: Option<string>, base: seq<Json>, v: Json)
    requires Stringified(file, base) && AllWritable(base)
    ensures Patch(file.GetOr(""), Stringify(v)) == Stringify(Arr(base + [v]))
  {
    hide Trim;
    if base == [] {
      assert [] + [v] == [v];
    } else {
      StringifySnoc(base, v);
      StringifyItemsNonempty(base);
      var inside, added := StringifyItems(base), Stringify(v);
      assert Stringify(Arr(base)) == "[" + inside + "]";
      assert Stringify(Arr(base + [v])) == "[" + (inside + "," + added) + "]";
      hide Stringify, StringifyItems;
      assert ("[" + inside + "]")[..|inside| + 1] == "[" + inside;
      assert "[" + (inside + "," + added) + "]" == "[" + inside + "," + added + "]";
    }
  }

  lemma StringifiedText(items: seq<Json>)
    ensures Stringified(Some(Stringify(Arr(items))), items)
  {
    hide StringifyItems;
    TrimBracketed(Stringify(Arr(items)));
  }

  /** Any number of patches leave such a file as JSON.stringify writes the whole array. */
  lemma {:induction false} StringifiedFile(file: Option<string>, base: seq<Json>, entries: seq<Json>)
    requires Stringified(file, base) && AllWritable(base) && AllWritable(entries) && entries != []
    ensures TextAfter(file, entries) == Some(Stringify(Arr(base + entries)))
  {
    var earlier, v := DropLast(entries), Last(entries);
    assert base + entries == base + earlier + [v];
    hide Stringified, Patch, Stringify, Writable;
    if earlier == [] {
      assert base + earlier == base;
      PatchAppends(file, base, v);
    } else {
      StringifiedFile(file, base, earlier);
      StringifiedText(base + earlier);
      PatchAppends(TextAfter(file, earlier), base + earlier, v);
    }
  }

  /** Such a file holds its array, and is patched well. */
  lemma StringifiedHolds(file: Option<string>, base: seq<Json>)
    requires Stringified(file, base) && AllWritable(base)
    ensures HoldsArray(file, base) && PatchesWell(file, base)
  {
    hide Trim, ParseJson, IsLiteral;
    JsonRoundTrip(Arr(base));
  }
}
