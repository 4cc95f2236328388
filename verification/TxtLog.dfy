/**
 * The text performance log: the server prints one entry per finished request and
 * appends it to the file. Printing and reading, written in different programs,
 * undo each other; this module proves it, and exactly for which entries.
 */
module TxtLog {
  import opened Common
  import opened Text
  import opened LogReader

  const INDENT := "        "

  /** What the server prints before a value. */
  function PrintedLabel(f: Field): string {
    match f
    case Time => "Time"
    case RequestNumber => "Request Number"
    case GroupId => "GroupID"
    case TotalTransactions => "Total Transactions"
    case Route => "Route"
    case Method => "Method"
    case RefTime => "RefTime (Gas Computacional)"
    case ProofSize => "ProofSize"
    case Tip => "Tip"
    case Duration => "Duration"
    case CpuUsageStart => "CPU Usage (start)"
    case CpuUsageEnd => "CPU Usage (end)"
    case RamUsageStart => "RAM Usage (start)"
    case RamUsageEnd => "RAM Usage (end)"
    case TransactionSuccess => "Transaction Success"
    case ParametersLength => "Parameters Length"
    case TestType => "Test Type"
  }

  /** The labels printed are the keys looked up by the reader. */
  lemma LabelsAgree(f: Field)
    ensures PrintedLabel(f) == Label(f)
  {
  }

  /** Every field has a value: the printer always writes all 17. */
  predicate Complete(e: Entry) {
    forall f: Field :: f in e
  }

  function FieldText(fields: seq<Field>, e: Entry): string
    requires Complete(e)
  {
    if fields == [] then ""
    else INDENT + PrintedLabel(fields[0]) + ": " + e[fields[0]] + "\n" + FieldText(fields[1..], e)
  }

  /** The text logged for an entry. */
  function Print(e: Entry): string
    requires Complete(e)
  {
    "\n" + FieldText(FIELDS, e) + INDENT + "---\n" + INDENT
  }

  function PrintAll(es: seq<Entry>): string
    requires forall e :: e in es ==> Complete(e)
  {
    if es == [] then "" else PrintAll(DropLast(es)) + Print(Last(es))
  }

  /** Values that survive printing and reading. */
  predicate CleanValue(v: string) {
    Trimmed(v) && '\n' !in v && '\r' !in v && Find(v, SEPARATOR).None?
  }

  predicate WellFormed(e: Entry) {
    (exists f :: f in e && e[f] != "") && forall f :: f in e ==> CleanValue(e[f])
  }

  // ---- The printed text, written out ----

  /** The lines of the template in the source: a label and the field whose value follows it. */
  const TEMPLATE: seq<(string, Field)> := [
    ("Time", Time),
    ("Request Number", RequestNumber),
    ("GroupID", GroupId),
    ("Total Transactions", TotalTransactions),
    ("Route", Route),
    ("Method", Method),
    ("RefTime (Gas Computacional)", RefTime),
    ("ProofSize", ProofSize),
    ("Tip", Tip),
    ("Duration", Duration),
    ("CPU Usage (start)", CpuUsageStart),
    ("CPU Usage (end)", CpuUsageEnd),
    ("RAM Usage (start)", RamUsageStart),
    ("RAM Usage (end)", RamUsageEnd),
    ("Transaction Success", TransactionSuccess),
    ("Parameters Length", ParametersLength),
    ("Test Type", TestType)]

  function Lines(lines: seq<(string, Field)>, e: Entry): string
    requires Complete(e)
  {
    if lines == [] then ""
    else "        " + lines[0].0 + ": " + e[lines[0].1] + "\n" + Lines(lines[1..], e)
  }

  /** The text of the template for an entry. */
  function Template(e: Entry): string
    requires Complete(e)
  {
    "\n" + Lines(TEMPLATE, e) + "        ---\n        "
  }

  lemma FirstFields()
    ensures |FIELDS| == |TEMPLATE| == 17
    ensures FIELDS[0] == TEMPLATE[0].1 && FIELDS[1] == TEMPLATE[1].1
    ensures FIELDS[2] == TEMPLATE[2].1 && FIELDS[3] == TEMPLATE[3].1 && FIELDS[4] == TEMPLATE[4].1
  {
  }

  lemma SecondFields()
    ensures |FIELDS| == |TEMPLATE| == 17
    ensures FIELDS[5] == TEMPLATE[5].1 && FIELDS[6] == TEMPLATE[6].1
    ensures FIELDS[7] == TEMPLATE[7].1 && FIELDS[8] == TEMPLATE[8].1
  {
  }

  lemma ThirdFields()
    ensures |FIELDS| == |TEMPLATE| == 17
    ensures FIELDS[9] == TEMPLATE[9].1 && FIELDS[10] == TEMPLATE[10].1
    ensures FIELDS[11] == TEMPLATE[11].1 && FIELDS[12] == TEMPLATE[12].1
  {
  }

  lemma LastFields()
    ensures |FIELDS| == |TEMPLATE| == 17
    ensures FIELDS[13] == TEMPLATE[13].1 && FIELDS[14] == TEMPLATE[14].1
    ensures FIELDS[15] == TEMPLATE[15].1 && FIELDS[16] == TEMPLATE[16].1
  {
  }

  lemma TemplateFields()
    ensures |FIELDS| == |TEMPLATE| == 17
    ensures forall k :: 0 <= k < 17 ==> FIELDS[k] == TEMPLATE[k].1
  {
    hide *;
    FirstFields();
    SecondFields();
    ThirdFields();
    LastFields();
  }

  lemma TemplateLabel(k: nat)
    requires k < |TEMPLATE|
    ensures PrintedLabel(TEMPLATE[k].1) == TEMPLATE[k].0
  {
  }

  lemma TemplateLine(k: nat)
    requires k < |TEMPLATE|
    ensures |FIELDS| == |TEMPLATE| && FIELDS[k] == TEMPLATE[k].1 && PrintedLabel(FIELDS[k]) == TEMPLATE[k].0
  {
    hide FIELDS, PrintedLabel;
    TemplateFields();
    TemplateLabel(k);
  }

  lemma {:induction false} FieldsAreLines(fields: seq<Field>, lines: seq<(string, Field)>, e: Entry)
    requires Complete(e) && |fields| == |lines|
    requires forall k :: 0 <= k < |lines| ==> fields[k] == lines[k].1 && PrintedLabel(fields[k]) == lines[k].0
    ensures FieldText(fields, e) == Lines(lines, e)
    decreases |fields|
  {
    hide PrintedLabel;
    if fields != [] {
      FieldsAreLines(fields[1..], lines[1..], e);
    }
  }

  /** What the printer writes is the text of the template. */
  lemma PrintIsTemplate(e: Entry)
    requires Complete(e)
    ensures Print(e) == Template(e)
  {
    assert |FIELDS| == |TEMPLATE|;
    assert Print(e) == "\n" + FieldText(FIELDS, e) + "        ---\n        ";
    hide FieldText, Lines, PrintedLabel;
    forall k | 0 <= k < |TEMPLATE|
      ensures FIELDS[k] == TEMPLATE[k].1 && PrintedLabel(FIELDS[k]) == TEMPLATE[k].0
    {
      TemplateLine(k);
    }
    FieldsAreLines(FIELDS, TEMPLATE, e);
  }

  // ---- Labels ----

  predicate LabelChar(c: char) {
    'a' <= c <= 'z' || 'A' <= c <= 'Z' || c == ' ' || c == '(' || c == ')'
  }

  predicate PlainLabel(f: Field) {
    forall i :: 0 <= i < |Label(f)| ==> LabelChar(Label(f)[i])
  }

  lemma RequestLabels(f: Field)
    requires f.Time? || f.RequestNumber? || f.GroupId? || f.TotalTransactions? || f.Route? || f.Method?
    ensures PlainLabel(f)
  {
  }

  lemma CostLabels(f: Field)
    requires f.RefTime? || f.ProofSize? || f.Tip? || f.Duration?
    ensures PlainLabel(f)
  {
  }

  lemma UsageLabels(f: Field)
    requires f.CpuUsageStart? || f.CpuUsageEnd? || f.RamUsageStart? || f.RamUsageEnd?
    ensures PlainLabel(f)
  {
  }

  lemma OutcomeLabels(f: Field)
    requires f.TransactionSuccess? || f.ParametersLength? || f.TestType?
    ensures PlainLabel(f)
  {
  }

  lemma LabelChars(f: Field)
    ensures PlainLabel(f)
  {
    hide PlainLabel;
    if f.Time? || f.RequestNumber? || f.GroupId? || f.TotalTransactions? || f.Route? || f.Method? {
      RequestLabels(f);
    } else if f.RefTime? || f.ProofSize? || f.Tip? || f.Duration? {
      CostLabels(f);
    } else if f.CpuUsageStart? || f.CpuUsageEnd? || f.RamUsageStart? || f.RamUsageEnd? {
      UsageLabels(f);
    } else {
      OutcomeLabels(f);
    }
  }

  lemma LabelTrimmed(f: Field)
    ensures Label(f) != "" && Trimmed(Label(f))
  {
  }

  lemma LabelShape(f: Field)
    ensures Trimmed(Label(f)) && Label(f) != ""
    ensures ':' !in Label(f) && '-' !in Label(f) && '\n' !in Label(f) && '\r' !in Label(f)
  {
    hide Label, Trimmed;
    LabelTrimmed(f);
    LabelChars(f);
  }

  lemma LabelsDiffer(f: Field, g: Field)
    requires Label(f) == Label(g)
    ensures f == g
  {
    var l := Label(f);
    assert |l| == 9 || |l| == 15 || |l| == 17 ==> l[0] == Label(g)[0];
  }

  // ---- Reading one printed entry ----

  lemma {:induction false} AddLinesConcat(raw: map<string, string>, a: seq<string>, b: seq<string>)
    decreases |a|
    ensures AddLines(raw, a + b) == AddLines(AddLines(raw, a), b)
  {
    if a == [] {
      assert a + b == b;
    } else {
      assert (a + b)[1..] == a[1..] + b;
      AddLinesConcat(AddLine(raw, a[0]), a[1..], b);
    }
  }

  lemma {:induction false} AddLinesSame(raw: map<string, string>, a: seq<string>, b: seq<string>)
    decreases |a|
    requires SameStripped(a, b)
    ensures AddLines(raw, a) == AddLines(raw, b)
  {
    if a != [] {
      AddLinesSame(AddLine(raw, a[0]), a[1..], b[1..]);
    }
  }

  function LinesOf(raw: map<string, string>, text: string): map<string, string> {
    AddLines(raw, SplitOn(text, "\n"))
  }

  /** Lines are read one after the other. */
  lemma LinesConcat(raw: map<string, string>, a: string, b: string)
    ensures LinesOf(raw, a + "\n" + b) == LinesOf(LinesOf(raw, a), b)
  {
    SplitAtSeparator(a, "\n", b);
    AddLinesConcat(raw, SplitOn(a, "\n"), SplitOn(b, "\n"));
  }

  lemma LineAlone(raw: map<string, string>, line: string)
    requires '\n' !in line
    ensures LinesOf(raw, line) == AddLine(raw, line)
  {
    FreeOfChar(line, '\n');
    SplitFree(line, "\n");
    assert AddLines(raw, [line]) == AddLines(AddLine(raw, line), [line][1..]);
  }

  lemma BlankLine(raw: map<string, string>, line: string)
    requires AllSpace(line)
    ensures AddLine(raw, line) == raw
  {
    StripAround(line, "", "");
    assert line + "" + "" == line;
  }

  lemma {:induction false} LeadingSpace(raw: map<string, string>, p: string, text: string)
    requires AllSpace(p)
    ensures LinesOf(raw, p + text) == LinesOf(raw, text)
  {
    if p == "" {
      assert p + text == text;
    } else {
      var c, rest := p[0], p[1..] + text;
      LeadingSpace(raw, p[1..], text);
      assert p + text == [c] + rest;
      if c == '\n' {
        assert p + text == "" + "\n" + rest;
        LinesConcat(raw, "", rest);
        LineAlone(raw, "");
        BlankLine(raw, "");
      } else {
        assert p + text == [c] + rest + "";
        SplitAround([c], rest, "", "\n");
        AddLinesSame(raw, SplitOn(p + text, "\n"), SplitOn(rest, "\n"));
      }
    }
  }

  lemma {:induction false} TrailingSpace(raw: map<string, string>, text: string, q: string)
    requires AllSpace(q)
    ensures LinesOf(raw, text + q) == LinesOf(raw, text)
  {
    if q == "" {
      assert text + q == text;
    } else {
      var rest, c := text + DropLast(q), Last(q);
      TrailingSpace(raw, text, DropLast(q));
      assert text + q == rest + [c];
      if c == '\n' {
        assert text + q == rest + "\n" + "";
        LinesConcat(raw, rest, "");
        LineAlone(LinesOf(raw, rest), "");
        BlankLine(LinesOf(raw, rest), "");
      } else {
        assert text + q == "" + rest + [c];
        SplitAround("", rest, [c], "\n");
        AddLinesSame(raw, SplitOn(text + q, "\n"), SplitOn(rest, "\n"));
      }
    }
  }

  /** Stripping a part before cutting it into lines makes no difference. */
  lemma ReadEntryOfWhole(text: string)
    ensures ReadEntry(text) == EntryOf(LinesOf(map[], text))
  {
    var p, q := StripParts(text);
    LeadingSpace(map[], p, Strip(text) + q);
    TrailingSpace(map[], Strip(text), q);
    assert text == p + (Strip(text) + q);
  }

  /** A line is cut at the first colon, and what follows may contain further colons. */
  lemma CutAtColon(key: string, w: string)
    requires ':' !in key
    ensures Find(key + ":" + w, ":") == Some(|key|)
  {
    var l := key + ":" + w;
    forall j | j < |key|
      ensures !OccursAt(l, ":", j)
    {
      assert j >= 0 ==> l[j + 0] == key[j] && key[j] in key;
      assert ":"[0] == ':';
    }
    FindAt(l, ":", |key|);
  }

  lemma StripLine(key: string, v: string)
    requires key != "" && Trimmed(key) && Trimmed(v)
    ensures Strip(INDENT + key + ": " + v) == key + ":" + ((if v == "" then "" else " ") + v)
  {
    var l := key + ":" + ((if v == "" then "" else " ") + v);
    assert INDENT + key + ": " + v == INDENT + l + (if v == "" then " " else "");
    StripAround(INDENT, l, if v == "" then " " else "");
  }

  lemma KeyAndValue(raw: map<string, string>, key: string, v: string)
    requires ':' !in key && key != "" && Trimmed(key) && Trimmed(v)
    ensures AddLine(raw, INDENT + key + ": " + v) == raw[key := v]
  {
    hide Strip, Find, Trimmed;
    var gap := if v == "" then "" else " ";
    var l := key + ":" + (gap + v);
    CutAtColon(key, gap + v);
    StripLine(key, v);
    assert l[..|key|] == "" + key + "" && l[|key| + 1..] == gap + v + "";
    StripAround("", key, "");
    StripAround(gap, v, "");
  }

  /** A printed field line is read as its key and value. */
  lemma FieldLine(raw: map<string, string>, f: Field, v: string)
    requires Trimmed(v)
    ensures AddLine(raw, INDENT + PrintedLabel(f) + ": " + v) == raw[Label(f) := v]
  {
    hide Label, PrintedLabel;
    LabelsAgree(f);
    LabelShape(f);
    KeyAndValue(raw, Label(f), v);
  }

  function AddFields(raw: map<string, string>, fields: seq<Field>, e: Entry): map<string, string>
    requires Complete(e)
    decreases |fields|
  {
    if fields == [] then raw else AddFields(raw[Label(fields[0]) := e[fields[0]]], fields[1..], e)
  }

  lemma NoNewline(f: Field, v: string)
    requires '\n' !in v
    ensures '\n' !in INDENT + PrintedLabel(f) + ": " + v
  {
    hide Label, PrintedLabel;
    LabelsAgree(f);
    LabelShape(f);
  }

  lemma {:induction false} ReadFields(raw: map<string, string>, fields: seq<Field>, e: Entry)
    decreases |fields|
    requires Complete(e) && forall f: Field :: CleanValue(e[f])
    ensures LinesOf(raw, FieldText(fields, e) + INDENT) == AddFields(raw, fields, e)
  {
    hide Label, PrintedLabel, AddLine, LinesOf, LabelChar;
    if fields == [] {
      assert "" + INDENT == INDENT;
      LineAlone(raw, INDENT);
      BlankLine(raw, INDENT);
    } else {
      var f := fields[0];
      var line := INDENT + PrintedLabel(f) + ": " + e[f];
      LabelShape(f);
      NoNewline(f, e[f]);
      assert FieldText(fields, e) + INDENT == line + "\n" + (FieldText(fields[1..], e) + INDENT);
      LinesConcat(raw, line, FieldText(fields[1..], e) + INDENT);
      LineAlone(raw, line);
      FieldLine(raw, f, e[f]);
      ReadFields(raw[Label(f) := e[f]], fields[1..], e);
    }
  }

  lemma {:induction false} FieldsRead(raw: map<string, string>, fields: seq<Field>, e: Entry)
    decreases |fields|
    requires Complete(e)
    ensures forall f: Field :: f in fields ==>
              Label(f) in AddFields(raw, fields, e) && AddFields(raw, fields, e)[Label(f)] == e[f]
    ensures forall f: Field :: f !in fields && Label(f) in raw ==>
              Label(f) in AddFields(raw, fields, e) && AddFields(raw, fields, e)[Label(f)] == raw[Label(f)]
  {
    if fields != [] {
      var f0 := fields[0];
      var raw' := raw[Label(f0) := e[f0]];
      FieldsRead(raw', fields[1..], e);
      forall f: Field | f != f0
        ensures Label(f) != Label(f0)
      {
        if Label(f) == Label(f0) { LabelsDiffer(f, f0); }
      }
    }
  }

  /** The printed fields of an entry, after any whitespace, are read as that entry. */
  lemma ReadPrinted(space: string, e: Entry)
    requires AllSpace(space) && Complete(e) && forall f: Field :: CleanValue(e[f])
    ensures ReadEntry(space + FieldText(FIELDS, e) + INDENT) == e
  {
    hide Label, PrintedLabel, LinesOf, FieldText, AddFields, ReadEntry;
    ReadEntryOfWhole(space + FieldText(FIELDS, e) + INDENT);
    assert space + FieldText(FIELDS, e) + INDENT == space + (FieldText(FIELDS, e) + INDENT);
    LeadingSpace(map[], space, FieldText(FIELDS, e) + INDENT);
    ReadFields(map[], FIELDS, e);
    FieldsRead(map[], FIELDS, e);
    forall f: Field
      ensures f in FIELDS
    {
      AllFieldsListed(f);
    }
  }

  lemma AllFieldsListed(f: Field)
    ensures f in FIELDS
  {
    assert FIELDS[0] == Time && FIELDS[1] == RequestNumber && FIELDS[2] == GroupId && FIELDS[3] == TotalTransactions;
    assert FIELDS[4] == Route && FIELDS[5] == Method && FIELDS[6] == RefTime && FIELDS[7] == ProofSize;
    assert FIELDS[8] == Tip && FIELDS[9] == Duration && FIELDS[10] == CpuUsageStart && FIELDS[11] == CpuUsageEnd;
    assert FIELDS[12] == RamUsageStart && FIELDS[13] == RamUsageEnd && FIELDS[14] == TransactionSuccess;
    assert FIELDS[15] == ParametersLength && FIELDS[16] == TestType;
  }

  // ---- Separators ----

  lemma NoDash(s: string)
    requires '-' !in s
    ensures Free(s, SEPARATOR)
  {
    forall i
      ensures !OccursAt(s, SEPARATOR, i)
    {
      assert 0 <= i < |s| ==> s[i + 0] in s;
      assert SEPARATOR[0] == '-';
    }
  }

  lemma LineFree(f: Field, v: string)
    requires Free(v, SEPARATOR)
    ensures Free(INDENT + PrintedLabel(f) + ": " + v, SEPARATOR)
  {
    hide Label, PrintedLabel;
    var head := INDENT + PrintedLabel(f) + ":";
    LabelsAgree(f);
    LabelShape(f);
    NoDash(head);
    FreeAcross(head, ' ', v, SEPARATOR);
    assert INDENT + PrintedLabel(f) + ": " + v == head + [' '] + v;
  }

  /** Printed fields contain no separator: each value stands between a space and a newline. */
  lemma {:induction false} FieldsFree(fields: seq<Field>, e: Entry)
    requires Complete(e) && forall f: Field :: CleanValue(e[f])
    ensures Free(FieldText(fields, e) + INDENT, SEPARATOR)
  {
    hide Label, PrintedLabel, LabelChar;
    if fields == [] {
      NoDash(INDENT);
      assert "" + INDENT == INDENT;
    } else {
      var f := fields[0];
      var line := INDENT + PrintedLabel(f) + ": " + e[f];
      var rest := FieldText(fields[1..], e) + INDENT;
      LineFree(f, e[f]);
      FieldsFree(fields[1..], e);
      FreeAcross(line, '\n', rest, SEPARATOR);
      assert FieldText(fields, e) + INDENT == line + ['\n'] + rest;
    }
  }

  lemma {:induction false} FieldsNoReturn(fields: seq<Field>, e: Entry)
    requires Complete(e) && forall f: Field :: CleanValue(e[f])
    ensures '\r' !in FieldText(fields, e)
  {
    hide Label, PrintedLabel;
    if fields != [] {
      LabelsAgree(fields[0]);
      LabelShape(fields[0]);
      FieldsNoReturn(fields[1..], e);
    }
  }

  lemma NoDashAtEnd(a: string)
    requires a == "" || Last(a) != '-'
    ensures NoStraddle(a, SEPARATOR)
  {
    forall i | |a| - 3 < i < |a|
      ensures !OccursAt(a + SEPARATOR, SEPARATOR, i)
    {
      var k := |a| - 1 - i;
      assert SEPARATOR[k] == '-';
      assert i >= 0 ==> (a + SEPARATOR)[i + k] == Last(a);
    }
  }

  // ---- Appending an entry ----

  /** The file is empty or ends with the separator line of some entry, whatever precedes it. */
  ghost predicate EndsEntry(file: string) {
    file == "" || exists x: string :: file == x + " " + SEPARATOR + "\n" + INDENT
  }

  /** Whitespace around the whole file makes no difference to its entries. */
  lemma EntriesOfWhole(text: string)
    ensures Entries(SplitOn(Strip(text), SEPARATOR)) == Entries(SplitOn(text, SEPARATOR))
  {
    var p, q := StripParts(text);
    SplitAround(p, Strip(text), q, SEPARATOR);
    EntriesSame(SplitOn(text, SEPARATOR), SplitOn(Strip(text), SEPARATOR));
  }

  lemma {:induction false} EntriesSame(a: seq<string>, b: seq<string>)
    requires SameStripped(a, b)
    ensures Entries(a) == Entries(b)
  {
    if a != [] {
      EntriesSame(DropLast(a), DropLast(b));
    }
  }

  lemma BlankPart(parts: seq<string>, blank: string)
    requires AllSpace(blank)
    ensures Entries(parts + [blank]) == Entries(parts)
  {
    ReadEntryOfWhole(blank);
    assert blank == blank + "";
    LeadingSpace(map[], blank, "");
    LineAlone(map[], "");
    BlankLine(map[], "");
    assert DropLast(parts + [blank]) == parts;
  }

  const AFTER := "\n" + INDENT

  function Body(space: string, e: Entry): string
    requires Complete(e)
  {
    space + ['\n'] + (FieldText(FIELDS, e) + INDENT)
  }

  lemma BodyFree(space: string, e: Entry)
    requires AllSpace(space) && Complete(e) && WellFormed(e)
    ensures Free(Body(space, e), SEPARATOR) && Last(Body(space, e)) != '-'
  {
    hide FieldText;
    assert forall f: Field :: f in e && CleanValue(e[f]);
    assert forall i :: 0 <= i < |space| ==> space[i] != '-';
    NoDash(space);
    FieldsFree(FIELDS, e);
    FreeAcross(space, '\n', FieldText(FIELDS, e) + INDENT, SEPARATOR);
    assert Last(Body(space, e)) == Last(INDENT);
  }

  lemma BodyRead(space: string, e: Entry)
    requires AllSpace(space) && Complete(e) && WellFormed(e)
    ensures ReadEntry(Body(space, e)) == e
  {
    hide FieldText, ReadEntry;
    assert forall f: Field :: f in e && CleanValue(e[f]);
    assert Body(space, e) == (space + "\n") + FieldText(FIELDS, e) + INDENT;
    ReadPrinted(space + "\n", e);
  }

  lemma PrintShape(space: string, e: Entry)
    requires Complete(e)
    ensures space + Print(e) == Body(space, e) + SEPARATOR + AFTER
  {
    hide FieldText;
  }

  /** The parts of a printed entry: its fields, then the indentation after the separator. */
  lemma PrintedParts(space: string, e: Entry)
    requires AllSpace(space) && Complete(e) && WellFormed(e)
    ensures SplitOn(space + Print(e), SEPARATOR) == [Body(space, e), AFTER]
    ensures ReadEntry(Body(space, e)) == e
  {
    hide FieldText, ReadEntry, WellFormed, AllSpace, Body, SplitOn, Find, Print;
    PrintShape(space, e);
    BodyRead(space, e);
    BodyFree(space, e);
    NoDashAtEnd(Body(space, e));
    SplitAtSeparator(Body(space, e), SEPARATOR, AFTER);
    SplitFree(Body(space, e), SEPARATOR);
    NoDash(AFTER);
    SplitFree(AFTER, SEPARATOR);
  }

  /** One more printed entry among the parts is one more entry. */
  lemma EntriesSnoc(parts: seq<string>, space: string, e: Entry)
    requires AllSpace(space) && Complete(e) && WellFormed(e)
    ensures Entries(parts + SplitOn(space + Print(e), SEPARATOR)) == Entries(parts) + [e]
  {
    hide ReadEntry, Body, Print, SplitOn, CleanValue;
    PrintedParts(space, e);
    var body := Body(space, e);
    BlankPart(parts + [body], AFTER);
    assert parts + [body] + [AFTER] == parts + [body, AFTER];
    assert DropLast(parts + [body]) == parts;
  }

  lemma PrintNoReturn(e: Entry)
    requires Complete(e) && WellFormed(e)
    ensures UniversalNewlines(Print(e)) == Print(e) && '\r' !in Print(e)
  {
    hide FieldText;
    assert forall f: Field :: f in e && CleanValue(e[f]);
    FieldsNoReturn(FIELDS, e);
    NewlinesRead(Print(e));
  }

  /** Entries before a separator line are untouched by what follows it. */
  lemma EntriesBefore(x: string, tail: string)
    ensures Entries(SplitOn(x + " " + SEPARATOR + tail, SEPARATOR)) ==
            Entries(SplitOn(x + " ", SEPARATOR) + SplitOn(tail, SEPARATOR))
  {
    NoDashAtEnd(x + " ");
    SplitAtSeparator(x + " ", SEPARATOR, tail);
  }

  lemma AppendToEmpty(e: Entry)
    requires Complete(e) && WellFormed(e)
    ensures Parse(Print(e)) == [e]
  {
    hide Print, ReadEntry, CleanValue, SplitOn, Strip;
    PrintNoReturn(e);
    EntriesOfWhole(Print(e));
    EntriesSnoc([], "", e);
    assert "" + Print(e) == Print(e);
    assert [] + SplitOn(Print(e), SEPARATOR) == SplitOn(Print(e), SEPARATOR);
  }

  lemma {:induction false} EntriesConcat(a: seq<string>, b: seq<string>)
    ensures Entries(a + b) == Entries(a) + Entries(b)
  {
    hide ReadEntry;
    if b == [] {
      assert a + b == a;
    } else {
      assert DropLast(a + b) == a + DropLast(b);
      EntriesConcat(a, DropLast(b));
    }
  }

  /** Whitespace before the first part makes no difference. */
  lemma EntriesAfterSpace(p: string, text: string)
    requires AllSpace(p)
    ensures Entries(SplitOn(p + text, SEPARATOR)) == Entries(SplitOn(text, SEPARATOR))
  {
    hide Strip, SplitOn, Entries;
    SplitAround(p, text, "", SEPARATOR);
    assert p + text + "" == p + text;
    EntriesSame(SplitOn(p + text, SEPARATOR), SplitOn(text, SEPARATOR));
  }

  /** What is appended after a separator line is read on its own, whatever it is. */
  lemma AppendAfterEntry(x: string, text: string)
    ensures Parse(x + (" " + SEPARATOR + AFTER) + text) == Parse(x + (" " + SEPARATOR + AFTER)) + Parse(text)
  {
    hide ReadEntry, SplitOn, Strip, UniversalNewlines, Entries;
    var x', text' := UniversalNewlines(x), UniversalNewlines(text);
    var tail := " " + SEPARATOR + AFTER;
    NewlinesConcat(x, tail);
    NewlinesConcat(x, tail + text);
    NewlinesAfter(tail, text);
    TailAsIs(tail);
    assert x + tail + text == x + (tail + text);
    EntriesOfWhole(x' + tail);
    EntriesOfWhole(x' + (tail + text'));
    EntriesOfWhole(text');
    assert x' + tail == x' + " " + SEPARATOR + AFTER;
    assert x' + (tail + text') == x' + " " + SEPARATOR + (AFTER + text');
    EntriesBefore(x', AFTER);
    EntriesBefore(x', AFTER + text');
    var before := SplitOn(x' + " ", SEPARATOR);
    NoDash(AFTER);
    SplitFree(AFTER, SEPARATOR);
    BlankPart(before, AFTER);
    EntriesConcat(before, SplitOn(AFTER + text', SEPARATOR));
    EntriesAfterSpace(AFTER, text');
  }

  /**
   * Whatever is appended to a file that ends in an entry is read as if it stood alone:
   * it takes nothing from the entries before it, and they take nothing from it.
   */
  lemma AppendSplits(file: string, text: string)
    requires EndsEntry(file)
    ensures Parse(file + text) == Parse(file) + Parse(text)
  {
    hide Parse;
    if file == "" {
      EmptyFile();
      assert file + text == text;
    } else {
      var x :| file == x + " " + SEPARATOR + "\n" + INDENT;
      AppendAfterEntry(x, text);
      assert file == x + (" " + SEPARATOR + AFTER);
    }
  }

  /** Appending a well-formed entry to a file that ends in an entry adds exactly that entry. */
  lemma AppendReads(file: string, e: Entry)
    requires EndsEntry(file) && Complete(e) && WellFormed(e)
    ensures Parse(file + Print(e)) == Parse(file) + [e]
  {
    hide Print, Parse, WellFormed;
    AppendToEmpty(e);
    AppendSplits(file, Print(e));
  }

  lemma {:induction false} NewlinesAfter(a: string, b: string)
    requires '\r' !in a
    ensures UniversalNewlines(a + b) == a + UniversalNewlines(b)
  {
    if a == "" {
      assert a + b == b;
    } else {
      assert (a + b)[1..] == a[1..] + b && a[0] in a;
      NewlinesAfter(a[1..], b);
      assert a == [a[0]] + a[1..];
    }
  }

  lemma TailAsIs(tail: string)
    requires '\r' !in tail
    ensures UniversalNewlines(tail) == tail
  {
    NewlinesRead(tail);
  }

  lemma EmptyFile()
    ensures Parse("") == []
  {
    EntriesOfWhole("");
    assert SplitOn("", SEPARATOR) == [""];
    BlankPart([], "");
    assert [] + [""] == [""];
  }

  lemma PrintEndsEntry(file: string, e: Entry)
    requires Complete(e)
    ensures EndsEntry(file + Print(e))
  {
    hide FieldText;
    var x := file + "\n" + FieldText(FIELDS, e) + "       ";
    assert file + Print(e) == x + " " + SEPARATOR + "\n" + INDENT;
  }

  // ---- What reading can yield ----

  ghost predicate CleanText(s: string) {
    Free(s, "\n") && Free(s, "\r") && Free(s, SEPARATOR)
  }

  ghost predicate CleanRaw(raw: map<string, string>) {
    forall k :: k in raw ==> CleanValue(raw[k])
  }

  lemma CleanPiece(line: string, i: nat, j: nat)
    requires CleanText(line) && i <= j <= |line|
    ensures CleanText(line[i..j]) && CleanText(Strip(line)) && CleanValue(Strip(line))
  {
    FreeSlice(line, "\n", i, j);
    FreeSlice(line, "\r", i, j);
    FreeSlice(line, SEPARATOR, i, j);
    StripKeepsFree(line, "\n");
    StripKeepsFree(line, "\r");
    StripKeepsFree(line, SEPARATOR);
    FreeOfChar(Strip(line), '\n');
    FreeOfChar(Strip(line), '\r');
    var p, q := StripParts(line);
  }

  lemma AddLineClean(raw: map<string, string>, line: string)
    requires CleanRaw(raw) && CleanText(line)
    ensures CleanRaw(AddLine(raw, line))
  {
    hide CleanText, CleanValue, Strip;
    var l := Strip(line);
    CleanPiece(line, 0, 0);
    match Find(l, ":")
    case None =>
    case Some(i) =>
      CleanPiece(l, i + 1, |l|);
      assert l[i + 1..|l|] == l[i + 1..];
      CleanPiece(l[i + 1..], 0, 0);
  }

  lemma {:induction false} AddLinesClean(raw: map<string, string>, lines: seq<string>)
    requires CleanRaw(raw) && forall line :: line in lines ==> CleanText(line)
    ensures CleanRaw(AddLines(raw, lines))
    decreases |lines|
  {
    hide AddLine, CleanText, CleanRaw;
    if lines != [] {
      AddLineClean(raw, lines[0]);
      AddLinesClean(AddLine(raw, lines[0]), lines[1..]);
    }
  }

  lemma ReadEntryClean(part: string)
    requires Free(part, "\r") && Free(part, SEPARATOR)
    ensures forall f :: f in ReadEntry(part) ==> CleanValue(ReadEntry(part)[f])
  {
    hide Strip, SplitOn, AddLines;
    var text := Strip(part);
    StripKeepsFree(part, "\r");
    StripKeepsFree(part, SEPARATOR);
    SplitIsExact(text, "\n");
    SplitKeepsFree(text, "\n", "\r");
    SplitKeepsFree(text, "\n", SEPARATOR);
    AddLinesClean(map[], SplitOn(text, "\n"));
  }

  lemma {:induction false} EntriesWellFormed(parts: seq<string>)
    requires forall part :: part in parts ==> Free(part, "\r") && Free(part, SEPARATOR)
    ensures forall e :: e in Entries(parts) ==> WellFormed(e)
  {
    hide ReadEntry;
    if parts != [] {
      EntriesWellFormed(DropLast(parts));
      ReadEntryClean(Last(parts));
    }
  }

  /** Whatever the file holds, reading yields only well-formed entries. */
  lemma ParseWellFormed(file: string)
    ensures forall e :: e in Parse(file) ==> WellFormed(e)
  {
    hide SplitOn, Strip, Entries, UniversalNewlines;
    var text := UniversalNewlines(file);
    NewlinesRead(file);
    FreeOfChar(text, '\r');
    StripKeepsFree(text, "\r");
    SplitIsExact(Strip(text), SEPARATOR);
    SplitKeepsFree(Strip(text), SEPARATOR, "\r");
    EntriesWellFormed(SplitOn(Strip(text), SEPARATOR));
  }

  // ---- A malformed entry ----

  /** The printed fields up to the value of the last one. */
  function TextBeforeLast(fields: seq<Field>, e: Entry): string
    requires Complete(e) && fields != []
  {
    var head := INDENT + PrintedLabel(fields[0]) + ": ";
    if |fields| == 1 then head else head + e[fields[0]] + "\n" + TextBeforeLast(fields[1..], e)
  }

  lemma {:induction false} LastFieldText(fields: seq<Field>, e: Entry, u: string)
    requires Complete(e) && fields != [] && Last(fields) == TestType && TestType !in DropLast(fields)
    ensures FieldText(fields, e[TestType := u]) == TextBeforeLast(fields, e) + (u + "\n")
    ensures TextBeforeLast(fields, e) != "" && Last(TextBeforeLast(fields, e)) == ' '
    decreases |fields|
  {
    hide PrintedLabel;
    var f, e' := fields[0], e[TestType := u];
    var head := INDENT + PrintedLabel(f) + ": ";
    if |fields| == 1 {
      assert FieldText(fields[1..], e') == "";
      assert head + u + "\n" + "" == head + (u + "\n");
    } else {
      assert f == DropLast(fields)[0] && e'[f] == e[f];
      assert DropLast(fields[1..]) == DropLast(fields)[1..];
      LastFieldText(fields[1..], e, u);
      Associative(head + e[f] + "\n", TextBeforeLast(fields[1..], e), u + "\n");
    }
  }

  lemma {:induction false} NoColonNoLines(raw: map<string, string>, lines: seq<string>)
    requires forall line :: line in lines ==> Free(line, ":")
    ensures AddLines(raw, lines) == raw
    decreases |lines|
  {
    hide Strip;
    if lines != [] {
      StripKeepsFree(lines[0], ":");
      NoColonNoLines(raw, lines[1..]);
    }
  }

  /** A part without a colon holds no entry. */
  lemma NoColonNoEntry(part: string)
    requires ':' !in part
    ensures Entries([part]) == []
  {
    FreeOfChar(part, ':');
    StripKeepsFree(part, ":");
    SplitKeepsFree(Strip(part), "\n", ":");
    NoColonNoLines(map[], SplitOn(Strip(part), "\n"));
    assert DropLast([part]) == [];
  }

  /** Where the separator stands in the printed text. */
  lemma CutText(e: Entry, v: string, w: string) returns (head: string)
    requires Complete(e) && (v == "" || Last(v) != '-')
    ensures Complete(e[TestType := v]) && Complete(e[TestType := v + SEPARATOR + w])
    ensures head != "" && Last(head) != '-' && Body("", e[TestType := v]) == head + AFTER
    ensures Print(e[TestType := v + SEPARATOR + w]) == head + SEPARATOR + (w + AFTER + SEPARATOR + AFTER)
  {
    var x := TextBeforeLast(FIELDS, e);
    TestTypeIsLast();
    LastFieldText(FIELDS, e, v);
    LastFieldText(FIELDS, e, v + SEPARATOR + w);
    hide FieldText, TextBeforeLast;
    head := "\n" + x + v;
    BodyShape(x, v);
    CutShape(x, v, w);
  }

  lemma BodyShape(x: string, v: string)
    ensures "" + ['\n'] + (x + (v + "\n") + INDENT) == "\n" + x + v + AFTER
  {
  }

  lemma CutShape(x: string, v: string, w: string)
    ensures "\n" + (x + (v + SEPARATOR + w + "\n")) + INDENT + "---\n" + INDENT ==
            "\n" + x + v + SEPARATOR + (w + AFTER + SEPARATOR + AFTER)
  {
    var y := v + SEPARATOR + w;
    assert "\n" + (x + (y + "\n")) == "\n" + x + y + "\n";
    assert "\n" + x + y == "\n" + x + v + SEPARATOR + w;
    var z := "\n" + x + v + SEPARATOR;
    assert z + w + "\n" + INDENT + "---\n" + INDENT == z + (w + AFTER + SEPARATOR + AFTER);
  }

  lemma TestTypeIsLast()
    ensures Last(FIELDS) == TestType && TestType !in DropLast(FIELDS)
  {
    forall i | 0 <= i < 16
      ensures FIELDS[i] != TestType
    {
    }
  }

  lemma CutHead(head: string, e: Entry)
    requires Complete(e) && WellFormed(e) && Body("", e) == head + AFTER
    ensures Free(head, SEPARATOR) && ReadEntry(head) == e && '\r' !in head
  {
    hide Print, Body, ReadEntry, LinesOf, WellFormed, Free;
    var body := Body("", e);
    PrintNoReturn(e);
    PrintShape("", e);
    assert "" + Print(e) == Print(e);
    assert Print(e) == head + AFTER + SEPARATOR + AFTER;
    assert head == Print(e)[..|head|];
    assert head == body[0..|head|];
    BodyFree("", e);
    FreeSlice(body, SEPARATOR, 0, |head|);
    BodyRead("", e);
    ReadEntryOfWhole(head);
    ReadEntryOfWhole(body);
    TrailingSpace(map[], head, AFTER);
  }

  /** What is read when text without a colon stands between two separators. */
  lemma CutParts(head: string, w: string, e: Entry)
    requires Free(head, SEPARATOR) && head != "" && Last(head) != '-' && ReadEntry(head) == e && HasValue(e)
    requires '\r' !in head && '-' !in w && ':' !in w && '\r' !in w
    ensures Parse(head + SEPARATOR + (w + AFTER + SEPARATOR + AFTER)) == [e]
  {
    var middle := w + AFTER;
    var text := head + SEPARATOR + (middle + SEPARATOR + AFTER);
    assert '\r' !in text;
    MiddlePart(w);
    hide *;
    TailAsIs(text);
    EntriesOfWhole(text);
    ThreeParts(head, middle);
    ReadFirst(head, middle, e);
    ParseIs(text);
  }

  lemma ParseIs(text: string)
    ensures Parse(text) == Entries(SplitOn(Strip(UniversalNewlines(text)), SEPARATOR))
  {
  }

  lemma MiddlePart(w: string)
    requires '-' !in w && ':' !in w
    ensures var middle := w + AFTER; '-' !in middle && ':' !in middle && middle != "" && Last(middle) != '-'
  {
  }

  lemma FirstPart(a: string, b: string)
    requires Free(a, SEPARATOR) && a != "" && Last(a) != '-'
    ensures SplitOn(a + SEPARATOR + b, SEPARATOR) == [a] + SplitOn(b, SEPARATOR)
  {
    assert SEPARATOR != "";
    hide *;
    NoDashAtEnd(a);
    SplitAtSeparator(a, SEPARATOR, b);
    SplitFree(a, SEPARATOR);
  }

  lemma AfterIsOnePart()
    ensures SplitOn(AFTER, SEPARATOR) == [AFTER]
  {
    NoDash(AFTER);
    hide SplitOn;
    SplitFree(AFTER, SEPARATOR);
  }

  lemma ThreeParts(head: string, middle: string)
    requires Free(head, SEPARATOR) && head != "" && Last(head) != '-'
    requires '-' !in middle && middle != "" && Last(middle) != '-'
    ensures SplitOn(head + SEPARATOR + (middle + SEPARATOR + AFTER), SEPARATOR) == [head] + ([middle] + [AFTER])
  {
    hide *;
    NoDash(middle);
    AfterIsOnePart();
    FirstPart(head, middle + SEPARATOR + AFTER);
    FirstPart(middle, AFTER);
  }

  lemma ReadFirst(head: string, middle: string, e: Entry)
    requires ReadEntry(head) == e && HasValue(e) && ':' !in middle
    ensures Entries([head] + ([middle] + [AFTER])) == [e]
  {
    hide ReadEntry;
    assert [head] + ([middle] + [AFTER]) == [head] + [middle] + [AFTER];
    BlankPart([head] + [middle], AFTER);
    EntriesConcat([head], [middle]);
    NoColonNoEntry(middle);
    assert DropLast([head]) == [] && Last([head]) == head;
  }

  /**
   * The separator inside the last value cuts the entry there: what stands before it is
   * read as the value, and what follows is lost if it looks like no field of its own.
   */
  lemma SeparatorCutsValue(e: Entry, v: string, w: string)
    requires Complete(e) && WellFormed(e[TestType := v]) && (v == "" || Last(v) != '-')
    requires '-' !in w && ':' !in w && '\r' !in w
    ensures Complete(e[TestType := v + SEPARATOR + w])
    ensures Parse(Print(e[TestType := v + SEPARATOR + w])) == [e[TestType := v]]
  {
    assert HasValue(e[TestType := v]);
    hide *;
    var head := CutText(e, v, w);
    CutHead(head, e[TestType := v]);
    CutParts(head, w, e[TestType := v]);
  }

  // ---- Main results ----

  /** Appending to a file that ends in an entry adds exactly the appended entry, exactly when it is well-formed. */
  lemma AppendExact(file: string, e: Entry)
    requires EndsEntry(file) && Complete(e)
    ensures Parse(file + Print(e)) == Parse(file) + [e] <==> WellFormed(e)
  {
    hide Print, Parse, WellFormed;
    ParseWellFormed(file + Print(e));
    if WellFormed(e) {
      AppendReads(file, e);
    } else {
      assert e in Parse(file) + [e];
    }
  }

  /** What each of the printed entries is read as on its own, in order. */
  function ReadEach(es: seq<Entry>): seq<Entry>
    requires forall e :: e in es ==> Complete(e)
  {
    if es == [] then [] else ReadEach(DropLast(es)) + Parse(Print(Last(es)))
  }

  /** A log is read entry by entry, whatever their values are: a malformed one does no harm to the others. */
  lemma {:induction false} LogIsReadEach(es: seq<Entry>)
    requires forall e :: e in es ==> Complete(e)
    ensures Parse(PrintAll(es)) == ReadEach(es) && EndsEntry(PrintAll(es))
  {
    hide Print, Parse;
    if es == [] {
      EmptyFile();
    } else {
      LogIsReadEach(DropLast(es));
      AppendSplits(PrintAll(DropLast(es)), Print(Last(es)));
      PrintEndsEntry(PrintAll(DropLast(es)), Last(es));
    }
  }

  lemma {:induction false} ReadEachWellFormed(es: seq<Entry>)
    requires forall e :: e in es ==> Complete(e) && WellFormed(e)
    ensures ReadEach(es) == es
  {
    hide Print, Parse, WellFormed;
    if es != [] {
      ReadEachWellFormed(DropLast(es));
      AppendToEmpty(Last(es));
      assert es == DropLast(es) + [Last(es)];
    }
  }

  /**
   * Reading what was printed gives back exactly the entries, in order, if and only
   * if every entry has some non-empty value and all its values are clean.
   */
  lemma RoundTrip(es: seq<Entry>)
    requires forall e :: e in es ==> Complete(e)
    ensures Parse(PrintAll(es)) == es <==> forall e :: e in es ==> WellFormed(e)
  {
    hide Parse, WellFormed, PrintAll;
    ParseWellFormed(PrintAll(es));
    if forall e :: e in es ==> WellFormed(e) {
      LogIsReadEach(es);
      ReadEachWellFormed(es);
    }
  }

  /** The log file of the server, to which every finished request appends its entry. */
  class PerformanceLog {
    var text: string

    constructor (existing: string)
      ensures text == existing
    {
      text := existing;
    }

    /** What the entry is read as is added to what a reader sees, and the file again ends in an entry. */
    method Append(e: Entry)
      requires Complete(e)
      modifies this
      ensures text == old(text) + Print(e) == old(text) + Template(e)
      ensures EndsEntry(text)
      ensures old(EndsEntry(text)) ==> Parse(text) == old(Parse(text)) + Parse(Print(e))
      ensures old(EndsEntry(text)) ==> (Parse(text) == old(Parse(text)) + [e] <==> WellFormed(e))
    {
      if EndsEntry(text) {
        AppendSplits(text, Print(e));
        AppendExact(text, e);
      }
      PrintEndsEntry(text, e);
      PrintIsTemplate(e);
      hide Template, EndsEntry, Parse, WellFormed, FieldText;
      var logEntry := "\n";
      logEntry := logEntry + FieldText(FIELDS, e);
      logEntry := logEntry + INDENT + SEPARATOR + "\n" + INDENT;
      text := text + logEntry;
    }
  }
}
