/** The entries of the performance log and the program that reads them back from the text file. */
module LogReader {
  import opened Common
  import opened Text

  /** The 17 fields of an entry, in the order in which the server prints them. */
  datatype Field =
    | Time | RequestNumber | GroupId | TotalTransactions | Route | Method
    | RefTime | ProofSize | Tip | Duration
    | CpuUsageStart | CpuUsageEnd | RamUsageStart | RamUsageEnd
    | TransactionSuccess | ParametersLength | TestType

  const FIELDS: seq<Field> := [
    Time, RequestNumber, GroupId, TotalTransactions, Route, Method,
    RefTime, ProofSize, Tip, Duration,
    CpuUsageStart, CpuUsageEnd, RamUsageStart, RamUsageEnd,
    TransactionSuccess, ParametersLength, TestType]

  /** The key under which the reader looks a field up. */
  function Label(f: Field): string {
    match f
    case Time => "Time"
    case RequestNumber => "Request Number"
    case GroupId => "GroupID"
    case TotalTransactions => "Total Transactions"
    case Route => "Route"
    case Method => "Method"
    case RefTime => "RefTime (Gas Computacional)"
    case ProofSize => "ProofSize"
    case Tip => "Tip"
    case Duration => "Duration"
    case CpuUsageStart => "CPU Usage (start)"
    case CpuUsageEnd => "CPU Usage (end)"
    case RamUsageStart => "RAM Usage (start)"
    case RamUsageEnd => "RAM Usage (end)"
    case TransactionSuccess => "Transaction Success"
    case ParametersLength => "Parameters Length"
    case TestType => "Test Type"
  }

  /** The values read for an entry; a field that is not in the map is Python's None. */
  type Entry = map<Field, string>

  const SEPARATOR := "---"

  // ---- What reading means ----

  /** One line of the form `key: value`, cut at its first colon; other lines are ignored. */
  function AddLine(raw: map<string, string>, line: string): map<string, string> {
    var l := Strip(line);
    match Find(l, ":")
    case None => raw
    case Some(i) => raw[Strip(l[..i]) := Strip(l[i + 1..])]
  }

  function AddLines(raw: map<string, string>, lines: seq<string>): map<string, string>
    decreases |lines|
  {
    if lines == [] then raw else AddLines(AddLine(raw, lines[0]), lines[1..])
  }

  function EntryOf(raw: map<string, string>): Entry {
    map f: Field | Label(f) in raw :: raw[Label(f)]
  }

  function ReadEntry(text: string): Entry {
    EntryOf(AddLines(map[], SplitOn(Strip(text), "\n")))
  }

  /** Some value is there and not empty (Python's any(entry.values())). */
  predicate HasValue(e: Entry) {
    exists f :: f in e && e[f] != ""
  }

  /** The entries of the parts of a file; parts without any value are dropped. */
  function Entries(parts: seq<string>): seq<Entry> {
    if parts == [] then []
    else
      var e := ReadEntry(Last(parts));
      Entries(DropLast(parts)) + (if HasValue(e) then [e] else [])
  }

  function Parse(file: string): seq<Entry> {
    Entries(SplitOn(Strip(UniversalNewlines(file)), SEPARATOR))
  }

  // ---- The reader ----

  method ReadRaw(text: string) returns (raw: map<string, string>)
    ensures EntryOf(raw) == ReadEntry(text)
  {
    raw := map[];
    var lines := SplitOn(Strip(text), "\n");
    for i := 0 to |lines|
      invariant AddLines(map[], lines) == AddLines(raw, lines[i..])
    {
      assert lines[i..][0] == lines[i] && lines[i..][1..] == lines[i + 1..];
      assert AddLines(raw, lines[i..]) == AddLines(AddLine(raw, lines[i]), lines[i + 1..]);
      var line := Strip(lines[i]);
      if line != "" {
        var colon := Find(line, ":");
        if colon.Some? {
          raw := raw[Strip(line[..colon.value]) := Strip(line[colon.value + 1..])];
        }
      }
    }
  }

  method ReadData(file: string) returns (data: seq<Entry>)
    ensures data == Parse(file)
  {
    var content := Strip(UniversalNewlines(file));
    var parts := SplitOn(content, SEPARATOR);
    data := [];
    for i := 0 to |parts|
      invariant data == Entries(parts[..i])
    {
      var raw := ReadRaw(parts[i]);
      var entry := EntryOf(raw);
      assert DropLast(parts[..i + 1]) == parts[..i];
      if HasValue(entry) {
        data := data + [entry];
      }
    }
    assert parts[..|parts|] == parts;
  }
}
