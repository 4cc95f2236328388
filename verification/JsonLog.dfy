/**
 * The JSON performance log: a file holding the text of an array, to which each
 * finished request appends its entry by patching that text. Reading and writing
 * the file are separate callbacks, so handlers interleave. The protocol on texts
 * is proved to refine one on lists of requests, where its properties are shown.
 */
module JsonLog {
  import opened Common
  import opened JsonText
  import opened JsonPatch
  import Text

  // ---- The protocol on texts ----

  /** A finished request. */
  type Id = nat

  datatype Phase = Reading(entry: string) | Writing(text: string) | Done

  /** The steps of handlers; those that fail are the error branches of the callbacks. */
  datatype Label =
    | Finish(id: Id, entry: Json, createOk: bool)
    | Read(id: Id)
    | ReadFails(id: Id)
    | Write(id: Id)
    | WriteFails(id: Id)

  datatype Disk = Disk(file: Option<string>, fileExists: bool, phases: map<Id, Phase>)

  predicate At(s: Disk, id: Id, reading: bool) {
    id in s.phases && (if reading then s.phases[id].Reading? else s.phases[id].Writing?)
  }

  /** One step of a handler; a step that is not possible changes nothing. */
  function Step(s: Disk, l: Label): Disk {
    match l
    case Finish(id, entry, createOk) =>
      if id in s.phases then s
      else if s.fileExists then s.(phases := s.phases[id := Reading(Stringify(entry))])
      else if createOk then Disk(Some("[" + Stringify(entry) + "]"), true, s.phases[id := Done])
      else s.(phases := s.phases[id := Done])
    case Read(id) =>
      if At(s, id, true) && s.file.Some?
      then s.(phases := s.phases[id := Writing(Patch(s.file.value, s.phases[id].entry))])
      else s
    case ReadFails(id) =>
      if At(s, id, true) then s.(phases := s.phases[id := Done]) else s
    case Write(id) =>
      if At(s, id, false) then s.(file := Some(s.phases[id].text), phases := s.phases[id := Done]) else s
    case WriteFails(id) =>
      if At(s, id, false) then s.(phases := s.phases[id := Done]) else s
  }

  function Run(file: Option<string>, labels: seq<Label>): Disk {
    if labels == [] then Disk(file, file.Some?, map[])
    else Step(Run(file, DropLast(labels)), Last(labels))
  }

  /** Whether a label makes its handler write the file. */
  predicate Writes(s: Disk, l: Label) {
    (l.Write? && At(s, l.id, false)) || (l.Finish? && l.id !in s.phases && !s.fileExists && l.createOk)
  }

  // ---- The same protocol on lists of requests ----

  datatype Stage = WillRead | WillWrite(list: seq<Id>) | Over

  /** `logged` are the requests whose entries have been patched into the initial file, in order. */
  datatype Book = Book(logged: seq<Id>, hasFile: bool, stages: map<Id, Stage>)

  predicate StageIs(b: Book, id: Id, reading: bool) {
    id in b.stages && (if reading then b.stages[id].WillRead? else b.stages[id].WillWrite?)
  }

  function BookStep(b: Book, l: Label): Book {
    match l
    case Finish(id, _, createOk) =>
      if id in b.stages then b
      else if b.hasFile then b.(stages := b.stages[id := WillRead])
      else if createOk then Book([id], true, b.stages[id := Over])
      else b.(stages := b.stages[id := Over])
    case Read(id) =>
      if StageIs(b, id, true) then b.(stages := b.stages[id := WillWrite(b.logged + [id])]) else b
    case ReadFails(id) =>
      if StageIs(b, id, true) then b.(stages := b.stages[id := Over]) else b
    case Write(id) =>
      if StageIs(b, id, false) then b.(logged := b.stages[id].list, stages := b.stages[id := Over]) else b
    case WriteFails(id) =>
      if StageIs(b, id, false) then b.(stages := b.stages[id := Over]) else b
  }

  function BookRun(hasFile: bool, labels: seq<Label>): Book {
    if labels == [] then Book([], hasFile, map[])
    else BookStep(BookRun(hasFile, DropLast(labels)), Last(labels))
  }

  // ---- Invariants of the list protocol ----

  ghost predicate IsOver(b: Book, id: Id) {
    id in b.stages && b.stages[id].Over?
  }

  /** A pending list is what its handler read, plus its own entry, and its handler has not written yet. */
  ghost predicate PendingOk(b: Book, id: Id) {
    id in b.stages && b.stages[id].WillWrite? ==>
      var list := b.stages[id].list;
      && list != [] && Last(list) == id && NoDup(list)
      && (forall k :: k in DropLast(list) ==> IsOver(b, k))
      && (DropLast(list) == b.logged || (b.logged != [] && Last(b.logged) !in DropLast(list)))
  }

  ghost predicate BookOk(b: Book) {
    && NoDup(b.logged)
    && (forall k :: k in b.logged ==> IsOver(b, k))
    && (b.logged != [] ==> b.hasFile)
    && (forall id :: id in b.stages && !b.stages[id].Over? ==> b.hasFile)
    && (forall id :: PendingOk(b, id))
  }

  lemma FreshLast(list: seq<Id>, id: Id)
    requires NoDup(list) && id !in list
    ensures NoDup(list + [id]) && DropLast(list + [id]) == list && Last(list + [id]) == id
  {
  }

  lemma LoggedStepOk(b: Book, l: Label)
    requires BookOk(b)
    ensures var b' := BookStep(b, l); NoDup(b'.logged) && (forall k :: k in b'.logged ==> IsOver(b', k))
  {
    var b' := BookStep(b, l);
    assert PendingOk(b, l.id);
    if l.Write? && b' != b {
      forall k | k in b'.logged
        ensures IsOver(b', k)
      {
        assert k == l.id || k in DropLast(b'.logged);
      }
    } else if b'.logged == b.logged {
      assert forall k :: IsOver(b, k) ==> IsOver(b', k);
    }
  }

  lemma OverStays(b: Book, l: Label, k: Id)
    requires IsOver(b, k)
    ensures IsOver(BookStep(b, l), k)
  {
  }

  /** A handler that has read stays as it is until it writes. */
  lemma StillWaiting(b: Book, l: Label, id: Id)
    requires BookOk(b) && StageIs(BookStep(b, l), id, false) && !(l == Read(id) && StageIs(b, id, true))
    ensures StageIs(b, id, false) && b.stages[id] == BookStep(b, l).stages[id] && b.hasFile
    ensures l.Write? || l.WriteFails? ==> l.id != id
  {
    hide PendingOk, NoDup;
  }

  /** A step leaves the logged requests or puts one at the end whose handler was not over. */
  lemma LoggedMoves(b: Book, l: Label)
    requires BookOk(b) && b.hasFile
    ensures var logged := BookStep(b, l).logged;
            logged == b.logged || (logged != [] && Last(logged) == l.id && !IsOver(b, l.id))
  {
    assert PendingOk(b, l.id);
    hide NoDup;
  }

  lemma PendingStepOk(b: Book, l: Label, id: Id)
    requires BookOk(b)
    ensures PendingOk(BookStep(b, l), id)
  {
    var b' := BookStep(b, l);
    if l == Read(id) && StageIs(b, id, true) {
      FreshLast(b.logged, id);
      forall k | k in b.logged
        ensures IsOver(b', k)
      {
        OverStays(b, l, k);
      }
    } else if StageIs(b', id, false) {
      assert PendingOk(b, id);
      StillWaiting(b, l, id);
      LoggedMoves(b, l);
      hide BookStep, BookOk, NoDup;
      forall k | k in DropLast(b.stages[id].list)
        ensures IsOver(b', k)
      {
        OverStays(b, l, k);
      }
    }
  }

  lemma BookStepOk(b: Book, l: Label)
    requires BookOk(b)
    ensures BookOk(BookStep(b, l))
  {
    hide PendingOk;
    LoggedStepOk(b, l);
    forall id
      ensures PendingOk(BookStep(b, l), id)
    {
      PendingStepOk(b, l, id);
    }
    assert l.Write? && StageIs(b, l.id, false) ==> b.hasFile;
  }

  lemma {:induction false} BookRunOk(hasFile: bool, labels: seq<Label>)
    ensures BookOk(BookRun(hasFile, labels))
  {
    hide BookStep;
    if labels != [] {
      BookRunOk(hasFile, DropLast(labels));
      BookStepOk(BookRun(hasFile, DropLast(labels)), Last(labels));
    }
  }

  // ---- The entries of a run ----

  /** The entry of a request: that of the first label that finishes it. */
  function EntryOf(labels: seq<Label>, id: Id): Option<Json> {
    if labels == [] then None
    else if EntryOf(DropLast(labels), id).Some? then EntryOf(DropLast(labels), id)
    else if Last(labels).Finish? && Last(labels).id == id then Some(Last(labels).entry)
    else None
  }

  ghost predicate HaveEntries(labels: seq<Label>, ids: seq<Id>) {
    forall i :: 0 <= i < |ids| ==> EntryOf(labels, ids[i]).Some?
  }

  /** The entries of a list of requests. */
  ghost function Entries(labels: seq<Label>, ids: seq<Id>): (r: seq<Json>)
    requires HaveEntries(labels, ids)
    ensures |r| == |ids| && forall i :: 0 <= i < |ids| ==> EntryOf(labels, ids[i]) == Some(r[i])
  {
    seq(|ids|, i requires 0 <= i < |ids| => EntryOf(labels, ids[i]).value)
  }

  /** Lists of entries are determined by their requests. */
  lemma EntriesAre(labels: seq<Label>, ids: seq<Id>, entries: seq<Json>)
    requires |entries| == |ids| && forall i :: 0 <= i < |ids| ==> EntryOf(labels, ids[i]) == Some(entries[i])
    ensures HaveEntries(labels, ids) && Entries(labels, ids) == entries
  {
  }

  /** The entry of a request stays as the run goes on. */
  lemma EntryKept(labels: seq<Label>, l: Label, id: Id)
    ensures EntryOf(labels + [l], id) ==
            if EntryOf(labels, id).Some? then EntryOf(labels, id)
            else if l.Finish? && l.id == id then Some(l.entry) else None
  {
    assert DropLast(labels + [l]) == labels;
  }

  lemma EntriesKept(labels: seq<Label>, l: Label, ids: seq<Id>)
    requires HaveEntries(labels, ids)
    ensures HaveEntries(labels + [l], ids) && Entries(labels + [l], ids) == Entries(labels, ids)
  {
    hide EntryOf;
    forall i | 0 <= i < |ids|
      ensures EntryOf(labels + [l], ids[i]) == Some(Entries(labels, ids)[i])
    {
      EntryKept(labels, l, ids[i]);
    }
    EntriesAre(labels + [l], ids, Entries(labels, ids));
  }

  lemma EntriesSnoc(labels: seq<Label>, ids: seq<Id>, id: Id)
    requires HaveEntries(labels, ids) && EntryOf(labels, id).Some?
    ensures HaveEntries(labels, ids + [id])
    ensures Entries(labels, ids + [id]) == Entries(labels, ids) + [EntryOf(labels, id).value]
  {
    hide EntryOf;
    EntriesAre(labels, ids + [id], Entries(labels, ids) + [EntryOf(labels, id).value]);
  }

  /** The content of the file once the entries of a list of requests have been patched in. */
  ghost predicate IsFileWith(file: Option<string>, labels: seq<Label>, ids: seq<Id>, now: Option<string>) {
    HaveEntries(labels, ids) && now == TextAfter(file, Entries(labels, ids))
  }

  lemma FileWithKept(file: Option<string>, labels: seq<Label>, l: Label, ids: seq<Id>, now: Option<string>)
    requires IsFileWith(file, labels, ids, now)
    ensures IsFileWith(file, labels + [l], ids, now)
  {
    hide Entries, EntryOf, TextAfter;
    EntriesKept(labels, l, ids);
  }

  lemma FileWithOneMore(file: Option<string>, labels: seq<Label>, ids: seq<Id>, id: Id, now: Option<string>)
    requires IsFileWith(file, labels, ids, now) && EntryOf(labels, id).Some?
    ensures IsFileWith(file, labels, ids + [id], Some(Patch(now.GetOr(""), Stringify(EntryOf(labels, id).value))))
  {
    hide Entries, EntryOf, Stringify, Patch;
    EntriesSnoc(labels, ids, id);
    assert DropLast(Entries(labels, ids) + [EntryOf(labels, id).value]) == Entries(labels, ids);
  }

  // ---- The text protocol refines the list protocol ----

  /** What a handler holds is what its stage in the list protocol says, for a given initial file. */
  ghost predicate PhaseMatches(s: Disk, b: Book, file: Option<string>, labels: seq<Label>, id: Id) {
    if id !in s.phases || id !in b.stages then id !in s.phases && id !in b.stages && EntryOf(labels, id).None?
    else
      && EntryOf(labels, id).Some?
      && match (s.phases[id], b.stages[id])
         case (Reading(entry), WillRead) => entry == Stringify(EntryOf(labels, id).value)
         case (Writing(text), WillWrite(list)) => IsFileWith(file, labels, list, Some(text))
         case (Done, Over) => true
         case _ => false
  }

  ghost predicate Corresponds(s: Disk, b: Book, file: Option<string>, labels: seq<Label>) {
    && s.fileExists == b.hasFile == s.file.Some?
    && (forall id :: PhaseMatches(s, b, file, labels, id))
    && IsFileWith(file, labels, b.logged, s.file)
  }

  /** A step moves its own handler only. */
  lemma OthersStay(s: Disk, b: Book, l: Label, id: Id)
    requires id != l.id
    ensures var s', b' := Step(s, l), BookStep(b, l);
            && (id in s'.phases <==> id in s.phases) && (id in s.phases ==> s'.phases[id] == s.phases[id])
            && (id in b'.stages <==> id in b.stages) && (id in b.stages ==> b'.stages[id] == b.stages[id])
  {
  }

  /** What a handler holds stays right while its phase and stage stay as they are. */
  lemma PhaseKept(
      s: Disk, b: Book, s': Disk, b': Book, file: Option<string>, labels: seq<Label>, l: Label, id: Id)
    requires PhaseMatches(s, b, file, labels, id) && (l.Finish? && l.id == id ==> id in s.phases)
    requires id in s'.phases <==> id in s.phases
    requires id in s.phases ==> s'.phases[id] == s.phases[id]
    requires id in b'.stages <==> id in b.stages
    requires id in b.stages ==> b'.stages[id] == b.stages[id]
    ensures PhaseMatches(s', b', file, labels + [l], id)
  {
    hide IsFileWith, Stringify, EntryOf;
    EntryKept(labels, l, id);
    if id in s.phases && s.phases[id].Writing? {
      FileWithKept(file, labels, l, b.stages[id].list, Some(s.phases[id].text));
    }
  }

  /** A step of another request leaves what a handler holds as it is. */
  lemma OtherPhaseKept(s: Disk, b: Book, file: Option<string>, labels: seq<Label>, l: Label, id: Id)
    requires Corresponds(s, b, file, labels) && id != l.id
    ensures PhaseMatches(Step(s, l), BookStep(b, l), file, labels + [l], id)
  {
    assert PhaseMatches(s, b, file, labels, id);
    hide *;
    OthersStay(s, b, l, id);
    PhaseKept(s, b, Step(s, l), BookStep(b, l), file, labels, l, id);
  }

  lemma ReadStep(s: Disk, b: Book, id: Id)
    requires At(s, id, true) && s.file.Some? && StageIs(b, id, true)
    ensures var s', b' := Step(s, Read(id)), BookStep(b, Read(id));
            && id in s'.phases && s'.phases[id] == Writing(Patch(s.file.value, s.phases[id].entry))
            && id in b'.stages && b'.stages[id] == WillWrite(b.logged + [id])
  {
  }

  /** A read takes the file as it is and keeps the patched text. */
  lemma ReadMoves(s: Disk, b: Book, file: Option<string>, labels: seq<Label>, id: Id)
    requires Corresponds(s, b, file, labels) && At(s, id, true) && s.file.Some?
    ensures PhaseMatches(Step(s, Read(id)), BookStep(b, Read(id)), file, labels + [Read(id)], id)
  {
    assert PhaseMatches(s, b, file, labels, id);
    ReadStep(s, b, id);
    hide IsFileWith, Stringify, Patch, EntryOf, Step, BookStep, Corresponds;
    EntryKept(labels, Read(id), id);
    FileWithOneMore(file, labels, b.logged, id, s.file);
    FileWithKept(file, labels, Read(id), b.logged + [id], Some(Patch(s.file.value, s.phases[id].entry)));
  }

  lemma SamePhases(s: Disk, b: Book, file: Option<string>, labels: seq<Label>, id: Id)
    requires BookOk(b) && Corresponds(s, b, file, labels)
    ensures b.hasFile == s.file.Some? && (At(s, id, true) ==> b.hasFile)
    ensures At(s, id, true) <==> StageIs(b, id, true)
    ensures At(s, id, false) <==> StageIs(b, id, false)
    ensures id in s.phases <==> id in b.stages
  {
    assert PhaseMatches(s, b, file, labels, id);
    hide IsFileWith, EntryOf, PendingOk, NoDup;
  }

  /** A handler that starts reads next, or is done. */
  lemma StartStep(s: Disk, b: Book, l: Label)
    requires l.Finish? && l.id !in s.phases && l.id !in b.stages && s.fileExists == b.hasFile
    ensures var s', b' := Step(s, l), BookStep(b, l);
            && l.id in s'.phases && l.id in b'.stages
            && ((s'.phases[l.id] == Reading(Stringify(l.entry)) && b'.stages[l.id] == WillRead)
                || (s'.phases[l.id] == Done && b'.stages[l.id] == Over))
  {
    hide Stringify;
  }

  lemma EndStep(s: Disk, b: Book, l: Label)
    requires l.ReadFails? || l.Write? || l.WriteFails?
    requires At(s, l.id, l.ReadFails?) && StageIs(b, l.id, l.ReadFails?)
    ensures var s', b' := Step(s, l), BookStep(b, l);
            l.id in s'.phases && l.id in b'.stages && s'.phases[l.id] == Done && b'.stages[l.id] == Over
  {
  }

  /** A handler that starts or ends. */
  lemma OtherMoves(s: Disk, b: Book, file: Option<string>, labels: seq<Label>, l: Label)
    requires BookOk(b) && Corresponds(s, b, file, labels) && !l.Read?
    requires if l.Finish? then l.id !in s.phases else At(s, l.id, l.ReadFails?)
    ensures PhaseMatches(Step(s, l), BookStep(b, l), file, labels + [l], l.id)
  {
    SamePhases(s, b, file, labels, l.id);
    assert PhaseMatches(s, b, file, labels, l.id);
    EntryKept(labels, l, l.id);
    if l.Finish? {
      StartStep(s, b, l);
    } else {
      EndStep(s, b, l);
    }
    hide Step, BookStep, Corresponds, IsFileWith, Stringify, EntryOf, BookOk, At;
  }

  /** A step that is not possible. */
  lemma NoMove(s: Disk, b: Book, l: Label)
    requires b.hasFile == s.file.Some? && (At(s, l.id, true) ==> b.hasFile)
    requires At(s, l.id, true) <==> StageIs(b, l.id, true)
    requires At(s, l.id, false) <==> StageIs(b, l.id, false)
    requires l.id in s.phases <==> l.id in b.stages
    requires match l
             case Finish(id, _, _) => id in s.phases
             case Read(id) => !At(s, id, true)
             case ReadFails(id) => !At(s, id, true)
             case Write(id) => !At(s, id, false)
             case WriteFails(id) => !At(s, id, false)
    ensures Step(s, l) == s && BookStep(b, l) == b
  {
  }

  /** A step takes its handler to the next phase as the list protocol says. */
  lemma OwnPhaseMoves(s: Disk, b: Book, file: Option<string>, labels: seq<Label>, l: Label)
    requires BookOk(b) && Corresponds(s, b, file, labels)
    ensures PhaseMatches(Step(s, l), BookStep(b, l), file, labels + [l], l.id)
  {
    SamePhases(s, b, file, labels, l.id);
    assert PhaseMatches(s, b, file, labels, l.id);
    hide *;
    if l.Read? && At(s, l.id, true) {
      ReadMoves(s, b, file, labels, l.id);
      assert l == Read(l.id);
    } else if !l.Read? && if l.Finish? then l.id !in s.phases else At(s, l.id, l.ReadFails?) {
      OtherMoves(s, b, file, labels, l);
    } else {
      NoMove(s, b, l);
      PhaseKept(s, b, s, b, file, labels, l, l.id);
    }
  }

  lemma FileMoves(s: Disk, b: Book, file: Option<string>, labels: seq<Label>, l: Label)
    requires BookOk(b) && Corresponds(s, b, file, labels)
    ensures IsFileWith(file, labels + [l], BookStep(b, l).logged, Step(s, l).file)
  {
    assert PhaseMatches(s, b, file, labels, l.id);
    hide IsFileWith, Stringify, EntryOf;
    FileWithKept(file, labels, l, b.logged, s.file);
    EntryKept(labels, l, l.id);
    if l.Write? && At(s, l.id, false) {
      FileWithKept(file, labels, l, b.stages[l.id].list, Some(s.phases[l.id].text));
    } else if Writes(s, l) {
      assert b.logged == [] && [] + [l.id] == [l.id] && Text.Trim("") == "";
      FileWithOneMore(file, labels + [l], b.logged, l.id, s.file);
    }
  }

  lemma StepCorresponds(s: Disk, b: Book, file: Option<string>, labels: seq<Label>, l: Label)
    requires BookOk(b) && Corresponds(s, b, file, labels)
    ensures Corresponds(Step(s, l), BookStep(b, l), file, labels + [l])
  {
    assert PhaseMatches(s, b, file, labels, l.id);
    FileMoves(s, b, file, labels, l);
    forall id
      ensures PhaseMatches(Step(s, l), BookStep(b, l), file, labels + [l], id)
    {
      hide *;
      if id == l.id {
        OwnPhaseMoves(s, b, file, labels, l);
      } else {
        OtherPhaseKept(s, b, file, labels, l, id);
      }
    }
    hide IsFileWith, Stringify, Patch, EntryOf, BookOk;
  }

  lemma EmptyCorresponds(file: Option<string>)
    ensures Corresponds(Run(file, []), BookRun(file.Some?, []), file, [])
  {
    assert Entries([], []) == [];
  }

  /** In every run, from any file, the text is the initial one with the entries of the logged requests patched in. */
  lemma {:induction false} RunCorresponds(file: Option<string>, labels: seq<Label>)
    ensures Corresponds(Run(file, labels), BookRun(file.Some?, labels), file, labels)
    ensures BookOk(BookRun(file.Some?, labels))
  {
    BookRunOk(file.Some?, labels);
    if labels == [] {
      EmptyCorresponds(file);
    } else {
      hide BookOk, Corresponds, Step, BookStep;
      var before := DropLast(labels);
      RunCorresponds(file, before);
      StepCorresponds(Run(file, before), BookRun(file.Some?, before), file, before, Last(labels));
      assert before + [Last(labels)] == labels;
    }
  }

  // ---- What the file holds ----

  /** The requests whose entries have been patched into the initial file, in order. */
  function Logged(file: Option<string>, labels: seq<Label>): seq<Id> {
    BookRun(file.Some?, labels).logged
  }

  /** The last handler that succeeded in writing the file. */
  function LastWriter(file: Option<string>, labels: seq<Label>): Option<Id> {
    if labels == [] then None
    else if Writes(Run(file, DropLast(labels)), Last(labels)) then Some(Last(labels).id)
    else LastWriter(file, DropLast(labels))
  }

  lemma WriterOfStep(s: Disk, b: Book, file: Option<string>, labels: seq<Label>, l: Label)
    requires BookOk(b) && Corresponds(s, b, file, labels)
    ensures var logged := BookStep(b, l).logged;
            if Writes(s, l) then logged != [] && Last(logged) == l.id else logged == b.logged
    ensures At(s, l.id, false) <==> StageIs(b, l.id, false)
    ensures Writes(s, l) && l.Finish? ==> b.logged == [] && BookStep(b, l).logged == [l.id]
  {
    assert PendingOk(b, l.id) && PhaseMatches(s, b, file, labels, l.id);
    hide IsFileWith, Stringify, EntryOf;
  }

  lemma {:induction false} LastWriterIsLast(file: Option<string>, labels: seq<Label>)
    ensures var logged := Logged(file, labels);
            LastWriter(file, labels) == if logged == [] then None else Some(Last(logged))
  {
    hide Step, BookStep, At, BookOk, Corresponds, Writes;
    if labels != [] {
      var before := DropLast(labels);
      LastWriterIsLast(file, before);
      RunCorresponds(file, before);
      WriterOfStep(Run(file, before), BookRun(file.Some?, before), file, before, Last(labels));
    }
  }

  ghost predicate Loggable(labels: seq<Label>) {
    forall i :: 0 <= i < |labels| ==> (labels[i].Finish? ==> Writable(labels[i].entry))
  }

  lemma {:induction false} EntryWritable(labels: seq<Label>, id: Id)
    requires Loggable(labels) && EntryOf(labels, id).Some?
    ensures Writable(EntryOf(labels, id).value)
  {
    hide Writable;
    if EntryOf(DropLast(labels), id).Some? {
      EntryWritable(DropLast(labels), id);
    }
  }

  lemma EntriesWritable(labels: seq<Label>, ids: seq<Id>)
    requires Loggable(labels) && HaveEntries(labels, ids)
    ensures AllWritable(Entries(labels, ids))
  {
    hide Writable, EntryOf, Loggable;
    forall i | 0 <= i < |ids|
      ensures Writable(Entries(labels, ids)[i])
    {
      EntryWritable(labels, ids[i]);
    }
  }

  /** The logged requests have finished, each once, and the file is the initial one with their entries patched in. */
  lemma LoggedFacts(file: Option<string>, labels: seq<Label>)
    ensures var s, logged := Run(file, labels), Logged(file, labels);
            && NoDup(logged) && HaveEntries(labels, logged)
            && (forall i :: 0 <= i < |logged| ==> logged[i] in s.phases && s.phases[logged[i]].Done?)
            && s.file == TextAfter(file, Entries(labels, logged))
  {
    hide Step, BookStep, Stringify, Patch, EntryOf, TextAfter;
    var s, b := Run(file, labels), BookRun(file.Some?, labels);
    RunCorresponds(file, labels);
    forall i | 0 <= i < |b.logged|
      ensures b.logged[i] in s.phases && s.phases[b.logged[i]].Done?
    {
      assert b.logged[i] in b.logged && IsOver(b, b.logged[i]) && PhaseMatches(s, b, file, labels, b.logged[i]);
    }
  }

  /**
   * In every interleaving, from any legal file, the file is a JSON array of the initial
   * values and then the entries of distinct requests that have finished, the last
   * writer's last; the one exception is an empty array with space inside, which the
   * first write turns for good into text that is no JSON.
   */
  lemma InterleavingsAreSafe(file: Option<string>, base: seq<Json>, labels: seq<Label>)
    requires HoldsArray(file, base) && Loggable(labels)
    ensures var s, logged := Run(file, labels), Logged(file, labels);
            && NoDup(logged) && HaveEntries(labels, logged)
            && (forall i :: 0 <= i < |logged| ==> logged[i] in s.phases && s.phases[logged[i]].Done?)
            && LastWriter(file, labels) == (if logged == [] then None else Some(Last(logged)))
            && if logged == [] then s.file == file
               else
                 && s.file.Some?
                 && ParseJson(s.file.value) ==
                    (if PatchesWell(file, base) then Some(Arr(base + Entries(labels, logged))) else None)
                 && (Stringified(file, base) && AllWritable(base) ==>
                       s.file.value == Stringify(Arr(base + Entries(labels, logged))))
  {
    hide Run, BookRun, Stringify, HoldsArray, Stringified, EntryOf, ParseJson, Spoiled, AllWritable, PatchesWell;
    LoggedFacts(file, labels);
    LastWriterIsLast(file, labels);
    var logged := Logged(file, labels);
    EntriesWritable(labels, logged);
    var entries := Entries(labels, logged);
    assert |entries| == |logged|;
    if logged != [] {
      PatchedFile(file, base, entries);
      if Stringified(file, base) && AllWritable(base) {
        StringifiedFile(file, base, entries);
      }
    }
  }

  /** From a blank or missing file, or one that JSON.stringify wrote, every interleaving leaves one as it writes it. */
  lemma StringifiedStays(file: Option<string>, base: seq<Json>, labels: seq<Label>)
    requires Stringified(file, base) && AllWritable(base) && Loggable(labels)
    ensures var s, logged := Run(file, labels), Logged(file, labels);
            && HaveEntries(labels, logged)
            && (logged == [] ==> s.file == file)
            && (logged != [] ==>
                  var all := Arr(base + Entries(labels, logged));
                  s.file == Some(Stringify(all)) && ParseJson(s.file.value) == Some(all))
  {
    hide Run, BookRun, Stringify, HoldsArray, Stringified, EntryOf, ParseJson, Spoiled, AllWritable, PatchesWell;
    StringifiedHolds(file, base);
    InterleavingsAreSafe(file, base, labels);
  }

  // ---- Lost updates ----

  /** Whether some handler has written the file since this one read it. */
  predicate WrittenSinceRead(file: Option<string>, labels: seq<Label>, id: Id) {
    if labels == [] then false
    else
      var s, l := Run(file, DropLast(labels)), Last(labels);
      if l == Read(id) && At(s, id, true) && s.file.Some? then false
      else Writes(s, l) || WrittenSinceRead(file, DropLast(labels), id)
  }

  /** A pending list is still the file's list and its own request. */
  ghost predicate IsCurrent(b: Book, id: Id) {
    id in b.stages && b.stages[id].WillWrite? && b.stages[id].list != [] && DropLast(b.stages[id].list) == b.logged
  }

  /** A write that is not its own makes a pending list outdated, whatever it was before. */
  lemma WriteOutdates(b: Book, l: Label, id: Id)
    requires BookOk(b) && StageIs(b, id, false) && StageIs(BookStep(b, l), id, false)
    requires b.stages[id] == BookStep(b, l).stages[id]
    requires BookStep(b, l).logged != [] && Last(BookStep(b, l).logged) == l.id && !IsOver(b, l.id)
    ensures !IsCurrent(BookStep(b, l), id)
  {
    hide BookStep;
    assert PendingOk(b, id);
    var list := b.stages[id].list;
    assert l.id in BookStep(b, l).logged;
    assert l.id !in DropLast(list);
  }

  lemma ReadIsCurrent(b: Book, id: Id)
    requires StageIs(b, id, true)
    ensures IsCurrent(BookStep(b, Read(id)), id)
  {
    assert DropLast(b.logged + [id]) == b.logged;
  }

  lemma CurrentStep(s: Disk, b: Book, file: Option<string>, labels: seq<Label>, l: Label, id: Id)
    requires BookOk(b) && Corresponds(s, b, file, labels) && StageIs(BookStep(b, l), id, false)
    ensures var isRead := l == Read(id) && At(s, id, true) && s.file.Some?;
            && (isRead ==> IsCurrent(BookStep(b, l), id))
            && (!isRead && Writes(s, l) ==> !IsCurrent(BookStep(b, l), id))
            && (!isRead && !Writes(s, l) ==>
                  StageIs(b, id, false) && (IsCurrent(BookStep(b, l), id) <==> IsCurrent(b, id)))
  {
    hide Step, BookStep, BookOk, Corresponds;
    WriterOfStep(s, b, file, labels, l);
    SamePhases(s, b, file, labels, id);
    SamePhases(s, b, file, labels, l.id);
    if l == Read(id) && StageIs(b, id, true) {
      ReadIsCurrent(b, id);
    } else {
      StillWaiting(b, l, id);
      if Writes(s, l) {
        WriteOutdates(b, l, id);
      }
    }
  }

  /** A pending list is current exactly if no handler has written since it was read. */
  lemma {:induction false} CurrentExactly(file: Option<string>, labels: seq<Label>, id: Id)
    requires StageIs(BookRun(file.Some?, labels), id, false)
    ensures IsCurrent(BookRun(file.Some?, labels), id) <==> !WrittenSinceRead(file, labels, id)
  {
    hide Step, BookStep, BookOk, Corresponds, Writes, At, IsCurrent;
    var before := DropLast(labels);
    var s, b := Run(file, before), BookRun(file.Some?, before);
    RunCorresponds(file, before);
    CurrentStep(s, b, file, before, Last(labels), id);
    if StageIs(b, id, false) {
      CurrentExactly(file, before, id);
    }
  }

  ghost predicate KeepsAll(before: seq<Id>, after: seq<Id>) {
    forall k :: k in before ==> k in after
  }

  /**
   * A write loses no request that is in the file exactly when no other handler has
   * written since its handler read the file; then it adds its own request at the end.
   */
  lemma WriteLosesNothing(file: Option<string>, labels: seq<Label>, id: Id)
    requires At(Run(file, labels), id, false)
    ensures var before, after := Logged(file, labels), Logged(file, labels + [Write(id)]);
            && (KeepsAll(before, after) <==> !WrittenSinceRead(file, labels, id))
            && (after == before + [id] <==> !WrittenSinceRead(file, labels, id))
  {
    var b := BookRun(file.Some?, labels);
    RunCorresponds(file, labels);
    WriterOfStep(Run(file, labels), b, file, labels, Write(id));
    CurrentExactly(file, labels, id);
    assert PendingOk(b, id);
    assert DropLast(labels + [Write(id)]) == labels;
    assert id !in b.logged;
    hide Run, WrittenSinceRead, Corresponds, At, Writes;
    LossOf(b.logged, b.stages[id].list, id);
    assert Logged(file, labels + [Write(id)]) == b.stages[id].list;
  }

  lemma LossOf(logged: seq<Id>, list: seq<Id>, id: Id)
    requires list != [] && Last(list) == id && id !in logged
    requires DropLast(list) == logged || (logged != [] && Last(logged) !in DropLast(list))
    ensures KeepsAll(logged, list) <==> DropLast(list) == logged
    ensures list == logged + [id] <==> DropLast(list) == logged
  {
    assert list == DropLast(list) + [id];
    if DropLast(list) != logged {
      assert Last(logged) in logged && Last(logged) !in list;
      assert DropLast(logged + [id]) == logged;
    }
  }

  /** All handlers that succeeded in writing the file, in order. */
  function Writers(file: Option<string>, labels: seq<Label>): seq<Id> {
    if labels == [] then []
    else
      Writers(file, DropLast(labels)) +
      (if Writes(Run(file, DropLast(labels)), Last(labels)) then [Last(labels).id] else [])
  }

  /** Step n overwrites a file that another handler has written since the handler of the step read it. */
  predicate Overwrites(file: Option<string>, labels: seq<Label>, n: nat)
    requires n < |labels|
  {
    && labels[n].Write? && At(Run(file, labels[..n]), labels[n].id, false)
    && WrittenSinceRead(file, labels[..n], labels[n].id)
  }

  /** No write falls between the read and the write of any handler. */
  ghost predicate AlwaysCurrent(file: Option<string>, labels: seq<Label>) {
    forall n :: 0 <= n < |labels| ==> !Overwrites(file, labels, n)
  }

  lemma AlwaysCurrentStep(file: Option<string>, labels: seq<Label>)
    requires labels != []
    ensures AlwaysCurrent(file, labels) <==>
            AlwaysCurrent(file, DropLast(labels)) && !Overwrites(file, labels, |labels| - 1)
  {
    hide At, Run, WrittenSinceRead;
    var before := DropLast(labels);
    forall n | 0 <= n < |before|
      ensures Overwrites(file, labels, n) <==> Overwrites(file, before, n)
    {
      assert labels[..n] == before[..n];
    }
  }

  /** Two requests whose handlers are done, no list holding both: one of them is lost for good. */
  ghost predicate Apart(b: Book, w: Id, h: Id) {
    && w != h && IsOver(b, w) && IsOver(b, h)
    && !(w in b.logged && h in b.logged)
    && forall id :: id in b.stages && b.stages[id].WillWrite? ==> !(w in b.stages[id].list && h in b.stages[id].list)
  }

  lemma StaysApart(b: Book, l: Label, w: Id, h: Id)
    requires Apart(b, w, h)
    ensures Apart(BookStep(b, l), w, h)
  {
  }

  /** A write over a file that has changed keeps its request apart from the last one written. */
  lemma OverwritingSetsApart(b: Book, id: Id)
    requires BookOk(b) && StageIs(b, id, false) && !IsCurrent(b, id)
    ensures b.logged != [] && Apart(BookStep(b, Write(id)), Last(b.logged), id)
  {
    assert PendingOk(b, id);
    var w, list := Last(b.logged), b.stages[id].list;
    assert w in b.logged && IsOver(b, w);
    assert list == DropLast(list) + [id];
    forall k | k in b.stages && k != id && b.stages[k].WillWrite?
      ensures id !in b.stages[k].list
    {
      assert PendingOk(b, k);
      assert b.stages[k].list == DropLast(b.stages[k].list) + [k];
      assert id in DropLast(b.stages[k].list) ==> IsOver(b, id);
    }
  }

  lemma {:induction false} LastWriterWrote(file: Option<string>, labels: seq<Label>)
    ensures LastWriter(file, labels).Some? ==> LastWriter(file, labels).value in Writers(file, labels)
  {
    hide Writes;
    if labels != [] {
      LastWriterWrote(file, DropLast(labels));
    }
  }

  /** The step that overwrites sets its request apart from the last writer's. */
  lemma OverwritingStep(file: Option<string>, before: seq<Label>, id: Id) returns (w: Id)
    requires At(Run(file, before), id, false) && WrittenSinceRead(file, before, id)
    ensures Apart(BookStep(BookRun(file.Some?, before), Write(id)), w, id) && w in Writers(file, before)
  {
    hide BookStep, Step, Apart, BookOk, Corresponds, IsCurrent;
    var b := BookRun(file.Some?, before);
    RunCorresponds(file, before);
    WriterOfStep(Run(file, before), b, file, before, Write(id));
    CurrentExactly(file, before, id);
    OverwritingSetsApart(b, id);
    LastWriterIsLast(file, before);
    LastWriterWrote(file, before);
    w := Last(b.logged);
  }

  /** Once some handler has overwritten a change, two successful writers are never again in a list together. */
  lemma {:induction false} OverwritingIsForGood(file: Option<string>, labels: seq<Label>) returns (w: Id, h: Id)
    requires !AlwaysCurrent(file, labels)
    ensures Apart(BookRun(file.Some?, labels), w, h) && w in Writers(file, labels) && h in Writers(file, labels)
  {
    var before, l := DropLast(labels), Last(labels);
    AlwaysCurrentStep(file, labels);
    assert labels[..|labels| - 1] == before;
    hide AlwaysCurrent, BookStep, Step, Apart, At, WrittenSinceRead;
    if !AlwaysCurrent(file, before) {
      w, h := OverwritingIsForGood(file, before);
      StaysApart(BookRun(file.Some?, before), l, w, h);
    } else {
      h := l.id;
      w := OverwritingStep(file, before, h);
      assert l == Write(h) && Writes(Run(file, before), l);
    }
  }

  /** A write that does not overwrite a change adds its request to the file's. */
  lemma CurrentWrite(file: Option<string>, before: seq<Label>, l: Label)
    requires !(l.Write? && At(Run(file, before), l.id, false) && WrittenSinceRead(file, before, l.id))
    ensures Logged(file, before + [l]) ==
            Logged(file, before) + if Writes(Run(file, before), l) then [l.id] else []
  {
    hide Step, BookStep, BookOk, Corresponds, WrittenSinceRead, At;
    var b := BookRun(file.Some?, before);
    assert DropLast(before + [l]) == before;
    RunCorresponds(file, before);
    WriterOfStep(Run(file, before), b, file, before, l);
    if l.Write? && At(Run(file, before), l.id, false) {
      WriteLosesNothing(file, before, l.id);
      assert l == Write(l.id);
    }
    assert [] + [l.id] == [l.id] && b.logged + [] == b.logged;
  }

  /**
   * A run logs all of its successful writers, in order, exactly when no write falls
   * between the read and the write of any of them.
   */
  lemma {:induction false} NothingLostExactly(file: Option<string>, labels: seq<Label>)
    ensures Logged(file, labels) == Writers(file, labels) <==> AlwaysCurrent(file, labels)
  {
    if !AlwaysCurrent(file, labels) {
      var w, h := OverwritingIsForGood(file, labels);
    } else if labels != [] {
      var before, l := DropLast(labels), Last(labels);
      AlwaysCurrentStep(file, labels);
      assert labels[..|labels| - 1] == before && before + [l] == labels;
      assert !Overwrites(file, labels, |labels| - 1);
      hide AlwaysCurrent, Step, BookRun, At, WrittenSinceRead;
      NothingLostExactly(file, before);
      CurrentWrite(file, before, l);
    }
  }

  // ---- One at a time, and overlapping ----

  datatype Request = Request(id: Id, entry: Json)

  /** Handlers that run one at a time: each finishes, reads and writes before the next. */
  function OneAtATime(requests: seq<Request>): seq<Label> {
    if requests == [] then []
    else
      var r := Last(requests);
      OneAtATime(DropLast(requests)) + [Finish(r.id, r.entry, true)] + [Read(r.id)] + [Write(r.id)]
  }

  function Ids(requests: seq<Request>): (r: seq<Id>)
    ensures |r| == |requests| && forall i :: 0 <= i < |r| ==> r[i] == requests[i].id
  {
    if requests == [] then [] else Ids(DropLast(requests)) + [Last(requests).id]
  }

  ghost function EntriesIn(requests: seq<Request>): seq<Json> {
    seq(|requests|, i requires 0 <= i < |requests| => requests[i].entry)
  }

  lemma BookRunSnoc(hasFile: bool, labels: seq<Label>, l: Label)
    ensures BookRun(hasFile, labels + [l]) == BookStep(BookRun(hasFile, labels), l)
  {
    assert DropLast(labels + [l]) == labels;
  }

  /** A handler that runs undisturbed adds its request at the end. */
  lemma UndisturbedHandler(b: Book, r: Request)
    requires BookOk(b) && r.id !in b.stages
    ensures var b' := BookStep(BookStep(BookStep(b, Finish(r.id, r.entry, true)), Read(r.id)), Write(r.id));
            b'.logged == b.logged + [r.id] && b'.stages.Keys == b.stages.Keys + {r.id}
  {
    hide PendingOk;
    if !b.hasFile {
      assert b.logged == [] && [] + [r.id] == [r.id];
    }
  }

  /** One at a time, every request is logged, in order. */
  lemma {:induction false} OneAtATimeLogsAll(file: Option<string>, requests: seq<Request>)
    requires NoDup(Ids(requests))
    ensures Logged(file, OneAtATime(requests)) == Ids(requests)
    ensures forall k :: k in BookRun(file.Some?, OneAtATime(requests)).stages ==> k in Ids(requests)
  {
    hide BookStep, BookOk;
    if requests != [] {
      var earlier, r := DropLast(requests), Last(requests);
      var ids, before := Ids(requests), OneAtATime(earlier);
      assert ids == Ids(earlier) + [r.id];
      assert forall i :: 0 <= i < |Ids(earlier)| ==> ids[i] == Ids(earlier)[i];
      assert ids[|ids| - 1] == r.id;
      OneAtATimeLogsAll(file, earlier);
      BookRunOk(file.Some?, before);
      UndisturbedHandler(BookRun(file.Some?, before), r);
      hide BookRun;
      BookRunSnoc(file.Some?, before, Finish(r.id, r.entry, true));
      BookRunSnoc(file.Some?, before + [Finish(r.id, r.entry, true)], Read(r.id));
      BookRunSnoc(file.Some?, before + [Finish(r.id, r.entry, true)] + [Read(r.id)], Write(r.id));
    }
  }

  /** A request that has not finished yet has no entry. */
  lemma NoEntryYet(file: Option<string>, labels: seq<Label>, id: Id)
    requires id !in BookRun(file.Some?, labels).stages
    ensures EntryOf(labels, id) == None
  {
    hide BookRun, Run, BookOk, IsFileWith;
    RunCorresponds(file, labels);
    assert PhaseMatches(Run(file, labels), BookRun(file.Some?, labels), file, labels, id);
  }

  lemma EntryOfHandler(labels: seq<Label>, r: Request, id: Id)
    ensures EntryOf(labels + [Finish(r.id, r.entry, true)] + [Read(r.id)] + [Write(r.id)], id) ==
            if EntryOf(labels, id).Some? then EntryOf(labels, id) else if id == r.id then Some(r.entry) else None
  {
    hide EntryOf;
    EntryKept(labels, Finish(r.id, r.entry, true), id);
    EntryKept(labels + [Finish(r.id, r.entry, true)], Read(r.id), id);
    EntryKept(labels + [Finish(r.id, r.entry, true)] + [Read(r.id)], Write(r.id), id);
  }

  lemma {:induction false} OneAtATimeEntries(requests: seq<Request>, i: nat)
    requires NoDup(Ids(requests)) && i < |requests|
    ensures EntryOf(OneAtATime(requests), requests[i].id) == Some(requests[i].entry)
  {
    var earlier, r := DropLast(requests), Last(requests);
    assert Ids(requests)[..|earlier|] == Ids(earlier);
    assert NoDup(Ids(earlier));
    EntryOfHandler(OneAtATime(earlier), r, requests[i].id);
    if i < |earlier| {
      OneAtATimeEntries(earlier, i);
    } else {
      OneAtATimeLogsAll(None, earlier);
      assert r.id !in Ids(earlier);
      NoEntryYet(None, OneAtATime(earlier), r.id);
    }
  }

  /** One at a time, the file ends up with the entries of all requests patched in, in order. */
  lemma OneAtATimeAppends(file: Option<string>, base: seq<Json>, requests: seq<Request>)
    requires NoDup(Ids(requests))
    ensures Run(file, OneAtATime(requests)).file == TextAfter(file, EntriesIn(requests))
    ensures HoldsArray(file, base) && PatchesWell(file, base) && AllWritable(EntriesIn(requests)) && requests != [] ==>
              ParseJson(TextAfter(file, EntriesIn(requests)).value) == Some(Arr(base + EntriesIn(requests)))
  {
    hide Run, BookRun, OneAtATime, EntryOf, TextAfter, HoldsArray, PatchesWell, Writable, ParseJson, Spoiled;
    var labels := OneAtATime(requests);
    OneAtATimeLogsAll(file, requests);
    LoggedFacts(file, labels);
    forall i | 0 <= i < |requests|
      ensures EntryOf(labels, Ids(requests)[i]) == Some(EntriesIn(requests)[i])
    {
      OneAtATimeEntries(requests, i);
    }
    EntriesAre(labels, Ids(requests), EntriesIn(requests));
    if HoldsArray(file, base) && AllWritable(EntriesIn(requests)) && requests != [] {
      assert |EntriesIn(requests)| > 0;
      PatchedFile(file, base, EntriesIn(requests));
    }
  }

  /** Two handlers that read before either writes: only the entry of the one that writes last remains. */
  lemma OverlapLosesUpdate(data: string, base: seq<Json>, a: Id, x: Json, b: Id, y: Json)
    requires HoldsArray(Some(data), base) && PatchesWell(Some(data), base) && Writable(x) && Writable(y) && a != b
    ensures var labels := [Finish(a, x, true), Finish(b, y, true), Read(a), Read(b), Write(a), Write(b)];
            var t := Run(Some(data), labels).file;
            t == Some(Patch(data, Stringify(y))) && ParseJson(t.value) == Some(Arr(base + [y]))
  {
    FirstPatch(Some(data), base, y);
    hide *;
    OverlapText(data, a, x, b, y);
  }

  lemma OverlapText(data: string, a: Id, x: Json, b: Id, y: Json)
    requires a != b
    ensures Run(Some(data), [Finish(a, x, true), Finish(b, y, true), Read(a), Read(b), Write(a), Write(b)]).file ==
            Some(Patch(data, Stringify(y)))
  {
    BothRead(data, a, x, b, y);
    hide Stringify, Patch, Run;
    EmptyRun(Some(data));
    FourSteps(Some(data), Finish(a, x, true), Finish(b, y, true), Read(a), Read(b));
    TwoSteps(Some(data), [Finish(a, x, true), Finish(b, y, true), Read(a), Read(b)], Write(a), Write(b));
    assert [Finish(a, x, true), Finish(b, y, true), Read(a), Read(b)] + [Write(a), Write(b)] ==
           [Finish(a, x, true), Finish(b, y, true), Read(a), Read(b), Write(a), Write(b)];
  }

  lemma TwoSteps(file: Option<string>, labels: seq<Label>, x: Label, y: Label)
    ensures Run(file, labels + [x, y]) == Step(Step(Run(file, labels), x), y)
  {
    hide Step, Run;
    RunSnoc(file, labels, x);
    RunSnoc(file, labels + [x], y);
    assert labels + [x] + [y] == labels + [x, y];
  }

  /** Two handlers that have both read the same text. */
  lemma BothRead(t: string, a: Id, x: Json, b: Id, y: Json)
    requires a != b
    ensures var started := Step(Step(Disk(Some(t), true, map[]), Finish(a, x, true)), Finish(b, y, true));
            Step(Step(started, Read(a)), Read(b)) ==
            Disk(Some(t), true, map[a := Writing(Patch(t, Stringify(x))), b := Writing(Patch(t, Stringify(y)))])
  {
    hide Patch, Stringify;
    var s2 := Disk(Some(t), true, map[a := Reading(Stringify(x)), b := Reading(Stringify(y))]);
    assert Step(Step(Disk(Some(t), true, map[]), Finish(a, x, true)), Finish(b, y, true)) == s2;
    var s3 := Disk(Some(t), true, map[a := Writing(Patch(t, Stringify(x))), b := Reading(Stringify(y))]);
    assert Step(s2, Read(a)) == s3;
  }

  lemma FourSteps(file: Option<string>, x: Label, y: Label, z: Label, w: Label)
    ensures Run(file, [x, y, z, w]) == Step(Step(Step(Step(Run(file, []), x), y), z), w)
  {
    hide Step, Run;
    TwoSteps(file, [], x, y);
    TwoSteps(file, [x, y], z, w);
    assert [] + [x, y] == [x, y] && [x, y] + [z, w] == [x, y, z, w];
  }

  lemma EmptyRun(file: Option<string>)
    ensures Run(file, []) == Disk(file, file.Some?, map[])
  {
  }

  lemma RunSnoc(file: Option<string>, labels: seq<Label>, l: Label)
    ensures Run(file, labels + [l]) == Step(Run(file, labels), l)
  {
    assert DropLast(labels + [l]) == labels;
  }

  // ---- The logging module ----

  /** While a handler reads, there is a file. */
  lemma PendingMeansFile(file: Option<string>, labels: seq<Label>, id: Id)
    requires At(Run(file, labels), id, true)
    ensures Run(file, labels).file.Some?
  {
    hide BookRun, Run, IsFileWith, EntryOf;
    RunCorresponds(file, labels);
    assert PhaseMatches(Run(file, labels), BookRun(file.Some?, labels), file, labels, id);
  }

  /**
   * The module's state: its flag, the log file, and what each pending handler holds.
   * The ghost history makes it a run of the protocol, so the results above hold of it.
   */
  class JsonLogger {
    var file: Option<string>
    var fileExists: bool
    var phases: map<Id, Phase>

    ghost var initial: Option<string>
    ghost var history: seq<Label>

    ghost predicate Valid()
      reads this
    {
      Disk(file, fileExists, phases) == Run(initial, history)
    }

    constructor (existing: Option<string>)
      ensures Valid() && initial == existing && history == []
    {
      file, fileExists, phases := existing, existing.Some?, map[];
      initial, history := existing, [];
    }

    /** The finish handler: create the file on first use, otherwise start reading it. */
    method OnFinish(id: Id, entry: Json, createOk: bool)
      requires Valid() && id !in phases
      modifies this
      ensures Valid() && history == old(history) + [Finish(id, entry, createOk)]
      ensures initial == old(initial)
      ensures old(fileExists) ==>
                && file == old(file) && fileExists
                && phases == old(phases)[id := Reading(Stringify(entry))]
      ensures !old(fileExists) ==>
                && file == (if createOk then Some("[" + Stringify(entry) + "]") else old(file))
                && fileExists == createOk && phases == old(phases)[id := Done]
    {
      RunSnoc(initial, history, Finish(id, entry, createOk));
      history := history + [Finish(id, entry, createOk)];
      var logEntryString := Stringify(entry);
      if !fileExists {
        if createOk {
          var initialContent := "[" + logEntryString + "]";
          file := Some(initialContent);
          fileExists := true;
        }
        phases := phases[id := Done];
      } else {
        phases := phases[id := Reading(logEntryString)];
      }
    }

    /** The callback of readFile. */
    method OnRead(id: Id, ok: bool)
      requires Valid() && id in phases && phases[id].Reading?
      modifies this
      ensures Valid() && history == old(history) + [if ok then Read(id) else ReadFails(id)]
      ensures initial == old(initial) && file == old(file) && file.Some? && fileExists == old(fileExists)
      ensures phases == old(phases)[id := if ok then Writing(Patch(file.value, old(phases)[id].entry)) else Done]
    {
      hide Run;
      ghost var l := if ok then Read(id) else ReadFails(id);
      RunSnoc(initial, history, l);
      PendingMeansFile(initial, history, id);
      history := history + [l];
      if !ok {
        phases := phases[id := Done];
        return;
      }
      var entry := phases[id].entry;
      var newData := Text.Trim(file.value);
      if newData == "" || newData == "[]" {
        newData := "[" + entry + "]";
      } else {
        newData := newData[..|newData| - 1];
        newData := newData + ("," + entry + "]");
        assert newData == Patch(file.value, entry);
      }
      phases := phases[id := Writing(newData)];
    }

    /** The write of the file, started in the callback of readFile. */
    method OnWrite(id: Id, ok: bool)
      requires Valid() && id in phases && phases[id].Writing?
      modifies this
      ensures Valid() && history == old(history) + [if ok then Write(id) else WriteFails(id)]
      ensures initial == old(initial) && fileExists == old(fileExists)
      ensures file == (if ok then Some(old(phases)[id].text) else old(file)) && phases == old(phases)[id := Done]
      ensures ok ==> LastWriter(initial, history) == Some(id)
    {
      ghost var l := if ok then Write(id) else WriteFails(id);
      RunSnoc(initial, history, l);
      assert DropLast(history + [l]) == history;
      history := history + [l];
      if ok {
        file := Some(phases[id].text);
      }
      phases := phases[id := Done];
    }

    /**
     * What a reader of the file finds at any time: the JSON array of the initial values and
     * the logged entries, or no JSON if the first patch met an empty array with space inside.
     * Before the first write it finds no JSON if the file is blank or spaced otherwise than as JSON.
     */
    method ReadBack(ghost base: seq<Json>) returns (data: Option<Json>)
      requires Valid() && file.Some? && HoldsArray(initial, base) && Loggable(history)
      ensures Logged(initial, history) == [] ==>
                data == if Text.Trim(file.value) != "" && JsonSpaced(file.value) then Some(Arr(base)) else None
      ensures HaveEntries(history, Logged(initial, history))
      ensures Logged(initial, history) != [] ==>
                data == if PatchesWell(initial, base) then Some(Arr(base + Entries(history, Logged(initial, history))))
                        else None
    {
      hide Run, Logged, Stringified, AllWritable, Stringify, PatchesWell, ParseJson, EntryOf;
      InterleavingsAreSafe(initial, base, history);
      if file == initial {
        UntouchedReads(file.value, base);
      }
      data := ParseJson(file.value);
    }
  }
}
