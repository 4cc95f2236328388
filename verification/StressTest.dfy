/**
 * The load generator: it numbers requests from 1 and sends them one at a time, all
 * at once, or in batches. A trace records what is sent and what is waited for.
 */
module StressTest {
  import opened Common

  const SIMULTANEOUS_REQUESTS := 10

  datatype Mode = Sequential | Concurrent | Batch | Unknown

  datatype Endpoint = CreateUser | GetRole | HasPermission | Other

  /** Send a request with its number; wait for all requests sent so far; wait between batches. */
  datatype Event = Send(n: int) | Await | Pause

  // ---- Measuring a trace ----

  /** The groups of requests awaited together, those not yet awaited, and the most ever outstanding. */
  datatype Meter = Meter(groups: seq<seq<int>>, open: seq<int>, peak: int)

  function Count(m: Meter, e: Event): Meter {
    match e
    case Send(n) => Meter(m.groups, m.open + [n], Max(m.peak, |m.open| + 1))
    case Await => Meter(m.groups + [m.open], [], m.peak)
    case Pause => m
  }

  function Measure(trace: seq<Event>): (m: Meter)
    ensures m.peak >= |m.open|
  {
    if trace == [] then Meter([], [], 0) else Count(Measure(DropLast(trace)), Last(trace))
  }

  /** The numbers sent, in order. */
  function Sent(trace: seq<Event>): seq<int> {
    if trace == [] then []
    else Sent(DropLast(trace)) + (if Last(trace).Send? then [Last(trace).n] else [])
  }

  function Concat(groups: seq<seq<int>>): seq<int> {
    if groups == [] then [] else groups[0] + Concat(groups[1..])
  }

  lemma {:induction false} ConcatSnoc(groups: seq<seq<int>>, g: seq<int>)
    ensures Concat(groups + [g]) == Concat(groups) + g
  {
    if groups == [] {
      assert [g][1..] == [];
    } else {
      assert (groups + [g])[1..] == groups[1..] + [g];
      ConcatSnoc(groups[1..], g);
      assert Concat(groups + [g]) == groups[0] + (Concat(groups[1..]) + g);
    }
  }

  function SentIn(m: Meter): seq<int> {
    Concat(m.groups) + m.open
  }

  lemma CountKeepsSent(m: Meter, e: Event)
    ensures SentIn(Count(m, e)) == SentIn(m) + if e.Send? then [e.n] else []
  {
    hide Concat;
    ConcatSnoc(m.groups, m.open);
    match e
    case Send(n) => assert Concat(m.groups) + (m.open + [n]) == Concat(m.groups) + m.open + [n];
    case _ =>
  }

  /** What is sent is what the groups hold. */
  lemma {:induction false} SentIsGroups(trace: seq<Event>)
    ensures Sent(trace) == SentIn(Measure(trace))
  {
    if trace != [] {
      var m := Measure(DropLast(trace));
      SentIsGroups(DropLast(trace));
      CountKeepsSent(m, Last(trace));
    }
  }

  lemma MeasureSnoc(trace: seq<Event>, e: Event)
    ensures Measure(trace + [e]) == Count(Measure(trace), e)
  {
    assert DropLast(trace + [e]) == trace;
  }

  /** With pauses, every awaited group is followed by a pause; without, there is none. */
  ghost predicate Paced(trace: seq<Event>, pauses: bool) {
    forall i :: 0 <= i < |trace| ==> PacedAt(trace, pauses, i)
  }

  predicate PacedAt(trace: seq<Event>, pauses: bool, i: nat)
    requires i < |trace|
  {
    && (trace[i].Await? && pauses ==> i + 1 < |trace| && trace[i + 1].Pause?)
    && (trace[i].Pause? ==> pauses && i > 0 && trace[i - 1].Await?)
  }

  lemma PacedPrefix(trace: seq<Event>, tail: seq<Event>, pauses: bool)
    requires Paced(trace, pauses)
    ensures forall i :: 0 <= i < |trace| ==> PacedAt(trace + tail, pauses, i)
  {
    forall i | 0 <= i < |trace|
      ensures PacedAt(trace + tail, pauses, i)
    {
      assert PacedAt(trace, pauses, i);
    }
  }

  lemma StaysPaced(trace: seq<Event>, pauses: bool, n: int)
    requires Paced(trace, pauses)
    ensures Paced(trace + [Send(n)], pauses)
    ensures pauses ==> Paced(trace + [Await, Pause], pauses)
    ensures !pauses ==> Paced(trace + [Await], pauses)
  {
    PacedPrefix(trace, [Send(n)], pauses);
    if pauses {
      PacedPrefix(trace, [Await, Pause], pauses);
    } else {
      PacedPrefix(trace, [Await], pauses);
    }
  }

  // ---- What the three modes amount to ----

  /** The batches of requests from+1 .. total, b at a time. */
  function Batches(from: int, total: int, b: int): seq<seq<int>>
    requires b > 0
    decreases total - from
  {
    if from >= total then [] else [Range(from + 1, Min(from + b, total) + 1)] + Batches(from + b, total, b)
  }

  lemma RangeConcat(lo: int, mid: int, hi: int)
    requires lo <= mid <= hi
    ensures Range(lo, mid) + Range(mid, hi) == Range(lo, hi)
  {
  }

  lemma {:induction false} BatchesCover(from: int, total: int, b: int)
    requires b > 0
    ensures Concat(Batches(from, total, b)) == Range(from + 1, total + 1)
    decreases total - from
  {
    hide Range;
    var batches := Batches(from, total, b);
    if from < total {
      BatchesCover(from + b, total, b);
      assert batches[1..] == Batches(from + b, total, b);
      assert Concat(batches) == Range(from + 1, Min(from + b, total) + 1) + Range(from + b + 1, total + 1);
      if from + b <= total {
        RangeConcat(from + 1, from + b + 1, total + 1);
      } else {
        EmptyRange(from + b + 1, total + 1);
      }
    } else {
      EmptyRange(from + 1, total + 1);
    }
  }

  lemma EmptyRange(lo: int, hi: int)
    requires hi <= lo
    ensures Range(lo, hi) == []
  {
  }

  lemma Distribute(k: int, b: int)
    ensures (k - 1) * b == k * b - b
  {
  }

  /** Batch k starts after kb requests, where kb is k times the batch size. */
  lemma {:induction false} BatchAt(from: int, total: int, b: int, k: nat, kb: int)
    requires b > 0 && k < |Batches(from, total, b)| && kb == k * b
    ensures Batches(from, total, b)[k] == Range(from + kb + 1, Min(from + kb + b, total) + 1)
    decreases k
  {
    hide Range;
    if k > 0 {
      Distribute(k, b);
      BatchAt(from + b, total, b, k - 1, kb - b);
    }
  }

  /** There are as few batches as hold the requests; nb is the number of batches times their size. */
  lemma {:induction false} BatchCount(from: int, total: int, b: int, nb: int)
    requires b > 0 && from < total && nb == |Batches(from, total, b)| * b
    ensures nb - b < total - from <= nb
    decreases total - from
  {
    hide Range;
    Distribute(|Batches(from, total, b)|, b);
    if from + b < total {
      BatchCount(from + b, total, b, nb - b);
    }
  }

  /** Batch k holds the numbers k*b+1 .. min(k*b+b, total) after from, and only the last batch may be short. */
  lemma BatchShape(from: int, total: int, b: int)
    requires b > 0
    ensures var batches := Batches(from, total, b);
            && (forall k :: 0 <= k < |batches| ==>
                  batches[k] == Range(from + k * b + 1, Min(from + k * b + b, total) + 1))
            && (from < total ==> (|batches| - 1) * b < total - from <= |batches| * b)
            && (from >= total ==> batches == [])
  {
    hide Range, Min;
    var batches := Batches(from, total, b);
    forall k | 0 <= k < |batches|
      ensures batches[k] == Range(from + k * b + 1, Min(from + k * b + b, total) + 1)
    {
      BatchAt(from, total, b, k, k * b);
    }
    if from < total {
      BatchCount(from, total, b, |batches| * b);
      Distribute(|batches|, b);
    }
  }

  /** The groups that a mode waits for, when all requests are sent. */
  function Groups(mode: Mode, total: int): seq<seq<int>> {
    match mode
    case Sequential => Batches(0, total, 1)
    case Concurrent => [Range(1, total + 1)]
    case Batch => Batches(0, total, SIMULTANEOUS_REQUESTS)
    case Unknown => []
  }

  /** The most requests a mode has outstanding at once. */
  function Peak(mode: Mode, total: int): int {
    match mode
    case Sequential => Max(Min(total, 1), 0)
    case Concurrent => Max(total, 0)
    case Batch => Max(Min(total, SIMULTANEOUS_REQUESTS), 0)
    case Unknown => 0
  }

  /** Every valid mode sends the same numbers, 1 to total, each once and in order. */
  lemma ModesSendTheSame(mode: Mode, total: int, trace: seq<Event>)
    requires mode != Unknown && Measure(trace) == Meter(Groups(mode, total), [], Peak(mode, total))
    ensures Sent(trace) == Range(1, total + 1)
  {
    SentIsGroups(trace);
    assert [] + [Range(1, total + 1)] == [Range(1, total + 1)];
    assert Range(1, total + 1) + [] == Range(1, total + 1);
    match mode
    case Sequential => BatchesCover(0, total, 1);
    case Concurrent => ConcatSnoc([], Range(1, total + 1));
    case Batch => BatchesCover(0, total, SIMULTANEOUS_REQUESTS);
  }

  /** There are as many batches of ten as tens begun, and batch k holds 10k+1 .. min(10k+10, total). */
  lemma BatchesOfTen(total: int)
    requires total >= 0
    ensures var batches := Groups(Batch, total);
            && |batches| == (total + 9) / 10
            && forall k :: 0 <= k < |batches| ==> batches[k] == Range(10 * k + 1, Min(10 * k + 10, total) + 1)
  {
    BatchShape(0, total, SIMULTANEOUS_REQUESTS);
  }

  // ---- Test data ----

  predicate TwoDifferent(accounts: seq<string>) {
    exists i, j :: 0 <= i < |accounts| && 0 <= j < |accounts| && accounts[i] != accounts[j]
  }

  type Pair = (string, string)

  predicate DifferentAccounts(accounts: seq<string>, p: Pair) {
    p.0 in accounts && p.1 in accounts && p.0 != p.1
  }

  /**
   * Two different accounts of the file, or nothing if it has fewer than two lines.
   * The draw is repeated until the two differ, so it needs two different lines to end.
   */
  method GeneratePermissionTestData(accounts: seq<string>) returns (data: Option<Pair>)
    requires |accounts| >= 2 ==> TwoDifferent(accounts)
    ensures data.None? <==> |accounts| < 2
    ensures data.Some? ==> DifferentAccounts(accounts, data.value)
  {
    if |accounts| < 2 {
      return None;
    }
    assert accounts[0] in accounts;
    var granter :| granter in accounts;
    assert exists grantee :: grantee in accounts && grantee != granter by {
      var i, j :| 0 <= i < |accounts| && 0 <= j < |accounts| && accounts[i] != accounts[j];
      assert accounts[i] in accounts && accounts[j] in accounts;
    }
    var grantee :| grantee in accounts && grantee != granter;
    return Some((granter, grantee));
  }

  // ---- The tests ----

  /** What a test should leave: all requests sent in the groups of its mode, none outstanding. */
  ghost predicate Completed(trace: seq<Event>, mode: Mode, total: int) {
    Measure(trace) == Meter(Groups(mode, total), [], Peak(mode, total))
  }

  lemma SendNext(trace: seq<Event>, lo: int, n: int)
    requires lo <= n && Measure(trace).open == Range(lo, n)
    ensures var m := Measure(trace);
            Measure(trace + [Send(n)]) == Meter(m.groups, Range(lo, n + 1), Max(m.peak, n + 1 - lo))
  {
    MeasureSnoc(trace, Send(n));
    RangeConcat(lo, n, n + 1);
    assert Range(n, n + 1) == [n];
  }

  lemma AwaitAll(trace: seq<Event>)
    ensures var m := Measure(trace);
            && Measure(trace + [Await]) == Meter(m.groups + [m.open], [], m.peak)
            && Measure(trace + [Await, Pause]) == Meter(m.groups + [m.open], [], m.peak)
  {
    MeasureSnoc(trace, Await);
    MeasureSnoc(trace + [Await], Pause);
    assert trace + [Await, Pause] == trace + [Await] + [Pause];
  }

  /** A trace that has sent and awaited the requests up to i in batches of b. */
  ghost predicate BatchesDone(trace: seq<Event>, i: int, total: int, b: int)
    requires b > 0
  {
    var m := Measure(trace);
    && m.groups + Batches(i, total, b) == Batches(0, total, b)
    && m.open == [] && m.peak == Max(Min(Min(i, total), b), 0)
  }

  /** Of the batch after request i, the first j requests have been sent, none yet awaited. */
  ghost predicate BatchPart(before: seq<Event>, trace: seq<Event>, i: int, j: int) {
    Measure(trace) ==
    Meter(Measure(before).groups, Range(i + 1, i + j + 1), Max(Measure(before).peak, j))
  }

  lemma PartStart(before: seq<Event>, i: int, total: int, b: int)
    requires b > 0 && BatchesDone(before, i, total, b)
    ensures BatchPart(before, before, i, 0)
  {
  }

  lemma PartNext(before: seq<Event>, trace: seq<Event>, i: int, j: nat)
    requires BatchPart(before, trace, i, j)
    ensures BatchPart(before, trace + [Send(i + j + 1)], i, j + 1)
  {
    SendNext(trace, i + 1, i + j + 1);
  }

  lemma BatchAdded(groups: seq<seq<int>>, batch: seq<int>, i: int, total: int, b: int)
    requires b > 0 && i < total && batch == Range(i + 1, i + Min(b, total - i) + 1)
    ensures groups + [batch] + Batches(i + b, total, b) == groups + Batches(i, total, b)
  {
    assert Min(i + b, total) == i + Min(b, total - i);
    hide Range;
    OneMoreGroup(groups, batch, Batches(i + b, total, b));
  }

  lemma OneMoreGroup(groups: seq<seq<int>>, g: seq<int>, rest: seq<seq<int>>)
    ensures groups + [g] + rest == groups + ([g] + rest)
  {
  }

  lemma BatchDone(before: seq<Event>, trace: seq<Event>, i: int, total: int, b: int)
    requires b > 0 && 0 <= i < total && BatchesDone(before, i, total, b) && (i == 0 || i >= b)
    requires BatchPart(before, trace, i, Min(b, total - i))
    ensures BatchesDone(trace + [Await, Pause], i + b, total, b)
    ensures BatchesDone(trace + [Await], i + b, total, b)
  {
    AwaitAll(trace);
    var groups, batch := Measure(before).groups, Measure(trace).open;
    BatchAdded(groups, batch, i, total, b);
    hide Measure, Batches, Range;
  }

  /** Once every request is sent, the groups are all the batches. */
  lemma AllBatchesDone(trace: seq<Event>, i: int, total: int, b: int)
    requires b > 0 && i >= total && (i == 0 || i >= b) && BatchesDone(trace, i, total, b)
    ensures Measure(trace) == Meter(Batches(0, total, b), [], Max(Min(total, b), 0))
    ensures Sent(trace) == Range(1, total + 1)
  {
    var groups := Measure(trace).groups;
    assert Batches(i, total, b) == [] && groups + [] == groups;
    SentIsGroups(trace);
    BatchesCover(0, total, b);
    assert Range(1, total + 1) + [] == Range(1, total + 1);
  }

  /** Every pair consists of two different accounts of the file. */
  predicate AllDifferent(accounts: seq<string>, pairs: seq<Pair>) {
    forall p :: p in pairs ==> DifferentAccounts(accounts, p)
  }

  lemma NothingYet(total: int, b: int)
    requires b > 0
    ensures Measure([]) == Meter([], [], 0) && Sent([]) == [] && BatchesDone([], 0, total, b)
    ensures Paced([], true) && Paced([], false)
  {
  }

  /** The has-permission test in sequential mode, with enough accounts on file. */
  method PermissionsOneByOne(accounts: seq<string>, total: int) returns (trace: seq<Event>, pairs: seq<Pair>)
    requires |accounts| >= 2 && (total > 0 ==> TwoDifferent(accounts))
    ensures Completed(trace, Sequential, total) && Sent(trace) == Range(1, total + 1)
    ensures Paced(trace, false)
    ensures |pairs| == |Sent(trace)| && AllDifferent(accounts, pairs)
  {
    hide Paced, Measure, Batches, Sent, BatchPart, BatchesDone, TwoDifferent;
    trace, pairs := [], [];
    var requestNumber := 0;
    var i := 0;
    NothingYet(total, 1);
    while i < total
      invariant requestNumber == i && 0 <= i <= Max(total, 0) && Paced(trace, false)
      invariant BatchesDone(trace, i, total, 1)
      invariant |pairs| == i && AllDifferent(accounts, pairs)
    {
      var data := GeneratePermissionTestData(accounts);
      if data.None? {
        return;
      }
      requestNumber := requestNumber + 1;
      pairs := pairs + [data.value];
      PartStart(trace, i, total, 1);
      PartNext(trace, trace, i, 0);
      BatchDone(trace, trace + [Send(requestNumber)], i, total, 1);
      StaysPaced(trace, false, requestNumber);
      trace := trace + [Send(requestNumber)];
      StaysPaced(trace, false, 0);
      trace := trace + [Await];
      i := i + 1;
    }
    AllBatchesDone(trace, i, total, 1);
  }

  /** The same in concurrent mode. */
  method PermissionsAtOnce(accounts: seq<string>, total: int) returns (trace: seq<Event>, pairs: seq<Pair>)
    requires |accounts| >= 2 && (total > 0 ==> TwoDifferent(accounts))
    ensures Completed(trace, Concurrent, total) && Sent(trace) == Range(1, total + 1)
    ensures Paced(trace, false)
    ensures |pairs| == |Sent(trace)| && AllDifferent(accounts, pairs)
  {
    hide Paced, Measure, Sent, TwoDifferent;
    trace, pairs := [], [];
    var requestNumber := 0;
    var i := 0;
    NothingYet(total, 1);
    while i < total
      invariant requestNumber == i && 0 <= i <= Max(total, 0) && Paced(trace, false)
      invariant Measure(trace) == Meter([], Range(1, i + 1), i)
      invariant |pairs| == i && AllDifferent(accounts, pairs)
    {
      var data := GeneratePermissionTestData(accounts);
      if data.None? {
        return;
      }
      requestNumber := requestNumber + 1;
      pairs := pairs + [data.value];
      SendNext(trace, 1, requestNumber);
      StaysPaced(trace, false, requestNumber);
      trace := trace + [Send(requestNumber)];
      i := i + 1;
    }
    AwaitAll(trace);
    StaysPaced(trace, false, 0);
    trace := trace + [Await];
    ModesSendTheSame(Concurrent, total, trace);
  }

  /** The same in batch mode. */
  method PermissionsInBatches(accounts: seq<string>, total: int) returns (trace: seq<Event>, pairs: seq<Pair>)
    requires |accounts| >= 2 && (total > 0 ==> TwoDifferent(accounts))
    ensures Completed(trace, Batch, total) && Sent(trace) == Range(1, total + 1)
    ensures Paced(trace, true)
    ensures |pairs| == |Sent(trace)| && AllDifferent(accounts, pairs)
  {
    hide Paced, Measure, Batches, Sent, BatchPart, BatchesDone, TwoDifferent;
    trace, pairs := [], [];
    var requestNumber := 0;
    var i := 0;
    NothingYet(total, SIMULTANEOUS_REQUESTS);
    while i < total
      invariant requestNumber == Min(i, Max(total, 0)) && (i == 0 || i >= SIMULTANEOUS_REQUESTS)
      invariant Paced(trace, true)
      invariant BatchesDone(trace, i, total, SIMULTANEOUS_REQUESTS)
      invariant |pairs| == requestNumber && AllDifferent(accounts, pairs)
    {
      ghost var before := trace;
      var j := 0;
      PartStart(before, i, total, SIMULTANEOUS_REQUESTS);
      while j < SIMULTANEOUS_REQUESTS && i + j < total
        invariant 0 <= j <= SIMULTANEOUS_REQUESTS && i + j <= total && requestNumber == i + j && Paced(trace, true)
        invariant BatchPart(before, trace, i, j)
        invariant |pairs| == requestNumber && AllDifferent(accounts, pairs)
      {
        var data := GeneratePermissionTestData(accounts);
        if data.None? {
          return;
        }
        requestNumber := requestNumber + 1;
        pairs := pairs + [data.value];
        PartNext(before, trace, i, j);
        StaysPaced(trace, true, requestNumber);
        trace := trace + [Send(requestNumber)];
        j := j + 1;
      }
      BatchDone(before, trace, i, total, SIMULTANEOUS_REQUESTS);
      StaysPaced(trace, true, 0);
      trace := trace + [Await, Pause];
      i := i + SIMULTANEOUS_REQUESTS;
    }
    AllBatchesDone(trace, i, total, SIMULTANEOUS_REQUESTS);
  }

  /**
   * The has-permission test. With at least two accounts on file every valid mode sends
   * the requests 1 .. total between different accounts; otherwise nothing is sent. If an
   * account has to be drawn from two or more, two must differ, or the drawing never ends.
   */
  method RunHasPermissionTest(mode: Mode, accounts: seq<string>, total: int)
    returns (trace: seq<Event>, pairs: seq<Pair>)
    requires mode != Unknown && total > 0 && |accounts| >= 2 ==> TwoDifferent(accounts)
    ensures |accounts| < 2 ==> trace == []
    ensures |accounts| >= 2 ==> Completed(trace, mode, total)
    ensures |accounts| >= 2 && mode != Unknown ==> Sent(trace) == Range(1, total + 1)
    ensures Paced(trace, mode == Batch)
    ensures |pairs| == |Sent(trace)| && AllDifferent(accounts, pairs)
  {
    trace, pairs := [], [];
    if |accounts| < 2 {
      return;
    }
    if mode == Sequential {
      trace, pairs := PermissionsOneByOne(accounts, total);
    } else if mode == Concurrent {
      trace, pairs := PermissionsAtOnce(accounts, total);
    } else if mode == Batch {
      trace, pairs := PermissionsInBatches(accounts, total);
    }
  }

  /** The sequential test of one endpoint; an endpoint it does not know is numbered but never called. */
  method RunSequentialTest(endpoint: Endpoint, total: int) returns (trace: seq<Event>)
    ensures endpoint.CreateUser? || endpoint.GetRole? ==>
              Completed(trace, Sequential, total) && Sent(trace) == Range(1, total + 1)
    ensures endpoint.HasPermission? || endpoint.Other? ==> trace == []
    ensures Paced(trace, false)
  {
    hide Paced, Measure, Batches, Sent, BatchPart, BatchesDone;
    trace := [];
    var requestNumber := 0;
    var i := 0;
    NothingYet(total, 1);
    while i < total
      invariant requestNumber == i && 0 <= i <= Max(total, 0) && Paced(trace, false)
      invariant endpoint.CreateUser? || endpoint.GetRole? ==> BatchesDone(trace, i, total, 1)
      invariant endpoint.HasPermission? || endpoint.Other? ==> trace == []
    {
      requestNumber := requestNumber + 1;
      if endpoint.CreateUser? || endpoint.GetRole? {
        PartStart(trace, i, total, 1);
        PartNext(trace, trace, i, 0);
        BatchDone(trace, trace + [Send(requestNumber)], i, total, 1);
        StaysPaced(trace, false, requestNumber);
        trace := trace + [Send(requestNumber)];
        StaysPaced(trace, false, 0);
        trace := trace + [Await];
      }
      i := i + 1;
    }
    if endpoint.CreateUser? || endpoint.GetRole? {
      AllBatchesDone(trace, i, total, 1);
    }
  }

  /** Whether an endpoint has the accounts on file that the concurrent test needs for it. */
  predicate AccountsSuffice(endpoint: Endpoint, accounts: seq<string>) {
    match endpoint
    case CreateUser => true
    case GetRole => |accounts| > 0
    case HasPermission => |accounts| >= 2
    case Other => false
  }

  /** The concurrent test of one endpoint. Without accounts it stops at the first request, before any is sent. */
  method RunConcurrentTest(endpoint: Endpoint, accounts: seq<string>, total: int) returns (trace: seq<Event>)
    requires endpoint.HasPermission? && total > 0 && |accounts| >= 2 ==> TwoDifferent(accounts)
    ensures endpoint == CreateUser ==>
              Completed(trace, Concurrent, total) && Sent(trace) == Range(1, total + 1)
    ensures endpoint == GetRole && |accounts| >= 1 ==>
              Completed(trace, Concurrent, total) && Sent(trace) == Range(1, total + 1)
    ensures endpoint == HasPermission && |accounts| >= 2 ==>
              Completed(trace, Concurrent, total) && Sent(trace) == Range(1, total + 1)
    ensures endpoint == GetRole && |accounts| == 0 ==> Sent(trace) == []
    ensures endpoint == HasPermission && |accounts| < 2 ==> Sent(trace) == []
    ensures endpoint == Other ==> Sent(trace) == []
    ensures Paced(trace, false)
  {
    NothingYet(total, 1);
    NoneSent();
    hide Paced, Measure, Sent, TwoDifferent, Completed;
    trace := [];
    var requestNumber := 0;
    var i := 0;
    while i < total
      invariant requestNumber == i && 0 <= i <= Max(total, 0) && Paced(trace, false)
      invariant AccountsSuffice(endpoint, accounts) ==> Measure(trace) == Meter([], Range(1, i + 1), i)
      invariant !AccountsSuffice(endpoint, accounts) ==> trace == []
    {
      requestNumber := requestNumber + 1;
      SendIfEnough(trace, endpoint, accounts, requestNumber);
      match endpoint {
        case CreateUser =>
          StaysPaced(trace, false, requestNumber);
          trace := trace + [Send(requestNumber)];
        case GetRole =>
          if |accounts| > 0 {
            StaysPaced(trace, false, requestNumber);
            trace := trace + [Send(requestNumber)];
          } else {
            return;
          }
        case HasPermission =>
          var data := GeneratePermissionTestData(accounts);
          if data.Some? {
            StaysPaced(trace, false, requestNumber);
            trace := trace + [Send(requestNumber)];
          } else {
            return;
          }
        case Other =>
      }
      i := i + 1;
    }
    StaysPaced(trace, false, 0);
    if AccountsSuffice(endpoint, accounts) {
      AllAtOnce(trace, total, i);
    }
    trace := trace + [Await];
  }

  lemma NoneSent()
    ensures Sent([]) == Sent([] + [Await]) == []
  {
  }

  /** Once every request is sent, awaiting them completes the test. */
  lemma AllAtOnce(trace: seq<Event>, total: int, n: int)
    requires Measure(trace) == Meter([], Range(1, n + 1), n) && n == Max(total, 0)
    ensures Completed(trace + [Await], Concurrent, total) && Sent(trace + [Await]) == Range(1, total + 1)
  {
    AwaitAll(trace);
    hide Measure, Sent;
    assert Range(1, n + 1) == Range(1, total + 1);
    assert [] + [Range(1, n + 1)] == [Range(1, total + 1)];
    ModesSendTheSame(Concurrent, total, trace + [Await]);
  }

  lemma SendIfEnough(trace: seq<Event>, endpoint: Endpoint, accounts: seq<string>, n: int)
    requires n >= 1
    requires AccountsSuffice(endpoint, accounts) ==> Measure(trace) == Meter([], Range(1, n), n - 1)
    ensures AccountsSuffice(endpoint, accounts) ==>
              Measure(trace + [Send(n)]) == Meter([], Range(1, n + 1), n)
  {
    if AccountsSuffice(endpoint, accounts) {
      SendNext(trace, 1, n);
    }
  }

  /** The batch test of one endpoint; without requests to send it ends at once, whatever the batch size. */
  method RunBatchTest(batchSize: int, endpoint: Endpoint, accounts: seq<string>, total: int)
    returns (trace: seq<Event>)
    requires total > 0 ==> batchSize > 0 && (|accounts| >= 2 ==> TwoDifferent(accounts))
    ensures total <= 0 ==> trace == []
    ensures batchSize > 0 && |accounts| >= 2 && !endpoint.Other? ==>
              && Measure(trace) == Meter(Batches(0, total, batchSize), [], Max(Min(total, batchSize), 0))
              && Sent(trace) == Range(1, total + 1)
    ensures |accounts| < 2 ==> trace == []
    ensures endpoint.Other? ==> Sent(trace) == []
    ensures Paced(trace, true)
  {
    hide Paced, Measure, Batches, Sent, BatchPart, BatchesDone, TwoDifferent;
    trace := [];
    var requestNumber := 0;
    var i := 0;
    ghost var b := Max(batchSize, 1);
    NothingYet(total, b);
    while i < total
      invariant requestNumber == Min(i, Max(total, 0)) && 0 <= i && (i == 0 || i >= b) && Paced(trace, true)
      invariant total <= 0 ==> i == 0 && trace == []
      invariant |accounts| < 2 ==> i == 0 && trace == []
      invariant !endpoint.Other? ==> BatchesDone(trace, i, total, b)
      invariant endpoint.Other? ==> Sent(trace) == []
    {
      ghost var before := trace;
      var j := 0;
      if !endpoint.Other? {
        PartStart(before, i, total, b);
      }
      while j < batchSize && i + j < total
        invariant 0 <= j <= batchSize && i + j <= total && requestNumber == i + j && Paced(trace, true)
        invariant |accounts| < 2 ==> j == 0 && trace == []
        invariant !endpoint.Other? ==> BatchPart(before, trace, i, j)
        invariant endpoint.Other? ==> Sent(trace) == []
      {
        var data := GeneratePermissionTestData(accounts);
        if data.None? {
          return;
        }
        requestNumber := requestNumber + 1;
        if !endpoint.Other? {
          PartNext(before, trace, i, j);
          StaysPaced(trace, true, requestNumber);
          trace := trace + [Send(requestNumber)];
        }
        j := j + 1;
      }
      if !endpoint.Other? {
        BatchDone(before, trace, i, total, b);
      }
      NothingSent(trace);
      StaysPaced(trace, true, 0);
      trace := trace + [Await, Pause];
      i := i + batchSize;
    }
    if !endpoint.Other? {
      AllBatchesDone(trace, i, total, b);
    }
  }

  lemma NothingSent(trace: seq<Event>)
    ensures Sent(trace + [Await, Pause]) == Sent(trace)
  {
    assert DropLast(trace + [Await, Pause]) == trace + [Await];
    assert DropLast(trace + [Await]) == trace;
  }
}
