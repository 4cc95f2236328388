/**
 * The request handlers of the server. Each handler runs undisturbed between its
 * awaits, so it takes a tip and a nonce in one step; between steps the handlers
 * interleave in any order. The results are about every such interleaving.
 */
module Server {
  import opened Common

  const RESET_INTERVAL := 5000

  // ---- The window counter ----

  /** The transaction counter after calls at the given times, starting at time t0. */
  function CountAfter(t0: int, times: seq<int>): nat {
    if times == [] then 0
    else
      var before := CountAfter(t0, DropLast(times));
      (if Last(times) - LastTime(t0, DropLast(times)) > RESET_INTERVAL then 0 else before) + 1
  }

  function LastTime(t0: int, times: seq<int>): int {
    if times == [] then t0 else Last(times)
  }

  /** The last m calls follow each other with gaps of at most the given one. */
  ghost predicate Burst(times: seq<int>, m: int, gap: int) {
    0 <= m <= |times| && forall j :: |times| - m < j < |times| ==> times[j] - times[j - 1] <= gap
  }

  /** The number is the length of the longest burst, for gaps of at most 5000 milliseconds. */
  ghost predicate IsLongestBurst(times: seq<int>, number: int) {
    Burst(times, number, 5000) && forall m :: Burst(times, m, 5000) ==> m <= number
  }

  /** The counter is the length of the longest burst that ends in the last call, whatever the clock does. */
  lemma {:induction false} CountIsLongestBurst(t0: int, times: seq<int>)
    ensures Burst(times, CountAfter(t0, times), 5000)
    ensures forall m :: Burst(times, m, 5000) ==> m <= CountAfter(t0, times)
    ensures times != [] ==> CountAfter(t0, times) >= 1
  {
    if times != [] {
      var before := DropLast(times);
      CountIsLongestBurst(t0, before);
      var c := CountAfter(t0, times);
      if before != [] {
        assert times[|times| - 1 - 1] == Last(before);
      }
      forall m | Burst(times, m, 5000)
        ensures m <= c
      {
        if m >= 2 {
          assert times[|times| - 1] - times[|times| - 2] <= 5000;
          assert Burst(before, m - 1, 5000) by {
            forall j | |before| - (m - 1) < j < |before|
              ensures before[j] - before[j - 1] <= 5000
            {
              assert times[j] - times[j - 1] <= 5000;
            }
          }
        }
      }
    }
  }

  // ---- Handlers ----

  type Id = nat

  /** The endpoints that submit transactions; all but the first transfer funds before adding the user. */
  datatype Kind = CreateUser | CreateWithMnemonic | CreateWithAddress | CreateWithDynamicGas

  datatype Purpose = Transfer | AddUser

  /** A transaction about to be submitted. */
  datatype Allocation = Allocation(id: Id, purpose: Purpose, nonce: int, tip: int)

  datatype Phase = AwaitTimer | AwaitTransfer | AwaitAddUser | Ended

  datatype Handler = Handler(kind: Kind, phase: Phase)

  /** Where tips come from: TOTAL_REQUESTS and TIP_RANDOM. */
  datatype Config = Config(total: int, random: bool)

  datatype State = State(
    aliceNonce: int,
    decrementalTip: int,
    transactionCount: int,
    lastTransactionTime: int,
    handlers: map<Id, Handler>,
    allocations: seq<Allocation>,
    times: seq<int>)

  /** What Math.random() gives. */
  type Draw = r: real | 0.0 <= r < 1.0 witness 0.0

  /** Steps of handlers; `draw` is the random number drawn, `now` the clock. */
  datatype Label =
    | Start(id: Id, kind: Kind, draw: Draw)
    | Refuse(id: Id, kind: Kind)
    | TimerFires(id: Id, now: int, draw: Draw)
    | TransferFinalized(id: Id, now: int, draw: Draw)
    | TransferFails(id: Id)
    | AddUserEnds(id: Id)

  function NextDecrementalTip(tip: int): int {
    if tip > 0 then tip - 1 else tip
  }

  function RandomTip(total: int, draw: Draw): int {
    (draw * total as real).Floor + 1
  }

  /** The random tips of a positive total are exactly 1 .. total. */
  lemma RandomTipExact(total: int, tip: int)
    requires total >= 1
    ensures (exists draw: Draw :: RandomTip(total, draw) == tip) <==> 1 <= tip <= total
  {
    forall draw: Draw
      ensures 1 <= RandomTip(total, draw) <= total
    {
      RandomTipRange(total, draw);
    }
    if 1 <= tip <= total {
      var r := (tip - 1) as real / total as real;
      assert r * total as real == (tip - 1) as real;
      assert r < 1.0;
      var draw: Draw := r;
      assert RandomTip(total, draw) == tip;
    }
  }

  lemma RandomTipRange(total: int, draw: Draw)
    requires total >= 1
    ensures 1 <= RandomTip(total, draw) <= total
  {
    var t := total as real;
    assert 0.0 <= draw * t;
    assert draw * t < t;
  }

  /** Take a tip, then a nonce. */
  function Allocate(cfg: Config, s: State, id: Id, purpose: Purpose, draw: Draw): State {
    var decremental := NextDecrementalTip(s.decrementalTip);
    var tip := if cfg.random then RandomTip(cfg.total, draw) else decremental;
    s.(decrementalTip := if cfg.random then s.decrementalTip else decremental,
       aliceNonce := s.aliceNonce + 1,
       allocations := s.allocations + [Allocation(id, purpose, s.aliceNonce, tip)])
  }

  function CountTransaction(s: State, now: int): State {
    s.(transactionCount := (if now - s.lastTransactionTime > RESET_INTERVAL then 0 else s.transactionCount) + 1,
       lastTransactionTime := now,
       times := s.times + [now])
  }

  function Enter(s: State, id: Id, kind: Kind, phase: Phase): State {
    s.(handlers := s.handlers[id := Handler(kind, phase)])
  }

  predicate InPhase(s: State, id: Id, phase: Phase) {
    id in s.handlers && s.handlers[id].phase == phase
  }

  function BeginAddUser(cfg: Config, s: State, id: Id, now: int, draw: Draw): State
    requires id in s.handlers
  {
    Enter(Allocate(cfg, CountTransaction(s, now), id, AddUser, draw), id, s.handlers[id].kind, AwaitAddUser)
  }

  /** One step of a handler; a step that is not possible changes nothing. */
  function Step(cfg: Config, s: State, l: Label): State {
    match l
    case Start(id, kind, draw) =>
      if id in s.handlers then s
      else if kind.CreateUser? then Enter(s, id, kind, AwaitTimer)
      else Enter(Allocate(cfg, s, id, Transfer, draw), id, kind, AwaitTransfer)
    case Refuse(id, kind) =>
      if id in s.handlers then s else Enter(s, id, kind, Ended)
    case TimerFires(id, now, draw) =>
      if InPhase(s, id, AwaitTimer) then BeginAddUser(cfg, s, id, now, draw) else s
    case TransferFinalized(id, now, draw) =>
      if InPhase(s, id, AwaitTransfer) then BeginAddUser(cfg, s, id, now, draw) else s
    case TransferFails(id) =>
      if InPhase(s, id, AwaitTransfer) then Enter(s, id, s.handlers[id].kind, Ended) else s
    case AddUserEnds(id) =>
      if InPhase(s, id, AwaitAddUser) then Enter(s, id, s.handlers[id].kind, Ended) else s
  }

  function Initial(cfg: Config, n0: int, t0: int): State {
    State(n0, cfg.total, 0, t0, map[], [], [])
  }

  function Run(cfg: Config, n0: int, t0: int, labels: seq<Label>): State {
    if labels == [] then Initial(cfg, n0, t0)
    else Step(cfg, Run(cfg, n0, t0, DropLast(labels)), Last(labels))
  }

  // ---- What every interleaving keeps ----

  /** The tip of the k-th allocation in decremental mode, counting from 0. */
  function TipAt(total: int, k: nat): int {
    if total <= 0 then total else Max(total - 1 - k, 0)
  }

  /** A step in which a handler submits a transaction. */
  predicate Submits(s: State, l: Label) {
    || (l.Start? && l.id !in s.handlers && !l.kind.CreateUser?)
    || (l.TimerFires? && InPhase(s, l.id, AwaitTimer))
    || (l.TransferFinalized? && InPhase(s, l.id, AwaitTransfer))
  }

  /** A transaction that a label makes a handler submit. */
  datatype Submission = Submission(id: Id, purpose: Purpose, draw: Draw)

  /** The transactions submitted by the labels of a run, in order. */
  function Submissions(cfg: Config, n0: int, t0: int, labels: seq<Label>): seq<Submission> {
    if labels == [] then []
    else
      var before, l := DropLast(labels), Last(labels);
      Submissions(cfg, n0, t0, before) +
      if Submits(Run(cfg, n0, t0, before), l)
      then [Submission(l.id, if l.Start? then Transfer else AddUser, l.draw)] else []
  }

  /** The clock at the labels that make a handler add its user, in order. */
  function AddUserTimes(cfg: Config, n0: int, t0: int, labels: seq<Label>): seq<int> {
    if labels == [] then []
    else
      var before, l := DropLast(labels), Last(labels);
      AddUserTimes(cfg, n0, t0, before) +
      if Submits(Run(cfg, n0, t0, before), l) && !l.Start? then [l.now] else []
  }

  ghost predicate AllocationsExact(cfg: Config, n0: int, s: State) {
    && s.aliceNonce == n0 + |s.allocations|
    && (forall k :: 0 <= k < |s.allocations| ==> s.allocations[k].nonce == n0 + k)
    && (!cfg.random ==>
          s.decrementalTip == (if s.allocations == [] then cfg.total else TipAt(cfg.total, |s.allocations| - 1)))
    && (!cfg.random ==> forall k :: 0 <= k < |s.allocations| ==> s.allocations[k].tip == TipAt(cfg.total, k))
    && (cfg.random && cfg.total >= 1 ==>
          forall k :: 0 <= k < |s.allocations| ==> 1 <= s.allocations[k].tip <= cfg.total)
  }

  /** The transactions a handler of a kind submits when nothing fails. */
  function Plan(kind: Kind): seq<Purpose> {
    if kind.CreateUser? then [AddUser] else [Transfer, AddUser]
  }

  /** What a handler has submitted so far, in order. */
  function Submitted(allocations: seq<Allocation>, id: Id): seq<Purpose> {
    if allocations == [] then []
    else
      Submitted(DropLast(allocations), id) +
      (if Last(allocations).id == id then [Last(allocations).purpose] else [])
  }

  /** A handler has submitted a beginning of its plan, and its phase says which one. */
  ghost predicate FollowsPlan(s: State, id: Id) {
    var done := Submitted(s.allocations, id);
    if id !in s.handlers then done == []
    else
      var plan := Plan(s.handlers[id].kind);
      && done <= plan
      && match s.handlers[id].phase
         case AwaitTimer => s.handlers[id].kind.CreateUser? && done == []
         case AwaitTransfer => !s.handlers[id].kind.CreateUser? && done == [Transfer]
         case AwaitAddUser => done == plan
         case Ended => true
  }

  lemma SubmittedSnoc(allocations: seq<Allocation>, a: Allocation, id: Id)
    ensures Submitted(allocations + [a], id) ==
            if a.id == id then Submitted(allocations, id) + [a.purpose] else Submitted(allocations, id)
  {
    assert DropLast(allocations + [a]) == allocations;
    assert Submitted(allocations, id) + [] == Submitted(allocations, id);
  }

  lemma AllocateExact(cfg: Config, n0: int, s: State, id: Id, purpose: Purpose, draw: Draw)
    requires AllocationsExact(cfg, n0, s)
    ensures AllocationsExact(cfg, n0, Allocate(cfg, s, id, purpose, draw))
  {
    if cfg.total >= 1 {
      RandomTipRange(cfg.total, draw);
    }
    hide RandomTip;
  }

  lemma StepExact(cfg: Config, n0: int, s: State, l: Label)
    requires AllocationsExact(cfg, n0, s)
    ensures AllocationsExact(cfg, n0, Step(cfg, s, l))
  {
    hide Allocate;
    match l
    case Start(id, kind, draw) => AllocateExact(cfg, n0, s, id, Transfer, draw);
    case TimerFires(id, now, draw) => AllocateExact(cfg, n0, CountTransaction(s, now), id, AddUser, draw);
    case TransferFinalized(id, now, draw) => AllocateExact(cfg, n0, CountTransaction(s, now), id, AddUser, draw);
    case _ =>
  }

  /**
   * In every interleaving the nonces are n0, n0 + 1, ... in order of allocation, the
   * decremental tips are exact, and the random ones lie between 1 and the total.
   */
  lemma {:induction false} NoncesAndTips(cfg: Config, n0: int, t0: int, labels: seq<Label>)
    ensures AllocationsExact(cfg, n0, Run(cfg, n0, t0, labels))
  {
    hide Step;
    if labels != [] {
      NoncesAndTips(cfg, n0, t0, DropLast(labels));
      StepExact(cfg, n0, Run(cfg, n0, t0, DropLast(labels)), Last(labels));
    }
  }

  /** In decremental mode nonce and tip add up to the same number until the tip reaches 0. */
  lemma NoncePlusTip(cfg: Config, n0: int, t0: int, labels: seq<Label>, k: nat)
    requires !cfg.random && k < |Run(cfg, n0, t0, labels).allocations|
    ensures var a := Run(cfg, n0, t0, labels).allocations[k];
            if k < cfg.total then a.nonce + a.tip == n0 + cfg.total - 1 else a.tip == Min(cfg.total, 0)
  {
    NoncesAndTips(cfg, n0, t0, labels);
  }

  lemma SubmittedByAllocate(cfg: Config, s: State, own: Id, purpose: Purpose, draw: Draw, id: Id)
    ensures Submitted(Allocate(cfg, s, own, purpose, draw).allocations, id) ==
            if own == id then Submitted(s.allocations, id) + [purpose] else Submitted(s.allocations, id)
    ensures Allocate(cfg, s, own, purpose, draw).handlers == s.handlers
  {
    hide RandomTip, Submitted;
    SubmittedSnoc(s.allocations, Last(Allocate(cfg, s, own, purpose, draw).allocations), id);
  }

  /** What a handler has submitted grows exactly when it takes a step that submits. */
  lemma SubmittedAfter(cfg: Config, s: State, l: Label, id: Id)
    ensures Submitted(Step(cfg, s, l).allocations, id) ==
            if l.id == id && Submits(s, l)
            then Submitted(s.allocations, id) + [if l.Start? then Transfer else AddUser]
            else Submitted(s.allocations, id)
  {
    hide Submitted, Allocate;
    match l
    case Start(own, _, draw) => SubmittedByAllocate(cfg, s, own, Transfer, draw, id);
    case TimerFires(own, now, draw) => SubmittedByAllocate(cfg, CountTransaction(s, now), own, AddUser, draw, id);
    case TransferFinalized(own, now, draw) =>
      SubmittedByAllocate(cfg, CountTransaction(s, now), own, AddUser, draw, id);
    case _ =>
  }

  /** A step moves its own handler only. */
  lemma OthersStay(cfg: Config, s: State, l: Label, id: Id)
    requires id != l.id
    ensures var s' := Step(cfg, s, l);
            (id in s'.handlers <==> id in s.handlers) && (id in s.handlers ==> s'.handlers[id] == s.handlers[id])
  {
    hide RandomTip;
  }

  /** How a step moves its own handler. */
  lemma OwnMove(cfg: Config, s: State, l: Label)
    ensures var s' := Step(cfg, s, l);
            l.id in s.handlers ==> l.id in s'.handlers && s'.handlers[l.id].kind == s.handlers[l.id].kind
    ensures var s' := Step(cfg, s, l);
            if Submits(s, l) then
              l.id in s'.handlers && s'.handlers[l.id].phase == (if l.Start? then AwaitTransfer else AwaitAddUser)
              && (l.Start? ==> s'.handlers[l.id].kind == l.kind)
            else
              || (l.id !in s.handlers && l.id !in s'.handlers)
              || (l.id in s.handlers && s'.handlers[l.id] == s.handlers[l.id])
              || (l.id in s'.handlers && s'.handlers[l.id].phase == Ended)
              || (l.id !in s.handlers && l.id in s'.handlers && s'.handlers[l.id] == Handler(CreateUser, AwaitTimer))
  {
    hide RandomTip;
  }

  lemma PlanGrows(kind: Kind, done: seq<Purpose>)
    ensures [] <= Plan(kind) && Plan(kind) <= Plan(kind)
    ensures done == [] && kind.CreateUser? ==> done + [AddUser] == Plan(kind)
    ensures done == [] && !kind.CreateUser? ==> done + [Transfer] == [Transfer] <= Plan(kind)
    ensures done == [Transfer] && !kind.CreateUser? ==> done + [AddUser] == Plan(kind)
  {
  }

  lemma OwnFollowsPlan(cfg: Config, s: State, l: Label)
    requires FollowsPlan(s, l.id)
    ensures FollowsPlan(Step(cfg, s, l), l.id)
  {
    var done := Submitted(s.allocations, l.id);
    SubmittedAfter(cfg, s, l, l.id);
    OwnMove(cfg, s, l);
    var s' := Step(cfg, s, l);
    if l.id in s'.handlers {
      PlanGrows(s'.handlers[l.id].kind, done);
    }
    hide Submitted, Step, Plan;
  }

  lemma StepFollowsPlan(cfg: Config, s: State, l: Label, id: Id)
    requires FollowsPlan(s, id)
    ensures FollowsPlan(Step(cfg, s, l), id)
  {
    if id == l.id {
      hide *;
      OwnFollowsPlan(cfg, s, l);
    } else {
      hide Submitted, Step, Plan;
      SubmittedAfter(cfg, s, l, id);
      OthersStay(cfg, s, l, id);
    }
  }

  /** In every interleaving every handler follows its plan: transfer first, then add the user, each at most once. */
  lemma {:induction false} HandlersFollowPlan(cfg: Config, n0: int, t0: int, labels: seq<Label>, id: Id)
    ensures FollowsPlan(Run(cfg, n0, t0, labels), id)
  {
    hide Step;
    if labels != [] {
      HandlersFollowPlan(cfg, n0, t0, DropLast(labels), id);
      StepFollowsPlan(cfg, Run(cfg, n0, t0, DropLast(labels)), Last(labels), id);
    }
  }

  lemma {:induction false} SubmittedPositions(allocations: seq<Allocation>, i: nat, j: nat)
    requires i < j < |allocations| && allocations[i].id == allocations[j].id
    ensures exists p, q :: 0 <= p < q < |Submitted(allocations, allocations[i].id)| &&
                           Submitted(allocations, allocations[i].id)[p] == allocations[i].purpose &&
                           Submitted(allocations, allocations[i].id)[q] == allocations[j].purpose
  {
    var id := allocations[i].id;
    var all, before := Submitted(allocations, id), Submitted(DropLast(allocations), id);
    if j < |allocations| - 1 {
      SubmittedPositions(DropLast(allocations), i, j);
      var p, q :| 0 <= p < q < |before| && before[p] == allocations[i].purpose && before[q] == allocations[j].purpose;
      assert all[p] == before[p] && all[q] == before[q];
    } else {
      var p := SubmittedPosition(DropLast(allocations), i);
      assert all[p] == before[p] && all[|before|] == allocations[j].purpose;
    }
  }

  lemma {:induction false} SubmittedPosition(allocations: seq<Allocation>, i: nat) returns (p: nat)
    requires i < |allocations|
    ensures p < |Submitted(allocations, allocations[i].id)|
    ensures Submitted(allocations, allocations[i].id)[p] == allocations[i].purpose
  {
    if i < |allocations| - 1 {
      p := SubmittedPosition(DropLast(allocations), i);
    } else {
      p := |Submitted(DropLast(allocations), allocations[i].id)|;
    }
  }

  /** Of two transactions of one handler the first, with the smaller nonce, transfers; the second adds the user. */
  lemma TransferBeforeAddUser(cfg: Config, n0: int, t0: int, labels: seq<Label>, i: nat, j: nat)
    requires i < j < |Run(cfg, n0, t0, labels).allocations|
    requires Run(cfg, n0, t0, labels).allocations[i].id == Run(cfg, n0, t0, labels).allocations[j].id
    ensures var s := Run(cfg, n0, t0, labels);
            && s.allocations[i].purpose == Transfer && s.allocations[j].purpose == AddUser
            && s.allocations[i].nonce < s.allocations[j].nonce
  {
    var s := Run(cfg, n0, t0, labels);
    hide Run;
    NoncesAndTips(cfg, n0, t0, labels);
    HandlersFollowPlan(cfg, n0, t0, labels, s.allocations[i].id);
    SubmittedPositions(s.allocations, i, j);
  }

  /** What a step adds to the transactions and to the times. */
  lemma AddedByStep(cfg: Config, s: State, l: Label)
    ensures var s', submits := Step(cfg, s, l), Submits(s, l);
            && s'.times == s.times + (if submits && !l.Start? then [l.now] else [])
            && (!submits ==> s'.allocations == s.allocations)
            && (submits ==>
                  s'.allocations == s.allocations +
                    [Allocation(l.id, if l.Start? then Transfer else AddUser, s.aliceNonce, TipFor(cfg, s, l.draw))])
  {
    hide TipFor, Allocate;
    assert s.times + [] == s.times;
    match l
    case Start(id, _, draw) => AllocateAdds(cfg, s, id, Transfer, draw);
    case TimerFires(id, now, draw) =>
      AllocateAdds(cfg, s, id, AddUser, draw);
      AllocateAdds(cfg, CountTransaction(s, now), id, AddUser, draw);
    case TransferFinalized(id, now, draw) =>
      AllocateAdds(cfg, s, id, AddUser, draw);
      AllocateAdds(cfg, CountTransaction(s, now), id, AddUser, draw);
    case _ =>
  }

  function TipFor(cfg: Config, s: State, draw: Draw): int {
    if cfg.random then RandomTip(cfg.total, draw) else NextDecrementalTip(s.decrementalTip)
  }

  lemma AllocateAdds(cfg: Config, s: State, id: Id, purpose: Purpose, draw: Draw)
    ensures var s' := Allocate(cfg, s, id, purpose, draw);
            && s'.allocations == s.allocations + [Allocation(id, purpose, s.aliceNonce, TipFor(cfg, s, draw))]
            && s'.times == s.times
    ensures forall now :: TipFor(cfg, CountTransaction(s, now), draw) == TipFor(cfg, s, draw)
  {
  }

  /** In every interleaving the transactions are those the labels submit, with the k-th nonce and tip. */
  lemma {:induction false} AllocationsAreSubmissions(cfg: Config, n0: int, t0: int, labels: seq<Label>)
    ensures var s, subs := Run(cfg, n0, t0, labels), Submissions(cfg, n0, t0, labels);
            && |s.allocations| == |subs|
            && forall k :: 0 <= k < |subs| ==>
                 s.allocations[k] ==
                 Allocation(
                   subs[k].id, subs[k].purpose, n0 + k,
                   if cfg.random then (subs[k].draw * cfg.total as real).Floor + 1 else TipAt(cfg.total, k))
  {
    hide Step, Submits, TipAt;
    if labels != [] {
      var before := DropLast(labels);
      AllocationsAreSubmissions(cfg, n0, t0, before);
      AddedByStep(cfg, Run(cfg, n0, t0, before), Last(labels));
      NoncesAndTips(cfg, n0, t0, before);
      NoncesAndTips(cfg, n0, t0, labels);
    }
  }

  /** The recorded times are those of the labels. */
  lemma {:induction false} TimesAreLabels(cfg: Config, n0: int, t0: int, labels: seq<Label>)
    ensures Run(cfg, n0, t0, labels).times == AddUserTimes(cfg, n0, t0, labels)
  {
    hide Step, Submits;
    if labels != [] {
      var before := DropLast(labels);
      TimesAreLabels(cfg, n0, t0, before);
      AddedByStep(cfg, Run(cfg, n0, t0, before), Last(labels));
    }
  }

  ghost predicate CounterOk(t0: int, s: State) {
    s.transactionCount == CountAfter(t0, s.times) && s.lastTransactionTime == LastTime(t0, s.times)
  }

  lemma CountKeepsCounter(t0: int, s: State, now: int)
    requires CounterOk(t0, s)
    ensures CounterOk(t0, CountTransaction(s, now))
  {
    var times := s.times + [now];
    assert DropLast(times) == s.times && Last(times) == now;
  }

  /** Allocating and entering a phase leave the counter alone. */
  lemma AllocateKeepsCounter(cfg: Config, s: State, id: Id, purpose: Purpose, draw: Draw)
    ensures var s' := Allocate(cfg, s, id, purpose, draw);
            && s'.transactionCount == s.transactionCount && s'.lastTransactionTime == s.lastTransactionTime
            && s'.times == s.times
  {
    hide RandomTip;
  }

  lemma StepCounter(cfg: Config, t0: int, s: State, l: Label)
    requires CounterOk(t0, s)
    ensures CounterOk(t0, Step(cfg, s, l))
  {
    hide Allocate, CountTransaction, CountAfter, LastTime;
    match l
    case Start(id, kind, draw) => AllocateKeepsCounter(cfg, s, id, Transfer, draw);
    case TimerFires(id, now, draw) =>
      CountKeepsCounter(t0, s, now);
      AllocateKeepsCounter(cfg, CountTransaction(s, now), id, AddUser, draw);
    case TransferFinalized(id, now, draw) =>
      CountKeepsCounter(t0, s, now);
      AllocateKeepsCounter(cfg, CountTransaction(s, now), id, AddUser, draw);
    case _ =>
  }

  /**
   * In every interleaving the transaction counter is the length of the longest burst of
   * labels that make a handler add its user, ending in the last of them.
   */
  lemma CounterOfRun(cfg: Config, n0: int, t0: int, labels: seq<Label>)
    ensures var s, times := Run(cfg, n0, t0, labels), AddUserTimes(cfg, n0, t0, labels);
            && s.times == times && (times != [] ==> s.lastTransactionTime == Last(times))
            && IsLongestBurst(times, s.transactionCount)
  {
    TimesAreLabels(cfg, n0, t0, labels);
    CounterFollows(cfg, n0, t0, labels);
    hide Run, AddUserTimes, CountAfter;
    CountIsLongestBurst(t0, AddUserTimes(cfg, n0, t0, labels));
  }

  lemma {:induction false} CounterFollows(cfg: Config, n0: int, t0: int, labels: seq<Label>)
    ensures var s := Run(cfg, n0, t0, labels);
            s.transactionCount == CountAfter(t0, s.times) && s.lastTransactionTime == LastTime(t0, s.times)
  {
    assert CountAfter(t0, []) == 0;
    hide Step, CountAfter;
    if labels != [] {
      CounterFollows(cfg, n0, t0, DropLast(labels));
      StepCounter(cfg, t0, Run(cfg, n0, t0, DropLast(labels)), Last(labels));
    }
  }

  // ---- The server's variables ----

  lemma RunSnoc(cfg: Config, n0: int, t0: int, labels: seq<Label>, l: Label)
    ensures Run(cfg, n0, t0, labels + [l]) == Step(cfg, Run(cfg, n0, t0, labels), l)
  {
    assert DropLast(labels + [l]) == labels;
  }

  lemma SubmittingKeepsHandlers(cfg: Config, s: State, id: Id, now: int, draw: Draw)
    ensures Allocate(cfg, CountTransaction(s, now), id, AddUser, draw).handlers == s.handlers
  {
  }

  /** The label of a handler whose timer or transfer is over. */
  function ReadyLabel(s: State, id: Id, now: int, draw: Draw): Label {
    if InPhase(s, id, AwaitTimer) then TimerFires(id, now, draw) else TransferFinalized(id, now, draw)
  }

  /** The label of a handler that ends in its present phase. */
  function EndLabel(handlers: map<Id, Handler>, id: Id, kind: Kind): Label {
    if id !in handlers then Refuse(id, kind)
    else if handlers[id].phase == AwaitTransfer then TransferFails(id)
    else AddUserEnds(id)
  }

  lemma EndStep(cfg: Config, s: State, id: Id, kind: Kind)
    requires id in s.handlers ==> s.handlers[id].kind == kind && s.handlers[id].phase in {AwaitTransfer, AwaitAddUser}
    ensures Step(cfg, s, EndLabel(s.handlers, id, kind)) == s.(handlers := s.handlers[id := Handler(kind, Ended)])
  {
  }

  /**
   * The variables of the server and of its tip manager, the pending handlers, and
   * the transactions submitted. The ghost history makes them a run of the protocol.
   */
  class ApiServer {
    const cfg: Config
    var aliceNonce: int
    var decrementalTip: int
    var transactionCount: int
    var lastTransactionTime: int
    var handlers: map<Id, Handler>
    var allocations: seq<Allocation>

    ghost var times: seq<int>
    ghost const n0: int
    ghost const t0: int
    ghost var history: seq<Label>

    ghost function Snapshot(): State
      reads this
    {
      State(aliceNonce, decrementalTip, transactionCount, lastTransactionTime, handlers, allocations, times)
    }

    ghost predicate Valid()
      reads this
    {
      Snapshot() == Run(cfg, n0, t0, history)
    }

    constructor (config: Config, chainNonce: int, now: int)
      ensures Valid() && cfg == config && n0 == chainNonce && t0 == now && history == []
    {
      cfg := config;
      aliceNonce, decrementalTip := chainNonce, config.total;
      transactionCount, lastTransactionTime := 0, now;
      handlers, allocations, times := map[], [], [];
      n0, t0, history := chainNonce, now, [];
    }

    method GetDecrementalTip() returns (tip: int)
      modifies this`decrementalTip
      ensures tip == decrementalTip == if old(decrementalTip) > 0 then old(decrementalTip) - 1 else old(decrementalTip)
    {
      if decrementalTip > 0 {
        decrementalTip := decrementalTip - 1;
      }
      return decrementalTip;
    }

    /** A random tip, for a number drawn from 0 up to 1, or the next decremental one, which changes the variable. */
    method GetTip(draw: Draw) returns (tip: int)
      modifies this`decrementalTip
      ensures cfg.random && cfg.total >= 1 ==> 1 <= tip <= cfg.total
      ensures cfg.random ==>
                && tip == RandomTip(cfg.total, draw) == (draw * cfg.total as real).Floor + 1
                && decrementalTip == old(decrementalTip)
      ensures !cfg.random ==>
                && tip == decrementalTip
                && tip == if old(decrementalTip) > 0 then old(decrementalTip) - 1 else old(decrementalTip)
    {
      if cfg.random {
        tip := GenerateRandomTip(draw);
      } else {
        tip := GetDecrementalTip();
      }
    }

    method GenerateRandomTip(draw: Draw) returns (tip: int)
      ensures tip == (draw * cfg.total as real).Floor + 1
      ensures cfg.total >= 1 ==> 1 <= tip <= cfg.total
    {
      tip := (draw * cfg.total as real).Floor + 1;
      if cfg.total >= 1 {
        RandomTipRange(cfg.total, draw);
      }
    }

    method GetAndIncrementNonce() returns (currentNonce: int)
      modifies this`aliceNonce
      ensures currentNonce == old(aliceNonce) && aliceNonce == old(aliceNonce) + 1
    {
      currentNonce := aliceNonce;
      aliceNonce := aliceNonce + 1;
    }

    method UpdateTransactionCount(currentTime: int)
      modifies this`transactionCount, this`lastTransactionTime, this`times
      ensures Snapshot() == CountTransaction(old(Snapshot()), currentTime)
    {
      if currentTime - lastTransactionTime > RESET_INTERVAL {
        transactionCount := 0;
      }
      transactionCount := transactionCount + 1;
      lastTransactionTime := currentTime;
      times := times + [currentTime];
    }

    /** The beginning of transferFunds, up to its first real wait. */
    method TransferFunds(id: Id, draw: Draw)
      modifies this`decrementalTip, this`aliceNonce, this`allocations
      ensures Snapshot() == Allocate(cfg, old(Snapshot()), id, Transfer, draw)
      ensures allocations == old(allocations) +
                [Allocation(id, Transfer, old(aliceNonce),
                            if cfg.random then (draw * cfg.total as real).Floor + 1
                            else if old(decrementalTip) > 0 then old(decrementalTip) - 1 else old(decrementalTip))]
    {
      hide RandomTip;
      var tip := GetTip(draw);
      var nonce := GetAndIncrementNonce();
      allocations := allocations + [Allocation(id, Transfer, nonce, tip)];
    }

    /** The beginning of addUser, up to its first real wait; returns the number of the transaction in its window. */
    method BeginAddUserTx(id: Id, now: int, draw: Draw) returns (numberTransaction: int)
      modifies this
      ensures Snapshot() == Allocate(cfg, CountTransaction(old(Snapshot()), now), id, AddUser, draw)
      ensures numberTransaction == transactionCount && history == old(history) && handlers == old(handlers)
      ensures times == old(times) + [now] && aliceNonce == old(aliceNonce) + 1
      ensures allocations == old(allocations) +
                [Allocation(id, AddUser, old(aliceNonce),
                            if cfg.random then (draw * cfg.total as real).Floor + 1
                            else if old(decrementalTip) > 0 then old(decrementalTip) - 1 else old(decrementalTip))]
    {
      UpdateTransactionCount(now);
      numberTransaction := transactionCount;
      hide RandomTip;
      var tip := GetTip(draw);
      var nonce := GetAndIncrementNonce();
      allocations := allocations + [Allocation(id, AddUser, nonce, tip)];
    }

    /** A request arrives at one of the endpoints. */
    method OnStart(id: Id, kind: Kind, draw: Draw)
      requires Valid() && id !in handlers
      modifies this
      ensures Valid() && history == old(history) + [Start(id, kind, draw)]
      ensures handlers == old(handlers)[id := Handler(kind, if kind.CreateUser? then AwaitTimer else AwaitTransfer)]
      ensures kind.CreateUser? ==> allocations == old(allocations)
      ensures !kind.CreateUser? ==>
                allocations == old(allocations) +
                [Allocation(id, Transfer, old(aliceNonce),
                            if cfg.random then (draw * cfg.total as real).Floor + 1
                            else if old(decrementalTip) > 0 then old(decrementalTip) - 1 else old(decrementalTip))]
    {
      RunSnoc(cfg, n0, t0, history, Start(id, kind, draw));
      history := history + [Start(id, kind, draw)];
      if kind.CreateUser? {
        handlers := handlers[id := Handler(kind, AwaitTimer)];
      } else {
        TransferFunds(id, draw);
        handlers := handlers[id := Handler(kind, AwaitTransfer)];
      }
    }

    /** The timer or the transfer a handler waited for is over: it adds the user. */
    method OnReady(id: Id, now: int, draw: Draw) returns (numberTransaction: int)
      requires Valid() && (InPhase(Snapshot(), id, AwaitTimer) || InPhase(Snapshot(), id, AwaitTransfer))
      modifies this
      ensures Valid()
      ensures history == old(history) + [ReadyLabel(old(Snapshot()), id, now, draw)]
      ensures times == old(times) + [now]
      ensures Burst(times, numberTransaction, 5000) && forall m :: Burst(times, m, 5000) ==> m <= numberTransaction
      ensures handlers == old(handlers)[id := Handler(old(handlers)[id].kind, AwaitAddUser)]
      ensures allocations == old(allocations) +
                [Allocation(id, AddUser, old(aliceNonce),
                            if cfg.random then (draw * cfg.total as real).Floor + 1
                            else if old(decrementalTip) > 0 then old(decrementalTip) - 1 else old(decrementalTip))]
    {
      hide Run, Burst, CountAfter, Allocate, CountTransaction;
      ghost var l := ReadyLabel(Snapshot(), id, now, draw);
      RunSnoc(cfg, n0, t0, history, l);
      SubmittingKeepsHandlers(cfg, Snapshot(), id, now, draw);
      numberTransaction := BeginAddUserTx(id, now, draw);
      handlers := handlers[id := Handler(handlers[id].kind, AwaitAddUser)];
      history := history + [l];
      CounterOfRun(cfg, n0, t0, history);
    }

    /** A handler ends: refused at once, or its transfer failed, or its addUser transaction is settled. */
    method OnEnd(id: Id, kind: Kind)
      requires Valid()
      requires id in handlers ==> handlers[id].kind == kind && handlers[id].phase in {AwaitTransfer, AwaitAddUser}
      modifies this
      ensures Valid() && InPhase(Snapshot(), id, Ended) && allocations == old(allocations)
      ensures history == old(history) + [EndLabel(old(handlers), id, kind)]
    {
      hide Run, Step;
      ghost var l := EndLabel(handlers, id, kind);
      RunSnoc(cfg, n0, t0, history, l);
      EndStep(cfg, Snapshot(), id, kind);
      handlers := handlers[id := Handler(kind, Ended)];
      history := history + [l];
    }
  }
}
