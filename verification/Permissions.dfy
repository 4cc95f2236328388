/**
 * Permissions over whole runs of the contract: the ordered index of grantees,
 * what the event log says about permissions, independence of granters,
 * conservation of grants, and grant and revoke as inverses.
 */
module Permissions {
  import opened Common
  import opened AccessModel

  // ---- One step, seen by one granter ----

  /** A permission after a step: a grant or revoke of the pair decides it, whatever the reply. */
  lemma PermissionAfter(st: State, call: Call, g: AccountId, e: AccountId)
    ensures HasPermission(Step(st, call).state, g, e) ==
            if call == GrantPermission(g, e) then true
            else if call == RevokePermission(g, e) then false
            else HasPermission(st, g, e)
  {
  }

  /** The list of a granter after a step. */
  function NextList(list: seq<AccountId>, had: bool, call: Call): seq<AccountId>
    requires call.GrantPermission? || call.RevokePermission?
  {
    var pos := Position(list, call.grantee);
    if had == call.GrantPermission? then list
    else if call.GrantPermission? then if call.grantee in list then list else list + [call.grantee]
    else if pos.Some? then RemoveAt(list, pos.value) else list
  }

  lemma ListAfter(st: State, call: Call, g: AccountId)
    ensures GrantedPermissions(Step(st, call).state, g) ==
            if Concerns(call, g)
            then NextList(GrantedPermissions(st, g), HasPermission(st, g, call.grantee), call)
            else GrantedPermissions(st, g)
  {
  }

  predicate Concerns(call: Call, g: AccountId) {
    (call.GrantPermission? || call.RevokePermission?) && call.granter == g
  }

  // ---- The index of grantees agrees with the permission map ----

  ghost predicate IndexAgreesFor(st: State, g: AccountId) {
    && NoDup(GrantedPermissions(st, g))
    && (forall e :: e in GrantedPermissions(st, g) <==> HasPermission(st, g, e))
  }

  ghost predicate IndexAgrees(st: State) {
    forall g :: IndexAgreesFor(st, g)
  }

  lemma StepKeepsIndex(st: State, call: Call)
    requires IndexAgrees(st)
    ensures IndexAgrees(Step(st, call).state)
  {
    forall g
      ensures IndexAgreesFor(Step(st, call).state, g)
    {
      assert IndexAgreesFor(st, g);
      ListAfter(st, call, g);
      var list := GrantedPermissions(st, g);
      forall e {
        PermissionAfter(st, call, g, e);
      }
      if call.RevokePermission? && call.granter == g && call.grantee in list {
        RemoveAtElements(list, Position(list, call.grantee).value);
      }
    }
  }

  lemma {:induction false} ReachableIndexAgrees(calls: seq<Call>)
    ensures IndexAgrees(Run(calls).state)
  {
    if calls != [] {
      ReachableIndexAgrees(DropLast(calls));
      StepKeepsIndex(Run(DropLast(calls)).state, Last(calls));
    }
  }

  // ---- What the event log says about one pair ----

  predicate Mentions(ev: Event, g: AccountId, e: AccountId) {
    ev.PermissionGranted? && ev.granter == g && ev.grantee == e
  }

  /** The states of the PermissionGranted events of one pair, in order. */
  function PairStates(log: seq<Event>, g: AccountId, e: AccountId): seq<bool> {
    if log == [] then []
    else PairStates(DropLast(log), g, e) + (if Mentions(Last(log), g, e) then [Last(log).state] else [])
  }

  /** The state of the last PermissionGranted event of a pair, false if there is none. */
  function LastState(log: seq<Event>, g: AccountId, e: AccountId): bool {
    var states := PairStates(log, g, e);
    states != [] && Last(states)
  }

  /** The index of the last PermissionGranted event of a pair, -1 if there is none. */
  function LastIndex(log: seq<Event>, g: AccountId, e: AccountId): (r: int)
    ensures -1 <= r < |log|
    ensures r >= 0 ==> Mentions(log[r], g, e)
    ensures forall i :: r < i < |log| ==> !Mentions(log[i], g, e)
  {
    if log == [] then -1
    else if Mentions(Last(log), g, e) then |log| - 1
    else LastIndex(DropLast(log), g, e)
  }

  lemma {:induction false} AppendUnrelated(log: seq<Event>, evs: seq<Event>, g: AccountId, e: AccountId)
    requires forall ev :: ev in evs ==> !Mentions(ev, g, e)
    ensures PairStates(log + evs, g, e) == PairStates(log, g, e)
    ensures LastIndex(log + evs, g, e) == LastIndex(log, g, e)
  {
    if evs == [] {
      assert log + evs == log;
    } else {
      AppendUnrelated(log, DropLast(evs), g, e);
      assert DropLast(log + evs) == log + DropLast(evs);
    }
  }

  lemma AppendRelated(log: seq<Event>, ev: Event, g: AccountId, e: AccountId)
    requires Mentions(ev, g, e)
    ensures PairStates(log + [ev], g, e) == PairStates(log, g, e) + [ev.state]
    ensures LastIndex(log + [ev], g, e) == |log|
  {
    assert DropLast(log + [ev]) == log;
  }

  /** A step emits a PermissionGranted event of a pair exactly when it changes the pair's permission. */
  lemma EventsOfPair(st: State, call: Call, g: AccountId, e: AccountId)
    ensures var o := Step(st, call);
            if HasPermission(o.state, g, e) == HasPermission(st, g, e)
            then forall ev :: ev in o.events ==> !Mentions(ev, g, e)
            else o.events == [PermissionGranted(g, e, HasPermission(o.state, g, e))]
  {
    PermissionAfter(st, call, g, e);
  }

  /** How new events extend what the log says about a pair. */
  ghost predicate Extends(log: seq<Event>, log': seq<Event>, had: bool, has: bool, g: AccountId, e: AccountId) {
    if has == had
    then PairStates(log', g, e) == PairStates(log, g, e) && LastIndex(log', g, e) == LastIndex(log, g, e)
    else PairStates(log', g, e) == PairStates(log, g, e) + [has] && LastIndex(log', g, e) == |log|
  }

  lemma EventsExtend(log: seq<Event>, evs: seq<Event>, had: bool, has: bool, g: AccountId, e: AccountId)
    requires if has == had then forall ev :: ev in evs ==> !Mentions(ev, g, e)
             else evs == [PermissionGranted(g, e, has)]
    ensures Extends(log, log + evs, had, has, g, e)
  {
    if has == had {
      AppendUnrelated(log, evs, g, e);
    } else {
      AppendRelated(log, evs[0], g, e);
    }
  }

  lemma StepPair(st: State, log: seq<Event>, call: Call, g: AccountId, e: AccountId)
    ensures var o := Step(st, call);
            Extends(log, log + o.events, HasPermission(st, g, e), HasPermission(o.state, g, e), g, e)
  {
    var o := Step(st, call);
    EventsOfPair(st, call, g, e);
    EventsExtend(log, o.events, HasPermission(st, g, e), HasPermission(o.state, g, e), g, e);
  }

  ghost predicate Alternates(states: seq<bool>) {
    forall i :: 0 <= i < |states| ==> states[i] == (i % 2 == 0)
  }

  lemma LastStateExtends(log: seq<Event>, log': seq<Event>, had: bool, has: bool, g: AccountId, e: AccountId)
    requires Extends(log, log', had, has, g, e)
    requires had == LastState(log, g, e) && Alternates(PairStates(log, g, e))
    ensures has == LastState(log', g, e) && Alternates(PairStates(log', g, e))
  {
    hide PairStates, LastIndex;
  }

  /**
   * After any run, a permission is what the pair's last event says, and the pair's
   * events alternate between granted and revoked, starting with granted.
   */
  lemma {:induction false} PermissionIsLastEvent(calls: seq<Call>, g: AccountId, e: AccountId)
    ensures HasPermission(Run(calls).state, g, e) == LastState(Run(calls).log, g, e)
    ensures Alternates(PairStates(Run(calls).log, g, e))
  {
    if calls != [] {
      var t := Run(DropLast(calls));
      assert Run(calls).log == t.log + Step(t.state, Last(calls)).events;
      PermissionIsLastEvent(DropLast(calls), g, e);
      hide Step, HasPermission, PairStates, LastIndex, Extends, Alternates, LastState;
      StepPair(t.state, t.log, Last(calls), g, e);
      var o := Step(t.state, Last(calls));
      LastStateExtends(t.log, t.log + o.events, HasPermission(t.state, g, e), HasPermission(o.state, g, e), g, e);
    }
  }

  // ---- The order of the index ----

  ghost predicate StrictlyIncreasing(list: seq<AccountId>, rank: AccountId -> int) {
    forall i, j :: 0 <= i < j < |list| ==> rank(list[i]) < rank(list[j])
  }

  /** The current grantees of g according to the log, in the order of their latest grant. */
  ghost predicate IsGrantOrder(list: seq<AccountId>, log: seq<Event>, g: AccountId) {
    && (forall e :: e in list <==> LastState(log, g, e))
    && StrictlyIncreasing(list, e => LastIndex(log, g, e))
  }

  lemma {:induction false} IncreasingListUnique(a: seq<AccountId>, b: seq<AccountId>, rank: AccountId -> int)
    requires StrictlyIncreasing(a, rank) && StrictlyIncreasing(b, rank)
    requires forall x :: x in a <==> x in b
    ensures a == b
  {
    if a == [] {
      FirstIsIn(b);
    } else {
      assert Last(a) in b;
      assert Last(b) in a;
      var i :| 0 <= i < |a| && a[i] == Last(b);
      var j :| 0 <= j < |b| && b[j] == Last(a);
      assert Last(a) == Last(b);
      var a', b' := DropLast(a), DropLast(b);
      forall x
        ensures x in a' <==> x in b'
      {
        if x in a' {
          assert x in b && rank(x) < rank(Last(b));
        }
        if x in b' {
          assert x in a && rank(x) < rank(Last(a));
        }
      }
      IncreasingListUnique(a', b', rank);
    }
  }

  /** The order is determined by the log: at most one list is in grant order. */
  lemma GrantOrderUnique(a: seq<AccountId>, b: seq<AccountId>, log: seq<Event>, g: AccountId)
    requires IsGrantOrder(a, log, g) && IsGrantOrder(b, log, g)
    ensures a == b
  {
    IncreasingListUnique(a, b, e => LastIndex(log, g, e));
  }

  lemma RemoveKeepsOrder(list: seq<AccountId>, pos: nat, rank: AccountId -> int)
    requires pos < |list| && StrictlyIncreasing(list, rank)
    ensures StrictlyIncreasing(RemoveAt(list, pos), rank)
  {
  }

  lemma StepKeepsOrder(st: State, log: seq<Event>, call: Call, g: AccountId)
    requires IndexAgrees(st)
    requires StrictlyIncreasing(GrantedPermissions(st, g), e => LastIndex(log, g, e))
    ensures var o := Step(st, call);
            StrictlyIncreasing(GrantedPermissions(o.state, g), e => LastIndex(log + o.events, g, e))
  {
    hide Step;
    var o := Step(st, call);
    var list := GrantedPermissions(st, g);
    var list' := GrantedPermissions(o.state, g);
    var log' := log + o.events;
    StepKeepsIndex(st, call);
    ListAfter(st, call, g);
    assert IndexAgreesFor(st, g) && IndexAgreesFor(o.state, g);
    forall e | e in list'
      ensures LastIndex(log', g, e) == if e in list then LastIndex(log, g, e) else |log|
    {
      StepPair(st, log, call, g, e);
    }
    OrderAfter(list, list', e => LastIndex(log, g, e), e => LastIndex(log', g, e), call);
  }

  /** Removing keeps an order; appending keeps it if the new element ranks highest. */
  lemma OrderAfter(
      list: seq<AccountId>, list': seq<AccountId>, rank: AccountId -> int, rank': AccountId -> int, call: Call)
    requires call.GrantPermission? || call.RevokePermission? || list' == list
    requires list' == list || list' == NextList(list, call.RevokePermission?, call)
    requires StrictlyIncreasing(list, rank)
    requires forall e :: e in list' && e in list ==> rank'(e) == rank(e)
    requires forall e, o :: e in list' && e !in list && o in list ==> rank(o) < rank'(e)
    ensures StrictlyIncreasing(list', rank')
  {
    if list' != list && call.RevokePermission? {
      var pos := Position(list, call.grantee).value;
      RemoveKeepsOrder(list, pos, rank);
      forall i | 0 <= i < |list'|
        ensures rank'(list'[i]) == rank(list'[i])
      {
        assert list'[i] in list' && list'[i] in list;
      }
    } else {
      forall i | 0 <= i < |list|
        ensures list'[i] == list[i] && rank'(list'[i]) == rank(list[i])
      {
        assert list'[i] in list' && list'[i] in list;
      }
      if |list'| > |list| {
        assert list'[|list|] in list' && list'[|list|] !in list;
      }
    }
  }

  /** After any run, the index of g lists exactly its current grantees in the order of their latest grant. */
  lemma {:induction false} GrantedInGrantOrder(calls: seq<Call>, g: AccountId)
    ensures IsGrantOrder(GrantedPermissions(Run(calls).state, g), Run(calls).log, g)
  {
    hide Step;
    if calls != [] {
      var t := Run(DropLast(calls));
      GrantedInGrantOrder(DropLast(calls), g);
      ReachableIndexAgrees(DropLast(calls));
      StepKeepsOrder(t.state, t.log, Last(calls), g);
    }
    ReachableIndexAgrees(calls);
    assert IndexAgreesFor(Run(calls).state, g);
    forall e
      ensures e in GrantedPermissions(Run(calls).state, g) <==> LastState(Run(calls).log, g, e)
    {
      PermissionIsLastEvent(calls, g, e);
    }
  }

  // ---- Independence of granters ----

  /** The grant and revoke calls that name granter g, in order. */
  function CallsOf(calls: seq<Call>, g: AccountId): seq<Call> {
    if calls == [] then []
    else CallsOf(DropLast(calls), g) + (if Concerns(Last(calls), g) then [Last(calls)] else [])
  }

  /** The replies a run gives to those calls. */
  function RepliesTo(calls: seq<Call>, g: AccountId): seq<Reply> {
    if calls == [] then []
    else RepliesTo(DropLast(calls), g) + (if Concerns(Last(calls), g) then [Last(Run(calls).replies)] else [])
  }

  /** Two storages that no query about granter g can tell apart. */
  ghost predicate SameForGranter(s: State, t: State, g: AccountId) {
    && GrantedPermissions(s, g) == GrantedPermissions(t, g)
    && (forall e :: HasPermission(s, g, e) == HasPermission(t, g, e))
  }

  lemma StepDependsOnOwnGranter(s: State, t: State, call: Call, g: AccountId)
    requires SameForGranter(s, t, g)
    ensures Concerns(call, g) ==>
              SameForGranter(Step(s, call).state, Step(t, call).state, g) && Step(s, call).reply == Step(t, call).reply
    ensures !Concerns(call, g) ==> SameForGranter(Step(s, call).state, t, g)
  {
    ListAfter(s, call, g);
    ListAfter(t, call, g);
    forall e
      ensures HasPermission(Step(s, call).state, g, e) ==
              if Concerns(call, g) then HasPermission(Step(t, call).state, g, e) else HasPermission(t, g, e)
    {
      PermissionAfter(s, call, g, e);
      PermissionAfter(t, call, g, e);
    }
  }

  /** A granter's view of the contract, and the replies it gets, depend only on its own calls. */
  lemma {:induction false} GranterIndependence(calls: seq<Call>, g: AccountId)
    ensures SameForGranter(Run(calls).state, Run(CallsOf(calls, g)).state, g)
    ensures RepliesTo(calls, g) == Run(CallsOf(calls, g)).replies
  {
    if calls != [] {
      var own := CallsOf(DropLast(calls), g);
      GranterIndependence(DropLast(calls), g);
      StepDependsOnOwnGranter(Run(DropLast(calls)).state, Run(own).state, Last(calls), g);
      if Concerns(Last(calls), g) {
        RunSnoc(own, Last(calls));
      } else {
        assert own + [] == own;
      }
    }
  }

  /** Any two interleavings with the same calls of g, in the same order, are the same for g. */
  lemma InterleavingsAgree(a: seq<Call>, b: seq<Call>, g: AccountId)
    requires CallsOf(a, g) == CallsOf(b, g)
    ensures SameForGranter(Run(a).state, Run(b).state, g)
    ensures RepliesTo(a, g) == RepliesTo(b, g)
  {
    GranterIndependence(a, g);
    GranterIndependence(b, g);
  }

  // ---- Conservation of grants ----

  /** The total length of all lists in the index. */
  ghost function TotalLength(m: map<AccountId, seq<AccountId>>): nat {
    if m == map[] then 0
    else
      var g :| g in m;
      |m[g]| + TotalLength(m - {g})
  }

  lemma {:induction false} TotalLengthAt(m: map<AccountId, seq<AccountId>>, g: AccountId)
    requires g in m
    ensures TotalLength(m) == |m[g]| + TotalLength(m - {g})
  {
    var p :| p in m && TotalLength(m) == |m[p]| + TotalLength(m - {p});
    if p != g {
      TotalLengthAt(m - {p}, g);
      TotalLengthAt(m - {g}, p);
      assert m - {p} - {g} == m - {g} - {p};
    }
  }

  lemma TotalLengthUpdate(m: map<AccountId, seq<AccountId>>, g: AccountId, list: seq<AccountId>)
    ensures TotalLength(m[g := list]) == TotalLength(m) - |Lookup(m, g).GetOr([])| + |list|
  {
    TotalLengthAt(m[g := list], g);
    assert m[g := list] - {g} == m - {g};
    if g in m {
      TotalLengthAt(m, g);
    } else {
      assert m - {g} == m;
    }
  }

  function Weight(ev: Event): int {
    if !ev.PermissionGranted? then 0 else if ev.state then 1 else -1
  }

  /** Granted events minus revoked events. */
  function Balance(log: seq<Event>): int {
    if log == [] then 0
    else Balance(DropLast(log)) + Weight(Last(log))
  }

  lemma {:induction false} BalanceAppend(log: seq<Event>, evs: seq<Event>)
    ensures Balance(log + evs) == Balance(log) + Balance(evs)
  {
    if evs == [] {
      assert log + evs == log;
    } else {
      BalanceAppend(log, DropLast(evs));
      assert DropLast(log + evs) == log + DropLast(evs);
    }
  }

  lemma BalanceOfFew(evs: seq<Event>)
    ensures |evs| == 0 ==> Balance(evs) == 0
    ensures |evs| == 1 ==> Balance(evs) == Weight(evs[0])
    ensures |evs| == 2 ==> Balance(evs) == Weight(evs[0]) + Weight(evs[1])
  {
    if |evs| == 2 {
      BalanceOfFew(DropLast(evs));
    }
  }

  lemma BalanceOfStep(st: State, call: Call)
    ensures Balance(Step(st, call).events) ==
            if Step(st, call).reply != Accepted then 0
            else if call.GrantPermission? then 1
            else if call.RevokePermission? then -1
            else 0
  {
    BalanceOfFew(Step(st, call).events);
  }

  lemma StepConserves(st: State, call: Call)
    requires IndexAgrees(st)
    ensures TotalLength(Step(st, call).state.grantees) == TotalLength(st.grantees) + Balance(Step(st, call).events)
  {
    BalanceOfStep(st, call);
    if call.GrantPermission? || call.RevokePermission? {
      var g := call.granter;
      assert IndexAgreesFor(st, g);
      assert call.grantee in GrantedPermissions(st, g) <==> HasPermission(st, g, call.grantee);
      TotalLengthUpdate(st.grantees, g, GrantedPermissions(Step(st, call).state, g));
    }
  }

  /** In every reachable state, the index holds as many entries as grants have not been revoked. */
  lemma {:induction false} GrantsAreConserved(calls: seq<Call>)
    ensures TotalLength(Run(calls).state.grantees) == Balance(Run(calls).log)
  {
    if calls != [] {
      var t := Run(DropLast(calls));
      GrantsAreConserved(DropLast(calls));
      ReachableIndexAgrees(DropLast(calls));
      StepConserves(t.state, Last(calls));
      BalanceAppend(t.log, Step(t.state, Last(calls)).events);
    }
  }

  // ---- Grant and revoke undo each other ----

  /** Two storages that no permission query can tell apart. */
  ghost predicate SamePermissions(s: State, t: State) {
    forall g :: SameForGranter(s, t, g)
  }

  lemma ReplyTo(st: State, g: AccountId, e: AccountId)
    ensures Step(st, GrantPermission(g, e)).reply == Accepted <==> !HasPermission(st, g, e)
    ensures Step(st, RevokePermission(g, e)).reply == Accepted <==> HasPermission(st, g, e)
  {
  }

  /** All permission answers and lists after a step on the pair (g, e). */
  lemma ViewAfter(st: State, call: Call, g: AccountId, e: AccountId)
    requires call == GrantPermission(g, e) || call == RevokePermission(g, e)
    ensures var st' := Step(st, call).state;
            && (forall h, x :: HasPermission(st', h, x) ==
                               if h == g && x == e then call.GrantPermission? else HasPermission(st, h, x))
            && (forall h :: GrantedPermissions(st', h) ==
                            if h == g then NextList(GrantedPermissions(st, g), HasPermission(st, g, e), call)
                            else GrantedPermissions(st, h))
  {
    hide Step;
    forall h, x
      ensures HasPermission(Step(st, call).state, h, x) ==
              if h == g && x == e then call.GrantPermission? else HasPermission(st, h, x)
    {
      PermissionAfter(st, call, h, x);
    }
    forall h
      ensures GrantedPermissions(Step(st, call).state, h) ==
              if h == g then NextList(GrantedPermissions(st, g), HasPermission(st, g, e), call)
              else GrantedPermissions(st, h)
    {
      ListAfter(st, call, h);
    }
  }

  lemma RemoveAppended(list: seq<AccountId>, e: AccountId)
    requires e !in list
    ensures var pos := Position(list + [e], e);
            pos.Some? && RemoveAt(list + [e], pos.value) == list
  {
    var longer := list + [e];
    assert longer[|list|] == e;
    var p := Position(longer, e).value;
    assert forall i :: 0 <= i < |list| ==> longer[i] == list[i];
    assert RemoveAt(longer, |list|) == list;
  }

  lemma MoveToEnd(list: seq<AccountId>, k: nat)
    requires k < |list|
    ensures multiset(RemoveAt(list, k) + [list[k]]) == multiset(list)
  {
    assert list == list[..k] + [list[k]] + list[k + 1..];
  }

  /** A successful grant is undone by revoking the same pair, which then always succeeds. */
  lemma RevokeUndoesGrant(calls: seq<Call>, g: AccountId, e: AccountId)
    ensures var st := Run(calls).state;
            var granted := Step(st, GrantPermission(g, e));
            var revoked := Step(granted.state, RevokePermission(g, e));
            granted.reply == Accepted ==> revoked.reply == Accepted && SamePermissions(revoked.state, st)
  {
    hide Step;
    var st := Run(calls).state;
    var granted := Step(st, GrantPermission(g, e)).state;
    var list := GrantedPermissions(st, g);
    ReachableIndexAgrees(calls);
    assert IndexAgreesFor(st, g);
    ReplyTo(st, g, e);
    ReplyTo(granted, g, e);
    ViewAfter(st, GrantPermission(g, e), g, e);
    ViewAfter(granted, RevokePermission(g, e), g, e);
    if !HasPermission(st, g, e) {
      RemoveAppended(list, e);
    }
  }

  /** A successful revoke followed by a grant gives the same grantees, with the pair's grantee moved to the end. */
  lemma GrantAfterRevoke(calls: seq<Call>, g: AccountId, e: AccountId)
    ensures var st := Run(calls).state;
            var revoked := Step(st, RevokePermission(g, e));
            var granted := Step(revoked.state, GrantPermission(g, e));
            revoked.reply == Accepted ==>
              && granted.reply == Accepted
              && (forall h, x :: HasPermission(granted.state, h, x) == HasPermission(st, h, x))
              && (forall h :: h != g ==> GrantedPermissions(granted.state, h) == GrantedPermissions(st, h))
              && var list := GrantedPermissions(st, g);
                 exists k :: 0 <= k < |list| && list[k] == e
                             && GrantedPermissions(granted.state, g) == RemoveAt(list, k) + [e]
                             && multiset(GrantedPermissions(granted.state, g)) == multiset(list)
  {
    hide Step;
    var st := Run(calls).state;
    var revoked := Step(st, RevokePermission(g, e)).state;
    var list := GrantedPermissions(st, g);
    ReachableIndexAgrees(calls);
    assert IndexAgreesFor(st, g);
    ReplyTo(st, g, e);
    ReplyTo(revoked, g, e);
    ViewAfter(st, RevokePermission(g, e), g, e);
    ViewAfter(revoked, GrantPermission(g, e), g, e);
    if HasPermission(st, g, e) {
      var k := Position(list, e).value;
      RemoveAtElements(list, k);
      MoveToEnd(list, k);
    }
  }
}
