/**
 * The registry of accounts over whole runs of the contract: which accounts a DNI
 * has, how users, roles and slots are linked, and exactly when a registration is
 * rejected. Two laws say which calls keep roles separated, each exactly: one for the
 * two accounts of every DNI having different roles, one for that together with
 * every account being in the slots of the DNI stored with it and of no other.
 */
module Registry {
  import opened Common
  import opened AccessModel

  // ---- Slots ----

  predicate Succeeded(call: Call, reply: Reply) {
    call.AddUser? && reply == Accepted
  }

  /** The accounts of the successful add_user calls for a DNI, in call order. */
  function Registered(calls: seq<Call>, dni: Text): seq<AccountId> {
    if calls == [] then []
    else
      Registered(DropLast(calls), dni) +
      (if Succeeded(Last(calls), Last(Run(calls).replies)) && Last(calls).info.dni == dni
       then [Last(calls).account] else [])
  }

  ghost predicate SlotsInOrder(st: State) {
    forall d :: SlotsOf(st, d).second.Some? ==> SlotsOf(st, d).first.Some?
  }

  /** A filled slot still holds the same account. */
  predicate SlotsKept(before: Slots, after: Slots) {
    && (before.first.Some? ==> after.first == before.first)
    && (before.second.Some? ==> after.second == before.second)
  }

  lemma SlotsAfter(st: State, call: Call, dni: Text)
    ensures var o := Step(st, call);
            SlotsOf(o.state, dni) ==
            if Succeeded(call, o.reply) && call.info.dni == dni
            then FillSlot(SlotsOf(st, dni), call.account) else SlotsOf(st, dni)
    ensures var o := Step(st, call);
            Succeeded(call, o.reply) ==> |GetAccounts(st, call.info.dni)| < 2
  {
  }

  lemma StepOnSlots(st: State, call: Call, dni: Text)
    requires SlotsInOrder(st)
    ensures var o := Step(st, call);
            && SlotsInOrder(o.state)
            && SlotsKept(SlotsOf(st, dni), SlotsOf(o.state, dni))
            && GetAccounts(o.state, dni) ==
               if Succeeded(call, o.reply) && call.info.dni == dni
               then GetAccounts(st, dni) + [call.account] else GetAccounts(st, dni)
  {
    hide Step;
    forall d
      ensures SlotsOf(Step(st, call).state, d).second.Some? ==> SlotsOf(Step(st, call).state, d).first.Some?
    {
      SlotsAfter(st, call, d);
    }
    SlotsAfter(st, call, dni);
  }

  /** After any run, the accounts of a DNI are exactly its successful registrations, of which there are at most two. */
  lemma {:induction false} AccountsAreRegistrations(calls: seq<Call>, dni: Text)
    ensures SlotsInOrder(Run(calls).state)
    ensures GetAccounts(Run(calls).state, dni) == Registered(calls, dni)
    ensures |Registered(calls, dni)| <= 2
  {
    hide Step;
    if calls != [] {
      var st := Run(DropLast(calls)).state;
      AccountsAreRegistrations(DropLast(calls), dni);
      StepOnSlots(st, Last(calls), dni);
    }
  }

  /** A slot once filled never changes, however the run continues. */
  lemma {:induction false} FilledSlotsNeverChange(calls: seq<Call>, n: nat, dni: Text)
    requires n <= |calls|
    ensures SlotsKept(SlotsOf(Run(calls[..n]).state, dni), SlotsOf(Run(calls).state, dni))
  {
    hide Step;
    if n == |calls| {
      assert calls[..n] == calls;
    } else {
      var before := DropLast(calls);
      assert before[..n] == calls[..n];
      FilledSlotsNeverChange(before, n, dni);
      AccountsAreRegistrations(before, dni);
      StepOnSlots(Run(before).state, Last(calls), dni);
    }
  }

  // ---- Links between slots, users and roles ----

  ghost predicate Linked(st: State) {
    && (forall d, a :: a in GetAccounts(st, d) ==> a in st.users && a in st.roles)
    && (forall a :: a in st.users ==> a in GetAccounts(st, st.users[a].dni))
  }

  /** A successful registration stores the user and a role; no call removes either. */
  lemma UsersAndRolesAfter(st: State, call: Call)
    ensures var o := Step(st, call);
            && o.state.users == (if Succeeded(call, o.reply) then st.users[call.account := call.info] else st.users)
            && o.state.roles.Keys == st.roles.Keys +
                 (if Succeeded(call, o.reply) || call.AssignRole? then {call.account} else {})
  {
    hide FormError, RoleClash, GetAccounts, SlotsOf, FillSlot, HasPermission, GrantedPermissions, RemoveAt;
  }

  lemma StepKeepsLinks(st: State, call: Call)
    requires SlotsInOrder(st) && Linked(st)
    ensures Linked(Step(st, call).state)
  {
    hide Step, GetAccounts;
    var st' := Step(st, call).state;
    UsersAndRolesAfter(st, call);
    forall d, a | a in GetAccounts(st', d)
      ensures a in st'.users && a in st'.roles
    {
      StepOnSlots(st, call, d);
      assert a in st'.roles.Keys <==> a in st'.roles;
    }
    forall a | a in st'.users
      ensures a in GetAccounts(st', st'.users[a].dni)
    {
      StepOnSlots(st, call, st'.users[a].dni);
    }
  }

  /** In every reachable state, slots, users and roles are linked. */
  lemma {:induction false} ReachableLinked(calls: seq<Call>)
    ensures SlotsInOrder(Run(calls).state) && Linked(Run(calls).state)
  {
    AccountsAreRegistrations(calls, []);
    if calls != [] {
      ReachableLinked(DropLast(calls));
      StepKeepsLinks(Run(DropLast(calls)).state, Last(calls));
    }
  }

  /** Some account of the DNI currently has the role. */
  ghost predicate RoleInUse(st: State, dni: Text, role: U8) {
    exists a :: a in GetAccounts(st, dni) && GetRole(st, a) == Some(role)
  }

  /** What a registration is answered, in terms of queries alone. */
  ghost function Decision(st: State, info: UserInfo, role: U8): Reply {
    if !(1 <= |info.name| <= 12) then Rejected(InvalidName)
    else if !(1 <= |info.lastname| <= 12) then Rejected(InvalidLastname)
    else if |info.dni| != 8 then Rejected(InvalidDni)
    else if 64 !in info.email then Rejected(InvalidEmail)
    else if |GetAccounts(st, info.dni)| == 2 then Rejected(DniFull)
    else if RoleInUse(st, info.dni, role) then Rejected(RoleTaken)
    else Accepted
  }

  /**
   * In every reachable state a registration is answered by that decision: the first of
   * the four form errors that applies, '@' being byte 64, and then the
   * two that depend on the storage. The default role 2 never decides: an account in a
   * slot always has a role.
   */
  lemma RegistrationDecision(calls: seq<Call>, account: AccountId, info: UserInfo, role: U8)
    ensures var reply := Step(Run(calls).state, AddUser(account, info, role)).reply;
            && (reply == Rejected(InvalidName) <==> !(1 <= |info.name| <= 12))
            && (reply == Rejected(InvalidLastname) <==> 1 <= |info.name| <= 12 && !(1 <= |info.lastname| <= 12))
            && (reply == Rejected(InvalidDni) <==>
                  1 <= |info.name| <= 12 && 1 <= |info.lastname| <= 12 && |info.dni| != 8)
            && (reply == Rejected(InvalidEmail) <==>
                  1 <= |info.name| <= 12 && 1 <= |info.lastname| <= 12 && |info.dni| == 8 && 64 !in info.email)
    ensures var st := Run(calls).state;
            && Step(st, AddUser(account, info, role)).reply == Decision(st, info, role)
            && (forall a :: a in GetAccounts(st, info.dni) ==> GetRole(st, a) == Some(ExistingRole(st, a)))
  {
    DecisionIsReply(calls, account, info, role);
    DecisionErrors(Run(calls).state, info, role);
    hide *;
  }

  lemma DecisionErrors(st: State, info: UserInfo, role: U8)
    ensures var reply := Decision(st, info, role);
            && (reply == Rejected(InvalidName) <==> !(1 <= |info.name| <= 12))
            && (reply == Rejected(InvalidLastname) <==> 1 <= |info.name| <= 12 && !(1 <= |info.lastname| <= 12))
            && (reply == Rejected(InvalidDni) <==>
                  1 <= |info.name| <= 12 && 1 <= |info.lastname| <= 12 && |info.dni| != 8)
            && (reply == Rejected(InvalidEmail) <==>
                  1 <= |info.name| <= 12 && 1 <= |info.lastname| <= 12 && |info.dni| == 8 && 64 !in info.email)
  {
    hide GetAccounts, RoleInUse;
  }

  lemma DecisionIsReply(calls: seq<Call>, account: AccountId, info: UserInfo, role: U8)
    ensures var st := Run(calls).state;
            && Step(st, AddUser(account, info, role)).reply == Decision(st, info, role)
            && (forall a :: a in GetAccounts(st, info.dni) ==> GetRole(st, a) == Some(ExistingRole(st, a)))
  {
    var st := Run(calls).state;
    AccountsAreRegistrations(calls, info.dni);
    ReachableLinked(calls);
    hide Run, Registered;
    assert forall a :: a in GetAccounts(st, info.dni) ==> GetRole(st, a) == Some(ExistingRole(st, a));
    FormErrorIs(info);
    RoleClashIs(st, info.dni, role);
    hide FormError, RoleClash, RoleInUse, GetAccounts, GetRole, Linked, SlotsInOrder;
  }

  lemma FormErrorIs(info: UserInfo)
    ensures FormError(info) ==
            if !(1 <= |info.name| <= 12) then Some(InvalidName)
            else if !(1 <= |info.lastname| <= 12) then Some(InvalidLastname)
            else if |info.dni| != 8 then Some(InvalidDni)
            else if 64 !in info.email then Some(InvalidEmail)
            else None
  {
  }

  lemma RoleClashIs(st: State, dni: Text, role: U8)
    requires forall a :: a in GetAccounts(st, dni) ==> GetRole(st, a) == Some(ExistingRole(st, a))
    ensures RoleClash(st, dni, role) <==> RoleInUse(st, dni, role)
  {
    hide GetAccounts;
  }

  /** What the contract demands of a user's data, lengths being in bytes. */
  predicate GoodForm(info: UserInfo) {
    && 1 <= |info.name| <= 12 && 1 <= |info.lastname| <= 12
    && |info.dni| == 8 && 64 in info.email
  }

  lemma FormErrorExact(info: UserInfo)
    ensures FormError(info).None? <==> GoodForm(info)
  {
  }

  lemma AcceptedForm(st: State, call: Call)
    ensures Succeeded(call, Step(st, call).reply) ==> GoodForm(call.info)
  {
    if call.AddUser? {
      FormErrorExact(call.info);
    }
  }

  /** In every reachable state every stored user has data of the demanded form. */
  lemma {:induction false} StoredUsersHaveGoodForm(calls: seq<Call>)
    ensures forall a :: a in Run(calls).state.users ==> GoodForm(Run(calls).state.users[a])
  {
    hide Step;
    if calls != [] {
      StoredUsersHaveGoodForm(DropLast(calls));
      UsersAndRolesAfter(Run(DropLast(calls)).state, Last(calls));
      AcceptedForm(Run(DropLast(calls)).state, Last(calls));
    }
  }

  // ---- The event log determines roles, users and access requests ----

  function RoleIn(ev: Event, a: AccountId): Option<U8> {
    if ev.RoleAssigned? && ev.account == a then Some(ev.role) else None
  }

  function TargetIn(ev: Event, r: AccountId): seq<AccountId> {
    if ev.AccessRequested? && ev.requester == r then [ev.target] else []
  }

  /** The role of the last RoleAssigned event of an account. */
  function LastRole(log: seq<Event>, a: AccountId): Option<U8> {
    if log == [] then None else Or(RoleIn(Last(log), a), LastRole(DropLast(log), a))
  }

  /** The targets of the AccessRequested events of a requester, in order. */
  function Targets(log: seq<Event>, r: AccountId): seq<AccountId> {
    if log == [] then [] else Targets(DropLast(log), r) + TargetIn(Last(log), r)
  }

  function Or<T>(a: Option<T>, b: Option<T>): Option<T> {
    if a.Some? then a else b
  }

  lemma {:induction false} AppendEvents(log: seq<Event>, evs: seq<Event>, a: AccountId)
    ensures LastRole(log + evs, a) == Or(LastRole(evs, a), LastRole(log, a))
    ensures Targets(log + evs, a) == Targets(log, a) + Targets(evs, a)
  {
    if evs == [] {
      assert log + evs == log;
    } else {
      AppendEvents(log, DropLast(evs), a);
      assert DropLast(log + evs) == log + DropLast(evs) && Last(log + evs) == Last(evs);
      hide RoleIn, TargetIn;
    }
  }

  lemma FewEvents(evs: seq<Event>, a: AccountId)
    ensures |evs| == 0 ==> LastRole(evs, a) == None && Targets(evs, a) == []
    ensures |evs| == 1 ==> LastRole(evs, a) == RoleIn(evs[0], a) && Targets(evs, a) == TargetIn(evs[0], a)
    ensures |evs| == 2 ==>
              && LastRole(evs, a) == Or(RoleIn(evs[1], a), RoleIn(evs[0], a))
              && Targets(evs, a) == TargetIn(evs[0], a) + TargetIn(evs[1], a)
  {
    if |evs| > 0 {
      assert [] + TargetIn(Last(evs), a) == TargetIn(Last(evs), a);
    }
    if |evs| == 2 {
      FewEvents(DropLast(evs), a);
    }
  }

  /** What a step does to an account's role, registration and requests is what its own events say. */
  lemma EventsOfStep(st: State, call: Call, a: AccountId)
    ensures var o := Step(st, call);
            && GetRole(o.state, a) == Or(LastRole(o.events, a), GetRole(st, a))
            && (a in o.state.users <==> a in st.users || UserAdded(a) in o.events)
            && AccessRequests(o.state, a) == AccessRequests(st, a) + Targets(o.events, a)
  {
    hide *;
    RoleOfStep(st, call, a);
    UsersOfStep(st, call, a);
    RequestsOfStep(st, call, a);
  }

  lemma RoleOfStep(st: State, call: Call, a: AccountId)
    ensures GetRole(Step(st, call).state, a) == Or(LastRole(Step(st, call).events, a), GetRole(st, a))
  {
    hide LastRole, Targets, TargetIn, FormError, RoleClash, GetAccounts, SlotsOf, FillSlot;
    hide HasPermission, GrantedPermissions, AccessRequests, RemoveAt;
    FewEvents(Step(st, call).events, a);
  }

  lemma UsersOfStep(st: State, call: Call, a: AccountId)
    ensures a in Step(st, call).state.users <==> a in st.users || UserAdded(a) in Step(st, call).events
  {
    hide FormError, RoleClash, GetAccounts, SlotsOf, FillSlot, HasPermission, GrantedPermissions, AccessRequests;
  }

  lemma RequestsOfStep(st: State, call: Call, a: AccountId)
    ensures AccessRequests(Step(st, call).state, a) == AccessRequests(st, a) + Targets(Step(st, call).events, a)
  {
    hide LastRole, Targets;
    FewEvents(Step(st, call).events, a);
    assert AccessRequests(st, a) + [] == AccessRequests(st, a);
  }

  // ---- The calls determine the access requests ----

  /** The targets of the RequestAccess calls that name r as requester, in call order. */
  function Requested(calls: seq<Call>, r: AccountId): seq<AccountId> {
    if calls == [] then []
    else
      match Last(calls)
      case RequestAccess(requester, target) =>
        if requester == r then Requested(DropLast(calls), r) + [target] else Requested(DropLast(calls), r)
      case _ => Requested(DropLast(calls), r)
  }

  lemma RequestsAfter(st: State, call: Call, r: AccountId)
    ensures AccessRequests(Step(st, call).state, r) ==
            match call
            case RequestAccess(requester, target) =>
              if requester == r then AccessRequests(st, r) + [target] else AccessRequests(st, r)
            case _ => AccessRequests(st, r)
  {
    hide FormError, RoleClash, GetAccounts, SlotsOf, FillSlot, HasPermission, GrantedPermissions, RemoveAt;
  }

  /** After any run, an account's requests are the targets it named in its calls, and so are those in the log. */
  lemma {:induction false} RequestsAreCalls(calls: seq<Call>, r: AccountId)
    ensures AccessRequests(Run(calls).state, r) == Requested(calls, r) == Targets(Run(calls).log, r)
  {
    LogIsComplete(calls, r);
    hide Step, AccessRequests;
    if calls != [] {
      RequestsAreCalls(DropLast(calls), r);
      RequestsAfter(Run(DropLast(calls)).state, Last(calls), r);
    } else {
      NoRequestsYet(r);
    }
  }

  lemma RequestedSnoc(calls: seq<Call>, r: AccountId, target: AccountId)
    ensures Requested(calls + [RequestAccess(r, target)], r) == Requested(calls, r) + [target]
  {
    assert DropLast(calls + [RequestAccess(r, target)]) == calls;
  }

  lemma NoRequestsYet(r: AccountId)
    ensures AccessRequests(INITIAL, r) == []
  {
  }

  ghost predicate LogExplains(st: State, log: seq<Event>, a: AccountId) {
    && GetRole(st, a) == LastRole(log, a)
    && (a in st.users <==> UserAdded(a) in log)
    && AccessRequests(st, a) == Targets(log, a)
  }

  lemma StepKeepsLogExplains(st: State, log: seq<Event>, call: Call, a: AccountId)
    requires LogExplains(st, log, a)
    ensures LogExplains(Step(st, call).state, log + Step(st, call).events, a)
  {
    hide Step;
    AppendEvents(log, Step(st, call).events, a);
    EventsOfStep(st, call, a);
  }

  /** After any run, roles, registered users and access requests can be read off the event log. */
  lemma {:induction false} LogIsComplete(calls: seq<Call>, a: AccountId)
    ensures LogExplains(Run(calls).state, Run(calls).log, a)
  {
    hide Step;
    if calls != [] {
      var t := Run(DropLast(calls));
      LogIsComplete(DropLast(calls), a);
      StepKeepsLogExplains(t.state, t.log, Last(calls), a);
    }
  }

  /** The information given by the last successful registration of an account. */
  function LastInfo(calls: seq<Call>, a: AccountId): Option<UserInfo> {
    if calls == [] then None
    else if Succeeded(Last(calls), Last(Run(calls).replies)) && Last(calls).account == a then Some(Last(calls).info)
    else LastInfo(DropLast(calls), a)
  }

  /** After any run, the stored information of an account is that of its last successful registration. */
  lemma {:induction false} StoredInfoIsLast(calls: seq<Call>, a: AccountId)
    ensures Lookup(Run(calls).state.users, a) == LastInfo(calls, a)
  {
    hide Step;
    if calls != [] {
      StoredInfoIsLast(DropLast(calls), a);
      UsersAndRolesAfter(Run(DropLast(calls)).state, Last(calls));
    }
  }

  // ---- Different roles in every DNI ----

  /** The two accounts of the DNI are distinct and have different roles. */
  ghost predicate PairSeparated(st: State, dni: Text) {
    var s := SlotsOf(st, dni);
    s.first.Some? && s.second.Some? ==>
      s.first != s.second && GetRole(st, s.first.value) != GetRole(st, s.second.value)
  }

  ghost predicate RolesApart(st: State) {
    forall d :: PairSeparated(st, d)
  }

  /** No account that shares a DNI with account a has the role. */
  ghost predicate NoPartnerHas(st: State, a: AccountId, role: U8) {
    forall d, b :: a in GetAccounts(st, d) && b in GetAccounts(st, d) && b != a ==> GetRole(st, b) != Some(role)
  }

  /** The calls that keep the roles of every DNI different, decided by queries before the call. */
  ghost predicate KeepsRolesApart(st: State, call: Call) {
    match call
    case AddUser(a, info, role) =>
      Decision(st, info, role) == Accepted ==> a !in GetAccounts(st, info.dni) && NoPartnerHas(st, a, role)
    case AssignRole(a, role) => NoPartnerHas(st, a, role)
    case _ => true
  }

  predicate SetsRole(call: Call, reply: Reply) {
    call.AssignRole? || Succeeded(call, reply)
  }

  lemma RoleAfter(st: State, call: Call, x: AccountId)
    ensures var o := Step(st, call);
            GetRole(o.state, x) ==
            if SetsRole(call, o.reply) && x == call.account then Some(call.role) else GetRole(st, x)
  {
    hide FormError, RoleClash, GetAccounts, SlotsOf, FillSlot, HasPermission, GrantedPermissions, RemoveAt;
  }

  /** The same about a list of accounts. */
  ghost predicate ListApart(st: State, list: seq<AccountId>) {
    |list| == 2 ==> list[0] != list[1] && GetRole(st, list[0]) != GetRole(st, list[1])
  }

  lemma PairIsList(st: State, d: Text)
    requires SlotsInOrder(st)
    ensures PairSeparated(st, d) <==> ListApart(st, GetAccounts(st, d))
    ensures |GetAccounts(st, d)| <= 2
  {
  }

  /** A role set to an account of a pair has to differ from its partner's. */
  lemma SettingRole(st: State, st': State, list: seq<AccountId>, a: AccountId, role: U8)
    requires |list| <= 2 && ListApart(st, list)
    requires forall x :: GetRole(st', x) == if x == a then Some(role) else GetRole(st, x)
    ensures ListApart(st', list) <==> forall b :: a in list && b in list && b != a ==> GetRole(st, b) != Some(role)
  {
    hide GetRole;
    if |list| == 2 {
      assert list[0] in list && list[1] in list;
    }
  }

  /** What a call has to avoid for the pair of one DNI. */
  ghost predicate KeepsPair(st: State, call: Call, d: Text) {
    var reply := Step(st, call).reply;
    && (Succeeded(call, reply) && call.info.dni == d ==> call.account !in GetAccounts(st, d))
    && (SetsRole(call, reply) ==>
          forall b :: call.account in GetAccounts(st, d) && b in GetAccounts(st, d) && b != call.account ==>
            GetRole(st, b) != Some(call.role))
  }

  /** An account put next to another one: it is a new one, and its role is not in use. */
  lemma FillingPair(st: State, call: Call)
    requires SlotsInOrder(st) && Linked(st) && Succeeded(call, Step(st, call).reply)
    ensures |GetAccounts(st, call.info.dni)| < 2
    ensures forall b :: b in GetAccounts(st, call.info.dni) ==> GetRole(st, b) != Some(call.role)
  {
    hide FormError;
  }

  lemma RolesAfter(st: State, call: Call)
    ensures var o := Step(st, call);
            forall x :: GetRole(o.state, x) ==
                        if SetsRole(call, o.reply) && x == call.account then Some(call.role) else GetRole(st, x)
  {
    hide Step, GetRole;
    forall x
      ensures GetRole(Step(st, call).state, x) ==
              if SetsRole(call, Step(st, call).reply) && x == call.account then Some(call.role) else GetRole(st, x)
    {
      RoleAfter(st, call, x);
    }
  }

  /** The pair of the DNI that a registration fills. */
  lemma FilledList(st: State, call: Call)
    requires SlotsInOrder(st) && Linked(st) && Succeeded(call, Step(st, call).reply)
    ensures var list := GetAccounts(st, call.info.dni);
            && (ListApart(Step(st, call).state, list + [call.account]) <==> call.account !in list)
            && (KeepsPair(st, call, call.info.dni) <==> call.account !in list)
  {
    FillingPair(st, call);
    RolesAfter(st, call);
    hide Step, GetAccounts, GetRole, SlotsInOrder, Linked;
    var list := GetAccounts(st, call.info.dni);
    if |list| == 1 {
      assert list[0] in list;
    }
  }

  /** Any other pair. */
  lemma KeptList(st: State, call: Call, d: Text)
    requires |GetAccounts(st, d)| <= 2 && ListApart(st, GetAccounts(st, d))
    requires !(Succeeded(call, Step(st, call).reply) && call.info.dni == d)
    ensures ListApart(Step(st, call).state, GetAccounts(st, d)) <==> KeepsPair(st, call, d)
  {
    RolesAfter(st, call);
    hide Step, GetAccounts, GetRole;
    if SetsRole(call, Step(st, call).reply) {
      SettingRole(st, Step(st, call).state, GetAccounts(st, d), call.account, call.role);
    }
  }

  lemma StepOnPair(st: State, call: Call, d: Text)
    requires SlotsInOrder(st) && Linked(st) && PairSeparated(st, d)
    ensures PairSeparated(Step(st, call).state, d) <==> KeepsPair(st, call, d)
  {
    hide Step, SlotsInOrder, Linked, PairSeparated, GetAccounts, SlotsOf, ListApart, KeepsPair, SlotsKept;
    StepOnSlots(st, call, d);
    PairIsList(st, d);
    PairIsList(Step(st, call).state, d);
    if Succeeded(call, Step(st, call).reply) && call.info.dni == d {
      FilledList(st, call);
    } else {
      KeptList(st, call, d);
    }
  }

  lemma KeepsEveryPair(calls: seq<Call>, call: Call)
    ensures KeepsRolesApart(Run(calls).state, call) <==> forall d :: KeepsPair(Run(calls).state, call, d)
  {
    var st := Run(calls).state;
    if call.AddUser? {
      RegistrationDecision(calls, call.account, call.info, call.role);
    }
    hide Step, Run, GetAccounts, GetRole, Decision;
    if (forall d :: KeepsPair(st, call, d)) && SetsRole(call, Step(st, call).reply) {
      assert call.AddUser? ==> KeepsPair(st, call, call.info.dni);
      forall d, b | call.account in GetAccounts(st, d) && b in GetAccounts(st, d) && b != call.account
        ensures GetRole(st, b) != Some(call.role)
      {
        assert KeepsPair(st, call, d);
      }
    }
  }

  /**
   * From a reachable state in which the roles of every DNI differ, a call keeps them so
   * exactly if it does not put an account next to itself and does not give an account
   * the role of an account that shares a DNI with it.
   */
  lemma StepKeepsRolesApart(calls: seq<Call>, call: Call)
    requires RolesApart(Run(calls).state)
    ensures RolesApart(Step(Run(calls).state, call).state) <==> KeepsRolesApart(Run(calls).state, call)
  {
    var st := Run(calls).state;
    ReachableLinked(calls);
    KeepsEveryPair(calls, call);
    hide Step, Run, KeepsPair, KeepsRolesApart, PairSeparated, SlotsInOrder, Linked;
    forall d
      ensures PairSeparated(Step(st, call).state, d) <==> KeepsPair(st, call, d)
    {
      StepOnPair(st, call, d);
    }
  }

  /** Roles differ in every DNI after every prefix of the run. */
  ghost predicate AlwaysApart(calls: seq<Call>) {
    RolesApart(Run(calls).state) && (calls != [] ==> AlwaysApart(DropLast(calls)))
  }

  /** Every call of the run met that condition when it was made. */
  ghost predicate AlwaysKeptApart(calls: seq<Call>) {
    calls != [] ==> AlwaysKeptApart(DropLast(calls)) && KeepsRolesApart(Run(DropLast(calls)).state, Last(calls))
  }

  /** The roles of every DNI differ all along a run exactly when each of its calls met the condition. */
  lemma {:induction false} RunKeepsRolesApart(calls: seq<Call>)
    ensures AlwaysApart(calls) <==> AlwaysKeptApart(calls)
  {
    hide Step, RolesApart, KeepsRolesApart;
    if calls == [] {
      InitiallySeparated();
    } else {
      var before := DropLast(calls);
      RunKeepsRolesApart(before);
      if RolesApart(Run(before).state) {
        StepKeepsRolesApart(before, Last(calls));
      }
    }
  }

  // ---- Different roles, and one DNI for each account ----

  /** An account is in the slots of exactly the DNI stored with it. */
  ghost predicate SlotsMatchUsers(st: State) {
    forall d, a :: a in GetAccounts(st, d) <==> a in st.users && st.users[a].dni == d
  }

  ghost predicate Separated(st: State) {
    RolesApart(st) && SlotsMatchUsers(st)
  }

  /** The calls that keep both, decided by queries before the call. */
  ghost predicate KeepsSeparation(st: State, call: Call) {
    match call
    case AddUser(a, info, role) => Decision(st, info, role) == Accepted ==> a !in st.users
    case AssignRole(a, role) =>
      a in st.users ==>
        forall b :: b in GetAccounts(st, st.users[a].dni) && b != a ==> GetRole(st, b) != Some(role)
    case _ => true
  }

  /** The calls that leave every account in the slots of one DNI. */
  predicate KeepsMatch(st: State, call: Call) {
    Succeeded(call, Step(st, call).reply) && call.account in st.users ==>
      st.users[call.account].dni == call.info.dni
  }

  lemma MatchAt(st: State, call: Call, d: Text, b: AccountId)
    requires SlotsInOrder(st) && SlotsMatchUsers(st) && KeepsMatch(st, call)
    ensures var st' := Step(st, call).state;
            b in GetAccounts(st', d) <==> b in st'.users && st'.users[b].dni == d
  {
    hide Step, GetAccounts;
    UsersAndRolesAfter(st, call);
    StepOnSlots(st, call, d);
    assert b in GetAccounts(st, d) <==> b in st.users && st.users[b].dni == d;
  }

  lemma StepKeepsMatch(st: State, call: Call)
    requires SlotsInOrder(st) && SlotsMatchUsers(st)
    ensures SlotsMatchUsers(Step(st, call).state) <==> KeepsMatch(st, call)
  {
    hide Step, GetAccounts;
    var st' := Step(st, call).state;
    if KeepsMatch(st, call) {
      forall d, b
        ensures b in GetAccounts(st', d) <==> b in st'.users && st'.users[b].dni == d
      {
        MatchAt(st, call, d, b);
      }
    } else {
      var a, d := call.account, st.users[call.account].dni;
      UsersAndRolesAfter(st, call);
      StepOnSlots(st, call, d);
      assert a in GetAccounts(st, d);
      assert a in GetAccounts(st', d) && st'.users[a].dni != d;
    }
  }

  lemma BothConditions(calls: seq<Call>, call: Call)
    requires SlotsMatchUsers(Run(calls).state)
    ensures KeepsSeparation(Run(calls).state, call) <==>
            KeepsRolesApart(Run(calls).state, call) && KeepsMatch(Run(calls).state, call)
  {
    var st := Run(calls).state;
    hide Step, Run, GetAccounts, GetRole, Decision;
    match call
    case AddUser(a, info, role) =>
      RegistrationDecision(calls, a, info, role);
      MatchedPartner(st, a, info.dni, role);
    case AssignRole(a, role) => MatchedPartner(st, a, if a in st.users then st.users[a].dni else [], role);
    case _ =>
  }

  /** With matching slots, an account shares no DNI but its own. */
  lemma MatchedPartner(st: State, a: AccountId, d: Text, role: U8)
    requires SlotsMatchUsers(st)
    ensures a in GetAccounts(st, d) <==> a in st.users && st.users[a].dni == d
    ensures NoPartnerHas(st, a, role) <==>
            (a in st.users ==>
               forall b :: b in GetAccounts(st, st.users[a].dni) && b != a ==> GetRole(st, b) != Some(role))
  {
    hide GetAccounts, GetRole;
    assert a in st.users ==> a in GetAccounts(st, st.users[a].dni);
  }

  /** From a reachable state with different roles and matching slots, a call keeps both exactly under that condition. */
  lemma StepSeparation(calls: seq<Call>, call: Call)
    requires Separated(Run(calls).state)
    ensures Separated(Step(Run(calls).state, call).state) <==> KeepsSeparation(Run(calls).state, call)
  {
    var st := Run(calls).state;
    ReachableLinked(calls);
    StepKeepsRolesApart(calls, call);
    StepKeepsMatch(st, call);
    BothConditions(calls, call);
  }

  /** Different roles and matching slots after every prefix of the run. */
  ghost predicate AlwaysSeparated(calls: seq<Call>) {
    Separated(Run(calls).state) && (calls != [] ==> AlwaysSeparated(DropLast(calls)))
  }

  /** Every call of the run met the condition when it was made. */
  ghost predicate AlwaysKept(calls: seq<Call>) {
    calls != [] ==> AlwaysKept(DropLast(calls)) && KeepsSeparation(Run(DropLast(calls)).state, Last(calls))
  }

  lemma InitiallySeparated()
    ensures Separated(Run([]).state) && RolesApart(Run([]).state)
  {
    assert forall d, a :: a !in GetAccounts(INITIAL, d);
  }

  /** Roles differ and slots match all along a run exactly when each of its calls met the condition. */
  lemma {:induction false} RunSeparation(calls: seq<Call>)
    ensures AlwaysSeparated(calls) <==> AlwaysKept(calls)
  {
    hide Step, Separated, KeepsSeparation;
    if calls == [] {
      InitiallySeparated();
    } else {
      var before := DropLast(calls);
      RunSeparation(before);
      if Separated(Run(before).state) {
        StepSeparation(before, Last(calls));
      }
    }
  }

  /** The accounts of all successful registrations, in call order. */
  function AllRegistered(calls: seq<Call>): seq<AccountId> {
    if calls == [] then []
    else
      AllRegistered(DropLast(calls)) +
      (if Succeeded(Last(calls), Last(Run(calls).replies)) then [Last(calls).account] else [])
  }

  lemma {:induction false} UsersAreRegistered(calls: seq<Call>, a: AccountId)
    ensures a in Run(calls).state.users <==> a in AllRegistered(calls)
  {
    hide Step;
    if calls != [] {
      UsersAreRegistered(DropLast(calls), a);
      UsersAndRolesAfter(Run(DropLast(calls)).state, Last(calls));
    }
  }

  /**
   * With no role reassigned and no account successfully registered twice, the two
   * accounts of every DNI are distinct with different roles, and slots match users.
   */
  lemma {:induction false} SeparationOfCleanRuns(calls: seq<Call>)
    requires forall c :: c in calls ==> !c.AssignRole?
    requires NoDup(AllRegistered(calls))
    ensures Separated(Run(calls).state)
  {
    hide Step;
    if calls == [] {
      InitiallySeparated();
    } else {
      var before, call := DropLast(calls), Last(calls);
      var all := AllRegistered(calls);
      assert AllRegistered(before) == all[..|AllRegistered(before)|];
      SeparationOfCleanRuns(before);
      StepSeparation(before, call);
      if call.AddUser? {
        RegistrationDecision(before, call.account, call.info, call.role);
        UsersAreRegistered(before, call.account);
        if Decision(Run(before).state, call.info, call.role) == Accepted {
          assert all[|all| - 1] == call.account;
        }
      }
    }
  }

  // ---- Two runs that lose separation ----

  function Person(email: Text): UserInfo {
    UserInfo([65], [66], [49, 50, 51, 52, 53, 54, 55, 56], email)
  }

  /** Reassigning a role can give both accounts of a DNI the same role. */
  lemma ReassigningCanMix(a: AccountId, b: AccountId)
    requires a != b
    ensures var info := Person([AT_SIGN]);
            var calls := [AddUser(a, info, 0), AddUser(b, info, 1), AssignRole(b, 0)];
            var st := Run(calls).state;
            Run(calls).replies[..2] == [Accepted, Accepted] &&
            GetAccounts(st, info.dni) == [a, b] && GetRole(st, a) == GetRole(st, b) == Some(0) && !RolesApart(st)
  {
    var info := Person([AT_SIGN]);
    var first, second, third := AddUser(a, info, 0), AddUser(b, info, 1), AssignRole(b, 0);
    RunSnoc([], first);
    assert [] + [first] == [first];
    RunSnoc([first], second);
    assert [first] + [second] == [first, second];
    RunSnoc([first, second], third);
    assert [first, second] + [third] == [first, second, third];
    var one := Run([first]).state;
    assert GetAccounts(one, info.dni) == [a] && ExistingRole(one, a) == 0;
    var st := Run([first, second, third]).state;
    assert SlotsOf(st, info.dni) == Slots(Some(a), Some(b));
    assert !PairSeparated(st, info.dni);
  }

  /** Registering one account twice can put it in both slots of its DNI. */
  lemma RegisteringTwiceCanMix(a: AccountId)
    ensures var info := Person([AT_SIGN]);
            var calls := [AddUser(a, info, 0), AddUser(a, info, 1)];
            var st := Run(calls).state;
            Run(calls).replies == [Accepted, Accepted] && GetAccounts(st, info.dni) == [a, a] && !RolesApart(st)
  {
    var info := Person([AT_SIGN]);
    var first, second := AddUser(a, info, 0), AddUser(a, info, 1);
    RunSnoc([], first);
    assert [] + [first] == [first];
    RunSnoc([first], second);
    assert [first] + [second] == [first, second];
    var one := Run([first]).state;
    assert GetAccounts(one, info.dni) == [a] && ExistingRole(one, a) == 0;
    var st := Run([first, second]).state;
    assert SlotsOf(st, info.dni) == Slots(Some(a), Some(a));
    assert !PairSeparated(st, info.dni);
  }

  /** Registering one account with two DNIs keeps the roles of each DNI different, but puts it in the slots of both. */
  lemma RegisteringElsewhere(a: AccountId)
    ensures var info := Person([AT_SIGN]);
            var other := info.(dni := [56, 55, 54, 53, 52, 51, 50, 49]);
            var calls := [AddUser(a, info, 0), AddUser(a, other, 0)];
            var st := Run(calls).state;
            && Run(calls).replies == [Accepted, Accepted]
            && GetAccounts(st, info.dni) == GetAccounts(st, other.dni) == [a]
            && RolesApart(st) && !SlotsMatchUsers(st)
  {
    var info := Person([AT_SIGN]);
    var other := info.(dni := [56, 55, 54, 53, 52, 51, 50, 49]);
    var first, second := AddUser(a, info, 0), AddUser(a, other, 0);
    RunSnoc([], first);
    assert [] + [first] == [first];
    RunSnoc([first], second);
    assert [first] + [second] == [first, second];
    assert info.dni[0] != other.dni[0];
    var one := Run([first]).state;
    assert GetAccounts(one, info.dni) == [a] && GetAccounts(one, other.dni) == [];
    var st := Run([first, second]).state;
    assert SlotsOf(st, info.dni) == SlotsOf(st, other.dni) == Slots(Some(a), None);
    assert st.users[a].dni != info.dni;
  }
}
