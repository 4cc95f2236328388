/**
 * The access-control contract as a state machine on values: its storage, its
 * messages, the events they emit, and runs of any number of messages.
 * `AccessControl.dfy` holds the contract itself, whose methods are proved
 * against `Step`.
 */
module AccessModel {
  import opened Common

  newtype U8 = x: int | 0 <= x < 256

  /** A string is its UTF-8 encoding, because the contract measures lengths in bytes. */
  type Text = seq<U8>

  const AT_SIGN: U8 := 64
  const UNDEFINED_ROLE: U8 := 2

  /** An account identifier; the contract only compares them. */
  datatype AccountId = AccountId(bytes: Text)

  datatype UserInfo = UserInfo(name: Text, lastname: Text, dni: Text, email: Text)

  /** The two places for accounts that belong to one DNI. */
  datatype Slots = Slots(first: Option<AccountId>, second: Option<AccountId>)

  datatype Event =
    | RoleAssigned(account: AccountId, role: U8)
    | UserAdded(account: AccountId)
    | PermissionGranted(granter: AccountId, grantee: AccountId, state: bool)
    | AccessRequested(requester: AccountId, target: AccountId)

  datatype Error =
    | InvalidName
    | InvalidLastname
    | InvalidDni
    | InvalidEmail
    | DniFull
    | RoleTaken
    | AlreadyGranted
    | NotGranted

  datatype Reply = Accepted | Rejected(error: Error) | RoleNotice(role: U8, account: AccountId)

  datatype State = State(
    accounts: map<Text, Slots>,
    users: map<AccountId, UserInfo>,
    roles: map<AccountId, U8>,
    permissions: map<(AccountId, AccountId), bool>,
    grantees: map<AccountId, seq<AccountId>>,
    requests: map<AccountId, seq<AccountId>>)

  datatype Call =
    | AddUser(account: AccountId, info: UserInfo, role: U8)
    | AssignRole(account: AccountId, role: U8)
    | RequestAccess(requester: AccountId, target: AccountId)
    | GrantPermission(granter: AccountId, grantee: AccountId)
    | RevokePermission(granter: AccountId, grantee: AccountId)

  datatype Outcome = Outcome(state: State, events: seq<Event>, reply: Reply)

  // ---- Queries ----

  function Lookup<K, V>(m: map<K, V>, k: K): Option<V> {
    if k in m then Some(m[k]) else None
  }

  function SlotsOf(st: State, dni: Text): Slots {
    Lookup(st.accounts, dni).GetOr(Slots(None, None))
  }

  function Filled(slots: Slots): seq<AccountId> {
    (if slots.first.Some? then [slots.first.value] else []) + (if slots.second.Some? then [slots.second.value] else [])
  }

  function GetAccounts(st: State, dni: Text): seq<AccountId> {
    Filled(SlotsOf(st, dni))
  }

  function GetRole(st: State, account: AccountId): Option<U8> {
    Lookup(st.roles, account)
  }

  function HasPermission(st: State, granter: AccountId, grantee: AccountId): bool {
    Lookup(st.permissions, (granter, grantee)).GetOr(false)
  }

  function GrantedPermissions(st: State, granter: AccountId): seq<AccountId> {
    Lookup(st.grantees, granter).GetOr([])
  }

  function AccessRequests(st: State, requester: AccountId): seq<AccountId> {
    Lookup(st.requests, requester).GetOr([])
  }

  // ---- Messages ----

  function FormError(info: UserInfo): Option<Error> {
    if info.name == [] || |info.name| > 12 then Some(InvalidName)
    else if info.lastname == [] || |info.lastname| > 12 then Some(InvalidLastname)
    else if info.dni == [] || |info.dni| != 8 then Some(InvalidDni)
    else if info.email == [] || AT_SIGN !in info.email then Some(InvalidEmail)
    else None
  }

  /** The role the contract reads for an account, 2 standing for an undefined one. */
  function ExistingRole(st: State, account: AccountId): U8 {
    GetRole(st, account).GetOr(UNDEFINED_ROLE)
  }

  predicate RoleClash(st: State, dni: Text, role: U8) {
    exists a :: a in GetAccounts(st, dni) && ExistingRole(st, a) == role
  }

  function FillSlot(slots: Slots, account: AccountId): Slots {
    if slots.first.None? then slots.(first := Some(account)) else slots.(second := Some(account))
  }

  function DoAddUser(st: State, account: AccountId, info: UserInfo, role: U8): Outcome {
    if FormError(info).Some? then Outcome(st, [], Rejected(FormError(info).value))
    else if |GetAccounts(st, info.dni)| >= 2 then Outcome(st, [], Rejected(DniFull))
    else if RoleClash(st, info.dni, role) then Outcome(st, [], Rejected(RoleTaken))
    else
      Outcome(
        st.(accounts := st.accounts[info.dni := FillSlot(SlotsOf(st, info.dni), account)],
            users := st.users[account := info],
            roles := st.roles[account := role]),
        [RoleAssigned(account, role), UserAdded(account)],
        Accepted)
  }

  function DoGrant(st: State, granter: AccountId, grantee: AccountId): Outcome {
    if HasPermission(st, granter, grantee) then Outcome(st, [], Rejected(AlreadyGranted))
    else
      var list := GrantedPermissions(st, granter);
      Outcome(
        st.(permissions := st.permissions[(granter, grantee) := true],
            grantees := if grantee in list then st.grantees else st.grantees[granter := list + [grantee]]),
        [PermissionGranted(granter, grantee, true)],
        Accepted)
  }

  function DoRevoke(st: State, granter: AccountId, grantee: AccountId): Outcome {
    if !HasPermission(st, granter, grantee) then Outcome(st, [], Rejected(NotGranted))
    else
      var list := GrantedPermissions(st, granter);
      var pos := Position(list, grantee);
      Outcome(
        st.(permissions := st.permissions[(granter, grantee) := false],
            grantees := if pos.None? then st.grantees else st.grantees[granter := RemoveAt(list, pos.value)]),
        [PermissionGranted(granter, grantee, false)],
        Accepted)
  }

  function Step(st: State, call: Call): Outcome {
    match call
    case AddUser(account, info, role) => DoAddUser(st, account, info, role)
    case AssignRole(account, role) =>
      Outcome(st.(roles := st.roles[account := role]), [RoleAssigned(account, role)], RoleNotice(role, account))
    case RequestAccess(requester, target) =>
      Outcome(st.(requests := st.requests[requester := AccessRequests(st, requester) + [target]]),
              [AccessRequested(requester, target)], Accepted)
    case GrantPermission(granter, grantee) => DoGrant(st, granter, grantee)
    case RevokePermission(granter, grantee) => DoRevoke(st, granter, grantee)
  }

  // ---- Runs ----

  const INITIAL: State := State(map[], map[], map[], map[], map[], map[])

  /** What a run leaves behind: the storage, all events in order, and one reply per call. */
  datatype Trace = Trace(state: State, log: seq<Event>, replies: seq<Reply>)

  function Run(calls: seq<Call>): (t: Trace)
    ensures |t.replies| == |calls|
  {
    if calls == [] then Trace(INITIAL, [], [])
    else
      var t := Run(DropLast(calls));
      var o := Step(t.state, Last(calls));
      Trace(o.state, t.log + o.events, t.replies + [o.reply])
  }

  /** One more call continues from what the run left. */
  lemma RunSnoc(calls: seq<Call>, call: Call)
    ensures var t, o := Run(calls), Step(Run(calls).state, call);
            Run(calls + [call]) == Trace(o.state, t.log + o.events, t.replies + [o.reply])
  {
    assert DropLast(calls + [call]) == calls;
  }

  /** A run can be cut anywhere: the rest continues from what the first part left. */
  lemma {:induction false} RunPrefix(calls: seq<Call>, n: nat)
    requires n <= |calls|
    ensures Run(calls[..n]).log <= Run(calls).log
    ensures Run(calls).replies[..n] == Run(calls[..n]).replies
  {
    if n == |calls| {
      assert calls[..n] == calls;
    } else {
      RunPrefix(DropLast(calls), n);
      assert DropLast(calls)[..n] == calls[..n];
    }
  }

  /** A rejected message changes nothing and emits nothing. */
  lemma RejectionIsAtomic(st: State, call: Call)
    ensures Step(st, call).reply.Rejected? ==> Step(st, call).state == st
    ensures Step(st, call).reply.Rejected? <==> Step(st, call).events == []
  {
  }

  /** The calls of a run that were not rejected. */
  function Effective(calls: seq<Call>): seq<Call> {
    if calls == [] then []
    else
      Effective(DropLast(calls)) + (if Last(Run(calls).replies).Rejected? then [] else [Last(calls)])
  }

  function NotRejected(replies: seq<Reply>): seq<Reply> {
    if replies == [] then []
    else NotRejected(DropLast(replies)) + (if Last(replies).Rejected? then [] else [Last(replies)])
  }

  /** Leaving out the rejected calls of a run gives the same storage, the same events, and the other replies. */
  lemma {:induction false} RejectedCallsVanish(calls: seq<Call>)
    ensures var t, t' := Run(calls), Run(Effective(calls));
            t'.state == t.state && t'.log == t.log && t'.replies == NotRejected(t.replies)
  {
    hide Step;
    if calls != [] {
      var before, call := DropLast(calls), Last(calls);
      RejectedCallsVanish(before);
      RejectionIsAtomic(Run(before).state, call);
      if Last(Run(calls).replies).Rejected? {
        assert Effective(calls) == Effective(before);
        assert Run(calls).log == Run(before).log && DropLast(Run(calls).replies) == Run(before).replies;
      } else {
        assert DropLast(Run(calls).replies) == Run(before).replies;
        RunSnoc(Effective(before), call);
      }
    }
  }
}
