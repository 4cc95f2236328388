/**
 * The access-control contract: its storage mappings as fields, its messages as
 * methods that update them. The ghost history lists the calls made so far;
 * `Valid` says that storage and events are those of a run of that history, so
 * every theorem about runs holds of the contract, and the queries are specified
 * by the history and the events alone.
 */
module AccessContract {
  import opened Common
  import opened AccessModel
  import Permissions
  import Registry

  class AccessControl {
    var accounts: map<Text, Slots>
    var users: map<AccountId, UserInfo>
    var roles: map<AccountId, U8>
    var permissions: map<(AccountId, AccountId), bool>
    var grantees: map<AccountId, seq<AccountId>>
    var accessRequests: map<AccountId, seq<AccountId>>

    ghost var log: seq<Event>
    ghost var history: seq<Call>

    ghost function Storage(): State
      reads this
    {
      State(accounts, users, roles, permissions, grantees, accessRequests)
    }

    ghost predicate Valid()
      reads this
    {
      Storage() == Run(history).state && log == Run(history).log
    }

    constructor ()
      ensures Valid() && history == [] && Storage() == INITIAL && log == []
    {
      accounts, users, roles := map[], map[], map[];
      permissions, grantees, accessRequests := map[], map[], map[];
      log, history := [], [];
    }

    method AddUser(account: AccountId, info: UserInfo, role: U8) returns (reply: Reply)
      requires Valid()
      modifies this
      ensures Valid() && history == old(history) + [Call.AddUser(account, info, role)]
      ensures reply == Last(Run(history).replies) == old(Registry.Decision(Storage(), info, role))
      ensures reply == Rejected(InvalidName) <==> !(1 <= |info.name| <= 12)
      ensures reply == Rejected(InvalidLastname) <==> 1 <= |info.name| <= 12 && !(1 <= |info.lastname| <= 12)
      ensures reply == Rejected(InvalidDni) <==>
              1 <= |info.name| <= 12 && 1 <= |info.lastname| <= 12 && |info.dni| != 8
      ensures reply == Rejected(InvalidEmail) <==>
              1 <= |info.name| <= 12 && 1 <= |info.lastname| <= 12 && |info.dni| == 8 && 64 !in info.email
      ensures reply != Accepted ==> Storage() == old(Storage()) && log == old(log)
      ensures reply == Accepted ==>
              && users == old(users)[account := info] && roles == old(roles)[account := role]
              && log == old(log) + [RoleAssigned(account, role), UserAdded(account)]
    {
      ghost var call := Call.AddUser(account, info, role);
      RunSnoc(history, call);
      Registry.RegistrationDecision(history, account, info, role);
      hide Run, Registry.Decision;
      history := history + [call];
      if info.name == [] || |info.name| > 12 {
        return Rejected(InvalidName);
      }
      if info.lastname == [] || |info.lastname| > 12 {
        return Rejected(InvalidLastname);
      }
      if info.dni == [] || |info.dni| != 8 {
        return Rejected(InvalidDni);
      }
      if info.email == [] || AT_SIGN !in info.email {
        return Rejected(InvalidEmail);
      }

      var slots := Lookup(accounts, info.dni).GetOr(Slots(None, None));
      var existing := Filled(slots);
      if |existing| >= 2 {
        return Rejected(DniFull);
      }

      for i := 0 to |existing|
        invariant Storage() == old(Storage()) && log == old(log)
        invariant history == old(history) + [call]
        invariant forall k :: 0 <= k < i ==> ExistingRole(Storage(), existing[k]) != role
      {
        var existingRole := Lookup(roles, existing[i]).GetOr(UNDEFINED_ROLE);
        if existingRole == role {
          assert existing[i] in existing;
          return Rejected(RoleTaken);
        }
      }

      if slots.first.None? {
        slots := slots.(first := Some(account));
      } else {
        slots := slots.(second := Some(account));
      }
      accounts := accounts[info.dni := slots];
      users := users[account := info];
      roles := roles[account := role];
      log := log + [RoleAssigned(account, role), UserAdded(account)];
      return Accepted;
    }

    method AssignRole(account: AccountId, role: U8) returns (reply: Reply)
      requires Valid()
      modifies this
      ensures Valid() && history == old(history) + [Call.AssignRole(account, role)]
      ensures reply == Last(Run(history).replies) == RoleNotice(role, account)
      ensures roles == old(roles)[account := role] && log == old(log) + [RoleAssigned(account, role)]
    {
      RunSnoc(history, Call.AssignRole(account, role));
      history := history + [Call.AssignRole(account, role)];
      roles := roles[account := role];
      log := log + [RoleAssigned(account, role)];
      return RoleNotice(role, account);
    }

    method RequestAccess(requester: AccountId, target: AccountId)
      requires Valid()
      modifies this
      ensures Valid() && history == old(history) + [Call.RequestAccess(requester, target)]
      ensures Registry.Targets(log, requester) == old(Registry.Targets(log, requester)) + [target]
      ensures log == old(log) + [AccessRequested(requester, target)]
    {
      RunSnoc(history, Call.RequestAccess(requester, target));
      Registry.RequestsAreCalls(history, requester);
      Registry.RequestsAreCalls(history + [Call.RequestAccess(requester, target)], requester);
      Registry.RequestedSnoc(history, requester, target);
      hide Registry.Targets, Registry.Requested, Run;
      history := history + [Call.RequestAccess(requester, target)];
      var requests := Lookup(accessRequests, requester).GetOr([]);
      requests := requests + [target];
      accessRequests := accessRequests[requester := requests];
      log := log + [AccessRequested(requester, target)];
    }

    method GrantPermission(granter: AccountId, grantee: AccountId) returns (reply: Reply)
      requires Valid()
      modifies this
      ensures Valid() && history == old(history) + [Call.GrantPermission(granter, grantee)]
      ensures reply == Last(Run(history).replies)
      ensures reply == if old(Permissions.LastState(log, granter, grantee)) then Rejected(AlreadyGranted) else Accepted
      ensures log == old(log) + if reply == Accepted then [PermissionGranted(granter, grantee, true)] else []
    {
      RunSnoc(history, Call.GrantPermission(granter, grantee));
      Permissions.PermissionIsLastEvent(history, granter, grantee);
      history := history + [Call.GrantPermission(granter, grantee)];
      if Lookup(permissions, (granter, grantee)).GetOr(false) {
        return Rejected(AlreadyGranted);
      }
      permissions := permissions[(granter, grantee) := true];
      var granteesList := Lookup(grantees, granter).GetOr([]);
      if grantee !in granteesList {
        granteesList := granteesList + [grantee];
        grantees := grantees[granter := granteesList];
      }
      log := log + [PermissionGranted(granter, grantee, true)];
      return Accepted;
    }

    method RevokePermission(granter: AccountId, grantee: AccountId) returns (reply: Reply)
      requires Valid()
      modifies this
      ensures Valid() && history == old(history) + [Call.RevokePermission(granter, grantee)]
      ensures reply == Last(Run(history).replies)
      ensures reply == if old(Permissions.LastState(log, granter, grantee)) then Accepted else Rejected(NotGranted)
      ensures log == old(log) + if reply == Accepted then [PermissionGranted(granter, grantee, false)] else []
    {
      RunSnoc(history, Call.RevokePermission(granter, grantee));
      Permissions.PermissionIsLastEvent(history, granter, grantee);
      history := history + [Call.RevokePermission(granter, grantee)];
      if !Lookup(permissions, (granter, grantee)).GetOr(false) {
        return Rejected(NotGranted);
      }
      permissions := permissions[(granter, grantee) := false];
      var granteesList := Lookup(grantees, granter).GetOr([]);
      var pos := Position(granteesList, grantee);
      if pos.Some? {
        granteesList := RemoveAt(granteesList, pos.value);
        grantees := grantees[granter := granteesList];
      }
      log := log + [PermissionGranted(granter, grantee, false)];
      return Accepted;
    }

    /** The accounts of the successful registrations for the DNI, in order. */
    method GetAccounts(dni: Text) returns (r: seq<AccountId>)
      requires Valid()
      ensures r == Registry.Registered(history, dni) && |r| <= 2
    {
      var slots := Lookup(accounts, dni).GetOr(Slots(None, None));
      r := Filled(slots);
      Registry.AccountsAreRegistrations(history, dni);
    }

    /** The information of the account's last successful registration, which is listed under its DNI. */
    method GetUserInfo(account: AccountId) returns (r: Option<UserInfo>)
      requires Valid()
      ensures r == Registry.LastInfo(history, account)
      ensures r.Some? ==> account in Registry.Registered(history, r.value.dni)
    {
      r := Lookup(users, account);
      Registry.StoredInfoIsLast(history, account);
      Registry.ReachableLinked(history);
      if r.Some? {
        Registry.AccountsAreRegistrations(history, r.value.dni);
      }
    }

    /** The targets this account requested access to, in order: by the events, and by its calls. */
    method GetAccessRequests(requester: AccountId) returns (r: seq<AccountId>)
      requires Valid()
      ensures r == Registry.Targets(log, requester) == Registry.Requested(history, requester)
    {
      r := Lookup(accessRequests, requester).GetOr([]);
      Registry.RequestsAreCalls(history, requester);
    }

    /** The current grantees in the order of their latest grant; no other list is in that order. */
    method GetGrantedPermissions(granter: AccountId) returns (r: seq<AccountId>)
      requires Valid()
      ensures Permissions.IsGrantOrder(r, log, granter)
    {
      r := Lookup(grantees, granter).GetOr([]);
      Permissions.GrantedInGrantOrder(history, granter);
    }

    /** What the pair's last event says. */
    method HasPermission(granter: AccountId, grantee: AccountId) returns (r: bool)
      requires Valid()
      ensures r == Permissions.LastState(log, granter, grantee)
    {
      r := Lookup(permissions, (granter, grantee)).GetOr(false);
      Permissions.PermissionIsLastEvent(history, granter, grantee);
    }

    /** The role of the account's last RoleAssigned event. */
    method GetRole(account: AccountId) returns (r: Option<U8>)
      requires Valid()
      ensures r == Registry.LastRole(log, account)
    {
      r := Lookup(roles, account);
      Registry.LogIsComplete(history, account);
    }

    /** Whether the account was ever registered successfully. */
    method UserExists(account: AccountId) returns (r: bool)
      requires Valid()
      ensures r == (account in Registry.AllRegistered(history))
    {
      r := account in users;
      Registry.UsersAreRegistered(history, account);
    }
  }
}
