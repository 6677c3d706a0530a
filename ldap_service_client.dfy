/**
 * The static copy of the service in LDAPServiceClient. Its queries and
 * mutators match the instance methods of LDAPService line for line (the
 * only difference is that the infinity date is a local of
 * getUserAccountExpirationDate instead of a class constant), so each query
 * here is the service's function and carries the same contract, stated in
 * terms of this module's own members; the mutators repeat the service's
 * ordered ldapModify calls.
 */
module LdapServiceClient {
  import opened Wrappers
  import opened JavaLang
  import opened Directory
  import S = LdapService

  // ---------------------------------------------------------------- searches

  /** ldapSearch: the first entry when it carries the requested attribute, else null. */
  function LdapSearch(s: Store, q: Query, a: AttributeName): (r: Result<Option<Entry>, ResultCode>)
    ensures r.Err? <==> !BaseExists(s, q)
    ensures r.Err? ==> r.error == NoSuchObject
    ensures r.Ok? ==> (r.value.Some? <==> Finds(s, q, a))
    ensures r.Ok? && r.value.Some? ==> SameAttribute(r.value.value, Target(s, q).value, a)
  {
    S.LdapSearch(s, q, a)
  }

  /** ldapSearchString: the first value of the found attribute, or null. */
  function LdapSearchString(s: Store, q: Query, a: AttributeName): (r: Result<Option<string>, ResultCode>)
    ensures r.Err? <==> !BaseExists(s, q)
    ensures r.Ok? && !Finds(s, q, a) ==> r.value == None
    ensures r.Ok? && Finds(s, q, a) ==> r.value == AttributeValue(Target(s, q).value, a)
  {
    S.LdapSearchString(s, q, a)
  }

  /** ldapSearchInteger: the found attribute read as an Integer, or null. */
  function LdapSearchInteger(s: Store, q: Query, a: AttributeName): (r: Result<Option<int>, ResultCode>)
    ensures r.Err? <==> !BaseExists(s, q)
    ensures r.Ok? && !Finds(s, q, a) ==> r.value == None
    ensures r.Ok? && Finds(s, q, a) ==> r.value == AttributeValueAsInteger(Target(s, q).value, a)
  {
    S.LdapSearchInteger(s, q, a)
  }

  /** ldapSearchDate: the found attribute decoded as a date, or null. */
  function LdapSearchDate(s: Store, q: Query, a: AttributeName, decodeTime: string -> Option<int>): (r: Result<Option<int>, ResultCode>)
    ensures r.Err? <==> !BaseExists(s, q)
    ensures r.Ok? && !Finds(s, q, a) ==> r.value == None
    ensures r.Ok? && Finds(s, q, a) ==> r.value == AttributeValueAsDate(Target(s, q).value, a, decodeTime)
  {
    S.LdapSearchDate(s, q, a, decodeTime)
  }

  /** ldapSearchBoolean: false when nothing is found, else the attribute read as a boolean and unboxed. */
  function LdapSearchBoolean(s: Store, q: Query, a: AttributeName): (r: Result<bool, S.Failure>)
    ensures !BaseExists(s, q) ==> r == Err(S.LdapFailure(NoSuchObject))
    ensures BaseExists(s, q) && !Finds(s, q, a) ==> r == Ok(false)
    ensures Finds(s, q, a) ==> r == S.Unboxed(AttributeValueAsBoolean(Target(s, q).value, a))
  {
    S.LdapSearchBoolean(s, q, a)
  }

  // ---------------------------------------------------------------- status

  /** isAccountLocked: the boolean value of the user's accountunlocktime (false when absent). */
  function IsAccountLocked(s: Store, username: string, parentDn: Dn): (r: Result<bool, S.Failure>)
    ensures parentDn !in s ==> r == Err(S.LdapFailure(NoSuchObject))
    ensures parentDn in s && !Finds(s, UserSearch(parentDn, username), S.ACCOUNT_UNLOCK_TIME) ==> r == Ok(false)
    ensures Finds(s, UserSearch(parentDn, username), S.ACCOUNT_UNLOCK_TIME) ==>
      r == S.Unboxed(AttributeValueAsBoolean(s[UserDn(username, parentDn)], S.ACCOUNT_UNLOCK_TIME))
  {
    S.IsAccountLocked(s, username, parentDn)
  }

  /** isAccountActivate: the negated boolean value of the user's nsaccountlock (true when absent). */
  function IsAccountActivate(s: Store, username: string, parentDn: Dn): (r: Result<bool, S.Failure>)
    ensures parentDn !in s ==> r == Err(S.LdapFailure(NoSuchObject))
    ensures parentDn in s && !Finds(s, UserSearch(parentDn, username), S.NS_ACCOUNT_LOCK) ==> r == Ok(true)
    ensures Finds(s, UserSearch(parentDn, username), S.NS_ACCOUNT_LOCK) ==>
      r == match AttributeValueAsBoolean(s[UserDn(username, parentDn)], S.NS_ACCOUNT_LOCK)
           case Some(b) => Ok(!b)
           case None => Err(S.NullPointer)
  {
    S.IsAccountActivate(s, username, parentDn)
  }

  /** currentUserStatus: Locked, else Inactive when nsaccountlock is present at all, else Active. */
  function CurrentUserStatus(s: Store, username: string, parentDn: Dn): (r: Result<S.AccountStatus, S.Failure>)
    ensures IsAccountLocked(s, username, parentDn).Err? ==> r == Err(IsAccountLocked(s, username, parentDn).error)
    ensures r == Ok(S.Locked) <==> IsAccountLocked(s, username, parentDn) == Ok(true)
    ensures r == Ok(S.Inactive) <==>
      IsAccountLocked(s, username, parentDn) == Ok(false) && Finds(s, UserSearch(parentDn, username), S.NS_ACCOUNT_LOCK)
    ensures r == Ok(S.Active) <==>
      IsAccountLocked(s, username, parentDn) == Ok(false) && !Finds(s, UserSearch(parentDn, username), S.NS_ACCOUNT_LOCK)
  {
    S.CurrentUserStatus(s, username, parentDn)
  }

  // ---------------------------------------------------------------- expiration

  /**
   * getUserAccountExpirationDate: the infinity date when the governing
   * policy's pwdMaxAge is 0, otherwise the change date plus pwdMaxAge / 86400
   * whole days, null whenever a step raises.
   */
  function GetUserAccountExpirationDate(s: Store, serviceBindAccepted: bool, username: string, parentDn: Dn,
                                        now: int, decodeTime: string -> Option<int>): (r: S.Expiration)
    ensures S.PolicyMaxAge(s, serviceBindAccepted, username, parentDn) == None ==> r == S.Unknown
    ensures r == S.Infinite <==> S.PolicyMaxAge(s, serviceBindAccepted, username, parentDn) == Some(0)
    ensures r.Expires? ==>
      var offset := r.millis - S.ChangeInstant(s, username, parentDn, now, decodeTime);
      && S.PolicyMaxAge(s, serviceBindAccepted, username, parentDn).Some?
      && IsLong(r.millis)
      && offset % S.MILLIS_PER_DAY == 0
      && S.TruncatedDays(offset / S.MILLIS_PER_DAY, S.PolicyMaxAge(s, serviceBindAccepted, username, parentDn).value)
    ensures S.PolicyMaxAge(s, serviceBindAccepted, username, parentDn).Some? &&
            S.PolicyMaxAge(s, serviceBindAccepted, username, parentDn).value != 0 ==>
      (r.Expires? <==>
        IsLong(S.ChangeInstant(s, username, parentDn, now, decodeTime) +
               Quot(S.PolicyMaxAge(s, serviceBindAccepted, username, parentDn).value, S.DAY_IN_SECONDS) * S.MILLIS_PER_DAY))
  {
    S.GetUserAccountExpirationDate(s, serviceBindAccepted, username, parentDn, now, decodeTime)
  }

  // ---------------------------------------------------------------- mutators

  /** ldapModify: bind as the service identity, then modify `uid=<username>,<parentDn>`. */
  method LdapModify(conn: Connection, username: string, parentDn: Dn, modification: Modification)
    returns (r: Outcome<ResultCode>)
    requires conn.Valid()
    modifies conn
    ensures conn.Valid()
    ensures var run := S.RunModifications(old(conn.entries), conn.serviceBindAccepted, UserDn(username, parentDn), [modification]);
            r == run.outcome && conn.entries == run.store && conn.requests == old(conn.requests) + run.requests
  {
    assert [modification][1..] == [];
    r := conn.BindService();
    if r.Fail? {
      return;
    }
    r := conn.Modify(UserDn(username, parentDn), modification);
  }

  /** setPwdMaxAge: add pwdMaxAge = 7776000 (90 days) to the user's entry. */
  method SetPwdMaxAge(conn: Connection, username: string, parentDn: Dn) returns (r: Outcome<ResultCode>)
    requires conn.Valid()
    modifies conn
    ensures conn.Valid()
    ensures var run := S.RunModifications(old(conn.entries), conn.serviceBindAccepted, UserDn(username, parentDn), S.MaxAgeChanges());
            r == run.outcome && conn.entries == run.store && conn.requests == old(conn.requests) + run.requests
  {
    var modification := Modification(Add, S.PWD_MAX_AGE, [S.NINETY_DAYS_IN_SECONDS]);
    r := LdapModify(conn, username, parentDn, modification);
  }

  /** inactivateAccount: add the managed-disabled role to nsroledn, then add nsaccountlock = true. */
  method InactivateAccount(conn: Connection, username: string, parentDn: Dn) returns (r: Outcome<ResultCode>)
    requires conn.Valid()
    modifies conn
    ensures conn.Valid()
    ensures var run := S.RunModifications(old(conn.entries), conn.serviceBindAccepted, UserDn(username, parentDn), S.InactivateChanges(parentDn));
            r == run.outcome && conn.entries == run.store && conn.requests == old(conn.requests) + run.requests
  {
    S.RunTwo(conn.entries, conn.serviceBindAccepted, UserDn(username, parentDn),
             S.InactivateChanges(parentDn)[0], S.InactivateChanges(parentDn)[1]);
    var modification := Modification(Add, S.NS_ROLE_DN, [S.ManagedDisabledRoleDn(parentDn)]);
    r := LdapModify(conn, username, parentDn, modification);
    if r.Fail? {
      return;
    }
    modification := Modification(Add, S.NS_ACCOUNT_LOCK, ["true"]);
    r := LdapModify(conn, username, parentDn, modification);
  }

  /** activateAccount: delete nsroledn, then delete nsaccountlock. */
  method ActivateAccount(conn: Connection, username: string, parentDn: Dn) returns (r: Outcome<ResultCode>)
    requires conn.Valid()
    modifies conn
    ensures conn.Valid()
    ensures var run := S.RunModifications(old(conn.entries), conn.serviceBindAccepted, UserDn(username, parentDn), S.ActivateChanges());
            r == run.outcome && conn.entries == run.store && conn.requests == old(conn.requests) + run.requests
  {
    S.RunTwo(conn.entries, conn.serviceBindAccepted, UserDn(username, parentDn),
             S.ActivateChanges()[0], S.ActivateChanges()[1]);
    var modification := Modification(Delete, S.NS_ROLE_DN, []);
    r := LdapModify(conn, username, parentDn, modification);
    if r.Fail? {
      return;
    }
    modification := Modification(Delete, S.NS_ACCOUNT_LOCK, []);
    r := LdapModify(conn, username, parentDn, modification);
  }

  /** updateUserPassword: replace userpassword with the new password. */
  method UpdateUserPassword(conn: Connection, username: string, password: string, parentDn: Dn)
    returns (r: Outcome<ResultCode>)
    requires conn.Valid()
    modifies conn
    ensures conn.Valid()
    ensures var run := S.RunModifications(old(conn.entries), conn.serviceBindAccepted, UserDn(username, parentDn), S.PasswordChanges(password));
            r == run.outcome && conn.entries == run.store && conn.requests == old(conn.requests) + run.requests
  {
    var modification := Modification(Replace, S.USER_PASSWORD, [password]);
    r := LdapModify(conn, username, parentDn, modification);
  }
}
