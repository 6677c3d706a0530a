/**
 * The account-state logic of the LDAP service: the search projections, the
 * Locked / Inactive / Active status decision, the password-expiration date
 * and the ordered modify sequences that activate, inactivate, change the
 * password of, and set the maximum password age of an account.
 *
 * The queries are functions of the directory's entries; the mutators are
 * methods on a Connection, each modification preceded by a bind as the
 * service identity, a failed step ending the sequence.
 */
module LdapService {
  import opened Wrappers
  import opened JavaLang
  import opened Directory

  const ACCOUNT_UNLOCK_TIME: AttributeName := "accountunlocktime"
  const NS_ACCOUNT_LOCK: AttributeName := "nsaccountlock"
  const NS_ROLE_DN: AttributeName := "nsroledn"
  const PWD_CHANGED_TIME: AttributeName := "pwdchangedtime"
  const PASSWORD_POLICY_SUBENTRY: AttributeName := "passwordpolicysubentry"
  const PWD_MAX_AGE: AttributeName := "pwdMaxAge"
  const USER_PASSWORD: AttributeName := "userpassword"

  /** The global password policy used when the user names none. */
  const DEFAULT_POLICY_DN: Dn := "cn=Password Policy,cn=config"

  const DAY_IN_SECONDS: int := 86400
  const MILLIS_PER_DAY: int := 86_400_000

  /** The maximum age setPwdMaxAge writes: 90 days in seconds. */
  const NINETY_DAYS_IN_SECONDS: string := "7776000"

  /** The managed-disabled role of the accounts under `parentDn`. */
  function ManagedDisabledRoleDn(parentDn: Dn): (r: Dn)
    ensures |r| == 25 + |parentDn|
    ensures r[..25] == "cn=nsManagedDisabledRole,"
    ensures r[25..] == parentDn
  {
    "cn=nsManagedDisabledRole," + parentDn
  }

  /** What a query can throw: an LDAPException with its result code, or the unboxing of a null Boolean. */
  datatype Failure = LdapFailure(code: ResultCode) | NullPointer

  datatype AccountStatus = Locked | Inactive | Active
  {
    /** The string currentUserStatus returns. */
    function Name(): string
    {
      match this
      case Locked => "Locked"
      case Inactive => "Inactive"
      case Active => "Active"
    }
  }

  /**
   * The result of getUserAccountExpirationDate: a date in milliseconds since
   * the epoch, INFINITY_TIME (the date at Long.MAX_VALUE), or null.
   */
  datatype Expiration = Expires(millis: int) | Infinite | Unknown

  /** A Boolean the code unboxes into a boolean: null raises NullPointerException. */
  function Unboxed(b: Option<bool>): (r: Result<bool, Failure>)
    ensures b.Some? ==> r == Ok(b.value)
    ensures b.None? ==> r == Err(NullPointer)
  {
    match b
    case Some(v) => Ok(v)
    case None => Err(NullPointer)
  }

  // ---------------------------------------------------------------- searches

  /**
   * ldapSearch: the first entry of the search result when there is one and it
   * carries the requested attribute, else null; the search's exception passes through.
   */
  function LdapSearch(s: Store, q: Query, a: AttributeName): (r: Result<Option<Entry>, ResultCode>)
    ensures r.Err? <==> !BaseExists(s, q)
    ensures r.Err? ==> r.error == NoSuchObject
    ensures r.Ok? ==> (r.value.Some? <==> Finds(s, q, a))
    ensures r.Ok? && r.value.Some? ==> SameAttribute(r.value.value, Target(s, q).value, a)
  {
    match Search(s, q, a)
    case Err(code) => Err(code)
    case Ok(entries) => Ok(if |entries| > 0 && a in entries[0] then Some(entries[0]) else None)
  }

  /** ldapSearchString: the first value of the found attribute, or null. */
  function LdapSearchString(s: Store, q: Query, a: AttributeName): (r: Result<Option<string>, ResultCode>)
    ensures r.Err? <==> !BaseExists(s, q)
    ensures r.Ok? && !Finds(s, q, a) ==> r.value == None
    ensures r.Ok? && Finds(s, q, a) ==> r.value == AttributeValue(Target(s, q).value, a)
  {
    match LdapSearch(s, q, a)
    case Err(code) => Err(code)
    case Ok(entry) => Ok(if entry.Some? then AttributeValue(entry.value, a) else None)
  }

  /** ldapSearchInteger: the found attribute read as an Integer, or null. */
  function LdapSearchInteger(s: Store, q: Query, a: AttributeName): (r: Result<Option<int>, ResultCode>)
    ensures r.Err? <==> !BaseExists(s, q)
    ensures r.Ok? && !Finds(s, q, a) ==> r.value == None
    ensures r.Ok? && Finds(s, q, a) ==> r.value == AttributeValueAsInteger(Target(s, q).value, a)
  {
    match LdapSearch(s, q, a)
    case Err(code) => Err(code)
    case Ok(entry) => Ok(if entry.Some? then AttributeValueAsInteger(entry.value, a) else None)
  }

  /** ldapSearchDate: the found attribute decoded as a date, or null. */
  function LdapSearchDate(s: Store, q: Query, a: AttributeName, decodeTime: string -> Option<int>): (r: Result<Option<int>, ResultCode>)
    ensures r.Err? <==> !BaseExists(s, q)
    ensures r.Ok? && !Finds(s, q, a) ==> r.value == None
    ensures r.Ok? && Finds(s, q, a) ==> r.value == AttributeValueAsDate(Target(s, q).value, a, decodeTime)
  {
    match LdapSearch(s, q, a)
    case Err(code) => Err(code)
    case Ok(entry) => Ok(if entry.Some? then AttributeValueAsDate(entry.value, a, decodeTime) else None)
  }

  /**
   * ldapSearchBoolean: false when nothing is found, else the attribute read
   * as a boolean; a value that is not a boolean word is a null Boolean, and
   * unboxing it raises.
   */
  function LdapSearchBoolean(s: Store, q: Query, a: AttributeName): (r: Result<bool, Failure>)
    ensures !BaseExists(s, q) ==> r == Err(LdapFailure(NoSuchObject))
    ensures BaseExists(s, q) && !Finds(s, q, a) ==> r == Ok(false)
    ensures Finds(s, q, a) ==> r == Unboxed(AttributeValueAsBoolean(Target(s, q).value, a))
  {
    match LdapSearch(s, q, a)
    case Err(code) => Err(LdapFailure(code))
    case Ok(entry) => if entry.Some? then Unboxed(AttributeValueAsBoolean(entry.value, a)) else Ok(false)
  }

  // ---------------------------------------------------------------- status

  /** isAccountLocked: the boolean value of the user's accountunlocktime (false when absent). */
  function IsAccountLocked(s: Store, username: string, parentDn: Dn): (r: Result<bool, Failure>)
    ensures parentDn !in s ==> r == Err(LdapFailure(NoSuchObject))
    ensures parentDn in s && !Finds(s, UserSearch(parentDn, username), ACCOUNT_UNLOCK_TIME) ==> r == Ok(false)
    ensures Finds(s, UserSearch(parentDn, username), ACCOUNT_UNLOCK_TIME) ==>
      r == Unboxed(AttributeValueAsBoolean(s[UserDn(username, parentDn)], ACCOUNT_UNLOCK_TIME))
  {
    LdapSearchBoolean(s, UserSearch(parentDn, username), ACCOUNT_UNLOCK_TIME)
  }

  /** isAccountActivate: the negated boolean value of the user's nsaccountlock (true when absent). */
  function IsAccountActivate(s: Store, username: string, parentDn: Dn): (r: Result<bool, Failure>)
    ensures parentDn !in s ==> r == Err(LdapFailure(NoSuchObject))
    ensures parentDn in s && !Finds(s, UserSearch(parentDn, username), NS_ACCOUNT_LOCK) ==> r == Ok(true)
    ensures Finds(s, UserSearch(parentDn, username), NS_ACCOUNT_LOCK) ==>
      r == match AttributeValueAsBoolean(s[UserDn(username, parentDn)], NS_ACCOUNT_LOCK)
           case Some(b) => Ok(!b)
           case None => Err(NullPointer)
  {
    match LdapSearchBoolean(s, UserSearch(parentDn, username), NS_ACCOUNT_LOCK)
    case Ok(b) => Ok(!b)
    case Err(f) => Err(f)
  }

  /**
   * currentUserStatus: Locked when isAccountLocked holds, otherwise Inactive
   * when the user's entry carries nsaccountlock at all, otherwise Active.
   */
  function CurrentUserStatus(s: Store, username: string, parentDn: Dn): (r: Result<AccountStatus, Failure>)
    ensures IsAccountLocked(s, username, parentDn).Err? ==> r == Err(IsAccountLocked(s, username, parentDn).error)
    ensures r == Ok(Locked) <==> IsAccountLocked(s, username, parentDn) == Ok(true)
    ensures r == Ok(Inactive) <==>
      IsAccountLocked(s, username, parentDn) == Ok(false) && Finds(s, UserSearch(parentDn, username), NS_ACCOUNT_LOCK)
    ensures r == Ok(Active) <==>
      IsAccountLocked(s, username, parentDn) == Ok(false) && !Finds(s, UserSearch(parentDn, username), NS_ACCOUNT_LOCK)
  {
    match IsAccountLocked(s, username, parentDn)
    case Err(f) => Err(f)
    case Ok(locked) =>
      if locked then Ok(Locked)
      else
        match LdapSearch(s, UserSearch(parentDn, username), NS_ACCOUNT_LOCK)
        case Err(code) => Err(LdapFailure(code))
        case Ok(entry) => Ok(if entry.Some? then Inactive else Active)
  }

  // ---------------------------------------------------------------- expiration

  /** The password policy that governs the user: its passwordpolicysubentry, else the global default. */
  function PolicyDn(s: Store, username: string, parentDn: Dn): (r: Dn)
    ensures !Finds(s, UserSearch(parentDn, username), PASSWORD_POLICY_SUBENTRY) ==> r == DEFAULT_POLICY_DN
    ensures r != DEFAULT_POLICY_DN ==>
      Finds(s, UserSearch(parentDn, username), PASSWORD_POLICY_SUBENTRY) &&
      AttributeValue(s[UserDn(username, parentDn)], PASSWORD_POLICY_SUBENTRY) == Some(r)
    ensures Finds(s, UserSearch(parentDn, username), PASSWORD_POLICY_SUBENTRY) && WellFormedStore(s) ==>
      Some(r) == AttributeValue(s[UserDn(username, parentDn)], PASSWORD_POLICY_SUBENTRY)
  {
    var q := UserSearch(parentDn, username);
    if Finds(s, q, PASSWORD_POLICY_SUBENTRY) && AttributeValue(Target(s, q).value, PASSWORD_POLICY_SUBENTRY).Some?
    then AttributeValue(Target(s, q).value, PASSWORD_POLICY_SUBENTRY).value
    else DEFAULT_POLICY_DN
  }

  /**
   * The policy's pwdMaxAge as the pipeline obtains it, or None when a step
   * on the way raises: the user search, the service bind, the policy search,
   * or a missing or unparsable pwdMaxAge (a null Integer compared with 0).
   */
  function PolicyMaxAge(s: Store, serviceBindAccepted: bool, username: string, parentDn: Dn): (r: Option<int>)
    ensures r.Some? ==> IsInt(r.value)
    ensures r.Some? <==>
      && parentDn in s && serviceBindAccepted && PolicyDn(s, username, parentDn) in s
      && AttributeValue(s[PolicyDn(s, username, parentDn)], PWD_MAX_AGE).Some?
      && ParseInt(AttributeValue(s[PolicyDn(s, username, parentDn)], PWD_MAX_AGE).value).Some?
    ensures r.Some? ==> r == ParseInt(AttributeValue(s[PolicyDn(s, username, parentDn)], PWD_MAX_AGE).value)
  {
    var policy := PolicyDn(s, username, parentDn);
    if parentDn !in s || !serviceBindAccepted || policy !in s then None
    else AttributeValueAsInteger(s[policy], PWD_MAX_AGE)
  }

  /** The date the expiration counts from: the user's pwdchangedtime, or now when it is missing or undecodable. */
  function ChangeInstant(s: Store, username: string, parentDn: Dn, now: int, decodeTime: string -> Option<int>): (r: int)
    ensures !Finds(s, UserSearch(parentDn, username), PWD_CHANGED_TIME) ==> r == now
    ensures Finds(s, UserSearch(parentDn, username), PWD_CHANGED_TIME) ==>
      r == match AttributeValueAsDate(s[UserDn(username, parentDn)], PWD_CHANGED_TIME, decodeTime)
           case Some(d) => d
           case None => now
    ensures r != now ==>
      AttributeValueAsDate(s[UserDn(username, parentDn)], PWD_CHANGED_TIME, decodeTime) == Some(r)
  {
    var q := UserSearch(parentDn, username);
    if Finds(s, q, PWD_CHANGED_TIME) && AttributeValueAsDate(Target(s, q).value, PWD_CHANGED_TIME, decodeTime).Some?
    then AttributeValueAsDate(Target(s, q).value, PWD_CHANGED_TIME, decodeTime).value
    else now
  }

  /** `days` is `seconds` counted in whole days, rounded toward zero. */
  predicate TruncatedDays(days: int, seconds: int)
  {
    if seconds >= 0 then 0 <= days && days * DAY_IN_SECONDS <= seconds < (days + 1) * DAY_IN_SECONDS
    else days <= 0 && (days - 1) * DAY_IN_SECONDS < seconds <= days * DAY_IN_SECONDS
  }

  /** DateTime.plusDays(days).toDate() in UTC; a date beyond the range of a long raises. */
  function PlusDays(instant: int, days: int): (r: Expiration)
    ensures r.Expires? <==> IsLong(instant + days * MILLIS_PER_DAY)
    ensures r.Expires? ==> r.millis - instant == days * MILLIS_PER_DAY
    ensures !r.Expires? ==> r == Unknown
  {
    var millis := instant + days * MILLIS_PER_DAY;
    if IsLong(millis) then Expires(millis) else Unknown
  }

  /**
   * getUserAccountExpirationDate: INFINITY_TIME when the governing policy's
   * pwdMaxAge is 0, whatever pwdchangedtime holds; otherwise the change date
   * plus pwdMaxAge / 86400 whole days (Java int division); null whenever a
   * step raises. `now` is the clock and `decodeTime` the generalized-time decoder.
   */
  function GetUserAccountExpirationDate(s: Store, serviceBindAccepted: bool, username: string, parentDn: Dn,
                                        now: int, decodeTime: string -> Option<int>): (r: Expiration)
    ensures PolicyMaxAge(s, serviceBindAccepted, username, parentDn) == None ==> r == Unknown
    ensures r == Infinite <==> PolicyMaxAge(s, serviceBindAccepted, username, parentDn) == Some(0)
    ensures r.Expires? ==>
      var offset := r.millis - ChangeInstant(s, username, parentDn, now, decodeTime);
      && PolicyMaxAge(s, serviceBindAccepted, username, parentDn).Some?
      && IsLong(r.millis)
      && offset % MILLIS_PER_DAY == 0
      && TruncatedDays(offset / MILLIS_PER_DAY, PolicyMaxAge(s, serviceBindAccepted, username, parentDn).value)
    ensures PolicyMaxAge(s, serviceBindAccepted, username, parentDn).Some? &&
            PolicyMaxAge(s, serviceBindAccepted, username, parentDn).value != 0 ==>
      (r.Expires? <==>
        IsLong(ChangeInstant(s, username, parentDn, now, decodeTime) +
               Quot(PolicyMaxAge(s, serviceBindAccepted, username, parentDn).value, DAY_IN_SECONDS) * MILLIS_PER_DAY))
  {
    var users := UserSearch(parentDn, username);
    match LdapSearchDate(s, users, PWD_CHANGED_TIME, decodeTime)
    case Err(_) => Unknown
    case Ok(userCreateDate) =>
      match LdapSearchString(s, users, PASSWORD_POLICY_SUBENTRY)
      case Err(_) => Unknown
      case Ok(policyReference) =>
        var userPasswordPolicy := if policyReference.Some? then policyReference.value else DEFAULT_POLICY_DN;
        if !serviceBindAccepted then Unknown
        else
          match LdapSearchInteger(s, EntrySearch(userPasswordPolicy), PWD_MAX_AGE)
          case Err(_) => Unknown
          case Ok(None) => Unknown
          case Ok(Some(pwdMaxAge)) =>
            if pwdMaxAge == 0 then Infinite
            else
              var start := if userCreateDate.Some? then userCreateDate.value else now;
              var days := Quot(pwdMaxAge, DAY_IN_SECONDS);
              assert TruncatedDays(days, pwdMaxAge);
              assert (days * MILLIS_PER_DAY) / MILLIS_PER_DAY == days;
              PlusDays(start, days)
  }

  // ---------------------------------------------------------------- mutators

  /** What a sequence of modifications did: its outcome, the entries after it, the requests it sent. */
  datatype Run = Run(outcome: Outcome<ResultCode>, store: Store, requests: seq<Request>)

  /** The attributes a sequence of modifications names. */
  function Attributes(changes: seq<Modification>): set<AttributeName>
  {
    set m | m in changes :: m.attribute
  }

  /** The requests a sequence of ldapModify calls sends when every step succeeds: a bind before each modify. */
  function Trace(dn: Dn, changes: seq<Modification>): (t: seq<Request>)
    ensures |t| == 2 * |changes|
  {
    if changes == [] then [] else [ServiceBind, ModifyRequest(dn, changes[0])] + Trace(dn, changes[1..])
  }

  /** The even positions of a trace are binds, the odd ones the modifications in order. */
  lemma {:induction false} TraceAt(dn: Dn, changes: seq<Modification>, i: int)
    requires 0 <= i < 2 * |changes|
    ensures Trace(dn, changes)[i] == if i % 2 == 0 then ServiceBind else ModifyRequest(dn, changes[i / 2])
  {
    if i >= 2 {
      TraceAt(dn, changes[1..], i - 2);
      assert (i - 2) % 2 == i % 2 && (i - 2) / 2 == i / 2 - 1;
    }
  }

  /** An attribute named by neither of two consecutive changes of an entry keeps its values through both. */
  lemma KeptThroughStep(e: Entry, mid: Entry, last: Entry, first: AttributeName, later: set<AttributeName>, all: set<AttributeName>)
    requires first in all && later <= all
    requires forall b :: b != first ==> SameAttribute(e, mid, b)
    requires forall b :: b !in later ==> SameAttribute(mid, last, b)
    ensures forall b :: b !in all ==> SameAttribute(e, last, b)
  {
    forall b | b !in all ensures SameAttribute(e, last, b) {
      assert SameAttribute(e, mid, b) && SameAttribute(mid, last, b);
    }
  }

  lemma PrefixAfter(sent: seq<Request>, full: seq<Request>, part: seq<Request>)
    requires |part| <= |full| && part == full[..|part|]
    ensures sent + part == (sent + full)[..|sent| + |part|]
  {
  }

  /**
   * Consecutive ldapModify calls on one entry: each binds as the service
   * identity and then sends its modification; the first failure, of a bind or
   * of a modify, is raised and the remaining modifications are never sent.
   */
  function RunModifications(s: Store, serviceBindAccepted: bool, dn: Dn, changes: seq<Modification>): (r: Run)
    ensures |r.requests| <= 2 * |changes|
    ensures r.requests == Trace(dn, changes)[..|r.requests|]
    ensures r.outcome == Pass ==> r.requests == Trace(dn, changes)
    ensures r.outcome.Fail? ==> |r.requests| > 0
    ensures !serviceBindAccepted && changes != [] ==> r == Run(Fail(InvalidCredentials), s, [ServiceBind])
    ensures r.store.Keys == s.Keys
    ensures forall d :: d in s && d != dn ==> r.store[d] == s[d]
    ensures dn in s ==> forall a :: a !in Attributes(changes) ==> SameAttribute(s[dn], r.store[dn], a)
    ensures WellFormedStore(s) ==> WellFormedStore(r.store)
    decreases |changes|
  {
    if changes == [] then Run(Pass, s, [])
    else if !serviceBindAccepted then Run(Fail(InvalidCredentials), s, [ServiceBind])
    else
      var sent := [ServiceBind, ModifyRequest(dn, changes[0])];
      match ApplyModify(s, dn, changes[0])
      case Err(code) => Run(Fail(code), s, sent)
      case Ok(next) =>
        var rest := RunModifications(next, serviceBindAccepted, dn, changes[1..]);
        assert Attributes(changes[1..]) <= Attributes(changes) && changes[0] in changes;
        KeptThroughStep(s[dn], next[dn], rest.store[dn], changes[0].attribute, Attributes(changes[1..]), Attributes(changes));
        assert Trace(dn, changes) == sent + Trace(dn, changes[1..]);
        PrefixAfter(sent, Trace(dn, changes[1..]), rest.requests);
        Run(rest.outcome, rest.store, sent + rest.requests)
  }

  /**
   * The run stops at the first rejected modification: when the first k
   * modifications succeed and the next one is rejected, the outcome is that
   * rejection, the directory is as the k successful ones left it, and the
   * requests sent end with the rejected modify, so nothing after it is sent.
   */
  lemma {:induction false} StopsAtRejection(s: Store, dn: Dn, changes: seq<Modification>, k: nat)
    requires k < |changes|
    requires RunModifications(s, true, dn, changes[..k]).outcome == Pass
    requires ApplyModify(RunModifications(s, true, dn, changes[..k]).store, dn, changes[k]).Err?
    ensures var before := RunModifications(s, true, dn, changes[..k]).store;
            RunModifications(s, true, dn, changes) ==
              Run(Fail(ApplyModify(before, dn, changes[k]).error), before, Trace(dn, changes[..k + 1]))
    decreases k
  {
    var sent := [ServiceBind, ModifyRequest(dn, changes[0])];
    if k == 0 {
      assert changes[..1] == [changes[0]];
      assert Trace(dn, [changes[0]]) == sent + Trace(dn, []);
    } else {
      SliceStep(changes, k);
      var next := ApplyModify(s, dn, changes[0]);
      assert next.Ok?;
      StopsAtRejection(next.value, dn, changes[1..], k - 1);
      assert Trace(dn, changes[..k + 1]) == sent + Trace(dn, changes[1..][..k]);
    }
  }

  /** How the prefixes of a sequence of changes relate to the prefixes of its tail. */
  lemma SliceStep(changes: seq<Modification>, k: nat)
    requires 0 < k < |changes|
    ensures changes[..k][0] == changes[0] && changes[..k][1..] == changes[1..][..k - 1]
    ensures changes[..k + 1][0] == changes[0] && changes[..k + 1][1..] == changes[1..][..k]
    ensures changes[1..][k - 1] == changes[k]
  {
  }

  /** Two consecutive modifications are the first, then (if it succeeded) the second. */
  lemma RunTwo(s: Store, serviceBindAccepted: bool, dn: Dn, m1: Modification, m2: Modification)
    ensures var first := RunModifications(s, serviceBindAccepted, dn, [m1]);
            var both := RunModifications(s, serviceBindAccepted, dn, [m1, m2]);
            if first.outcome.Fail? then both == first
            else
              var second := RunModifications(first.store, serviceBindAccepted, dn, [m2]);
              both == Run(second.outcome, second.store, first.requests + second.requests)
  {
    assert [m1, m2][1..] == [m2];
    assert [m1][1..] == [];
  }

  /** inactivateAccount's modifications: add the managed-disabled role, then add nsaccountlock = true. */
  function InactivateChanges(parentDn: Dn): (r: seq<Modification>)
    ensures |r| == 2 && r[0].op == Add && r[1].op == Add
    ensures r[0].attribute == NS_ROLE_DN && r[0].values == [ManagedDisabledRoleDn(parentDn)]
    ensures r[1].attribute == NS_ACCOUNT_LOCK && r[1].values == ["true"]
  {
    [Modification(Add, NS_ROLE_DN, [ManagedDisabledRoleDn(parentDn)]), Modification(Add, NS_ACCOUNT_LOCK, ["true"])]
  }

  /** activateAccount's modifications: delete all of nsroledn, then all of nsaccountlock. */
  function ActivateChanges(): (r: seq<Modification>)
    ensures |r| == 2 && r[0].op == Delete && r[1].op == Delete && r[0].values == [] && r[1].values == []
    ensures r[0].attribute == NS_ROLE_DN && r[1].attribute == NS_ACCOUNT_LOCK
  {
    [Modification(Delete, NS_ROLE_DN, []), Modification(Delete, NS_ACCOUNT_LOCK, [])]
  }

  /** updateUserPassword's modification: replace userpassword with the password alone. */
  function PasswordChanges(password: string): (r: seq<Modification>)
    ensures |r| == 1 && r[0].op == Replace && r[0].attribute == USER_PASSWORD && r[0].values == [password]
  {
    [Modification(Replace, USER_PASSWORD, [password])]
  }

  /** setPwdMaxAge's modification: add pwdMaxAge = 7776000. */
  function MaxAgeChanges(): (r: seq<Modification>)
    ensures |r| == 1 && r[0].op == Add && r[0].attribute == PWD_MAX_AGE && r[0].values == [NINETY_DAYS_IN_SECONDS]
  {
    [Modification(Add, PWD_MAX_AGE, [NINETY_DAYS_IN_SECONDS])]
  }

  /** ldapModify: bind as the service identity, then modify `uid=<username>,<parentDn>`. */
  method LdapModify(conn: Connection, username: string, parentDn: Dn, modification: Modification)
    returns (r: Outcome<ResultCode>)
    requires conn.Valid()
    modifies conn
    ensures conn.Valid()
    ensures var run := RunModifications(old(conn.entries), conn.serviceBindAccepted, UserDn(username, parentDn), [modification]);
            r == run.outcome && conn.entries == run.store && conn.requests == old(conn.requests) + run.requests
  {
    assert [modification][1..] == [];
    r := conn.BindService();
    if r.Fail? {
      return;
    }
    r := conn.Modify(UserDn(username, parentDn), modification);
  }

  /** setPwdMaxAge: add pwdMaxAge = 7776000 (90 days) to the user's entry. */
  method SetPwdMaxAge(conn: Connection, username: string, parentDn: Dn) returns (r: Outcome<ResultCode>)
    requires conn.Valid()
    modifies conn
    ensures conn.Valid()
    ensures var run := RunModifications(old(conn.entries), conn.serviceBindAccepted, UserDn(username, parentDn), MaxAgeChanges());
            r == run.outcome && conn.entries == run.store && conn.requests == old(conn.requests) + run.requests
  {
    var modification := Modification(Add, PWD_MAX_AGE, [NINETY_DAYS_IN_SECONDS]);
    r := LdapModify(conn, username, parentDn, modification);
  }

  /** inactivateAccount: add the managed-disabled role to nsroledn, then add nsaccountlock = true. */
  method InactivateAccount(conn: Connection, username: string, parentDn: Dn) returns (r: Outcome<ResultCode>)
    requires conn.Valid()
    modifies conn
    ensures conn.Valid()
    ensures var run := RunModifications(old(conn.entries), conn.serviceBindAccepted, UserDn(username, parentDn), InactivateChanges(parentDn));
            r == run.outcome && conn.entries == run.store && conn.requests == old(conn.requests) + run.requests
  {
    RunTwo(conn.entries, conn.serviceBindAccepted, UserDn(username, parentDn),
           InactivateChanges(parentDn)[0], InactivateChanges(parentDn)[1]);
    var modification := Modification(Add, NS_ROLE_DN, [ManagedDisabledRoleDn(parentDn)]);
    r := LdapModify(conn, username, parentDn, modification);
    if r.Fail? {
      return;
    }
    modification := Modification(Add, NS_ACCOUNT_LOCK, ["true"]);
    r := LdapModify(conn, username, parentDn, modification);
  }

  /** activateAccount: delete nsroledn, then delete nsaccountlock. */
  method ActivateAccount(conn: Connection, username: string, parentDn: Dn) returns (r: Outcome<ResultCode>)
    requires conn.Valid()
    modifies conn
    ensures conn.Valid()
    ensures var run := RunModifications(old(conn.entries), conn.serviceBindAccepted, UserDn(username, parentDn), ActivateChanges());
            r == run.outcome && conn.entries == run.store && conn.requests == old(conn.requests) + run.requests
  {
    RunTwo(conn.entries, conn.serviceBindAccepted, UserDn(username, parentDn),
           ActivateChanges()[0], ActivateChanges()[1]);
    var modification := Modification(Delete, NS_ROLE_DN, []);
    r := LdapModify(conn, username, parentDn, modification);
    if r.Fail? {
      return;
    }
    modification := Modification(Delete, NS_ACCOUNT_LOCK, []);
    r := LdapModify(conn, username, parentDn, modification);
  }

  /** updateUserPassword: replace userpassword with the new password. */
  method UpdateUserPassword(conn: Connection, username: string, password: string, parentDn: Dn)
    returns (r: Outcome<ResultCode>)
    requires conn.Valid()
    modifies conn
    ensures conn.Valid()
    ensures var run := RunModifications(old(conn.entries), conn.serviceBindAccepted, UserDn(username, parentDn), PasswordChanges(password));
            r == run.outcome && conn.entries == run.store && conn.requests == old(conn.requests) + run.requests
  {
    var modification := Modification(Replace, USER_PASSWORD, [password]);
    r := LdapModify(conn, username, parentDn, modification);
  }
}
