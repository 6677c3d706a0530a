# LDAP account state and password expiry, in Dafny

This project models the account-state logic of a small Java LDAP service.
The logic exists twice: as instance methods of `LDAPService` and as static
methods of `LDAPServiceClient`. The model covers:

- the search projections (`ldapSearch` and its String, Integer, Date and
  Boolean wrappers);
- the three-way account status (`currentUserStatus`, `isAccountLocked`,
  `isAccountActivate`);
- the password expiration date (`getUserAccountExpirationDate`);
- the ordered modify sequences that deactivate and reactivate an account,
  change its password, and set its maximum password age (`inactivateAccount`,
  `activateAccount`, `updateUserPassword`, `setPwdMaxAge`, `ldapModify`).

The directory server and the UnboundID SDK are modelled as an in-memory
directory (module `Directory`). Its entries are a map from distinguished name
to a map from attribute name to values. A modify request applies one
modification with the semantics of section 4.6 of RFC 4511 and fails with the
result codes of Appendix A of RFC 4511:

- noSuchObject when the entry is missing;
- attributeOrValueExists when an add repeats a value;
- noSuchAttribute when a delete names an attribute or value that is not there.

A `Connection` class holds the entries, the requests sent so far (service
binds and modify requests, in order) and whether the server accepts the
service identity's bind.

Searches are reduced to the two shapes the service issues:

- a subtree search for `(uid=<username>)` under the parent container finds
  the entry `uid=<username>,<parentDN>`;
- a base search finds the named entry.

A search whose base does not exist raises noSuchObject. The result is "an
entry" only when the first entry carries the requested attribute, as
`ldapSearch` decides.

Module `LdapService` models the service: queries as functions of the
entries, mutators as methods on a `Connection`. Module `LdapServiceClient`
gives the static copies the same contracts. Their bodies match the service
line for line, so its queries are the service's functions and its mutators
repeat the same calls. Module `AccountLifecycle` proves what the mutators do
to the status and the expiration date. It also holds the concrete cases:
90 days, just under a day, a negative age, the default policy, and the two
places where the code reads attributes unexpectedly.

Java details are modelled explicitly (module `JavaLang`):

- `int` division truncates toward zero (`Quot`), unlike Dafny's `/`;
- `Integer.valueOf` accepts an optional sign and decimal digits within the
  `int` range;
- dates are milliseconds since the epoch;
- `plusDays` that leaves the `long` range raises, which the expiration code
  catches, so the result is null.

Where the code and what a caller would expect of the service differ, the
model follows the code:

- `isAccountLocked` reads `accountunlocktime` as a boolean. The attribute is
  expected to mean Locked by its presence (the directory server sets it
  when it locks an account out), but it holds a generalized time. That is no boolean word, so the SDK returns null, and
  unboxing it raises a NullPointerException from both `isAccountLocked` and
  `currentUserStatus` (`AccountLifecycle.UnlockTimeIsNotABoolean`).
- `activateAccount` deletes `nsroledn` with no values, then `nsaccountlock`.
  On an account without `nsroledn` the first delete fails with
  noSuchAttribute, which propagates, and `nsaccountlock` is never deleted. On
  an account with roles but without `nsaccountlock` (one that has roles and
  was never deactivated) every role is deleted and then the second delete
  fails with noSuchAttribute: the caller sees an error, but the roles are
  already gone. Activation would be expected to be idempotent; the code is
  not (`AccountLifecycle.ActivateAccountEffect`,
  `AccountLifecycle.SecondDeleteRejected`).
- The status tests whether `nsaccountlock` is present, while
  `isAccountActivate` tests its value. An entry with `nsaccountlock: false` is
  Inactive and yet activated
  (`AccountLifecycle.LockFlagFalseIsInactiveYetActivated`).
- `activateAccount` deletes every value of `nsroledn`, not only the
  managed-disabled role that `inactivateAccount` added, so any other role the
  user held is lost. After an inactivation and an activation the user's entry
  is the original one less all of `nsroledn` and `nsaccountlock`
  (`AccountLifecycle.InactivateThenActivate`).
- Status queries propagate search failures. Only the expiration date turns
  every failure into null.

`AccountStatus.Name()` gives the strings `currentUserStatus` returns
("Locked", "Inactive", "Active"), and `ResultCode.Code()` gives the numeric
result codes of Appendix A of RFC 4511 that an LDAPException carries.

## Model

| member | source | states |
|---|---|---|
| JavaLang.Quot | src/main/java/com/ldap/service/LDAPService.java:79 | `pwdMaxAge / dayInSeconds` rounds toward zero: the remainder lies in [0, d) for a non-negative dividend and in (-d, 0] for a negative one |
| JavaLang.ParseInt | src/main/java/com/ldap/service/LDAPService.java:102-105 | `Integer.valueOf` on an attribute value yields only values inside the `int` range, and only for strings that start with a digit or a sign |
| JavaLang.ParseIntString | src/main/java/com/ldap/service/LDAPService.java:23 | any `int` written in decimal reads back as the same `int` through `Integer.valueOf` |
| Directory.ApplyToEntry | src/main/java/com/ldap/service/LDAPService.java:124 | one modification on one entry: add succeeds iff the values are non-empty, distinct and new, and then the attribute holds exactly the old values followed by the new ones; delete succeeds iff the attribute and every listed value are present, and removes the listed values or the whole attribute; replace makes the values exactly the listed ones; other attributes never change; well-formed entries stay well-formed |
| Directory.ApplyModify | src/main/java/com/ldap/service/LDAPService.java:124 | noSuchObject for a missing entry, otherwise the entry changes as `ApplyToEntry` says and no other entry changes |
| Directory.Projection | src/main/java/com/ldap/service/LDAPService.java:118 | a returned entry holds only the requested attribute, with the values it has in the directory |
| Directory.Search | src/main/java/com/ldap/service/LDAPService.java:118 | noSuchObject iff the base is missing; otherwise a non-empty result iff the target entry exists, whose first entry is that entry projected to the requested attribute |
| Directory.UserDn | src/main/java/com/ldap/service/LDAPService.java:124 | the user's entry is named `uid=`, the username, a comma, then the parent container |
| Directory.AttributeValue | src/main/java/com/ldap/service/LDAPService.java:99 | `getAttributeValue` gives the attribute's first value, and on a well-formed entry a value exactly when the attribute is present |
| Directory.AttributeValueAsBoolean | src/main/java/com/ldap/service/LDAPService.java:114 | `getAttributeValueAsBoolean` is true iff the first value is a true word, false iff it is a false word, in any ASCII letter case |
| Directory.AttributeValueAsDate | src/main/java/com/ldap/service/LDAPService.java:109 | `getAttributeValueAsDate` is null without a value, else the first value decoded |
| Directory.ParseBoolean | src/main/java/com/ldap/service/LDAPService.java:112-115 | a value reads as true iff its lower-cased form is one of true, t, yes, y, on, 1, and as false iff it is one of false, f, no, n, off, 0; otherwise null |
| Directory.AttributeValueAsInteger | src/main/java/com/ldap/service/LDAPService.java:102-105 | an absent attribute (or one with no value) reads as null; otherwise its first value goes through `Integer.valueOf`, so the result is null on a malformed or out-of-range string and always inside the `int` range |
| Directory.Connection.constructor | src/main/java/com/ldap/LDAPServiceClient.java:144 | a connection starts on the given well-formed entries, with no requests sent |
| Directory.Connection.BindService | src/main/java/com/ldap/service/LDAPService.java:123 | the bind is recorded, and it fails with invalidCredentials exactly when the server refuses the service identity |
| Directory.Connection.Modify | src/main/java/com/ldap/service/LDAPService.java:124 | the request is recorded; the entries become the result of `ApplyModify` when it succeeds and stay as they were when it fails, whose code is raised |
| LdapService.LdapSearch | src/main/java/com/ldap/service/LDAPService.java:117-120 | an entry is returned iff the user's (or the named) entry exists and carries the attribute, with that attribute's values; noSuchObject iff the base is missing |
| LdapService.Unboxed | src/main/java/com/ldap/service/LDAPService.java:114 | a Boolean unboxed to a boolean keeps its value, and a null raises a NullPointerException |
| LdapService.LdapSearchString | src/main/java/com/ldap/service/LDAPService.java:97-100 | null when nothing is found, else the attribute's first value |
| LdapService.LdapSearchInteger | src/main/java/com/ldap/service/LDAPService.java:102-105 | null when nothing is found, else the first value through `Integer.valueOf` |
| LdapService.LdapSearchDate | src/main/java/com/ldap/service/LDAPService.java:107-110 | null when nothing is found, else the first value decoded as a date |
| LdapService.LdapSearchBoolean | src/main/java/com/ldap/service/LDAPService.java:112-115 | false when the entry or attribute is missing, the boolean word's value when found, and a NullPointerException for any other value |
| LdapService.IsAccountLocked | src/main/java/com/ldap/service/LDAPService.java:56-58 | false without `accountunlocktime`, else its boolean value; noSuchObject when the parent container is missing |
| LdapService.IsAccountActivate | src/main/java/com/ldap/service/LDAPService.java:60-62 | true without `nsaccountlock`, else the negation of its boolean value |
| LdapService.CurrentUserStatus | src/main/java/com/ldap/service/LDAPService.java:48-54 | Locked iff locked; Inactive iff not locked and the entry carries `nsaccountlock` with any value; Active iff not locked and it does not; failures of the lock test propagate |
| LdapService.PolicyDn | src/main/java/com/ldap/service/LDAPService.java:68-69 | the governing policy is `cn=Password Policy,cn=config` when the user has no `passwordpolicysubentry`; any other policy is that attribute's first value, and on a well-formed directory a present attribute always names the policy |
| LdapService.PolicyMaxAge | src/main/java/com/ldap/service/LDAPService.java:71-74 | the policy's `pwdMaxAge` is available iff the parent exists, the service bind is accepted, the policy entry exists and its first `pwdMaxAge` value parses as an `int`; it is then that value; otherwise the pipeline raises (a null Integer unboxed at the test against 0) |
| LdapService.ChangeInstant | src/main/java/com/ldap/service/LDAPService.java:67-78 | when the user's `pwdchangedtime` is found and decodes, the expiry counts from that date; when it is absent, or found but undecodable, it counts from now (`new DateTime(null)`) |
| LdapService.PlusDays | src/main/java/com/ldap/service/LDAPService.java:79 | a date exactly that many whole days later exactly when that stays inside the `long` range, and otherwise null (never the infinity date) |
| LdapService.GetUserAccountExpirationDate | src/main/java/com/ldap/service/LDAPService.java:64-86 | null whenever a step fails (including a missing `pwdMaxAge`); the infinity date iff `pwdMaxAge` is 0, whatever `pwdchangedtime` holds; otherwise the change date plus a whole number of days equal to `pwdMaxAge / 86400` rounded toward zero, and a date iff that stays inside the `long` range |
| LdapService.Trace | src/main/java/com/ldap/service/LDAPService.java:122-127 | a successful sequence of `ldapModify` calls sends two requests per modification |
| LdapService.TraceAt | src/main/java/com/ldap/service/LDAPService.java:122-124 | in that trace every even position is a service bind and every odd position the next modification on the user's entry, in the given order |
| LdapService.RunModifications | src/main/java/com/ldap/service/LDAPService.java:122-127 | consecutive `ldapModify` calls send a prefix of that trace, all of it on success, stopping at the first failure (the stop itself is proved in `LdapService.StopsAtRejection`); a refused bind changes nothing; no other entry and no attribute outside the modifications changes; well-formedness is kept |
| LdapService.StopsAtRejection | src/main/java/com/ldap/service/LDAPService.java:122-127 | when the first k modifications succeed and the next is rejected, the run fails with that rejection, the directory is as the k successful ones left it, and the requests end with the rejected modify, so nothing after it is sent |
| LdapService.RunTwo | src/main/java/com/ldap/service/LDAPService.java:27-33 | two modifications run as the first and then, only if it succeeded, the second, with the requests of both in order |
| LdapService.InactivateChanges | src/main/java/com/ldap/service/LDAPService.java:28-31 | two adds in order: the managed-disabled role to `nsroledn`, then `true` to `nsaccountlock` |
| LdapService.ActivateChanges | src/main/java/com/ldap/service/LDAPService.java:36-39 | two deletes of whole attributes in order: `nsroledn`, then `nsaccountlock` |
| LdapService.PasswordChanges | src/main/java/com/ldap/service/LDAPService.java:44 | one replace of `userpassword` by the new password alone |
| LdapService.MaxAgeChanges | src/main/java/com/ldap/service/LDAPService.java:23 | one add of `7776000` to `pwdMaxAge` |
| LdapService.ManagedDisabledRoleDn | src/main/java/com/ldap/service/LDAPService.java:28 | the role is `cn=nsManagedDisabledRole,` followed by the parent container |
| LdapService.LdapModify | src/main/java/com/ldap/service/LDAPService.java:122-127 | binds as the service identity, then modifies `uid=<username>,<parentDN>`; the entries and the request trace are those of that one-step run |
| LdapService.SetPwdMaxAge | src/main/java/com/ldap/service/LDAPService.java:22-25 | one add of `pwdMaxAge: 7776000` on the user's entry |
| LdapService.InactivateAccount | src/main/java/com/ldap/service/LDAPService.java:27-33 | adds the managed-disabled role to `nsroledn`, then `nsaccountlock: true`; the second step is not sent if the first fails |
| LdapService.ActivateAccount | src/main/java/com/ldap/service/LDAPService.java:35-41 | deletes `nsroledn`, then `nsaccountlock`; the second step is not sent if the first fails |
| LdapService.UpdateUserPassword | src/main/java/com/ldap/service/LDAPService.java:43-46 | one replace of `userpassword` with the new password |
| LdapServiceClient.LdapSearch | src/main/java/com/ldap/LDAPServiceClient.java:107-110 | an entry is returned iff the user's (or the named) entry exists and carries the attribute, with that attribute's values; noSuchObject iff the base is missing |
| LdapServiceClient.LdapSearchString | src/main/java/com/ldap/LDAPServiceClient.java:87-90 | null when nothing is found, else the attribute's first value |
| LdapServiceClient.LdapSearchInteger | src/main/java/com/ldap/LDAPServiceClient.java:92-95 | null when nothing is found, else the first value through `Integer.valueOf` |
| LdapServiceClient.LdapSearchDate | src/main/java/com/ldap/LDAPServiceClient.java:97-100 | null when nothing is found, else the first value decoded as a date |
| LdapServiceClient.LdapSearchBoolean | src/main/java/com/ldap/LDAPServiceClient.java:102-105 | false when the entry or attribute is missing, the boolean word's value when found, and a NullPointerException for any other value |
| LdapServiceClient.IsAccountLocked | src/main/java/com/ldap/LDAPServiceClient.java:54-56 | false without `accountunlocktime`, else its boolean value; noSuchObject when the parent container is missing |
| LdapServiceClient.IsAccountActivate | src/main/java/com/ldap/LDAPServiceClient.java:58-60 | true without `nsaccountlock`, else the negation of its boolean value |
| LdapServiceClient.CurrentUserStatus | src/main/java/com/ldap/LDAPServiceClient.java:46-52 | Locked, then Inactive on the presence of `nsaccountlock`, then Active, stated against the client's own lock test |
| LdapServiceClient.GetUserAccountExpirationDate | src/main/java/com/ldap/LDAPServiceClient.java:62-85 | null whenever a step fails; the local infinity date iff `pwdMaxAge` is 0; otherwise the change date plus `pwdMaxAge / 86400` whole days rounded toward zero, and a date iff that stays inside the `long` range |
| LdapServiceClient.LdapModify | src/main/java/com/ldap/LDAPServiceClient.java:112-117 | binds as the service identity, then modifies `uid=<username>,<parentDN>`; the entries and the request trace are those of that one-step run |
| LdapServiceClient.SetPwdMaxAge | src/main/java/com/ldap/LDAPServiceClient.java:20-23 | one add of `pwdMaxAge: 7776000` on the user's entry, after a service bind |
| LdapServiceClient.InactivateAccount | src/main/java/com/ldap/LDAPServiceClient.java:25-31 | adds the managed-disabled role to `nsroledn`, then `nsaccountlock: true`, each after a service bind; the second step is not sent if the first fails |
| LdapServiceClient.ActivateAccount | src/main/java/com/ldap/LDAPServiceClient.java:33-39 | deletes `nsroledn`, then `nsaccountlock`, each after a service bind; the second step is not sent if the first fails |
| LdapServiceClient.UpdateUserPassword | src/main/java/com/ldap/LDAPServiceClient.java:41-44 | one replace of `userpassword` with the new password, after a service bind |
| AccountLifecycle.StatusFrame | src/main/java/com/ldap/service/LDAPService.java:48-62 | the status and both lock tests depend only on the parent and user entries existing and on `accountunlocktime` and `nsaccountlock` |
| AccountLifecycle.LockedFrame | src/main/java/com/ldap/service/LDAPService.java:56-58 | the lock test depends only on the parent and user entries existing and on `accountunlocktime` |
| AccountLifecycle.ExpirationFrame | src/main/java/com/ldap/service/LDAPService.java:64-79 | the expiration date depends only on the user's `pwdchangedtime`, `passwordpolicysubentry` and `pwdMaxAge` and on the other entries |
| AccountLifecycle.PolicyFrame | src/main/java/com/ldap/service/LDAPService.java:67-72 | `pwdMaxAge` is read only from the governing policy entry, so changing the user's own entry keeps the date unless that entry is its own policy |
| AccountLifecycle.InactivateAccountEffect | src/main/java/com/ldap/service/LDAPService.java:27-33 | inactivation succeeds iff the bind is accepted, the entry exists and holds neither the role nor `nsaccountlock: true`; it then holds both, the lock test is unchanged, and an unlocked account reads Inactive; when the role is already there the first add fails with attributeOrValueExists and the second is never sent; when only `nsaccountlock: true` is there the role is added and kept, and the second add fails with attributeOrValueExists after all four requests |
| AccountLifecycle.ActivateAccountEffect | src/main/java/com/ldap/service/LDAPService.java:35-41 | activation succeeds iff the bind is accepted and the entry holds both `nsroledn` and `nsaccountlock`; it then holds neither, reads as activated, and an unlocked account reads Active; without `nsroledn` it fails with noSuchAttribute after one modify, leaving the directory as it was; with `nsroledn` but without `nsaccountlock` every role is deleted and the second delete then fails with noSuchAttribute after all four requests |
| AccountLifecycle.SecondDeleteRejected | src/main/java/com/ldap/service/LDAPService.java:35-41 | on an entry with roles but no `nsaccountlock`, activation deletes every role, then fails with noSuchAttribute on the second delete, with all four requests sent and the roles lost |
| AccountLifecycle.InactivateThenActivate | src/main/java/com/ldap/service/LDAPService.java:27-41 | activating right after a successful inactivation succeeds and gives back the original directory less the user's `nsroledn` and `nsaccountlock`, and an unlocked account is Active again |
| AccountLifecycle.RestoresEntry | src/main/java/com/ldap/service/LDAPService.java:27-41 | after both sequences the directory equals the original with only the user's entry changed, by removing the two lock attributes |
| AccountLifecycle.KeepsOtherAttributes | src/main/java/com/ldap/service/LDAPService.java:27-41 | every attribute other than `nsroledn` and `nsaccountlock` survives inactivation followed by activation unchanged |
| AccountLifecycle.UpdateUserPasswordEffect | src/main/java/com/ldap/service/LDAPService.java:43-46 | the password change succeeds iff the bind is accepted and the entry exists; `userpassword` then holds exactly the value sent, and the replace touches no attribute the status or the expiration reads, so neither changes |
| AccountLifecycle.SecondAddRejected | src/main/java/com/ldap/service/LDAPService.java:27-33 | once the role has been added, an entry already holding `nsaccountlock: true` makes the second add fail with attributeOrValueExists, with the role's store kept and the full four-request trace sent |
| AccountLifecycle.NinetyDaysReadsBack | src/main/java/com/ldap/service/LDAPService.java:22-25 | the `7776000` that `setPwdMaxAge` writes reads back as the integer 7776000, which is 90 whole days |
| AccountLifecycle.UserDnIsNotDefaultPolicy | src/main/java/com/ldap/service/LDAPService.java:69 | no user's entry is the global default policy entry |
| AccountLifecycle.SetPwdMaxAgeEffect | src/main/java/com/ldap/service/LDAPService.java:22-25 | setting the maximum age succeeds iff the bind is accepted, the entry exists and does not already hold 7776000; an entry without `pwdMaxAge` then reads 7776000; the status never changes; the expiration date does not change unless the user's entry is its own policy, and never when the user has no `passwordpolicysubentry` |
| AccountLifecycle.MaxAgeWritten | src/main/java/com/ldap/service/LDAPService.java:23-24 | the outcome of the single `pwdMaxAge` add, and the one value it leaves on an entry that had none |
| AccountLifecycle.MaxAgeKeepsOthers | src/main/java/com/ldap/service/LDAPService.java:22-25 | the `pwdMaxAge` add keeps the status, and the expiration date when the policy is another entry |
| AccountLifecycle.UnlockTimeIsNotABoolean | src/main/java/com/ldap/service/LDAPService.java:56-58 | an `accountunlocktime` whose first value is longer than five characters, as every generalized time is, makes the lock test and the status raise a NullPointerException instead of answering Locked |
| AccountLifecycle.LockFlagFalseIsInactiveYetActivated | src/main/java/com/ldap/service/LDAPService.java:48-62 | with `nsaccountlock: false` and no unlock time the status is Inactive while `isAccountActivate` answers true |
| AccountLifecycle.NinetyDayPolicy | src/main/java/com/ldap/service/LDAPService.java:78-79 | a `pwdMaxAge` of 7776000 expires exactly 90 days after the change date |
| AccountLifecycle.JustUnderOneDay | src/main/java/com/ldap/service/LDAPService.java:78-79 | a `pwdMaxAge` of 86399 seconds expires on the change date itself (truncation, not rounding) |
| AccountLifecycle.NegativeMaxAgeTruncatesTowardZero | src/main/java/com/ldap/service/LDAPService.java:78-79 | a `pwdMaxAge` of -86399 also adds no day, because Java's division truncates toward zero |
| AccountLifecycle.DefaultPolicyGoverns | src/main/java/com/ldap/service/LDAPService.java:68-72 | without `passwordpolicysubentry` the policy is `cn=Password Policy,cn=config`, and its `pwdMaxAge` is the one read |

## Left out

- `ldapBind` and `main` are not modelled. They authenticate an end user over the network and print to the console.
- `LdapFactory` is not part of this model. It only builds a JNDI context against a fixed URL.
- Real search semantics are not modelled: subtree scope, filter matching, several matching entries. A user search finds the entry `uid=<username>,<parentDN>` or nothing.
- Attribute names are compared exactly. The server's case-insensitive attribute names are not modelled.
- `Integer.valueOf` and boolean parsing are modelled over ASCII digits and ASCII letter case only.
- Dates are milliseconds in UTC. `plusDays` is whole days of 86 400 000 ms. Joda-Time's default time zone and daylight-saving shifts are not modelled.
- `getAttributeValueAsDate`'s generalized-time decoder is a parameter (`decodeTime`). The clock that `new DateTime(null)` reads is a parameter (`now`).
- The bind's identity and the hard-coded credentials are not modelled. A connection only records that a service bind was sent and whether the server accepted it.
- The service bind inside `getUserAccountExpirationDate` is a parameter of the query (`serviceBindAccepted`). It is not recorded in the request trace, because the query is a function of the entries.
- Concurrent use of a shared connection is not modelled.
- The `searchResults != null` test in `ldapSearch` is not modelled separately, because the SDK raises instead of returning null. A raised search is the `Err` case.
- Schema checks (allowed attributes, attribute syntax) are not modelled. The only rejections are those of section 4.6 of RFC 4511.
- AccountLifecycle.UpdateUserPasswordEffect: the server's own side effects of a password change are not modelled: a password-policy server sets `pwdchangedtime` itself (which moves the expiration date), stores the password hashed, and may reject it on quality checks. The model's directory applies the replace literally.
- Distinguished names and attribute values are compared as exact strings, not by LDAP matching rules (distinguishedNameMatch, caseIgnoreMatch). A parent container written in another letter case, or an `nsroledn` value that differs from the managed-disabled role only in case, is a different string here, whereas the server would treat it as the same name.
- `LDAPService` returns one shared, mutable `Date` object as its infinity date; the model returns the value `Infinite`, so a caller mutating that object is not modelled.
- The console logging in the catch blocks of `getUserAccountExpirationDate` is not modelled.
