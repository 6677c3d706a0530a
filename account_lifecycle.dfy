/**
 * What the account mutators do to the account's status and expiration, and
 * the places where the code's decisions differ from a reading of the attribute
 * names (a lock time read as a boolean, a lock flag whose value the status ignores).
 */
module AccountLifecycle {
  import opened Wrappers
  import opened JavaLang
  import opened Directory
  import opened LdapService

  /** The status queries read only whether the parent and the user's entry exist and the two lock attributes. */
  lemma StatusFrame(s: Store, s': Store, username: string, parentDn: Dn)
    requires parentDn in s <==> parentDn in s'
    requires UserDn(username, parentDn) in s <==> UserDn(username, parentDn) in s'
    requires UserDn(username, parentDn) in s ==>
      && SameAttribute(s[UserDn(username, parentDn)], s'[UserDn(username, parentDn)], ACCOUNT_UNLOCK_TIME)
      && SameAttribute(s[UserDn(username, parentDn)], s'[UserDn(username, parentDn)], NS_ACCOUNT_LOCK)
    ensures IsAccountLocked(s', username, parentDn) == IsAccountLocked(s, username, parentDn)
    ensures IsAccountActivate(s', username, parentDn) == IsAccountActivate(s, username, parentDn)
    ensures CurrentUserStatus(s', username, parentDn) == CurrentUserStatus(s, username, parentDn)
  {
  }

  /** isAccountLocked reads only whether the parent and the user's entry exist and accountunlocktime. */
  lemma LockedFrame(s: Store, s': Store, username: string, parentDn: Dn)
    requires parentDn in s <==> parentDn in s'
    requires UserDn(username, parentDn) in s <==> UserDn(username, parentDn) in s'
    requires UserDn(username, parentDn) in s ==>
      SameAttribute(s[UserDn(username, parentDn)], s'[UserDn(username, parentDn)], ACCOUNT_UNLOCK_TIME)
    ensures IsAccountLocked(s', username, parentDn) == IsAccountLocked(s, username, parentDn)
  {
  }

  /** Entries that agree on every attribute are equal. */
  lemma EntryExtensionality(e: Entry, e': Entry)
    requires forall a :: SameAttribute(e, e', a)
    ensures e == e'
  {
    forall a ensures (a in e <==> a in e') && (a in e ==> e[a] == e'[a]) {
      assert SameAttribute(e, e', a);
    }
    assert e.Keys == e'.Keys;
  }

  /**
   * The expiration reads only the parent's existence, the user's pwdchangedtime,
   * passwordpolicysubentry and pwdMaxAge, and the other entries.
   */
  lemma ExpirationFrame(s: Store, s': Store, serviceBindAccepted: bool, username: string, parentDn: Dn,
                        now: int, decodeTime: string -> Option<int>)
    requires s'.Keys == s.Keys
    requires forall d :: d in s && d != UserDn(username, parentDn) ==> s'[d] == s[d]
    requires UserDn(username, parentDn) in s ==>
      && SameAttribute(s[UserDn(username, parentDn)], s'[UserDn(username, parentDn)], PWD_CHANGED_TIME)
      && SameAttribute(s[UserDn(username, parentDn)], s'[UserDn(username, parentDn)], PASSWORD_POLICY_SUBENTRY)
      && SameAttribute(s[UserDn(username, parentDn)], s'[UserDn(username, parentDn)], PWD_MAX_AGE)
    ensures GetUserAccountExpirationDate(s', serviceBindAccepted, username, parentDn, now, decodeTime)
         == GetUserAccountExpirationDate(s, serviceBindAccepted, username, parentDn, now, decodeTime)
  {
    var dn := UserDn(username, parentDn);
    assert PolicyDn(s', username, parentDn) == PolicyDn(s, username, parentDn);
    var policy := PolicyDn(s, username, parentDn);
    if policy in s && policy != dn {
      assert s'[policy] == s[policy];
    }
  }

  /**
   * inactivateAccount succeeds exactly when the bind is accepted, the entry
   * exists and holds neither the role nor the value "true" already; it then
   * holds both, and an account that was not locked reads as Inactive. When the
   * role is already there, the first add fails and the second is never sent;
   * when only nsaccountlock = true is there, the role is added and stays,
   * and the second add fails after all four requests were sent.
   */
  lemma InactivateAccountEffect(s: Store, serviceBindAccepted: bool, username: string, parentDn: Dn)
    requires WellFormedStore(s)
    ensures var dn := UserDn(username, parentDn);
            var run := RunModifications(s, serviceBindAccepted, dn, InactivateChanges(parentDn));
            && (run.outcome == Pass <==>
                  serviceBindAccepted && dn in s &&
                  ManagedDisabledRoleDn(parentDn) !in Values(s[dn], NS_ROLE_DN) && "true" !in Values(s[dn], NS_ACCOUNT_LOCK))
            && (run.outcome == Pass ==>
                  ManagedDisabledRoleDn(parentDn) in Values(run.store[dn], NS_ROLE_DN) &&
                  "true" in Values(run.store[dn], NS_ACCOUNT_LOCK) &&
                  IsAccountLocked(run.store, username, parentDn) == IsAccountLocked(s, username, parentDn))
            && (run.outcome == Pass && IsAccountLocked(s, username, parentDn) == Ok(false) ==>
                  CurrentUserStatus(run.store, username, parentDn) == Ok(Inactive))
            && (serviceBindAccepted && dn in s && ManagedDisabledRoleDn(parentDn) in Values(s[dn], NS_ROLE_DN) ==>
                  run == Run(Fail(AttributeOrValueExists), s, [ServiceBind, ModifyRequest(dn, InactivateChanges(parentDn)[0])]))
            && (serviceBindAccepted && dn in s && ManagedDisabledRoleDn(parentDn) !in Values(s[dn], NS_ROLE_DN) &&
                "true" in Values(s[dn], NS_ACCOUNT_LOCK) ==>
                  && run.outcome == Fail(AttributeOrValueExists)
                  && ManagedDisabledRoleDn(parentDn) in Values(run.store[dn], NS_ROLE_DN)
                  && run.requests == Trace(dn, InactivateChanges(parentDn)))
  {
    var dn := UserDn(username, parentDn);
    var changes := InactivateChanges(parentDn);
    RunTwo(s, serviceBindAccepted, dn, changes[0], changes[1]);
    assert changes == [changes[0], changes[1]];
    var first := RunModifications(s, serviceBindAccepted, dn, [changes[0]]);
    assert [changes[0]][1..] == [] && [changes[1]][1..] == [];
    if serviceBindAccepted && dn in s && first.outcome == Pass {
      assert SameAttribute(s[dn], first.store[dn], NS_ACCOUNT_LOCK);
      assert SameAttribute(s[dn], first.store[dn], ACCOUNT_UNLOCK_TIME);
      var run := RunModifications(s, serviceBindAccepted, dn, changes);
      if run.outcome == Pass {
        assert SameAttribute(first.store[dn], run.store[dn], NS_ROLE_DN);
        assert SameAttribute(first.store[dn], run.store[dn], ACCOUNT_UNLOCK_TIME);
        LockedFrame(s, run.store, username, parentDn);
      }
      if "true" in Values(s[dn], NS_ACCOUNT_LOCK) {
        SecondAddRejected(s, dn, parentDn);
      }
    }
  }

  /**
   * When the role is added but nsaccountlock already holds "true", the second
   * add of inactivateAccount is rejected after the role was written.
   */
  lemma SecondAddRejected(s: Store, dn: Dn, parentDn: Dn)
    requires dn in s && "true" in Values(s[dn], NS_ACCOUNT_LOCK)
    requires RunModifications(s, true, dn, [InactivateChanges(parentDn)[0]]).outcome == Pass
    ensures var run := RunModifications(s, true, dn, InactivateChanges(parentDn));
            && run.outcome == Fail(AttributeOrValueExists)
            && run.store == RunModifications(s, true, dn, [InactivateChanges(parentDn)[0]]).store
            && run.requests == Trace(dn, InactivateChanges(parentDn))
  {
    var changes := InactivateChanges(parentDn);
    assert changes[..1] == [changes[0]] && changes[..2] == changes;
    var before := RunModifications(s, true, dn, changes[..1]).store;
    assert [changes[0]][1..] == [];
    assert SameAttribute(s[dn], before[dn], NS_ACCOUNT_LOCK);
    assert ApplyModify(before, dn, changes[1]).Err?;
    StopsAtRejection(s, dn, changes, 1);
  }

  /**
   * activateAccount succeeds exactly when the bind is accepted and the entry
   * holds both nsroledn and nsaccountlock; it then holds neither, reads as
   * activated, and an account that was not locked reads as Active. Deleting
   * an nsroledn that is not there fails, and nsaccountlock is then left alone;
   * on an entry with roles but no nsaccountlock every role is deleted before
   * the second delete fails.
   */
  lemma ActivateAccountEffect(s: Store, serviceBindAccepted: bool, username: string, parentDn: Dn)
    requires WellFormedStore(s)
    ensures var dn := UserDn(username, parentDn);
            var run := RunModifications(s, serviceBindAccepted, dn, ActivateChanges());
            && (run.outcome == Pass <==> serviceBindAccepted && dn in s && NS_ROLE_DN in s[dn] && NS_ACCOUNT_LOCK in s[dn])
            && (run.outcome == Pass ==> NS_ROLE_DN !in run.store[dn] && NS_ACCOUNT_LOCK !in run.store[dn])
            && (run.outcome == Pass && parentDn in s ==> IsAccountActivate(run.store, username, parentDn) == Ok(true))
            && (run.outcome == Pass && IsAccountLocked(s, username, parentDn) == Ok(false) ==>
                  CurrentUserStatus(run.store, username, parentDn) == Ok(Active))
            && (serviceBindAccepted && dn in s && NS_ROLE_DN !in s[dn] ==>
                  run == Run(Fail(NoSuchAttribute), s, [ServiceBind, ModifyRequest(dn, Modification(Delete, NS_ROLE_DN, []))]))
            && (serviceBindAccepted && dn in s && NS_ROLE_DN in s[dn] && NS_ACCOUNT_LOCK !in s[dn] ==>
                  run == Run(Fail(NoSuchAttribute), s[dn := s[dn] - {NS_ROLE_DN}], Trace(dn, ActivateChanges())))
  {
    var dn := UserDn(username, parentDn);
    var changes := ActivateChanges();
    RunTwo(s, serviceBindAccepted, dn, changes[0], changes[1]);
    assert changes == [changes[0], changes[1]];
    var first := RunModifications(s, serviceBindAccepted, dn, [changes[0]]);
    assert [changes[0]][1..] == [] && [changes[1]][1..] == [];
    if serviceBindAccepted && dn in s && first.outcome == Pass {
      assert SameAttribute(s[dn], first.store[dn], NS_ACCOUNT_LOCK);
      assert SameAttribute(s[dn], first.store[dn], ACCOUNT_UNLOCK_TIME);
      var run := RunModifications(s, serviceBindAccepted, dn, changes);
      if run.outcome == Pass {
        assert SameAttribute(first.store[dn], run.store[dn], NS_ROLE_DN);
        assert SameAttribute(first.store[dn], run.store[dn], ACCOUNT_UNLOCK_TIME);
        assert NS_ACCOUNT_LOCK !in run.store[dn];
        assert IsAccountLocked(run.store, username, parentDn) == IsAccountLocked(s, username, parentDn);
      }
    }
    if serviceBindAccepted && dn in s && NS_ROLE_DN in s[dn] && NS_ACCOUNT_LOCK !in s[dn] {
      SecondDeleteRejected(s, dn);
    }
  }

  /**
   * On an entry with roles but no nsaccountlock, activateAccount deletes
   * every role and then fails on the second delete: the roles stay lost.
   */
  lemma SecondDeleteRejected(s: Store, dn: Dn)
    requires dn in s && NS_ROLE_DN in s[dn] && NS_ACCOUNT_LOCK !in s[dn]
    ensures RunModifications(s, true, dn, ActivateChanges()) ==
              Run(Fail(NoSuchAttribute), s[dn := s[dn] - {NS_ROLE_DN}], Trace(dn, ActivateChanges()))
  {
    var changes := ActivateChanges();
    assert changes[..1] == [changes[0]] && changes[..2] == changes;
    var next := s[dn := s[dn] - {NS_ROLE_DN}];
    assert ApplyModify(s, dn, changes[0]) == Ok(next);
    assert [changes[0]][1..] == [];
    assert RunModifications(next, true, dn, []) == Run(Pass, next, []);
    assert ApplyModify(next, dn, changes[1]) == Err(NoSuchAttribute);
    StopsAtRejection(s, dn, changes, 1);
  }

  /**
   * Activating right after a successful inactivation always succeeds, and
   * leaves the user's entry as it was before, less nsroledn and nsaccountlock.
   */
  lemma InactivateThenActivate(s: Store, username: string, parentDn: Dn)
    requires WellFormedStore(s)
    requires RunModifications(s, true, UserDn(username, parentDn), InactivateChanges(parentDn)).outcome == Pass
    ensures var dn := UserDn(username, parentDn);
            var inactivated := RunModifications(s, true, dn, InactivateChanges(parentDn));
            var activated := RunModifications(inactivated.store, true, dn, ActivateChanges());
            && activated.outcome == Pass
            && activated.store == s[dn := s[dn] - {NS_ROLE_DN, NS_ACCOUNT_LOCK}]
            && (IsAccountLocked(s, username, parentDn) == Ok(false) ==>
                  CurrentUserStatus(activated.store, username, parentDn) == Ok(Active))
  {
    var dn := UserDn(username, parentDn);
    var middle := RunModifications(s, true, dn, InactivateChanges(parentDn)).store;
    var activated := RunModifications(middle, true, dn, ActivateChanges());
    InactivateAccountEffect(s, true, username, parentDn);
    ActivateAccountEffect(middle, true, username, parentDn);
    RestoresEntry(s, middle, activated.store, dn, parentDn);
  }

  /** The activated store is the original one with the user's entry less nsroledn and nsaccountlock. */
  lemma RestoresEntry(s: Store, middle: Store, after: Store, dn: Dn, parentDn: Dn)
    requires dn in s
    requires middle == RunModifications(s, true, dn, InactivateChanges(parentDn)).store
    requires after == RunModifications(middle, true, dn, ActivateChanges()).store
    requires NS_ROLE_DN !in after[dn] && NS_ACCOUNT_LOCK !in after[dn]
    ensures after == s[dn := s[dn] - {NS_ROLE_DN, NS_ACCOUNT_LOCK}]
  {
    KeepsOtherAttributes(s, middle, after, dn, parentDn);
    EntryExtensionality(after[dn], s[dn] - {NS_ROLE_DN, NS_ACCOUNT_LOCK});
    OtherEntriesKept(s, middle, true, dn, InactivateChanges(parentDn));
    OtherEntriesKept(middle, after, true, dn, ActivateChanges());
    StoreUpdate(s, after, dn, s[dn] - {NS_ROLE_DN, NS_ACCOUNT_LOCK});
  }

  /** A run of modifications on one entry keeps the set of entries and every other entry. */
  lemma OtherEntriesKept(s: Store, after: Store, serviceBindAccepted: bool, dn: Dn, changes: seq<Modification>)
    requires after == RunModifications(s, serviceBindAccepted, dn, changes).store
    ensures after.Keys == s.Keys
    ensures forall d :: d in s && d != dn ==> after[d] == s[d]
  {
  }

  /** A store that differs from another at most in one entry is the other updated there. */
  lemma StoreUpdate(s: Store, after: Store, dn: Dn, e: Entry)
    requires dn in s && after.Keys == s.Keys
    requires forall d :: d in s && d != dn ==> after[d] == s[d]
    requires after[dn] == e
    ensures after == s[dn := e]
  {
  }

  /** An attribute no modification of the sequence names keeps its values in the modified entry. */
  lemma UntouchedAttribute(s: Store, after: Store, serviceBindAccepted: bool, dn: Dn, changes: seq<Modification>, a: AttributeName)
    requires dn in s
    requires after == RunModifications(s, serviceBindAccepted, dn, changes).store
    requires a !in Attributes(changes)
    ensures dn in after && SameAttribute(s[dn], after[dn], a)
  {
  }

  /** inactivateAccount and activateAccount modify only nsroledn and nsaccountlock. */
  lemma LockChangesName(parentDn: Dn, a: AttributeName)
    requires a != NS_ROLE_DN && a != NS_ACCOUNT_LOCK
    ensures a !in Attributes(InactivateChanges(parentDn))
    ensures a !in Attributes(ActivateChanges())
  {
  }

  lemma KeptThroughBoth(s: Store, middle: Store, after: Store, dn: Dn, parentDn: Dn, a: AttributeName)
    requires dn in s
    requires middle == RunModifications(s, true, dn, InactivateChanges(parentDn)).store
    requires after == RunModifications(middle, true, dn, ActivateChanges()).store
    requires a != NS_ROLE_DN && a != NS_ACCOUNT_LOCK
    ensures dn in after && SameAttribute(s[dn], after[dn], a)
  {
    LockChangesName(parentDn, a);
    UntouchedAttribute(s, middle, true, dn, InactivateChanges(parentDn), a);
    UntouchedAttribute(middle, after, true, dn, ActivateChanges(), a);
  }

  lemma SameAttributeWithout(e: Entry, after: Entry, a: AttributeName)
    requires a != NS_ROLE_DN && a != NS_ACCOUNT_LOCK
    requires SameAttribute(e, after, a)
    ensures SameAttribute(after, e - {NS_ROLE_DN, NS_ACCOUNT_LOCK}, a)
  {
  }

  /** The attributes other than nsroledn and nsaccountlock survive an inactivation followed by an activation. */
  lemma KeepsOtherAttributes(s: Store, middle: Store, after: Store, dn: Dn, parentDn: Dn)
    requires dn in s
    requires middle == RunModifications(s, true, dn, InactivateChanges(parentDn)).store
    requires after == RunModifications(middle, true, dn, ActivateChanges()).store
    requires NS_ROLE_DN !in after[dn] && NS_ACCOUNT_LOCK !in after[dn]
    ensures forall a :: SameAttribute(after[dn], (s[dn] - {NS_ROLE_DN, NS_ACCOUNT_LOCK}), a)
  {
    forall a ensures SameAttribute(after[dn], (s[dn] - {NS_ROLE_DN, NS_ACCOUNT_LOCK}), a) {
      if a != NS_ROLE_DN && a != NS_ACCOUNT_LOCK {
        KeptThroughBoth(s, middle, after, dn, parentDn, a);
        SameAttributeWithout(s[dn], after[dn], a);
      }
    }
  }

  /**
   * updateUserPassword succeeds exactly when the bind is accepted and the
   * entry exists; the password is then the only value of userpassword, and
   * neither the status nor the expiration date changes.
   */
  lemma UpdateUserPasswordEffect(s: Store, serviceBindAccepted: bool, username: string, password: string, parentDn: Dn,
                                 now: int, decodeTime: string -> Option<int>)
    requires WellFormedStore(s)
    ensures var dn := UserDn(username, parentDn);
            var run := RunModifications(s, serviceBindAccepted, dn, PasswordChanges(password));
            && (run.outcome == Pass <==> serviceBindAccepted && dn in s)
            && (run.outcome == Pass ==> Values(run.store[dn], USER_PASSWORD) == [password])
            && CurrentUserStatus(run.store, username, parentDn) == CurrentUserStatus(s, username, parentDn)
            && IsAccountActivate(run.store, username, parentDn) == IsAccountActivate(s, username, parentDn)
            && GetUserAccountExpirationDate(run.store, serviceBindAccepted, username, parentDn, now, decodeTime)
               == GetUserAccountExpirationDate(s, serviceBindAccepted, username, parentDn, now, decodeTime)
  {
    var dn := UserDn(username, parentDn);
    var run := RunModifications(s, serviceBindAccepted, dn, PasswordChanges(password));
    assert PasswordChanges(password)[1..] == [];
    assert Attributes(PasswordChanges(password)) == {USER_PASSWORD};
    if dn in s {
      assert SameAttribute(s[dn], run.store[dn], ACCOUNT_UNLOCK_TIME);
      assert SameAttribute(s[dn], run.store[dn], NS_ACCOUNT_LOCK);
      assert SameAttribute(s[dn], run.store[dn], PWD_CHANGED_TIME);
      assert SameAttribute(s[dn], run.store[dn], PASSWORD_POLICY_SUBENTRY);
      assert SameAttribute(s[dn], run.store[dn], PWD_MAX_AGE);
    }
    StatusFrame(s, run.store, username, parentDn);
    ExpirationFrame(s, run.store, serviceBindAccepted, username, parentDn, now, decodeTime);
  }

  /** The value setPwdMaxAge writes reads back through Integer.valueOf as 7776000 seconds, 90 whole days. */
  lemma NinetyDaysReadsBack()
    ensures ParseInt(NINETY_DAYS_IN_SECONDS) == Some(7776000)
    ensures Quot(7776000, DAY_IN_SECONDS) == 90
  {
    ParseIntString(7776000);
    NinetyDaysDigits();
  }

  /** Integer.toString(7776000) is the string setPwdMaxAge writes. */
  lemma NinetyDaysDigits()
    ensures IntString(7776000) == NINETY_DAYS_IN_SECONDS
  {
    assert NaturalString(7) == "7";
    assert NaturalString(77) == NaturalString(7) + "7";
    assert NaturalString(777) == NaturalString(77) + "7";
    assert NaturalString(7776) == NaturalString(777) + "6";
    assert NaturalString(77760) == NaturalString(7776) + "0";
    assert NaturalString(777600) == NaturalString(77760) + "0";
    assert NaturalString(7776000) == NaturalString(777600) + "0";
  }

  /** A user's entry is never the global policy entry: their names differ in the first character. */
  lemma UserDnIsNotDefaultPolicy(username: string, parentDn: Dn)
    ensures UserDn(username, parentDn) != DEFAULT_POLICY_DN
  {
    assert UserDn(username, parentDn)[0] == 'u';
    assert DEFAULT_POLICY_DN[0] == 'c';
  }

  /**
   * setPwdMaxAge succeeds exactly when the bind is accepted, the entry exists
   * and does not already hold 7776000; on an entry without pwdMaxAge it then
   * reads back as 7776000. It changes no status, and it changes no expiration
   * date unless the user's own entry is the governing policy (it never is
   * when the global default governs).
   */
  lemma SetPwdMaxAgeEffect(s: Store, serviceBindAccepted: bool, username: string, parentDn: Dn,
                           now: int, decodeTime: string -> Option<int>)
    requires WellFormedStore(s)
    ensures var dn := UserDn(username, parentDn);
            var run := RunModifications(s, serviceBindAccepted, dn, MaxAgeChanges());
            && (run.outcome == Pass <==> serviceBindAccepted && dn in s && NINETY_DAYS_IN_SECONDS !in Values(s[dn], PWD_MAX_AGE))
            && (run.outcome == Pass && PWD_MAX_AGE !in s[dn] ==> AttributeValueAsInteger(run.store[dn], PWD_MAX_AGE) == Some(7776000))
            && CurrentUserStatus(run.store, username, parentDn) == CurrentUserStatus(s, username, parentDn)
            && (PolicyDn(s, username, parentDn) != dn ==>
                  GetUserAccountExpirationDate(run.store, serviceBindAccepted, username, parentDn, now, decodeTime)
                  == GetUserAccountExpirationDate(s, serviceBindAccepted, username, parentDn, now, decodeTime))
            && (!Finds(s, UserSearch(parentDn, username), PASSWORD_POLICY_SUBENTRY) ==>
                  GetUserAccountExpirationDate(run.store, serviceBindAccepted, username, parentDn, now, decodeTime)
                  == GetUserAccountExpirationDate(s, serviceBindAccepted, username, parentDn, now, decodeTime))
  {
    var dn := UserDn(username, parentDn);
    var run := RunModifications(s, serviceBindAccepted, dn, MaxAgeChanges());
    UserDnIsNotDefaultPolicy(username, parentDn);
    MaxAgeWritten(s, serviceBindAccepted, dn);
    if run.outcome == Pass && PWD_MAX_AGE !in s[dn] {
      NinetyDaysReadsBack();
    }
    MaxAgeKeepsOthers(s, run.store, serviceBindAccepted, username, parentDn, now, decodeTime);
  }

  /** The outcome of the single pwdMaxAge add, and the value it leaves on an entry that had none. */
  lemma MaxAgeWritten(s: Store, serviceBindAccepted: bool, dn: Dn)
    requires WellFormedStore(s)
    ensures var run := RunModifications(s, serviceBindAccepted, dn, MaxAgeChanges());
            && (run.outcome == Pass <==> serviceBindAccepted && dn in s && NINETY_DAYS_IN_SECONDS !in Values(s[dn], PWD_MAX_AGE))
            && (run.outcome == Pass && PWD_MAX_AGE !in s[dn] ==> Values(run.store[dn], PWD_MAX_AGE) == [NINETY_DAYS_IN_SECONDS])
  {
    var run := RunModifications(s, serviceBindAccepted, dn, MaxAgeChanges());
    assert MaxAgeChanges()[1..] == [];
    if run.outcome == Pass && PWD_MAX_AGE !in s[dn] {
      assert Values(run.store[dn], PWD_MAX_AGE)[..0] == [];
    }
  }

  /** setPwdMaxAge modifies only pwdMaxAge. */
  lemma MaxAgeChangesName(a: AttributeName)
    requires a != PWD_MAX_AGE
    ensures a !in Attributes(MaxAgeChanges())
  {
  }

  /** The pwdMaxAge add leaves the status alone, and the expiration too unless the user's entry is its own policy. */
  lemma MaxAgeKeepsOthers(s: Store, after: Store, serviceBindAccepted: bool, username: string, parentDn: Dn,
                          now: int, decodeTime: string -> Option<int>)
    requires after == RunModifications(s, serviceBindAccepted, UserDn(username, parentDn), MaxAgeChanges()).store
    ensures CurrentUserStatus(after, username, parentDn) == CurrentUserStatus(s, username, parentDn)
    ensures PolicyDn(s, username, parentDn) != UserDn(username, parentDn) ==>
              GetUserAccountExpirationDate(after, serviceBindAccepted, username, parentDn, now, decodeTime)
              == GetUserAccountExpirationDate(s, serviceBindAccepted, username, parentDn, now, decodeTime)
  {
    var dn := UserDn(username, parentDn);
    OtherEntriesKept(s, after, serviceBindAccepted, dn, MaxAgeChanges());
    if dn in s {
      MaxAgeChangesName(ACCOUNT_UNLOCK_TIME);
      MaxAgeChangesName(NS_ACCOUNT_LOCK);
      MaxAgeChangesName(PWD_CHANGED_TIME);
      MaxAgeChangesName(PASSWORD_POLICY_SUBENTRY);
      UntouchedAttribute(s, after, serviceBindAccepted, dn, MaxAgeChanges(), ACCOUNT_UNLOCK_TIME);
      UntouchedAttribute(s, after, serviceBindAccepted, dn, MaxAgeChanges(), NS_ACCOUNT_LOCK);
      UntouchedAttribute(s, after, serviceBindAccepted, dn, MaxAgeChanges(), PWD_CHANGED_TIME);
      UntouchedAttribute(s, after, serviceBindAccepted, dn, MaxAgeChanges(), PASSWORD_POLICY_SUBENTRY);
    }
    StatusFrame(s, after, username, parentDn);
    PolicyFrame(s, after, serviceBindAccepted, username, parentDn, now, decodeTime);
  }

  /**
   * The expiration reads pwdMaxAge only from the governing policy entry: a
   * change to the user's own entry that keeps pwdchangedtime and
   * passwordpolicysubentry keeps the date when the policy is another entry.
   */
  lemma PolicyFrame(s: Store, s': Store, serviceBindAccepted: bool, username: string, parentDn: Dn,
                    now: int, decodeTime: string -> Option<int>)
    requires s'.Keys == s.Keys
    requires forall d :: d in s && d != UserDn(username, parentDn) ==> s'[d] == s[d]
    requires UserDn(username, parentDn) in s ==>
      && SameAttribute(s[UserDn(username, parentDn)], s'[UserDn(username, parentDn)], PWD_CHANGED_TIME)
      && SameAttribute(s[UserDn(username, parentDn)], s'[UserDn(username, parentDn)], PASSWORD_POLICY_SUBENTRY)
    ensures PolicyDn(s, username, parentDn) != UserDn(username, parentDn) ==>
              GetUserAccountExpirationDate(s', serviceBindAccepted, username, parentDn, now, decodeTime)
              == GetUserAccountExpirationDate(s, serviceBindAccepted, username, parentDn, now, decodeTime)
  {
    var policy := PolicyDn(s, username, parentDn);
    assert PolicyDn(s', username, parentDn) == policy;
    if policy != UserDn(username, parentDn) && policy in s {
      assert s'[policy] == s[policy];
    }
  }

  /**
   * accountunlocktime holds a generalized time, at least 11 characters long
   * (YYYYMMDDHH and a zone), which is longer than every boolean word:
   * isAccountLocked then unboxes a null Boolean and raises, and so does
   * currentUserStatus, instead of answering Locked.
   */
  lemma UnlockTimeIsNotABoolean(s: Store, username: string, parentDn: Dn, v: string)
    requires parentDn in s && UserDn(username, parentDn) in s
    requires AttributeValue(s[UserDn(username, parentDn)], ACCOUNT_UNLOCK_TIME) == Some(v) && |v| > 5
    ensures IsAccountLocked(s, username, parentDn) == Err(NullPointer)
    ensures CurrentUserStatus(s, username, parentDn) == Err(NullPointer)
  {
    assert |ToLowerAscii(v)| == |v|;
  }

  /**
   * The status looks only at whether nsaccountlock is present, isAccountActivate
   * at its value: with nsaccountlock = false the account is Inactive and yet
   * reads as activated.
   */
  lemma LockFlagFalseIsInactiveYetActivated(s: Store, username: string, parentDn: Dn)
    requires parentDn in s && UserDn(username, parentDn) in s
    requires ACCOUNT_UNLOCK_TIME !in s[UserDn(username, parentDn)]
    requires Values(s[UserDn(username, parentDn)], NS_ACCOUNT_LOCK) == ["false"]
    ensures CurrentUserStatus(s, username, parentDn) == Ok(Inactive)
    ensures IsAccountActivate(s, username, parentDn) == Ok(true)
  {
    assert ToLowerAscii("false") == "false";
  }

  /** A pwdMaxAge of 7776000 seconds is exactly 90 days after the change date. */
  lemma NinetyDayPolicy(s: Store, serviceBindAccepted: bool, username: string, parentDn: Dn,
                        now: int, decodeTime: string -> Option<int>)
    requires PolicyMaxAge(s, serviceBindAccepted, username, parentDn) == Some(7776000)
    requires IsLong(ChangeInstant(s, username, parentDn, now, decodeTime) + 90 * MILLIS_PER_DAY)
    ensures GetUserAccountExpirationDate(s, serviceBindAccepted, username, parentDn, now, decodeTime)
         == Expires(ChangeInstant(s, username, parentDn, now, decodeTime) + 90 * MILLIS_PER_DAY)
  {
  }

  /** A pwdMaxAge one second short of a day adds no day at all: the division truncates. */
  lemma JustUnderOneDay(s: Store, serviceBindAccepted: bool, username: string, parentDn: Dn,
                        now: int, decodeTime: string -> Option<int>)
    requires PolicyMaxAge(s, serviceBindAccepted, username, parentDn) == Some(86399)
    requires IsLong(ChangeInstant(s, username, parentDn, now, decodeTime))
    ensures GetUserAccountExpirationDate(s, serviceBindAccepted, username, parentDn, now, decodeTime)
         == Expires(ChangeInstant(s, username, parentDn, now, decodeTime))
  {
  }

  /** A negative pwdMaxAge truncates toward zero too: -86399 seconds adds no day (rounding down would take one off). */
  lemma NegativeMaxAgeTruncatesTowardZero(s: Store, serviceBindAccepted: bool, username: string, parentDn: Dn,
                                          now: int, decodeTime: string -> Option<int>)
    requires PolicyMaxAge(s, serviceBindAccepted, username, parentDn) == Some(-86399)
    requires IsLong(ChangeInstant(s, username, parentDn, now, decodeTime))
    ensures GetUserAccountExpirationDate(s, serviceBindAccepted, username, parentDn, now, decodeTime)
         == Expires(ChangeInstant(s, username, parentDn, now, decodeTime))
  {
  }

  /** Without a passwordpolicysubentry the global default policy's pwdMaxAge decides. */
  lemma DefaultPolicyGoverns(s: Store, username: string, parentDn: Dn)
    requires parentDn in s
    requires !Finds(s, UserSearch(parentDn, username), PASSWORD_POLICY_SUBENTRY)
    ensures PolicyDn(s, username, parentDn) == DEFAULT_POLICY_DN
    ensures PolicyMaxAge(s, true, username, parentDn)
         == if DEFAULT_POLICY_DN in s then AttributeValueAsInteger(s[DEFAULT_POLICY_DN], PWD_MAX_AGE) else None
  {
  }
}
