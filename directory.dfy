/**
 * An in-memory directory standing in for the LDAP server and the SDK's
 * connection: entries by distinguished name, each a map from attribute name
 * to its values. Modify follows section 4.6 of RFC 4511 (add, delete,
 * replace) with the result codes of Appendix A of RFC 4511; search is
 * abstracted to the two query shapes the service issues; the readers at the
 * end are the SDK's typed accessors on a returned entry.
 */
module Directory {
  import opened Wrappers
  import opened JavaLang

  type Dn = string
  type AttributeName = string
  type Entry = map<AttributeName, seq<string>>
  type Store = map<Dn, Entry>

  /** The result codes (Appendix A of RFC 4511) that the modelled requests can end with. */
  datatype ResultCode = ProtocolError | NoSuchAttribute | AttributeOrValueExists | NoSuchObject | InvalidCredentials
  {
    function Code(): int
    {
      match this
      case ProtocolError => 2
      case NoSuchAttribute => 16
      case AttributeOrValueExists => 20
      case NoSuchObject => 32
      case InvalidCredentials => 49
    }
  }

  /** The values of an attribute, or none when the entry lacks it. */
  function Values(e: Entry, a: AttributeName): seq<string>
  {
    if a in e then e[a] else []
  }

  predicate Distinct(vs: seq<string>)
  {
    forall i, j :: 0 <= i < j < |vs| ==> vs[i] != vs[j]
  }

  /** An attribute that is present holds at least one value, and no value twice. */
  predicate WellFormedEntry(e: Entry)
  {
    forall a :: a in e ==> e[a] != [] && Distinct(e[a])
  }

  predicate WellFormedStore(s: Store)
  {
    forall dn :: dn in s ==> WellFormedEntry(s[dn])
  }

  /** Two entries agree on attribute `a`: both lack it, or both hold the same values. */
  predicate SameAttribute(e: Entry, e': Entry, a: AttributeName)
  {
    (a in e <==> a in e') && (a in e ==> e[a] == e'[a])
  }

  datatype ModificationType = Add | Delete | Replace

  /** One change of a modify request: the operation, the attribute and the listed values. */
  datatype Modification = Modification(op: ModificationType, attribute: AttributeName, values: seq<string>)

  /** The values of `vs` that are not listed in `gone`, in their order. */
  function Without(vs: seq<string>, gone: seq<string>): (r: seq<string>)
    ensures forall v :: v in r <==> v in vs && v !in gone
    ensures Distinct(vs) ==> Distinct(r)
  {
    if vs == [] then []
    else
      var rest := Without(vs[1..], gone);
      assert Distinct(vs) ==> vs[0] !in vs[1..];
      if vs[0] in gone then rest else [vs[0]] + rest
  }

  lemma DistinctAppend(xs: seq<string>, ys: seq<string>)
    requires Distinct(xs) && Distinct(ys)
    requires forall v :: v in ys ==> v !in xs
    ensures Distinct(xs + ys)
  {
    forall i, j | 0 <= i < j < |xs + ys| ensures (xs + ys)[i] != (xs + ys)[j] {
      if j < |xs| {
        assert (xs + ys)[i] == xs[i] && (xs + ys)[j] == xs[j];
      } else if i >= |xs| {
        assert (xs + ys)[i] == ys[i - |xs|] && (xs + ys)[j] == ys[j - |xs|];
      } else {
        assert (xs + ys)[j] == ys[j - |xs|] && ys[j - |xs|] in ys;
        assert (xs + ys)[i] == xs[i] && xs[i] in xs;
      }
    }
  }

  /** The error a rejected modification reports. */
  function Rejection(m: Modification): ResultCode
  {
    match m.op
    case Add => if m.values == [] then ProtocolError else AttributeOrValueExists
    case Delete => NoSuchAttribute
    case Replace => AttributeOrValueExists
  }

  /**
   * One modification applied to one entry (section 4.6 of RFC 4511):
   * add puts the listed values in, creating the attribute, and fails with
   * attributeOrValueExists on a value already there; delete removes the
   * listed values, or the whole attribute when none are listed, and fails
   * with noSuchAttribute on an attribute or value that is not there; replace
   * makes the listed values the attribute's values, removing it when none
   * are listed. An add listing no values is a protocolError.
   */
  function ApplyToEntry(e: Entry, m: Modification): (r: Result<Entry, ResultCode>)
    ensures r.Err? ==> r.error == Rejection(m)
    ensures r.Ok? ==> forall b :: b != m.attribute ==> SameAttribute(e, r.value, b)
    ensures WellFormedEntry(e) && r.Ok? ==> WellFormedEntry(r.value)
    ensures m.op == Add ==>
      (r.Ok? <==> m.values != [] && Distinct(m.values) && forall v :: v in m.values ==> v !in Values(e, m.attribute))
    ensures m.op == Add && r.Ok? ==>
      forall v :: v in Values(r.value, m.attribute) <==> v in Values(e, m.attribute) || v in m.values
    ensures m.op == Add && r.Ok? ==> Values(r.value, m.attribute) == Values(e, m.attribute) + m.values
    ensures m.op == Delete ==>
      (r.Ok? <==> m.attribute in e && forall v :: v in m.values ==> v in e[m.attribute])
    ensures m.op == Delete && r.Ok? && m.values == [] ==> m.attribute !in r.value
    ensures m.op == Delete && r.Ok? ==>
      forall v :: v in Values(r.value, m.attribute) <==> v in Values(e, m.attribute) && m.values != [] && v !in m.values
    ensures m.op == Replace ==> (r.Ok? <==> Distinct(m.values))
    ensures m.op == Replace && r.Ok? ==> Values(r.value, m.attribute) == m.values
  {
    var a := m.attribute;
    match m.op
    case Add =>
      if m.values == [] || !Distinct(m.values) || exists v :: v in m.values && v in Values(e, a) then
        Err(Rejection(m))
      else
        DistinctAppendValues(e, a, m.values);
        Ok(e[a := Values(e, a) + m.values])
    case Delete =>
      if a !in e || exists v :: v in m.values && v !in e[a] then Err(Rejection(m))
      else if m.values == [] then Ok(e - {a})
      else
        var rest := Without(e[a], m.values);
        Ok(if rest == [] then e - {a} else e[a := rest])
    case Replace =>
      if !Distinct(m.values) then Err(Rejection(m))
      else if m.values == [] then Ok(e - {a})
      else Ok(e[a := m.values])
  }

  lemma DistinctAppendValues(e: Entry, a: AttributeName, vs: seq<string>)
    ensures WellFormedEntry(e) && Distinct(vs) && (forall v :: v in vs ==> v !in Values(e, a)) ==>
      Distinct(Values(e, a) + vs)
  {
    if WellFormedEntry(e) && Distinct(vs) && (forall v :: v in vs ==> v !in Values(e, a)) {
      DistinctAppend(Values(e, a), vs);
    }
  }

  /**
   * A modify request carrying one modification: noSuchObject when no entry
   * has that name; otherwise the entry changes as ApplyToEntry says and
   * nothing else in the directory changes.
   */
  function ApplyModify(s: Store, dn: Dn, m: Modification): (r: Result<Store, ResultCode>)
    ensures dn !in s ==> r == Err(NoSuchObject)
    ensures dn in s ==> (r.Ok? <==> ApplyToEntry(s[dn], m).Ok?)
    ensures dn in s && r.Err? ==> r.error == Rejection(m)
    ensures r.Ok? ==> r.value.Keys == s.Keys && Ok(r.value[dn]) == ApplyToEntry(s[dn], m)
    ensures r.Ok? ==> forall d :: d in s && d != dn ==> r.value[d] == s[d]
    ensures WellFormedStore(s) && r.Ok? ==> WellFormedStore(r.value)
  {
    if dn !in s then Err(NoSuchObject)
    else
      match ApplyToEntry(s[dn], m)
      case Ok(e) => Ok(s[dn := e])
      case Err(c) => Err(c)
  }

  /**
   * The two searches the service issues: a subtree search under `base` for
   * `(uid=<uid>)`, and a base-scope search for `(objectclass=*)` on `dn`.
   */
  datatype Query = UserSearch(base: Dn, uid: string) | EntrySearch(dn: Dn)

  /** The name of a user's entry: `uid=<username>,<parentDN>`. */
  function UserDn(username: string, parentDn: Dn): (r: Dn)
    ensures |r| == 5 + |username| + |parentDn|
    ensures r[..4] == "uid=" && r[4..4 + |username|] == username
    ensures r[4 + |username|] == ',' && r[5 + |username|..] == parentDn
  {
    "uid=" + username + "," + parentDn
  }

  /** The entry whose base the query names exists (otherwise the server answers noSuchObject). */
  predicate BaseExists(s: Store, q: Query)
  {
    match q
    case UserSearch(base, _) => base in s
    case EntrySearch(dn) => dn in s
  }

  /**
   * The entry a query is taken to find first: for a user search, the entry
   * named `uid=<uid>,<base>`; for a base search, the named entry itself.
   */
  function Target(s: Store, q: Query): Option<Entry>
  {
    match q
    case UserSearch(base, uid) =>
      if base in s && UserDn(uid, base) in s then Some(s[UserDn(uid, base)]) else None
    case EntrySearch(dn) =>
      if dn in s then Some(s[dn]) else None
  }

  /** The query's first entry exists and carries attribute `a`. */
  predicate Finds(s: Store, q: Query, a: AttributeName)
  {
    Target(s, q).Some? && a in Target(s, q).value
  }

  /** An entry as a search returns it when only attribute `a` was requested. */
  function Projection(e: Entry, a: AttributeName): (r: Entry)
    ensures r.Keys <= {a}
    ensures SameAttribute(e, r, a)
  {
    if a in e then map[a := e[a]] else map[]
  }

  /**
   * A search requesting attribute `a`: the entries found, in order, each
   * holding only the requested attribute; noSuchObject when the base is missing.
   */
  function Search(s: Store, q: Query, a: AttributeName): (r: Result<seq<Entry>, ResultCode>)
    ensures r.Err? <==> !BaseExists(s, q)
    ensures r.Err? ==> r.error == NoSuchObject
    ensures r.Ok? ==> (|r.value| > 0 <==> Target(s, q).Some?)
    ensures r.Ok? && |r.value| > 0 ==> r.value[0] == Projection(Target(s, q).value, a)
  {
    if !BaseExists(s, q) then Err(NoSuchObject)
    else
      match Target(s, q)
      case None => Ok([])
      case Some(e) => Ok([Projection(e, a)])
  }

  /** Entry.getAttributeValue: the attribute's first value, or null. */
  function AttributeValue(e: Entry, a: AttributeName): (r: Option<string>)
    ensures r.Some? ==> a in e && e[a] != [] && r.value == e[a][0]
    ensures WellFormedEntry(e) ==> (r.Some? <==> a in e)
  {
    if a in e && e[a] != [] then Some(e[a][0]) else None
  }

  const TRUE_WORDS: set<string> := {"true", "t", "yes", "y", "on", "1"}
  const FALSE_WORDS: set<string> := {"false", "f", "no", "n", "off", "0"}

  /** The SDK's boolean reading of a value: fixed words, ignoring letter case; null for anything else. */
  function ParseBoolean(v: string): (r: Option<bool>)
    ensures r == Some(true) <==> ToLowerAscii(v) in TRUE_WORDS
    ensures r == Some(false) <==> ToLowerAscii(v) in FALSE_WORDS
  {
    var lower := ToLowerAscii(v);
    if lower in TRUE_WORDS then Some(true)
    else if lower in FALSE_WORDS then Some(false)
    else None
  }

  /** Entry.getAttributeValueAsBoolean: the first value read as a boolean, or null. */
  function AttributeValueAsBoolean(e: Entry, a: AttributeName): (r: Option<bool>)
    ensures r == Some(true) <==> AttributeValue(e, a).Some? && ToLowerAscii(AttributeValue(e, a).value) in TRUE_WORDS
    ensures r == Some(false) <==> AttributeValue(e, a).Some? && ToLowerAscii(AttributeValue(e, a).value) in FALSE_WORDS
  {
    match AttributeValue(e, a)
    case None => None
    case Some(v) => ParseBoolean(v)
  }

  /** Entry.getAttributeValueAsInteger: the first value through Integer.valueOf, or null. */
  function AttributeValueAsInteger(e: Entry, a: AttributeName): (r: Option<int>)
    ensures r.Some? ==> IsInt(r.value)
    ensures AttributeValue(e, a).None? ==> r == None
    ensures AttributeValue(e, a).Some? ==> r == ParseInt(AttributeValue(e, a).value)
  {
    match AttributeValue(e, a)
    case None => None
    case Some(v) => ParseInt(v)
  }

  /**
   * Entry.getAttributeValueAsDate: the first value decoded as a generalized
   * time (milliseconds since the epoch), or null. The decoder is a parameter.
   */
  function AttributeValueAsDate(e: Entry, a: AttributeName, decodeTime: string -> Option<int>): (r: Option<int>)
    ensures AttributeValue(e, a).None? ==> r == None
    ensures AttributeValue(e, a).Some? ==> r == decodeTime(AttributeValue(e, a).value)
  {
    match AttributeValue(e, a)
    case None => None
    case Some(v) => decodeTime(v)
  }

  /** A request a connection sends that changes the directory or the connection. */
  datatype Request = ServiceBind | ModifyRequest(dn: Dn, modification: Modification)

  /**
   * A connection to the directory: the entries it sees, the requests it has
   * sent, in order, and whether the server accepts the service identity's bind.
   */
  class Connection {
    var entries: Store
    var requests: seq<Request>
    const serviceBindAccepted: bool

    ghost predicate Valid()
      reads this
    {
      WellFormedStore(entries)
    }

    constructor (entries: Store, serviceBindAccepted: bool)
      requires WellFormedStore(entries)
      ensures Valid()
      ensures this.entries == entries && requests == [] && this.serviceBindAccepted == serviceBindAccepted
    {
      this.entries := entries;
      this.requests := [];
      this.serviceBindAccepted := serviceBindAccepted;
    }

    /** Binds as the service identity; invalidCredentials when the server refuses it. */
    method BindService() returns (r: Outcome<ResultCode>)
      modifies this`requests
      ensures requests == old(requests) + [ServiceBind]
      ensures r == if serviceBindAccepted then Pass else Fail(InvalidCredentials)
    {
      requests := requests + [ServiceBind];
      r := if serviceBindAccepted then Pass else Fail(InvalidCredentials);
    }

    /** Sends a modify request with one modification; the directory changes only when it succeeds. */
    method Modify(dn: Dn, m: Modification) returns (r: Outcome<ResultCode>)
      requires Valid()
      modifies this`entries, this`requests
      ensures Valid()
      ensures requests == old(requests) + [ModifyRequest(dn, m)]
      ensures ApplyModify(old(entries), dn, m).Ok? ==> r == Pass && entries == ApplyModify(old(entries), dn, m).value
      ensures ApplyModify(old(entries), dn, m).Err? ==>
        r == Fail(ApplyModify(old(entries), dn, m).error) && entries == old(entries)
    {
      requests := requests + [ModifyRequest(dn, m)];
      match ApplyModify(entries, dn, m)
      case Ok(next) =>
        entries := next;
        r := Pass;
      case Err(code) =>
        r := Fail(code);
    }
  }
}
