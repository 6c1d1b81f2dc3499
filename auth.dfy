/**
 * Request authentication and user synchronisation (auth/auth.go): picking
 * the primary email address and phone number of a Clerk user, classifying
 * the `Authorization` header, get-or-create of the local user row, and the
 * request context that carries both users to the handlers.
 */
module Auth {
  import opened Wrappers
  import opened Http
  import opened GoStd
  import opened Persistence

  /** An email address or phone number of a Clerk user: its Clerk ID and the address or number. */
  datatype Contact = Contact(id: string, value: string)

  /**
   * The fields of a Clerk user that the core reads. The lists may hold nil
   * entries, and a primary ID may be nil.
   */
  datatype ClerkUser = ClerkUser(
    id: string,
    firstName: Option<string>,
    lastName: Option<string>,
    username: Option<string>,
    primaryEmailAddressId: Option<string>,
    emailAddresses: seq<Option<Contact>>,
    primaryPhoneNumberId: Option<string>,
    phoneNumbers: seq<Option<Contact>>)

  /** A row of the `users` table; its key is the Clerk user ID, and an email is required. */
  datatype User = User(
    id: string,
    email: string,
    username: Option<string>,
    firstName: Option<string>,
    lastName: Option<string>,
    phone: Option<string>)

  // ---------------------------------------------------------------------
  // Primary contact resolution (GetPrimaryEmail, GetPrimaryPhone)
  // ---------------------------------------------------------------------

  /** Entry k is present and carries the given ID. */
  predicate MatchesAt(entries: seq<Option<Contact>>, id: string, k: int)
    requires 0 <= k < |entries|
  {
    entries[k].Some? && entries[k].value.id == id
  }

  /** Entry k carries the given ID and no entry before it does. */
  predicate IsFirstMatch(entries: seq<Option<Contact>>, id: string, k: int)
  {
    && 0 <= k < |entries|
    && MatchesAt(entries, id, k)
    && forall j :: 0 <= j < k ==> !MatchesAt(entries, id, j)
  }

  /**
   * The value of the first present entry whose ID is the primary ID; none
   * when there is no primary ID or nothing matches it.
   */
  function PrimaryContact(entries: seq<Option<Contact>>, primaryId: Option<string>): (r: Option<string>)
    ensures primaryId.None? ==> r.None?
    ensures r.Some? ==> primaryId.Some? && Some(Contact(primaryId.value, r.value)) in entries
    decreases |entries|
  {
    if primaryId.None? || |entries| == 0 then None
    else if entries[0].Some? && entries[0].value.id == primaryId.value then Some(entries[0].value.value)
    else
      var rest := PrimaryContact(entries[1..], primaryId);
      assert rest.Some? ==> Some(Contact(primaryId.value, rest.value)) in entries[1..];
      rest
  }

  /** When some entry matches, the result is the value of the first one. */
  lemma {:induction false} PrimaryContactFirstMatch(entries: seq<Option<Contact>>, id: string, k: int)
    requires IsFirstMatch(entries, id, k)
    ensures PrimaryContact(entries, Some(id)) == Some(entries[k].value.value)
    decreases k
  {
    if k > 0 {
      assert !MatchesAt(entries, id, 0);
      forall j | 0 <= j < k - 1 ensures !MatchesAt(entries[1..], id, j) {
        assert !MatchesAt(entries, id, j + 1);
      }
      PrimaryContactFirstMatch(entries[1..], id, k - 1);
    }
  }

  /** When no entry matches, there is no result. */
  lemma {:induction false} PrimaryContactNoMatch(entries: seq<Option<Contact>>, id: string)
    requires forall k :: 0 <= k < |entries| ==> !MatchesAt(entries, id, k)
    ensures PrimaryContact(entries, Some(id)) == None
    decreases |entries|
  {
    if |entries| > 0 {
      assert !MatchesAt(entries, id, 0);
      forall j | 0 <= j < |entries| - 1 ensures !MatchesAt(entries[1..], id, j) {
        assert !MatchesAt(entries, id, j + 1);
      }
      PrimaryContactNoMatch(entries[1..], id);
    }
  }

  /** The search loop shared by GetPrimaryEmail and GetPrimaryPhone, with its early return. */
  method FindPrimary(entries: seq<Option<Contact>>, primaryId: Option<string>) returns (r: Option<string>)
    ensures primaryId.None? ==> r.None?
    ensures r.Some? ==> exists k :: IsFirstMatch(entries, primaryId.value, k) && entries[k].value.value == r.value
    ensures primaryId.Some? && r.None? ==> forall k :: 0 <= k < |entries| ==> !MatchesAt(entries, primaryId.value, k)
    ensures r == PrimaryContact(entries, primaryId)
  {
    if primaryId.None? {
      return None;
    }
    var id := primaryId.value;
    var i := 0;
    while i < |entries|
      invariant 0 <= i <= |entries|
      invariant forall j :: 0 <= j < i ==> !MatchesAt(entries, id, j)
    {
      var entry := entries[i];
      if entry.Some? {
        if entry.value.id == id {
          assert IsFirstMatch(entries, id, i);
          PrimaryContactFirstMatch(entries, id, i);
          return Some(entry.value.value);
        }
      }
      i := i + 1;
    }
    PrimaryContactNoMatch(entries, id);
    return None;
  }

  /** The primary email address of a Clerk user, if it has one. */
  method GetPrimaryEmail(usr: ClerkUser) returns (r: Option<string>)
    ensures r == PrimaryContact(usr.emailAddresses, usr.primaryEmailAddressId)
  {
    r := FindPrimary(usr.emailAddresses, usr.primaryEmailAddressId);
  }

  /** The primary phone number of a Clerk user, if it has one. */
  method GetPrimaryPhone(usr: ClerkUser) returns (r: Option<string>)
    ensures r == PrimaryContact(usr.phoneNumbers, usr.primaryPhoneNumberId)
  {
    r := FindPrimary(usr.phoneNumbers, usr.primaryPhoneNumberId);
  }

  // ---------------------------------------------------------------------
  // Authorization header
  // ---------------------------------------------------------------------

  /** What the middleware makes of the header before any token is verified. */
  datatype HeaderCheck = MissingHeader | MalformedHeader | BearerToken(token: string)

  /**
   * Empty header: missing. Otherwise split on single spaces; anything but
   * exactly the two parts "Bearer" and a token is malformed.
   */
  function ClassifyHeader(header: string): (r: HeaderCheck)
    ensures r.MissingHeader? <==> header == ""
    ensures r.BearerToken? ==> ' ' !in r.token
  {
    if header == "" then MissingHeader
    else
      var parts := Split(header, ' ');
      if parts[0] != "Bearer" || |parts| != 2 then MalformedHeader
      else BearerToken(parts[1])
  }

  /**
   * The header classification, stated without splitting: a header is a
   * bearer credential exactly when it is "Bearer " followed by a token with
   * no space in it, and that token is what is passed on.
   */
  lemma ClassifyHeaderShape(header: string)
    ensures ClassifyHeader(header) ==
      if header == "" then MissingHeader
      else if |header| >= 7 && header[..7] == "Bearer " && ' ' !in header[7..] then BearerToken(header[7..])
      else MalformedHeader
  {
    if header != "" {
      var parts := Split(header, ' ');
      if parts[0] == "Bearer" && |parts| == 2 {
        assert Join(parts[1..], ' ') == parts[1];
        assert header == "Bearer" + [' '] + parts[1];
        assert header[..7] == "Bearer " && header[7..] == parts[1];
      } else if |header| >= 7 && header[..7] == "Bearer " && ' ' !in header[7..] {
        var shaped := ["Bearer", header[7..]];
        assert Join(shaped[1..], ' ') == header[7..];
        assert header == header[..7] + header[7..];
        assert Join(shaped, ' ') == header;
        assert ' ' !in shaped[0];
        SplitUnique(header, ' ', shaped);
        assert false;
      }
    }
  }

  /** Another scheme name is malformed. */
  lemma ClassifyOtherSchemeMalformed()
    ensures ClassifyHeader("Token abc") == MalformedHeader
  {
    var h := "Token abc";
    ClassifyHeaderShape(h);
    assert h[..7] != "Bearer " by { assert h[..7][0] == 'T'; }
  }

  /** A token containing a space makes three parts, which is malformed. */
  lemma ClassifyThreePartsMalformed()
    ensures ClassifyHeader("Bearer a b") == MalformedHeader
  {
    var h := "Bearer a b";
    ClassifyHeaderShape(h);
    assert h[7..][1] == ' ';
  }

  /** A well-formed bearer header passes its token on. */
  lemma ClassifyBearerToken()
    ensures ClassifyHeader("Bearer abc") == BearerToken("abc")
  {
    var h := "Bearer abc";
    ClassifyHeaderShape(h);
    assert h[..7] == "Bearer " && h[7..] == "abc";
  }

  /**
   * The subject the identity provider vouches for, if the header carries a
   * bearer token and `verify` (jwt.Verify) accepts it.
   */
  function Subject(header: string, verify: string -> Option<string>): (r: Option<string>)
    ensures r.Some? ==> ClassifyHeader(header).BearerToken? && verify(ClassifyHeader(header).token) == r
    ensures ClassifyHeader(header).BearerToken? ==> r == verify(ClassifyHeader(header).token)
  {
    match ClassifyHeader(header)
    case BearerToken(token) => verify(token)
    case _ => None
  }

  // ---------------------------------------------------------------------
  // syncUser
  // ---------------------------------------------------------------------

  /** Why syncUser failed: no primary email, a failed lookup, or a failed insert. */
  datatype SyncError = EmailNotFound | LookupFailed | CreateFailed

  /** The returned user or error, and the users table afterwards. */
  datatype SyncOutcome = SyncOutcome(result: Result<User, SyncError>, users: map<string, User>)

  /** Every row is stored under its own ID. */
  ghost predicate UsersValid(users: map<string, User>)
  {
    forall id :: id in users ==> users[id].id == id
  }

  /** The row CreateUser inserts for a Clerk user, given its primary email and phone. */
  function UserRow(usr: ClerkUser, email: string, phone: Option<string>): (u: User)
    ensures u.id == usr.id && u.email == email && u.phone == phone
    ensures u.firstName == usr.firstName && u.lastName == usr.lastName && u.username == usr.username
  {
    User(usr.id, email, usr.username, usr.firstName, usr.lastName, phone)
  }

  /**
   * `INSERT INTO users`: fails on a store fault or when the ID is taken,
   * otherwise adds the row under its ID.
   */
  function CreateUser(users: map<string, User>, row: User, fault: bool): (r: Result<map<string, User>, DbError>)
    ensures r.Ok? <==> !fault && row.id !in users
    ensures r.Ok? ==> r.value == users[row.id := row]
    ensures r == Err(UniqueViolation) <==> !fault && row.id in users
  {
    if fault then Err(OtherDbError)
    else if row.id in users then Err(UniqueViolation)
    else Ok(users[row.id := row])
  }

  /**
   * syncUser: get-or-create of the local user for a Clerk user.
   * `lookupFault` and `createFault` stand for failures of the store other
   * than "no rows".
   */
  function Sync(users: map<string, User>, usr: ClerkUser, lookupFault: bool, createFault: bool): (out: SyncOutcome)
    // an existing user is returned as stored, and the table is left alone
    ensures !lookupFault && usr.id in users ==> out == SyncOutcome(Ok(users[usr.id]), users)
    // a lookup error other than no-rows is passed on and nothing is inserted
    ensures lookupFault ==> out == SyncOutcome(Err(LookupFailed), users)
    // a new user needs a primary email
    ensures !lookupFault && usr.id !in users && PrimaryContact(usr.emailAddresses, usr.primaryEmailAddressId).None?
      ==> out == SyncOutcome(Err(EmailNotFound), users)
    // a new user is exactly the Clerk user's fields with its primary email and phone
    ensures out.result.Ok? && usr.id !in users ==>
      && PrimaryContact(usr.emailAddresses, usr.primaryEmailAddressId).Some?
      && out.result.value == UserRow(usr, PrimaryContact(usr.emailAddresses, usr.primaryEmailAddressId).value,
                                     PrimaryContact(usr.phoneNumbers, usr.primaryPhoneNumberId))
      && out.users == users[usr.id := out.result.value]
    ensures !lookupFault && !createFault && usr.id !in users && PrimaryContact(usr.emailAddresses, usr.primaryEmailAddressId).Some?
      ==> out.result.Ok?
    // a failed insert is passed on as an error
    ensures !lookupFault && usr.id !in users && PrimaryContact(usr.emailAddresses, usr.primaryEmailAddressId).Some? && createFault
      ==> out == SyncOutcome(Err(CreateFailed), users)
    // failures change nothing; success leaves the user in the table
    ensures out.result.Err? ==> out.users == users
    ensures out.result.Ok? ==> usr.id in out.users && out.users[usr.id] == out.result.value
    // no other row is added, changed or removed
    ensures forall id :: id in users ==> id in out.users && out.users[id] == users[id]
    ensures out.users.Keys <= users.Keys + {usr.id}
    ensures UsersValid(users) ==> UsersValid(out.users)
    ensures UsersValid(users) && out.result.Ok? ==> out.result.value.id == usr.id
  {
    match GetByKey(users, usr.id, lookupFault)
    case Found(u) => SyncOutcome(Ok(u), users)
    case OtherError => SyncOutcome(Err(LookupFailed), users)
    case NoRows =>
      var email := PrimaryContact(usr.emailAddresses, usr.primaryEmailAddressId);
      if email.None? then SyncOutcome(Err(EmailNotFound), users)
      else
        var row := UserRow(usr, email.value, PrimaryContact(usr.phoneNumbers, usr.primaryPhoneNumberId));
        match CreateUser(users, row, createFault)
        case Ok(users') => SyncOutcome(Ok(row), users')
        case Err(_) => SyncOutcome(Err(CreateFailed), users)
  }

  /**
   * A second syncUser for the same Clerk user, after a first one succeeded,
   * returns the same record and changes nothing, whatever the Clerk user's
   * contacts have become.
   */
  lemma SyncIdempotent(users: map<string, User>, usr: ClerkUser, again: ClerkUser, createFault: bool, createFault': bool)
    requires Sync(users, usr, false, createFault).result.Ok?
    requires again.id == usr.id
    ensures var first := Sync(users, usr, false, createFault);
      Sync(first.users, again, false, createFault') == first
  {
  }

  /** The users table, updated in place by syncUser. */
  class UserTable {
    var users: map<string, User>

    ghost predicate Valid()
      reads this
    {
      UsersValid(users)
    }

    constructor ()
      ensures Valid() && users == map[]
    {
      users := map[];
    }

    /** syncUser (auth/auth.go): returns the user and updates the table as Sync says. */
    method SyncUser(usr: ClerkUser, lookupFault: bool, createFault: bool) returns (r: Result<User, SyncError>)
      requires Valid()
      modifies this
      ensures Valid()
      ensures SyncOutcome(r, users) == Sync(old(users), usr, lookupFault, createFault)
    {
      var lookup := GetByKey(users, usr.id, lookupFault);
      if lookup.Found? {
        return Ok(lookup.row);
      }
      if lookup.NoRows? {
        var phone := GetPrimaryPhone(usr);
        var email := GetPrimaryEmail(usr);
        if email.None? {
          return Err(EmailNotFound);
        }
        var row := UserRow(usr, email.value, phone);
        var created := CreateUser(users, row, createFault);
        if created.Err? {
          return Err(CreateFailed);
        }
        users := created.value;
        return Ok(row);
      }
      return Err(LookupFailed);
    }
  }

  // ---------------------------------------------------------------------
  // Request context
  // ---------------------------------------------------------------------

  /** A value bound in the request context, by its dynamic type. */
  datatype CtxValue = ClerkUserValue(clerkUser: ClerkUser) | DbUserValue(dbUser: User) | OtherValue

  /** Why a context lookup failed: the key is absent, or holds a value of another type. */
  datatype ContextError = NotInContext | WrongType

  const UserKey: string := "user"
  const DbUserKey: string := "dbUser"

  /** GetClerkUserFromRequest: the Clerk user bound under "user". */
  function GetClerkUserFromRequest(values: map<string, CtxValue>): (r: Result<ClerkUser, ContextError>)
    ensures r == Err(NotInContext) <==> UserKey !in values
    ensures r == Err(WrongType) <==> UserKey in values && !values[UserKey].ClerkUserValue?
    ensures r.Ok? ==> values[UserKey] == ClerkUserValue(r.value)
  {
    if UserKey !in values then Err(NotInContext)
    else match values[UserKey]
      case ClerkUserValue(u) => Ok(u)
      case _ => Err(WrongType)
  }

  /** GetDBUserFromRequest: the local user bound under "dbUser". */
  function GetDBUserFromRequest(values: map<string, CtxValue>): (r: Result<User, ContextError>)
    ensures r == Err(NotInContext) <==> DbUserKey !in values
    ensures r == Err(WrongType) <==> DbUserKey in values && !values[DbUserKey].DbUserValue?
    ensures r.Ok? ==> values[DbUserKey] == DbUserValue(r.value)
  {
    if DbUserKey !in values then Err(NotInContext)
    else match values[DbUserKey]
      case DbUserValue(u) => Ok(u)
      case _ => Err(WrongType)
  }

  /** What is bound is what is read back, and binding one key does not disturb the other. */
  lemma ContextRoundTrip(values: map<string, CtxValue>, usr: ClerkUser, u: User)
    ensures GetClerkUserFromRequest(values[UserKey := ClerkUserValue(usr)]) == Ok(usr)
    ensures GetDBUserFromRequest(values[DbUserKey := DbUserValue(u)]) == Ok(u)
    ensures GetDBUserFromRequest(values[UserKey := ClerkUserValue(usr)]) == GetDBUserFromRequest(values)
    ensures GetClerkUserFromRequest(values[DbUserKey := DbUserValue(u)]) == GetClerkUserFromRequest(values)
  {
    assert UserKey != DbUserKey by { assert UserKey[0] != DbUserKey[0]; }
  }

  /** The key-value store of one request (gin.Context's Set and Get). */
  class RequestContext {
    var values: map<string, CtxValue>

    constructor ()
      ensures values == map[]
    {
      values := map[];
    }

    /** c.Set: binds a key, replacing what was there. */
    method Set(key: string, v: CtxValue)
      modifies this
      ensures values == old(values)[key := v]
    {
      values := values[key := v];
    }
  }

  // ---------------------------------------------------------------------
  // AuthMiddleware
  // ---------------------------------------------------------------------

  /** Whether the middleware aborted the request with a status, or passed it on. */
  datatype AuthOutcome = Abort(status: int) | Next

  /**
   * AuthMiddleware. `verify` is jwt.Verify (token to subject), `fetchUser`
   * is user.Get (subject to Clerk user); the fault flags are passed to
   * syncUser's two store calls.
   */
  method AuthMiddleware(header: string, verify: string -> Option<string>, fetchUser: string -> ClerkUser,
                        table: UserTable, ctx: RequestContext, lookupFault: bool, createFault: bool)
    returns (r: AuthOutcome)
    requires table.Valid()
    modifies table, ctx
    ensures table.Valid()
    ensures ClassifyHeader(header) == MissingHeader ==> r == Abort(StatusUnauthorized)
    ensures ClassifyHeader(header) == MalformedHeader ==> r == Abort(StatusNotAcceptable)
    ensures ClassifyHeader(header).BearerToken? && Subject(header, verify).None? ==> r == Abort(StatusUnauthorized)
    // before a subject is known nothing is touched
    ensures Subject(header, verify).None? ==> table.users == old(table.users) && ctx.values == old(ctx.values)
    // with a subject, "user" is bound, syncUser runs, and "dbUser" is bound only if it succeeded
    ensures Subject(header, verify).Some? ==>
      var usr := fetchUser(Subject(header, verify).value);
      var synced := Sync(old(table.users), usr, lookupFault, createFault);
      && table.users == synced.users
      && (synced.result.Ok? ==>
            r == Next &&
            ctx.values == old(ctx.values)[UserKey := ClerkUserValue(usr)][DbUserKey := DbUserValue(synced.result.value)])
      && (synced.result.Err? ==>
            r == Abort(StatusInternalServerError) &&
            ctx.values == old(ctx.values)[UserKey := ClerkUserValue(usr)])
    // a request that goes on carries both users, and the local one is the stored row for the Clerk ID
    ensures r == Next ==>
      && GetClerkUserFromRequest(ctx.values).Ok?
      && GetDBUserFromRequest(ctx.values).Ok?
      && var u := GetDBUserFromRequest(ctx.values).value;
         u.id == GetClerkUserFromRequest(ctx.values).value.id && u.id in table.users && table.users[u.id] == u
  {
    if header == "" {
      return Abort(StatusUnauthorized);
    }
    var parts := Split(header, ' ');
    if parts[0] != "Bearer" || |parts| != 2 {
      return Abort(StatusNotAcceptable);
    }
    var claims := verify(parts[1]);
    if claims.None? {
      return Abort(StatusUnauthorized);
    }
    var usr := fetchUser(claims.value);
    ctx.Set(UserKey, ClerkUserValue(usr));
    var dbUser := table.SyncUser(usr, lookupFault, createFault);
    if dbUser.Err? {
      return Abort(StatusInternalServerError);
    }
    ctx.Set(DbUserKey, DbUserValue(dbUser.value));
    ContextRoundTrip(old(ctx.values)[UserKey := ClerkUserValue(usr)], usr, dbUser.value);
    return Next;
  }
}
