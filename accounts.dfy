/**
 * User accounts: sign-in with a Google ID token in the three backends (find or create, then the
 * field synchronisation of the two Spring versions), and the Express e-mail registration, login
 * and profile. The Google verifier, password hashing and comparison are parameters; token signing
 * is not modelled.
 */
module Accounts {
  import opened Common
  import opened Domain

  /** A row of the Users table; e-mail addresses are unique. */
  datatype User = User(
    id: int,
    fullName: Option<string>,
    email: string,
    passwordHash: Option<string>,
    role: Role,
    googleId: Option<string>,
    createdAt: Time)

  /** What the answers show of a user: never the password hash. */
  datatype SafeUser = SafeUser(id: int, fullName: Option<string>, email: string, role: Role)

  function Safe(u: User): (s: SafeUser)
    ensures s.id == u.id && s.email == u.email && s.role == u.role && s.fullName == u.fullName
  {
    SafeUser(u.id, u.fullName, u.email, u.role)
  }

  /** The verified content of a Google ID token: subject, e-mail and optional display name. */
  datatype GoogleProfile = GoogleProfile(subject: string, email: string, name: Option<string>)

  /** The verifier's answer: the profile, a refusal (null token), or a failure with its message. */
  datatype Verification = Verified(profile: GoogleProfile) | Rejected | Failed(message: string)

  type GoogleVerifier = Option<string> -> Verification

  function RoleName(r: Role): string
  {
    match r
    case Teacher => "TEACHER"
    case Student => "STUDENT"
  }

  /** The role whitelist of the Express backend: exactly "TEACHER" and "STUDENT". */
  function ParseRole(s: string): (r: Option<Role>)
    ensures r.Some? <==> s == "TEACHER" || s == "STUDENT"
    ensures r.Some? ==> RoleName(r.value) == s
  {
    if s == "TEACHER" then Some(Teacher) else if s == "STUDENT" then Some(Student) else None
  }

  lemma RoleNameRoundTrip(r: Role)
    ensures ParseRole(RoleName(r)) == Some(r)
  {
  }

  // -----------------------------------------------------------------------
  // Lookups
  // -----------------------------------------------------------------------

  predicate UniqueEmails(rows: seq<User>)
  {
    forall i, j :: 0 <= i < j < |rows| ==> rows[i].email != rows[j].email
  }

  predicate DistinctUserIds(rows: seq<User>)
  {
    forall i, j :: 0 <= i < j < |rows| ==> rows[i].id != rows[j].id
  }

  function FindByEmail(rows: seq<User>, email: string): (r: Option<User>)
    ensures r.None? <==> forall u :: u in rows ==> u.email != email
    ensures r.Some? ==> r.value in rows && r.value.email == email
  {
    if rows == [] then None
    else if rows[0].email == email then Some(rows[0])
    else FindByEmail(rows[1..], email)
  }

  function FindByGoogleId(rows: seq<User>, googleId: string): (r: Option<User>)
    ensures r.None? <==> forall u :: u in rows ==> u.googleId != Some(googleId)
    ensures r.Some? ==> r.value in rows && r.value.googleId == Some(googleId)
  {
    if rows == [] then None
    else if rows[0].googleId == Some(googleId) then Some(rows[0])
    else FindByGoogleId(rows[1..], googleId)
  }

  function FindUserById(rows: seq<User>, id: int): (r: Option<User>)
    ensures r.None? <==> forall u :: u in rows ==> u.id != id
    ensures r.Some? ==> r.value in rows && r.value.id == id
  {
    if rows == [] then None
    else if rows[0].id == id then Some(rows[0])
    else FindUserById(rows[1..], id)
  }

  /** In a table of unique e-mails, the lookup of a user's e-mail finds that user. */
  lemma FindByOwnEmail(rows: seq<User>, u: User)
    requires u in rows && UniqueEmails(rows)
    ensures FindByEmail(rows, u.email) == Some(u)
  {
    var found := FindByEmail(rows, u.email).value;
    var i :| 0 <= i < |rows| && rows[i] == found;
    var j :| 0 <= j < |rows| && rows[j] == u;
    assert i == j;
  }

  /** In a table of distinct ids, the lookup of a user's id finds that user. */
  lemma FindByOwnId(rows: seq<User>, u: User)
    requires u in rows && DistinctUserIds(rows)
    ensures FindUserById(rows, u.id) == Some(u)
  {
    var found := FindUserById(rows, u.id).value;
    var i :| 0 <= i < |rows| && rows[i] == found;
    var j :| 0 <= j < |rows| && rows[j] == u;
    assert i == j;
  }

  /** The row with the id of `u` replaced by `u`. */
  function Replaced(rows: seq<User>, u: User): (r: seq<User>)
    ensures |r| == |rows|
    ensures forall i :: 0 <= i < |rows| ==> r[i] == if rows[i].id == u.id then u else rows[i]
  {
    if rows == [] then [] else [if rows[0].id == u.id then u else rows[0]] + Replaced(rows[1..], u)
  }

  /** Replacing a row by one with the same id and e-mail keeps ids distinct and e-mails unique. */
  lemma ReplacedKeepsKeys(rows: seq<User>, u: User, old_u: User)
    requires old_u in rows && old_u.id == u.id && old_u.email == u.email
    requires DistinctUserIds(rows) && UniqueEmails(rows)
    ensures DistinctUserIds(Replaced(rows, u)) && UniqueEmails(Replaced(rows, u))
    ensures forall v :: v in Replaced(rows, u) ==> v in rows || v == u
  {
    var r := Replaced(rows, u);
    forall i | 0 <= i < |rows| ensures r[i].id == rows[i].id && r[i].email == rows[i].email {
      if rows[i].id == u.id {
        var k :| 0 <= k < |rows| && rows[k] == old_u;
        assert k == i;
      }
    }
  }

  // -----------------------------------------------------------------------
  // The Users table
  // -----------------------------------------------------------------------

  class UserTable {
    var rows: seq<User>
    var nextId: int

    ghost predicate Valid()
      reads this
    {
      DistinctUserIds(rows) && UniqueEmails(rows) && forall u :: u in rows ==> u.id < nextId
    }

    constructor ()
      ensures Valid() && rows == [] && nextId == 1
    {
      rows := [];
      nextId := 1;
    }

    /** INSERT of a user; the unique e-mail column refuses a second row with the same address. */
    method Insert(fullName: Option<string>, email: string, passwordHash: Option<string>, role: Role,
                  googleId: Option<string>, now: Time) returns (r: Option<User>)
      requires Valid()
      modifies this
      ensures Valid()
      ensures r.None? <==> FindByEmail(old(rows), email).Some?
      ensures r.None? ==> rows == old(rows) && nextId == old(nextId)
      ensures r.Some? ==>
        r.value == User(old(nextId), fullName, email, passwordHash, role, googleId, now) &&
        rows == old(rows) + [r.value] && nextId == old(nextId) + 1
    {
      if FindByEmail(rows, email).Some? {
        r := None;
      } else {
        var u := User(nextId, fullName, email, passwordHash, role, googleId, now);
        rows := rows + [u];
        nextId := nextId + 1;
        r := Some(u);
      }
    }

    /** `save` of an existing user whose e-mail is unchanged. */
    method Update(u: User)
      requires Valid()
      requires FindUserById(rows, u.id).Some? && FindUserById(rows, u.id).value.email == u.email
      modifies this
      ensures Valid() && nextId == old(nextId)
      ensures rows == Replaced(old(rows), u)
    {
      ReplacedKeepsKeys(rows, u, FindUserById(rows, u.id).value);
      rows := Replaced(rows, u);
    }
  }

  // -----------------------------------------------------------------------
  // Google sign-in, Spring
  // -----------------------------------------------------------------------

  /** The account a Google profile signs into: the one linked to the subject, else the e-mail's. */
  function GoogleAccount(rows: seq<User>, p: GoogleProfile): (r: Option<User>)
    ensures r.Some? ==> r.value in rows
    ensures FindByGoogleId(rows, p.subject).Some? ==> r == FindByGoogleId(rows, p.subject)
    ensures r.None? <==> FindByGoogleId(rows, p.subject).None? && FindByEmail(rows, p.email).None?
  {
    match FindByGoogleId(rows, p.subject)
    case Some(u) => Some(u)
    case None => FindByEmail(rows, p.email)
  }

  /** The account created for a first sign-in: requested role or STUDENT, name or else e-mail. */
  function NewGoogleUser(id: int, p: GoogleProfile, requested: Option<Role>, now: Time): (u: User)
    ensures u.email == p.email && u.googleId == Some(p.subject) && u.passwordHash.None?
    ensures u.fullName.Some?
  {
    User(id, Some(if p.name.Some? then p.name.value else p.email), p.email, None,
         if requested.Some? then requested.value else Student, Some(p.subject), now)
  }

  /**
   * Newer Spring synchronisation of an existing account: the Google id is filled in only when
   * missing; the name is taken over only when the token has one that differs. Nothing else
   * changes, the role least of all; the flag tells whether anything changed.
   */
  function SpringSync(u: User, p: GoogleProfile): (r: (User, bool))
    ensures r.0.id == u.id && r.0.email == u.email && r.0.role == u.role
    ensures r.0.passwordHash == u.passwordHash && r.0.createdAt == u.createdAt
    ensures r.0.googleId == if u.googleId.None? then Some(p.subject) else u.googleId
    ensures r.0.fullName == if p.name.Some? then p.name else u.fullName
    ensures r.1 <==> r.0 != u
  {
    var withId := if u.googleId.None? then u.(googleId := Some(p.subject)) else u;
    var withName := if p.name.Some? && p.name != u.fullName then withId.(fullName := p.name) else withId;
    (withName, u.googleId.None? || (p.name.Some? && p.name != u.fullName))
  }

  /** A second sign-in with the same profile changes nothing: the synchronisation settles. */
  lemma SpringSyncSettles(u: User, p: GoogleProfile)
    ensures SpringSync(SpringSync(u, p).0, p) == (SpringSync(u, p).0, false)
  {
  }

  predicate ClientConfigured(clientId: Option<string>)
  {
    clientId.Some? && !IsBlank(clientId.value)
  }

  /**
   * Newer Spring `loginWithGoogle`: 400 without a configured client id, 400 "Invalid Google
   * token" when the verifier refuses the token, 400 "Google authentication failed" when it
   * fails; otherwise the account of the profile, synchronised and saved only if it changed,
   * or a new account.
   */
  method SpringGoogleLogin(users: UserTable, clientId: Option<string>, idToken: Option<string>,
                           requested: Option<Role>, verify: GoogleVerifier, now: Time)
    returns (r: Result<User>)
    requires users.Valid()
    modifies users
    ensures users.Valid()
    ensures !ClientConfigured(clientId) ==>
      r == Err(ApiError(400, "Missing GOOGLE_CLIENT_ID")) && users.rows == old(users.rows)
    ensures ClientConfigured(clientId) && verify(idToken).Rejected? ==>
      r == Err(ApiError(400, "Invalid Google token")) && users.rows == old(users.rows)
    ensures ClientConfigured(clientId) && verify(idToken).Failed? ==>
      r == Err(ApiError(400, "Google authentication failed")) && users.rows == old(users.rows)
    ensures ClientConfigured(clientId) && verify(idToken).Verified? ==>
      var p := verify(idToken).profile;
      var found := GoogleAccount(old(users.rows), p);
      (found.None? ==>
        r == Ok(NewGoogleUser(old(users.nextId), p, requested, now)) &&
        users.rows == old(users.rows) + [r.value]) &&
      (found.Some? ==>
        r == Ok(SpringSync(found.value, p).0) &&
        users.rows == if SpringSync(found.value, p).1 then Replaced(old(users.rows), r.value) else old(users.rows))
  {
    if !ClientConfigured(clientId) {
      return Err(ApiError(400, "Missing GOOGLE_CLIENT_ID"));
    }
    var v := verify(idToken);
    if v.Rejected? {
      return Err(ApiError(400, "Invalid Google token"));
    } else if v.Failed? {
      return Err(ApiError(400, "Google authentication failed"));
    }
    var p := v.profile;
    var user := GoogleAccount(users.rows, p);
    if user.None? {
      var created := users.Insert(NewGoogleUser(users.nextId, p, requested, now).fullName, p.email, None,
                                  if requested.Some? then requested.value else Student, Some(p.subject), now);
      r := Ok(created.value);
    } else {
      var u := user.value;
      var changed := false;
      if u.googleId.None? {
        u := u.(googleId := Some(p.subject));
        changed := true;
      }
      if p.name.Some? && p.name != u.fullName {
        u := u.(fullName := p.name);
        changed := true;
      }
      assert (u, changed) == SpringSync(user.value, p);
      FindByOwnId(users.rows, user.value);
      if changed {
        users.Update(u);
      }
      r := Ok(u);
    }
  }

  // -----------------------------------------------------------------------
  // Google sign-in, older Spring
  // -----------------------------------------------------------------------

  predicate BlankOrMissing(s: Option<string>)
  {
    s.None? || IsBlank(s.value)
  }

  /**
   * Older Spring synchronisation: a missing or blank Google id is replaced; the name is taken
   * over only when the token's is present, not blank and different.
   */
  function LegacySync(u: User, p: GoogleProfile): (r: (User, bool))
    ensures r.0.id == u.id && r.0.email == u.email && r.0.role == u.role
    ensures r.0.passwordHash == u.passwordHash && r.0.createdAt == u.createdAt
    ensures r.0.googleId == if BlankOrMissing(u.googleId) then Some(p.subject) else u.googleId
    ensures r.0.fullName == if !BlankOrMissing(p.name) then p.name else u.fullName
    ensures r.1 ==> r.0 != u || (u.googleId == Some(p.subject) && IsBlank(p.subject))
    ensures !r.1 ==> r.0 == u
  {
    var idStale := BlankOrMissing(u.googleId);
    var nameNew := !BlankOrMissing(p.name) && p.name != u.fullName;
    var withId := if idStale then u.(googleId := Some(p.subject)) else u;
    var withName := if nameNew then withId.(fullName := p.name) else withId;
    (withName, idStale || nameNew)
  }

  /**
   * The older synchronisation settles too, provided the Google subject is not blank (a blank
   * subject would be written again at every sign-in).
   */
  lemma LegacySyncSettles(u: User, p: GoogleProfile)
    requires !IsBlank(p.subject)
    ensures LegacySync(LegacySync(u, p).0, p) == (LegacySync(u, p).0, false)
  {
  }

  const LegacyFailurePrefix := "Google authentication failed: "

  /**
   * Older Spring `loginWithGoogle`: a missing client id fails before the try block; any failure
   * inside it, the refused token included, is wrapped with "Google authentication failed: ".
   * All of them reach the client as 500 with that message.
   */
  method LegacyGoogleLogin(users: UserTable, clientId: Option<string>, idToken: Option<string>,
                           requested: Option<Role>, verify: GoogleVerifier, now: Time)
    returns (r: Result<User>)
    requires users.Valid()
    modifies users
    ensures users.Valid()
    ensures !ClientConfigured(clientId) ==>
      r == Err(ApiError(500, "Missing GOOGLE_CLIENT_ID (app.google.client-id)")) && users.rows == old(users.rows)
    ensures ClientConfigured(clientId) && verify(idToken).Rejected? ==>
      r == Err(ApiError(500, LegacyFailurePrefix + "Invalid Google token")) && users.rows == old(users.rows)
    ensures ClientConfigured(clientId) && verify(idToken).Failed? ==>
      r == Err(ApiError(500, LegacyFailurePrefix + verify(idToken).message)) && users.rows == old(users.rows)
    ensures r.Err? ==> StartsWith(r.error.message, "Missing GOOGLE_CLIENT_ID") || StartsWith(r.error.message, LegacyFailurePrefix)
    ensures ClientConfigured(clientId) && verify(idToken).Verified? ==>
      var p := verify(idToken).profile;
      var found := GoogleAccount(old(users.rows), p);
      (found.None? ==>
        r == Ok(NewGoogleUser(old(users.nextId), p, requested, now)) &&
        users.rows == old(users.rows) + [r.value]) &&
      (found.Some? ==>
        r == Ok(LegacySync(found.value, p).0) &&
        users.rows == if LegacySync(found.value, p).1 then Replaced(old(users.rows), r.value) else old(users.rows))
  {
    if !ClientConfigured(clientId) {
      r := Err(ApiError(500, "Missing GOOGLE_CLIENT_ID (app.google.client-id)"));
      assert r.error.message[..|"Missing GOOGLE_CLIENT_ID"|] == "Missing GOOGLE_CLIENT_ID";
      return;
    }
    var v := verify(idToken);
    if !v.Verified? {
      var m := if v.Rejected? then "Invalid Google token" else v.message;
      r := Err(ApiError(500, LegacyFailurePrefix + m));
      StartsWithConcat(LegacyFailurePrefix, m);
      return;
    }
    var p := v.profile;
    var user := GoogleAccount(users.rows, p);
    if user.None? {
      var created := users.Insert(NewGoogleUser(users.nextId, p, requested, now).fullName, p.email, None,
                                  if requested.Some? then requested.value else Student, Some(p.subject), now);
      r := Ok(created.value);
    } else {
      var u := user.value;
      var changed := false;
      if BlankOrMissing(u.googleId) {
        u := u.(googleId := Some(p.subject));
        changed := true;
      }
      if !BlankOrMissing(p.name) && p.name != u.fullName {
        u := u.(fullName := p.name);
        changed := true;
      }
      assert (u, changed) == LegacySync(user.value, p);
      FindByOwnId(users.rows, user.value);
      if changed {
        users.Update(u);
      }
      r := Ok(u);
    }
  }

  // -----------------------------------------------------------------------
  // Express accounts
  // -----------------------------------------------------------------------

  /** A falsy request field: missing or empty. */
  predicate Falsy(s: Option<string>)
  {
    s.None? || s.value == ""
  }

  /** What the Google login's own catch-all answers for any unexpected error. */
  const GoogleLoginError := ApiError(500, "Internal Google login error")

  /**
   * Express `loginWithGoogle`: 400 without an id token, 500 without a configured client id, 400
   * when verification fails; an account linked to the subject is answered as it is, whatever role
   * was asked for; otherwise an account is created with the whitelisted role or STUDENT and no
   * password, and an e-mail already taken makes that insert fail into the handler's catch-all
   * 500. Only id, name, e-mail and role are answered.
   */
  method NodeGoogleLogin(users: UserTable, clientConfigured: bool, idToken: Option<string>,
                         role: Option<string>, verify: GoogleVerifier, now: Time) returns (r: Result<SafeUser>)
    requires users.Valid()
    modifies users
    ensures users.Valid()
    ensures Falsy(idToken) ==> r == Err(ApiError(400, "Missing idToken")) && users.rows == old(users.rows)
    ensures !Falsy(idToken) && !clientConfigured ==>
      r == Err(ApiError(500, "Server chưa cấu hình GOOGLE_CLIENT_ID")) && users.rows == old(users.rows)
    ensures !Falsy(idToken) && clientConfigured && !verify(idToken).Verified? ==>
      r == Err(ApiError(400, "Invalid Google token")) && users.rows == old(users.rows)
    ensures !Falsy(idToken) && clientConfigured && verify(idToken).Verified? ==>
      var p := verify(idToken).profile;
      var linked := FindByGoogleId(old(users.rows), p.subject);
      var createRole := if role.Some? && ParseRole(role.value).Some? then ParseRole(role.value).value else Student;
      (linked.Some? ==> r == Ok(Safe(linked.value)) && users.rows == old(users.rows)) &&
      (linked.None? && FindByEmail(old(users.rows), p.email).Some? ==>
        r == Err(GoogleLoginError) && users.rows == old(users.rows)) &&
      (linked.None? && FindByEmail(old(users.rows), p.email).None? ==>
        var u := User(old(users.nextId), p.name, p.email, None, createRole, Some(p.subject), now);
        r == Ok(Safe(u)) && users.rows == old(users.rows) + [u])
  {
    if Falsy(idToken) {
      return Err(ApiError(400, "Missing idToken"));
    }
    if !clientConfigured {
      return Err(ApiError(500, "Server chưa cấu hình GOOGLE_CLIENT_ID"));
    }
    var v := verify(idToken);
    if !v.Verified? {
      return Err(ApiError(400, "Invalid Google token"));
    }
    var p := v.profile;
    var user := FindByGoogleId(users.rows, p.subject);
    if user.Some? {
      return Ok(Safe(user.value));
    }
    var createRole := if role.Some? && ParseRole(role.value).Some? then ParseRole(role.value).value else Student;
    var created := users.Insert(p.name, p.email, None, createRole, Some(p.subject), now);
    if created.None? {
      return Err(GoogleLoginError);
    }
    r := Ok(Safe(created.value));
  }

  /**
   * Express `register`: 400 for a missing field, for a role outside the whitelist and for an
   * e-mail already registered (nothing inserted); otherwise the new row, which stores the hash of
   * the password and no Google id.
   */
  method NodeRegister(users: UserTable, fullName: Option<string>, email: Option<string>,
                      password: Option<string>, role: Option<string>, hash: string -> string, now: Time)
    returns (r: Result<User>)
    requires users.Valid()
    modifies users
    ensures users.Valid()
    ensures r.Err? ==> users.rows == old(users.rows)
    ensures (Falsy(fullName) || Falsy(email) || Falsy(password) || Falsy(role)) ==>
      r == Err(ApiError(400, "Missing fields"))
    ensures !(Falsy(fullName) || Falsy(email) || Falsy(password) || Falsy(role)) ==>
      (ParseRole(role.value).None? ==> r == Err(ApiError(400, "Invalid role"))) &&
      (ParseRole(role.value).Some? && FindByEmail(old(users.rows), email.value).Some? ==>
        r == Err(ApiError(400, "Email already registered"))) &&
      (ParseRole(role.value).Some? && FindByEmail(old(users.rows), email.value).None? ==>
        r.Ok? && users.rows == old(users.rows) + [r.value] &&
        r.value == User(old(users.nextId), fullName, email.value, Some(hash(password.value)),
                        ParseRole(role.value).value, None, now))
  {
    if Falsy(fullName) || Falsy(email) || Falsy(password) || Falsy(role) {
      return Err(ApiError(400, "Missing fields"));
    }
    var parsed := ParseRole(role.value);
    if parsed.None? {
      return Err(ApiError(400, "Invalid role"));
    }
    if FindByEmail(users.rows, email.value).Some? {
      return Err(ApiError(400, "Email already registered"));
    }
    var created := users.Insert(fullName, email.value, Some(hash(password.value)), parsed.value, None, now);
    r := Ok(created.value);
  }

  /**
   * Express `login`: 400 without e-mail or password; an unknown e-mail and a wrong password get
   * the same 400 "Invalid email or password"; an account without a password hash (created by
   * Google sign-in) makes the comparison throw.
   */
  function NodeLogin(users: UserTable, email: Option<string>, password: Option<string>,
                     compare: (string, string) -> bool): (r: Result<SafeUser>)
    reads users
    ensures Falsy(email) || Falsy(password) ==> r == Err(ApiError(400, "Missing email or password"))
    ensures !Falsy(email) && !Falsy(password) ==>
      var found := FindByEmail(users.rows, email.value);
      (found.None? ==> r == Err(ApiError(400, "Invalid email or password"))) &&
      (found.Some? && found.value.passwordHash.None? ==> r == Err(ServerError)) &&
      (found.Some? && found.value.passwordHash.Some? ==>
        (r.Ok? <==> compare(password.value, found.value.passwordHash.value)) &&
        (r.Ok? ==> r.value == Safe(found.value)) &&
        (r.Err? ==> r == Err(ApiError(400, "Invalid email or password"))))
  {
    if Falsy(email) || Falsy(password) then Err(ApiError(400, "Missing email or password"))
    else match FindByEmail(users.rows, email.value)
      case None => Err(ApiError(400, "Invalid email or password"))
      case Some(u) =>
        if u.passwordHash.None? then Err(ServerError)
        else if !compare(password.value, u.passwordHash.value) then Err(ApiError(400, "Invalid email or password"))
        else Ok(Safe(u))
  }

  /**
   * An account registered with a password logs in with it, given that the comparison accepts a
   * password against its own hash.
   */
  lemma RegisteredUserLogsIn(users: UserTable, u: User, password: string, hash: string -> string,
                             compare: (string, string) -> bool)
    requires users.Valid() && u in users.rows
    requires u.email != "" && password != ""
    requires u.passwordHash == Some(hash(password)) && compare(password, hash(password))
    ensures NodeLogin(users, Some(u.email), Some(password), compare) == Ok(Safe(u))
  {
    FindByOwnEmail(users.rows, u);
  }

  /** Express `me`: 404 when the row of the authenticated id is gone, otherwise the safe fields. */
  function NodeMe(users: UserTable, userId: int): (r: Result<SafeUser>)
    reads users
    ensures FindUserById(users.rows, userId).None? <==> r == Err(ApiError(404, "User not found"))
    ensures r.Ok? ==> r.value.id == userId && exists u :: u in users.rows && r.value == Safe(u)
  {
    match FindUserById(users.rows, userId)
    case None => Err(ApiError(404, "User not found"))
    case Some(u) => Ok(Safe(u))
  }
}
