/** The authentication endpoints: the bearer-token extraction, the request
    checks made before the service is called, and the status code each
    outcome is answered with. The request maps and headers arrive as
    optional strings (a missing key or header is None). */
module AuthEndpoints {
  import opened JavaLang
  import opened Users
  import opened Sessions
  import opened Auth

  /** Response status codes. */
  const OK: int := 200
  const BAD_REQUEST: int := 400
  const UNAUTHORIZED: int := 401
  const NOT_FOUND: int := 404
  const SERVER_ERROR: int := 500

  const EMAIL_REQUIRED: string := "Email gerekli"
  const PASSWORD_TOO_SHORT: string := "\U{015E}ifre en az 6 karakter olmal\U{0131}"
  const KEY_REQUIRED: string := "Email veya kullan\U{0131}c\U{0131} ID gerekli"
  const PASSWORD_REQUIRED: string := "\U{015E}ifre gerekli"
  const TOKEN_REQUIRED: string := "Token gerekli"
  const INVALID_TOKEN: string := "Ge\U{00E7}ersiz token"
  const INVALID_OR_EXPIRED: string := "Ge\U{00E7}ersiz veya s\U{00FC}resi dolmu\U{015F} token"
  const LOGIN_REQUIRED: string := "Giri\U{015F} yapman\U{0131}z gerekiyor"
  const NEW_PASSWORD_TOO_SHORT: string := "Yeni \U{015F}ifre en az 6 karakter olmal\U{0131}"

  /** The shortest password the endpoints accept, in String.length() units. */
  const MIN_PASSWORD: int := 6

  const BEARER: string := "Bearer "

  // ---------------------------------------------------------------------------
  // Tokens

  /** extractToken: a header with the "Bearer " scheme gives what follows it;
      any other header, missing or not, is taken as the token itself. */
  function ExtractToken(authHeader: Option<string>): (r: Option<string>)
    ensures r.None? <==> authHeader.None?
    ensures r.Some? ==> (StartsWith(authHeader.value, BEARER) <==> authHeader.value == BEARER + r.value)
    ensures r.Some? && !StartsWith(authHeader.value, BEARER) ==> r.value == authHeader.value
  {
    if authHeader.Some? && StartsWith(authHeader.value, BEARER) then Some(authHeader.value[|BEARER|..])
    else authHeader
  }

  /** A token sent with the scheme comes back as it was, an empty one included. */
  lemma ExtractBearer(token: string)
    ensures ExtractToken(Some(BEARER + token)) == Some(token)
  {
    assert (BEARER + token)[..|BEARER|] == BEARER;
    assert (BEARER + token)[|BEARER|..] == token;
  }

  /** A token sent without the scheme is accepted as it is, so both spellings
      of a header reach the same session. */
  lemma ExtractBare(token: string)
    requires !StartsWith(token, BEARER)
    ensures ExtractToken(Some(token)) == Some(token) == ExtractToken(Some(BEARER + token))
  {
    ExtractBearer(token);
  }

  /** Only one scheme prefix is removed: "Bearer Bearer t" gives "Bearer t". */
  lemma ExtractOnce(token: string)
    ensures ExtractToken(Some(BEARER + BEARER + token)) == Some(BEARER + token)
  {
    assert BEARER + BEARER + token == BEARER + (BEARER + token);
    ExtractBearer(BEARER + token);
  }

  // ---------------------------------------------------------------------------
  // Request checks

  /** String.length(): UTF-16 code units, two for a character outside the
      Basic Multilingual Plane. */
  function Utf16Length(s: string): (n: nat)
    ensures |s| <= n <= 2 * |s|
    decreases |s|
  {
    if s == [] then 0 else (if s[0] as int > 0xFFFF then 2 else 1) + Utf16Length(s[1..])
  }

  /** length() is the length of the UTF-16 encoding compareTo works on. */
  lemma {:induction false} Utf16LengthIsUnits(s: string)
    ensures Utf16Length(s) == |Utf16(s)|
    decreases |s|
  {
    if s != [] {
      Utf16LengthIsUnits(s[1..]);
    }
  }

  /** Within the Basic Multilingual Plane length() counts characters. */
  lemma {:induction false} Utf16LengthBmp(s: string)
    requires forall i :: 0 <= i < |s| ==> s[i] as int <= 0xFFFF
    ensures Utf16Length(s) == |s|
    decreases |s|
  {
    if s != [] {
      Utf16LengthBmp(s[1..]);
    }
  }

  /** Three characters outside the Basic Multilingual Plane already make a
      long enough password. */
  lemma SupplementaryPasswordLongEnough(s: string)
    requires s == "\U{1F600}\U{1F600}\U{1F600}"
    ensures |s| == 3 && Utf16Length(s) == MIN_PASSWORD
  {
    assert s[0] as int > 0xFFFF && s[1] as int > 0xFFFF && s[2] as int > 0xFFFF;
    assert Utf16Length(s[2..]) == 2 by { assert s[2..][1..] == []; }
    assert s[1..][1..] == s[2..];
    assert Utf16Length(s[1..]) == 4;
  }

  /** The `x == null || x.isBlank()` guard. */
  predicate Missing(x: Option<string>) {
    x.None? || IsBlank(x.value)
  }

  /** The `x == null || x.length() < 6` guard. */
  predicate TooShort(x: Option<string>) {
    x.None? || Utf16Length(x.value) < MIN_PASSWORD
  }

  /** What a check decides: go on to the service, or answer at once. */
  datatype Check = Pass | Refuse(status: int, error: string)

  /** register's checks, in order: the email, the display name, the password. */
  function RegisterCheck(email: Option<string>, displayName: Option<string>, password: Option<string>): (r: Check)
    ensures r.Refuse? ==> r.status == BAD_REQUEST
    ensures r == Refuse(BAD_REQUEST, EMAIL_REQUIRED) <==> Missing(email)
    ensures r == Refuse(BAD_REQUEST, NAME_REQUIRED) <==> !Missing(email) && Missing(displayName)
    ensures r == Refuse(BAD_REQUEST, PASSWORD_TOO_SHORT) <==>
      !Missing(email) && !Missing(displayName) && TooShort(password)
    ensures r.Pass? <==> !Missing(email) && !Missing(displayName) && !TooShort(password)
  {
    if Missing(email) then Refuse(BAD_REQUEST, EMAIL_REQUIRED)
    else if Missing(displayName) then Refuse(BAD_REQUEST, NAME_REQUIRED)
    else if TooShort(password) then Refuse(BAD_REQUEST, PASSWORD_TOO_SHORT)
    else Pass
  }

  /** login's checks, in order: the email or tag, then the password. */
  function LoginCheck(emailOrTag: Option<string>, password: Option<string>): (r: Check)
    ensures r.Refuse? ==> r.status == BAD_REQUEST
    ensures r == Refuse(BAD_REQUEST, KEY_REQUIRED) <==> Missing(emailOrTag)
    ensures r == Refuse(BAD_REQUEST, PASSWORD_REQUIRED) <==> !Missing(emailOrTag) && Missing(password)
    ensures r.Pass? <==> !Missing(emailOrTag) && !Missing(password)
  {
    if Missing(emailOrTag) then Refuse(BAD_REQUEST, KEY_REQUIRED)
    else if Missing(password) then Refuse(BAD_REQUEST, PASSWORD_REQUIRED)
    else Pass
  }

  /** A register request that passes the checks hands the service a present
      email, name and password, the password at least six units long and
      hence not blank. */
  lemma RegisterPassInputs(email: Option<string>, displayName: Option<string>, password: Option<string>)
    requires RegisterCheck(email, displayName, password).Pass?
    ensures email.Some? && displayName.Some? && password.Some?
    ensures email.value != [] && displayName.value != [] && |password.value| >= 3
  {
    assert !IsBlank(email.value);
    assert !IsBlank(displayName.value);
    assert 2 * |password.value| >= Utf16Length(password.value);
  }

  /** The endpoint's isBlank and the service's trim disagree both ways: a
      control character passes the endpoint and is refused by the service ... */
  lemma ControlCharacterNameReachesService(name: string)
    requires name == "\U{0001}"
    ensures !Missing(Some(name)) && RequiredText(Some(name)).None?
  {
    assert !JavaWhitespace(name[0]);
    TrimEmptyIff(name);
  }

  /** ... and an em quad is refused by the endpoint though the service would
      store it. */
  lemma EmQuadNameRefused(name: string)
    requires name == "\U{2001}"
    ensures Missing(Some(name)) && RequiredText(Some(name)) == Some(name)
  {
    assert JavaWhitespace(name[0]);
    TrimEmptyIff(name);
    assert !TrimSpace(name[0]);
    TrimmedFixed(name);
  }

  // ---------------------------------------------------------------------------
  // The endpoints

  /** A response body: an error message, a service answer passed on, or one
      of the bodies the endpoints build themselves. */
  datatype Body =
    | Error(error: string)
    | Answer(answer: AuthAnswer)
    | LoggedOut
    | Profile(user: User)
    | Updated(user: User)
    | Password(change: PasswordAnswer)
    | Validity(valid: bool)
    | ServerError

  datatype Reply = Reply(status: int, body: Body)

  /** POST /api/auth/register: the checks answer 400 before the service sees
      the request; a refused registration is a 400 too. */
  method Register(svc: AuthService, email: Option<string>, displayName: Option<string>, password: Option<string>,
                  deviceInfo: Option<string>, draw: (nat, int) -> int, ghost free: nat,
                  sessionToken: string, refreshToken: string, now: int)
    returns (reply: Reply)
    requires RegisterCheck(email, displayName, password).Pass? ==> svc.FreeAttempt(draw, free)
    modifies svc`users, svc`sessions
    ensures var c := RegisterCheck(email, displayName, password);
      c.Refuse? ==> reply == Reply(c.status, Error(c.error)) && svc.users == old(svc.users) && svc.sessions == old(svc.sessions)
    ensures RegisterCheck(email, displayName, password).Pass? ==>
      reply.body.Answer? && (reply.status == OK <==> reply.body.answer.Success?)
      && (reply.status == OK || reply.status == BAD_REQUEST)
    ensures RegisterCheck(email, displayName, password).Pass? && ExistsByEmail(old(svc.users), email.value) ==>
      reply == Reply(BAD_REQUEST, Answer(Failure(EMAIL_TAKEN)))
    ensures (RegisterCheck(email, displayName, password).Pass? && !ExistsByEmail(old(svc.users), email.value)
             && RequiredText(displayName).None?) ==> reply == Reply(BAD_REQUEST, Answer(Failure(NAME_REQUIRED)))
    ensures RegisterCheck(email, displayName, password).Pass? && reply.status != OK ==>
      svc.users == old(svc.users) && svc.sessions == old(svc.sessions)
    ensures RegisterCheck(email, displayName, password).Pass? && reply.status == OK ==>
      var a := reply.body.answer;
      fresh(a.user) && svc.users == old(svc.users) + [a.user]
      && Registered(a.user, email.value, Trim(displayName.value), svc.encode(password.value), now)
      && StartsWith(a.user.userTag, "#") && (var tag := a.user.userTag; !old(ExistsByTag(svc.users, tag)))
      && |svc.sessions| == |old(svc.sessions)| + 1 && svc.sessions == old(svc.sessions) + [svc.sessions[|old(svc.sessions)|]]
      && OpenedSession(svc.sessions[|old(svc.sessions)|], a.user, sessionToken, refreshToken, deviceInfo, now)
      && a.sessionToken == sessionToken && a.expiresAt == now + SESSION_DAYS * MS_PER_DAY
    ensures old(svc.Valid()) ==> svc.Valid()
  {
    var c := RegisterCheck(email, displayName, password);
    if c.Refuse? {
      return Reply(c.status, Error(c.error));
    }
    var a := svc.Register(email.value, displayName, password.value, deviceInfo, draw, free, sessionToken, refreshToken, now);
    reply := Reply(if a.Success? then OK else BAD_REQUEST, Answer(a));
  }

  /** POST /api/auth/login: the checks answer 400; a refused login is a 401. */
  method Login(svc: AuthService, emailOrTag: Option<string>, password: Option<string>, deviceInfo: Option<string>,
               sessionToken: string, refreshToken: string, now: int)
    returns (reply: Reply)
    modifies svc`sessions, svc.users`lastLogin, svc.users`isOnline, svc.users`lastActivityAt
    ensures var c := LoginCheck(emailOrTag, password);
      c.Refuse? ==> reply == Reply(c.status, Error(c.error)) && svc.sessions == old(svc.sessions) && unchanged(svc.users)
    ensures LoginCheck(emailOrTag, password).Pass? ==>
      reply.body.Answer? && (reply.status == OK <==> reply.body.answer.Success?)
      && (reply.status == OK || reply.status == UNAUTHORIZED)
    ensures LoginCheck(emailOrTag, password).Pass? && old(FindLoginKey(svc.users, emailOrTag.value)).None? ==>
      reply == Reply(UNAUTHORIZED, Answer(Failure(USER_NOT_FOUND)))
    ensures LoginCheck(emailOrTag, password).Pass? && old(FindLoginKey(svc.users, emailOrTag.value)).Some? ==>
      var u := svc.users[old(FindLoginKey(svc.users, emailOrTag.value)).value];
      if !svc.matches(password.value, u.passwordHash) then reply == Reply(UNAUTHORIZED, Answer(Failure(WRONG_PASSWORD)))
      else if !u.isActive then reply == Reply(UNAUTHORIZED, Answer(Failure(ACCOUNT_DISABLED)))
      else reply.status == OK && reply.body.answer.user == u
    ensures LoginCheck(emailOrTag, password).Pass? && reply.status != OK ==>
      svc.sessions == old(svc.sessions) && forall k :: 0 <= k < |svc.users| ==> unchanged(svc.users[k])
    ensures LoginCheck(emailOrTag, password).Pass? && reply.status == OK ==>
      var a := reply.body.answer;
      a.user.lastLogin == Some(now) && a.user.isOnline && a.user.lastActivityAt == Some(now)
      && (forall k :: 0 <= k < |svc.users| && svc.users[k] != a.user ==> unchanged(svc.users[k]))
      && |svc.sessions| == |old(svc.sessions)| + 1 && svc.sessions == old(svc.sessions) + [svc.sessions[|old(svc.sessions)|]]
      && OpenedSession(svc.sessions[|old(svc.sessions)|], a.user, sessionToken, refreshToken, deviceInfo, now)
      && a.sessionToken == sessionToken && a.expiresAt == now + SESSION_DAYS * MS_PER_DAY
    ensures old(svc.Valid()) ==> svc.Valid()
  {
    var c := LoginCheck(emailOrTag, password);
    if c.Refuse? {
      return Reply(c.status, Error(c.error));
    }
    var a := svc.Login(emailOrTag.value, password.value, deviceInfo, sessionToken, refreshToken, now);
    reply := Reply(if a.Success? then OK else UNAUTHORIZED, Answer(a));
  }

  /** POST /api/auth/logout: without a header 400; otherwise the service's
      logout, which succeeds whether or not the token names a session. */
  method Logout(svc: AuthService, authHeader: Option<string>, now: int) returns (reply: Reply)
    requires svc.Valid()
    modifies svc.sessions`isActive, svc.sessions`logoutAt, svc.users`lastLogout, svc.users`isOnline
    ensures ExtractToken(authHeader).None? ==>
      reply == Reply(BAD_REQUEST, Error(TOKEN_REQUIRED)) && unchanged(svc.sessions) && unchanged(svc.users)
    ensures ExtractToken(authHeader).Some? ==> reply == Reply(OK, LoggedOut)
    ensures ExtractToken(authHeader).Some? && old(FindToken(svc.sessions, ExtractToken(authHeader).value)).None? ==>
      (forall k :: 0 <= k < |svc.sessions| ==> unchanged(svc.sessions[k]))
      && (forall k :: 0 <= k < |svc.users| ==> unchanged(svc.users[k]))
    ensures ExtractToken(authHeader).Some? && old(FindToken(svc.sessions, ExtractToken(authHeader).value)).Some? ==>
      var s := svc.sessions[old(FindToken(svc.sessions, ExtractToken(authHeader).value)).value];
      !s.isActive && s.logoutAt == Some(now) && s.user.lastLogout == Some(now) && !s.user.isOnline
      && (forall k :: 0 <= k < |svc.sessions| && svc.sessions[k] != s ==> unchanged(svc.sessions[k]))
      && (forall k :: 0 <= k < |svc.users| && svc.users[k] != s.user ==> unchanged(svc.users[k]))
    ensures svc.Valid()
  {
    var token := ExtractToken(authHeader);
    if token.None? {
      return Reply(BAD_REQUEST, Error(TOKEN_REQUIRED));
    }
    svc.Logout(token.value, now);
    reply := Reply(OK, LoggedOut);
  }

  /** buildUserResponse hands nativeLanguage and targetLanguage to Map.entry
      without a null guard, and Map.entry throws on a null value: the /me
      body can be built only when both languages are present. */
  predicate ProfileBuildable(u: User)
    reads u`nativeLanguage, u`targetLanguage
  {
    u.nativeLanguage.Some? && u.targetLanguage.Some?
  }

  /** GET /api/auth/me: 401 without a header or without a live session;
      otherwise the session's user, or a server error when the user's body
      cannot be built (the activity stamps, written before, stay). */
  method GetProfile(svc: AuthService, authHeader: Option<string>, now: int) returns (reply: Reply)
    requires svc.Valid()
    modifies svc.sessions`lastActivityAt, svc.users`lastActivityAt
    ensures ExtractToken(authHeader).None? ==>
      reply == Reply(UNAUTHORIZED, Error(TOKEN_REQUIRED)) && unchanged(svc.sessions) && unchanged(svc.users)
    ensures ExtractToken(authHeader).Some? && old(svc.LiveSession(ExtractToken(authHeader).value, now)).None? ==>
      reply == Reply(UNAUTHORIZED, Error(INVALID_OR_EXPIRED))
      && (forall k :: 0 <= k < |svc.sessions| ==> unchanged(svc.sessions[k]))
      && (forall k :: 0 <= k < |svc.users| ==> unchanged(svc.users[k]))
    ensures ExtractToken(authHeader).Some? && old(svc.LiveSession(ExtractToken(authHeader).value, now)).Some? ==>
      var s := svc.sessions[old(svc.LiveSession(ExtractToken(authHeader).value, now)).value];
      s.lastActivityAt == now && s.user.lastActivityAt == Some(now)
      && (forall k :: 0 <= k < |svc.sessions| && svc.sessions[k] != s ==> unchanged(svc.sessions[k]))
      && (forall k :: 0 <= k < |svc.users| && svc.users[k] != s.user ==> unchanged(svc.users[k]))
    ensures ExtractToken(authHeader).Some? && old(svc.LiveSession(ExtractToken(authHeader).value, now)).Some? ==>
      var u := svc.sessions[old(svc.LiveSession(ExtractToken(authHeader).value, now)).value].user;
      if ProfileBuildable(u) then reply == Reply(OK, Profile(u)) else reply == Reply(SERVER_ERROR, ServerError)
    ensures svc.Valid()
  {
    var token := ExtractToken(authHeader);
    if token.None? {
      return Reply(UNAUTHORIZED, Error(TOKEN_REQUIRED));
    }
    var user := svc.ValidateToken(token.value, now);
    if user.None? {
      return Reply(UNAUTHORIZED, Error(INVALID_OR_EXPIRED));
    }
    reply := if ProfileBuildable(user.value) then Reply(OK, Profile(user.value)) else Reply(SERVER_ERROR, ServerError);
  }

  /** PUT /api/auth/profile with {"nativeLanguage": null}, then GET
      /api/auth/me with the same live session: the update is accepted and
      stores the null, after which the profile can no longer be built, so
      every later /me of that user is a server error. */
  method ClearedLanguageBreaksProfile(svc: AuthService, authHeader: Option<string>, now: int)
    returns (put: Reply, me: Reply)
    requires svc.Valid()
    requires ExtractToken(authHeader).Some? && svc.LiveSession(ExtractToken(authHeader).value, now).Some?
    modifies svc.sessions`lastActivityAt, svc.users`lastActivityAt
    modifies svc.users`displayName, svc.users`bio, svc.users`avatarUrl, svc.users`country,
             svc.users`nativeLanguage, svc.users`targetLanguage, svc.users`proficiencyLevel
    ensures put.status == OK
    ensures me == Reply(SERVER_ERROR, ServerError)
  {
    var token := ExtractToken(authHeader).value;
    ghost var live := svc.LiveSession(token, now).value;
    ghost var u := svc.sessions[live].user;
    put := UpdateProfile(svc, authHeader, map[NATIVE_LANGUAGE_KEY := None], now);
    assert svc.sessions == old(svc.sessions) && svc.users == old(svc.users);
    assert u.nativeLanguage == None;
    assert svc.LiveSession(token, now) == Some(live);
    me := GetProfile(svc, authHeader, now);
  }

  /** GET /api/auth/user/{userTag}: 401 unless the caller holds a live
      session, then 404 when no user has the (normalised) tag. */
  method FindUserByTag(svc: AuthService, userTag: string, authHeader: Option<string>, now: int) returns (reply: Reply)
    requires svc.Valid()
    modifies svc.sessions`lastActivityAt, svc.users`lastActivityAt
    ensures ExtractToken(authHeader).None? ==> unchanged(svc.sessions) && unchanged(svc.users)
    ensures ExtractToken(authHeader).None? || old(svc.LiveSession(ExtractToken(authHeader).value, now)).None? ==>
      reply == Reply(UNAUTHORIZED, Error(LOGIN_REQUIRED))
    ensures ExtractToken(authHeader).Some? && old(svc.LiveSession(ExtractToken(authHeader).value, now)).None? ==>
      (forall k :: 0 <= k < |svc.sessions| ==> unchanged(svc.sessions[k]))
      && (forall k :: 0 <= k < |svc.users| ==> unchanged(svc.users[k]))
    ensures ExtractToken(authHeader).Some? && old(svc.LiveSession(ExtractToken(authHeader).value, now)).Some? ==>
      var s := svc.sessions[old(svc.LiveSession(ExtractToken(authHeader).value, now)).value];
      s.lastActivityAt == now && s.user.lastActivityAt == Some(now)
      && (forall k :: 0 <= k < |svc.sessions| && svc.sessions[k] != s ==> unchanged(svc.sessions[k]))
      && (forall k :: 0 <= k < |svc.users| && svc.users[k] != s.user ==> unchanged(svc.users[k]))
    ensures ExtractToken(authHeader).Some? && old(svc.LiveSession(ExtractToken(authHeader).value, now)).Some? ==>
      reply == match svc.FindUserByTag(userTag)
        case None => Reply(NOT_FOUND, Error(USER_NOT_FOUND))
        case Some(u) => Reply(OK, Profile(u))
    ensures svc.Valid()
  {
    var token := ExtractToken(authHeader);
    if token.None? {
      return Reply(UNAUTHORIZED, Error(LOGIN_REQUIRED));
    }
    var caller := svc.ValidateToken(token.value, now);
    if caller.None? {
      return Reply(UNAUTHORIZED, Error(LOGIN_REQUIRED));
    }
    var found := svc.FindUserByTag(userTag);
    reply := match found
      case None => Reply(NOT_FOUND, Error(USER_NOT_FOUND))
      case Some(u) => Reply(OK, Profile(u));
  }

  /** PUT /api/auth/profile: 401 without a header or a live session; a null
      proficiency level is a server error whose rollback keeps the profile
      (the activity stamp, written before, stays). */
  method UpdateProfile(svc: AuthService, authHeader: Option<string>, updates: map<string, Option<string>>, now: int)
    returns (reply: Reply)
    requires svc.Valid()
    modifies svc.sessions`lastActivityAt, svc.users`lastActivityAt
    modifies svc.users`displayName, svc.users`bio, svc.users`avatarUrl, svc.users`country,
             svc.users`nativeLanguage, svc.users`targetLanguage, svc.users`proficiencyLevel
    ensures ExtractToken(authHeader).None? ==>
      reply == Reply(UNAUTHORIZED, Error(TOKEN_REQUIRED)) && unchanged(svc.sessions) && unchanged(svc.users)
    ensures ExtractToken(authHeader).Some? && old(svc.LiveSession(ExtractToken(authHeader).value, now)).None? ==>
      reply == Reply(UNAUTHORIZED, Error(INVALID_TOKEN))
      && (forall k :: 0 <= k < |svc.sessions| ==> unchanged(svc.sessions[k]))
      && (forall k :: 0 <= k < |svc.users| ==> unchanged(svc.users[k]))
    ensures ExtractToken(authHeader).Some? && old(svc.LiveSession(ExtractToken(authHeader).value, now)).Some? ==>
      var s := svc.sessions[old(svc.LiveSession(ExtractToken(authHeader).value, now)).value];
      var u := s.user;
      s.lastActivityAt == now && u.lastActivityAt == Some(now)
      && (forall k :: 0 <= k < |svc.sessions| && svc.sessions[k] != s ==> unchanged(svc.sessions[k]))
      && (forall k :: 0 <= k < |svc.users| && svc.users[k] != u ==> unchanged(svc.users[k]))
    ensures ExtractToken(authHeader).Some? && old(svc.LiveSession(ExtractToken(authHeader).value, now)).Some? ==>
      var u := svc.sessions[old(svc.LiveSession(ExtractToken(authHeader).value, now)).value].user;
      if PROFICIENCY_LEVEL_KEY in updates && updates[PROFICIENCY_LEVEL_KEY].None?
      then reply == Reply(SERVER_ERROR, ServerError)
               && u.displayName == old(u.displayName) && u.bio == old(u.bio) && u.avatarUrl == old(u.avatarUrl)
               && u.country == old(u.country) && u.nativeLanguage == old(u.nativeLanguage)
               && u.targetLanguage == old(u.targetLanguage) && u.proficiencyLevel == old(u.proficiencyLevel)
      else reply == Reply(OK, Updated(u))
               && u.displayName == UpdatedName(old(u.displayName), updates)
               && u.bio == Replaced(old(u.bio), updates, BIO_KEY)
               && u.avatarUrl == Replaced(old(u.avatarUrl), updates, AVATAR_URL_KEY)
               && u.country == Replaced(old(u.country), updates, COUNTRY_KEY)
               && u.nativeLanguage == Replaced(old(u.nativeLanguage), updates, NATIVE_LANGUAGE_KEY)
               && u.targetLanguage == Replaced(old(u.targetLanguage), updates, TARGET_LANGUAGE_KEY)
               && u.proficiencyLevel == UpdatedLevel(old(u.proficiencyLevel), updates)
    ensures svc.Valid()
  {
    var token := ExtractToken(authHeader);
    if token.None? {
      return Reply(UNAUTHORIZED, Error(TOKEN_REQUIRED));
    }
    ghost var live := svc.LiveSession(token.value, now);
    var user := svc.ValidateToken(token.value, now);
    if user.None? {
      return Reply(UNAUTHORIZED, Error(INVALID_TOKEN));
    }
    assert svc.sessions == old(svc.sessions) && svc.users == old(svc.users);
    assert user.value == svc.sessions[live.value].user;
    var ok := svc.UpdateProfile(user.value, updates);
    assert svc.sessions == old(svc.sessions) && svc.users == old(svc.users);
    reply := if ok then Reply(OK, Updated(user.value)) else Reply(SERVER_ERROR, ServerError);
  }

  /** PUT /api/auth/password: the token is checked (401) before the new
      password's length (400); only then does the service compare the
      current password. A missing current password makes BCrypt throw: 500. */
  method ChangePassword(svc: AuthService, authHeader: Option<string>, currentPassword: Option<string>,
                        newPassword: Option<string>, now: int)
    returns (reply: Reply)
    requires svc.Valid()
    modifies svc.sessions`lastActivityAt, svc.users`lastActivityAt
    modifies svc.users`passwordHash, svc.sessions`isActive, svc.sessions`logoutAt
    ensures ExtractToken(authHeader).None? ==>
      reply == Reply(UNAUTHORIZED, Error(TOKEN_REQUIRED)) && unchanged(svc.sessions) && unchanged(svc.users)
    ensures ExtractToken(authHeader).Some? && old(svc.LiveSession(ExtractToken(authHeader).value, now)).None? ==>
      reply == Reply(UNAUTHORIZED, Error(INVALID_TOKEN))
      && (forall k :: 0 <= k < |svc.sessions| ==> unchanged(svc.sessions[k]))
      && (forall k :: 0 <= k < |svc.users| ==> unchanged(svc.users[k]))
    ensures ExtractToken(authHeader).Some? && old(svc.LiveSession(ExtractToken(authHeader).value, now)).Some? ==>
      var u := svc.sessions[old(svc.LiveSession(ExtractToken(authHeader).value, now)).value].user;
      if TooShort(newPassword) then reply == Reply(BAD_REQUEST, Error(NEW_PASSWORD_TOO_SHORT))
      else if currentPassword.None? then reply == Reply(SERVER_ERROR, ServerError)
      else if !svc.matches(currentPassword.value, old(u.passwordHash)) then
        reply == Reply(BAD_REQUEST, Password(Rejected(WRONG_CURRENT_PASSWORD)))
      else reply == Reply(OK, Password(Changed(PASSWORD_CHANGED)))
    ensures ExtractToken(authHeader).Some? && old(svc.LiveSession(ExtractToken(authHeader).value, now)).Some? ==>
      var s := svc.sessions[old(svc.LiveSession(ExtractToken(authHeader).value, now)).value];
      var u := s.user;
      s.lastActivityAt == now && u.lastActivityAt == Some(now)
      && (forall k :: 0 <= k < |svc.sessions| && svc.sessions[k] != s ==>
            svc.sessions[k].lastActivityAt == old(svc.sessions[k].lastActivityAt))
      && (forall k :: 0 <= k < |svc.users| && svc.users[k] != u ==> unchanged(svc.users[k]))
      && u.passwordHash == (if reply.status == OK then svc.encode(newPassword.value) else old(u.passwordHash))
      && forall k :: 0 <= k < |svc.sessions| ==>
           SessionAfterChange(svc.sessions[k], reply.status == OK, u, now, old(svc.sessions[k].isActive), old(svc.sessions[k].logoutAt))
  {
    var token := ExtractToken(authHeader);
    if token.None? {
      return Reply(UNAUTHORIZED, Error(TOKEN_REQUIRED));
    }
    ghost var live := svc.LiveSession(token.value, now);
    var user := svc.ValidateToken(token.value, now);
    if user.None? {
      return Reply(UNAUTHORIZED, Error(INVALID_TOKEN));
    }
    assert svc.sessions == old(svc.sessions) && svc.users == old(svc.users);
    assert user.value == svc.sessions[live.value].user;
    reply := NewPassword(svc, user.value, currentPassword, newPassword, now);
    assert svc.sessions == old(svc.sessions) && svc.users == old(svc.users);
  }

  /** A session after PUT /api/auth/password, given its state before: as
      invalidateAllUserSessions leaves it when the password changed, as it
      was otherwise. */
  ghost predicate SessionAfterChange(s: UserSession, changed: bool, user: User, now: int, wasActive: bool, loggedOut: Option<int>)
    reads s
  {
    if changed then Closed(s, user, now, wasActive, loggedOut)
    else s.isActive == wasActive && s.logoutAt == loggedOut
  }

  /** PUT /api/auth/password once the token names a live session: the new
      password's length is checked, then the service compares the current
      one. Only a change touches the user's hash and sessions. */
  method NewPassword(svc: AuthService, user: User, currentPassword: Option<string>, newPassword: Option<string>, now: int)
    returns (reply: Reply)
    modifies user`passwordHash, svc.sessions`isActive, svc.sessions`logoutAt
    ensures reply ==
      if TooShort(newPassword) then Reply(BAD_REQUEST, Error(NEW_PASSWORD_TOO_SHORT))
      else if currentPassword.None? then Reply(SERVER_ERROR, ServerError)
      else if !svc.matches(currentPassword.value, old(user.passwordHash)) then
        Reply(BAD_REQUEST, Password(Rejected(WRONG_CURRENT_PASSWORD)))
      else Reply(OK, Password(Changed(PASSWORD_CHANGED)))
    ensures user.passwordHash == if reply.status == OK then svc.encode(newPassword.value) else old(user.passwordHash)
    ensures forall k :: 0 <= k < |svc.sessions| ==>
      SessionAfterChange(svc.sessions[k], reply.status == OK, user, now, old(svc.sessions[k].isActive), old(svc.sessions[k].logoutAt))
  {
    if TooShort(newPassword) {
      return Reply(BAD_REQUEST, Error(NEW_PASSWORD_TOO_SHORT));
    }
    var a := svc.ChangePassword(user, currentPassword, newPassword.value, now);
    reply := match a
      case Changed(_) => Reply(OK, Password(a))
      case Rejected(_) => Reply(BAD_REQUEST, Password(a))
      case RawPasswordNull => Reply(SERVER_ERROR, ServerError);
  }

  /** GET /api/auth/validate: always 200, valid exactly when a header names
      a live session; without a header the service is not asked. */
  method ValidateToken(svc: AuthService, authHeader: Option<string>, now: int) returns (reply: Reply)
    requires svc.Valid()
    modifies svc.sessions`lastActivityAt, svc.users`lastActivityAt
    ensures ExtractToken(authHeader).None? ==>
      reply == Reply(OK, Validity(false)) && unchanged(svc.sessions) && unchanged(svc.users)
    ensures ExtractToken(authHeader).Some? ==>
      reply == Reply(OK, Validity(old(svc.LiveSession(ExtractToken(authHeader).value, now)).Some?))
    ensures ExtractToken(authHeader).Some? && old(svc.LiveSession(ExtractToken(authHeader).value, now)).None? ==>
      (forall k :: 0 <= k < |svc.sessions| ==> unchanged(svc.sessions[k]))
      && (forall k :: 0 <= k < |svc.users| ==> unchanged(svc.users[k]))
    ensures ExtractToken(authHeader).Some? && old(svc.LiveSession(ExtractToken(authHeader).value, now)).Some? ==>
      var s := svc.sessions[old(svc.LiveSession(ExtractToken(authHeader).value, now)).value];
      s.lastActivityAt == now && s.user.lastActivityAt == Some(now)
      && (forall k :: 0 <= k < |svc.sessions| && svc.sessions[k] != s ==> unchanged(svc.sessions[k]))
      && (forall k :: 0 <= k < |svc.users| && svc.users[k] != s.user ==> unchanged(svc.users[k]))
    ensures svc.Valid()
  {
    var token := ExtractToken(authHeader);
    if token.None? {
      return Reply(OK, Validity(false));
    }
    var user := svc.ValidateToken(token.value, now);
    reply := Reply(OK, Validity(user.Some?));
  }
}
