/** Registration, login, logout, token validation, profile update and
    password change over a user store and a session store. The password
    encoder (BCrypt), the random source behind the user tags and the
    session-token generator are parameters; the clock is an explicit
    instant `now` in milliseconds. */
module Auth {
  import opened JavaLang
  import opened Users
  import opened Sessions

  const EMAIL_TAKEN: string := "Bu email adresi zaten kullan\U{0131}l\U{0131}yor"
  const NAME_REQUIRED: string := "\U{0130}sim gerekli"
  const USER_NOT_FOUND: string := "Kullan\U{0131}c\U{0131} bulunamad\U{0131}"
  const WRONG_PASSWORD: string := "Hatal\U{0131} \U{015F}ifre"
  const ACCOUNT_DISABLED: string := "Hesab\U{0131}n\U{0131}z devre d\U{0131}\U{015F}\U{0131} b\U{0131}rak\U{0131}lm\U{0131}\U{015F}"
  const WRONG_CURRENT_PASSWORD: string := "Mevcut \U{015F}ifre hatal\U{0131}"
  const PASSWORD_CHANGED: string :=
    "\U{015E}ifre ba\U{015F}ar\U{0131}yla g\U{00FC}ncellendi. L\U{00FC}tfen tekrar giri\U{015F} yap\U{0131}n."

  const MOBILE: string := "MOBILE"
  const WEB: string := "WEB"

  /** The keys of an update map that updateProfile looks at. */
  const DISPLAY_NAME_KEY: string := "displayName"
  const BIO_KEY: string := "bio"
  const AVATAR_URL_KEY: string := "avatarUrl"
  const COUNTRY_KEY: string := "country"
  const NATIVE_LANGUAGE_KEY: string := "nativeLanguage"
  const TARGET_LANGUAGE_KEY: string := "targetLanguage"
  const PROFICIENCY_LEVEL_KEY: string := "proficiencyLevel"

  // ---------------------------------------------------------------------------
  // User tags

  /** findUserByTag's normalisation: a "#" is put in front when missing. */
  function NormalizeTag(tag: string): (r: string)
    ensures StartsWith(r, "#")
    ensures |tag| <= |r| <= |tag| + 1 && r[|r| - |tag|..] == tag
    ensures StartsWith(tag, "#") <==> r == tag
  {
    if StartsWith(tag, "#") then tag else "#" + tag
  }

  /** Normalising twice is normalising once, and "12345" and "#12345" name the same tag. */
  lemma NormalizeTagIdempotent(tag: string)
    ensures NormalizeTag(NormalizeTag(tag)) == NormalizeTag(tag)
    ensures !StartsWith(tag, "#") ==> NormalizeTag("#" + tag) == NormalizeTag(tag)
  {
    assert ("#" + tag)[..1] == "#";
  }

  /** The tag text for a drawn number: "#" followed by its decimal digits. */
  function TagOf(n: int): string {
    "#" + IntToString(n)
  }

  /** The random source: draw(a, b) is what Random.nextInt(b) returns when it
      is called with bound b during the a-th attempt (each attempt calls each
      bound at most once, so this names every call). */
  ghost predicate RandomInts(draw: (nat, int) -> int) {
    forall a: nat :: 0 <= draw(a, 90000) < 90000 && 0 <= draw(a, 900000) < 900000
  }

  /** The number the a-th attempt of generateUniqueUserTag ends up with: a
      5-digit draw for the first 100 attempts, a 6-digit one afterwards. */
  function Candidate(draw: (nat, int) -> int, a: nat): (n: int)
    requires RandomInts(draw)
    ensures a <= 100 ==> 10000 <= n <= 99999
    ensures a > 100 ==> 100000 <= n <= 999999
  {
    if a <= 100 then 10000 + draw(a, 90000) else 100000 + draw(a, 900000)
  }

  /** A 5-digit number gives a 6-character tag and a 6-digit one a
      7-character tag, within the 10 characters of the user_tag column. */
  lemma CandidateTagLength(draw: (nat, int) -> int, a: nat)
    requires RandomInts(draw)
    ensures |TagOf(Candidate(draw, a))| == (if a <= 100 then 6 else 7)
  {
    var n := Candidate(draw, a);
    assert Pow10(4) == 10000 && Pow10(5) == 100000 && Pow10(6) == 1000000;
    if a <= 100 {
      DigitCount(n, 5);
    } else {
      DigitCount(n, 6);
    }
  }

  function Pow10(d: nat): nat {
    if d == 0 then 1 else 10 * Pow10(d - 1)
  }

  /** A number with exactly d digits prints as d characters. */
  lemma {:induction false} DigitCount(n: nat, d: nat)
    requires 1 <= d && Pow10(d - 1) <= n < Pow10(d)
    ensures |NatToString(n)| == d
  {
    if d > 1 {
      DigitCount(n / 10, d - 1);
    }
  }

  // ---------------------------------------------------------------------------
  // Repository lookups

  /** UserRepository.findByEmail: the first user with this email. */
  function FindEmail(us: seq<User>, email: string): (r: Option<nat>)
    reads us`email
    ensures r.Some? ==> r.value < |us| && us[r.value].email == email
    ensures r.Some? ==> forall k :: 0 <= k < r.value ==> us[k].email != email
    ensures r.None? <==> forall k :: 0 <= k < |us| ==> us[k].email != email
  {
    if us == [] then None
    else if us[0].email == email then Some(0)
    else match FindEmail(us[1..], email)
      case None => None
      case Some(k) => Some(k + 1)
  }

  /** UserRepository.findByUserTag: the first user with this tag. */
  function FindTag(us: seq<User>, tag: string): (r: Option<nat>)
    reads us`userTag
    ensures r.Some? ==> r.value < |us| && us[r.value].userTag == tag
    ensures r.Some? ==> forall k :: 0 <= k < r.value ==> us[k].userTag != tag
    ensures r.None? <==> forall k :: 0 <= k < |us| ==> us[k].userTag != tag
  {
    if us == [] then None
    else if us[0].userTag == tag then Some(0)
    else match FindTag(us[1..], tag)
      case None => None
      case Some(k) => Some(k + 1)
  }

  /** UserSessionRepository.findBySessionToken: the first session with this token. */
  function FindToken(ss: seq<UserSession>, token: string): (r: Option<nat>)
    reads ss`sessionToken
    ensures r.Some? ==> r.value < |ss| && ss[r.value].sessionToken == token
    ensures r.Some? ==> forall k :: 0 <= k < r.value ==> ss[k].sessionToken != token
    ensures r.None? <==> forall k :: 0 <= k < |ss| ==> ss[k].sessionToken != token
  {
    if ss == [] then None
    else if ss[0].sessionToken == token then Some(0)
    else match FindToken(ss[1..], token)
      case None => None
      case Some(k) => Some(k + 1)
  }

  /** UserRepository.existsByEmail */
  predicate ExistsByEmail(us: seq<User>, email: string)
    reads us`email
  {
    us != [] && (us[0].email == email || ExistsByEmail(us[1..], email))
  }

  /** UserRepository.existsByUserTag */
  predicate ExistsByTag(us: seq<User>, tag: string)
    reads us`userTag
  {
    us != [] && (us[0].userTag == tag || ExistsByTag(us[1..], tag))
  }

  /** existsByEmail answers whether findByEmail finds a user. */
  lemma {:induction false} ExistsByEmailFinds(us: seq<User>, email: string)
    ensures ExistsByEmail(us, email) <==> FindEmail(us, email).Some?
    decreases |us|
  {
    if us != [] {
      ExistsByEmailFinds(us[1..], email);
    }
  }

  /** existsByUserTag answers whether findByUserTag finds a user. */
  lemma {:induction false} ExistsByTagFinds(us: seq<User>, tag: string)
    ensures ExistsByTag(us, tag) <==> FindTag(us, tag).Some?
    decreases |us|
  {
    if us != [] {
      ExistsByTagFinds(us[1..], tag);
    }
  }

  /** login's dispatch: a key starting with "#" is looked up as a user tag,
      any other key as an email. */
  function FindLoginKey(us: seq<User>, key: string): (r: Option<nat>)
    reads us`email, us`userTag
    ensures StartsWith(key, "#") ==> r == FindTag(us, key)
    ensures !StartsWith(key, "#") ==> r == FindEmail(us, key)
  {
    if StartsWith(key, "#") then FindTag(us, key) else FindEmail(us, key)
  }

  /** A login key with "#" finds the user the tag search finds; without "#"
      a tag never logs in, even when the search would find it. */
  lemma LoginKeyAgreesWithSearch(us: seq<User>, key: string)
    ensures StartsWith(key, "#") ==> FindLoginKey(us, key) == FindTag(us, NormalizeTag(key))
    ensures !StartsWith(key, "#") && FindLoginKey(us, key).Some? ==> us[FindLoginKey(us, key).value].email == key
  {
  }

  // ---------------------------------------------------------------------------
  // Sessions and profiles

  /** createSession's device rule: MOBILE exactly when the device information
      is present and mentions "Android", WEB otherwise. */
  function DeviceType(deviceInfo: Option<string>): (r: string)
    ensures r == MOBILE <==> deviceInfo.Some? && Contains(deviceInfo.value, "Android")
    ensures r == MOBILE || r == WEB
  {
    if deviceInfo.Some? && Contains(deviceInfo.value, "Android") then MOBILE else WEB
  }

  /** A session just created by createSession for this user and token. */
  predicate OpenedSession(s: UserSession, user: User, sessionToken: string, refreshToken: string,
                          deviceInfo: Option<string>, now: int)
    reads s
  {
    s.user == user && s.sessionToken == sessionToken && s.refreshToken == Some(refreshToken)
    && s.deviceType == Some(DeviceType(deviceInfo)) && s.deviceName == deviceInfo
    && s.loginAt == now && s.lastActivityAt == now && s.expiresAt == now + SESSION_DAYS * MS_PER_DAY
    && s.isActive && s.logoutAt == None
  }

  /** updateProfile's proficiency parsing: upper-case, "-" to "_", then Enum.valueOf. */
  function ParseLevel(v: string): (r: Option<ProficiencyLevel>)
    ensures r.Some? ==> LevelName(r.value) == ReplaceAll(ToUpper(v), "-", "_")
  {
    LevelValueOf(ReplaceAll(ToUpper(v), "-", "_"))
  }

  /** Replacing a one-character pattern maps each character on its own. */
  lemma {:induction false} ReplaceCharPointwise(s: string, c: char, d: char)
    ensures |ReplaceAll(s, [c], [d])| == |s|
    ensures forall i :: 0 <= i < |s| ==> ReplaceAll(s, [c], [d])[i] == (if s[i] == c then d else s[i])
    decreases |s|
  {
    if |s| > 0 {
      ReplaceCharPointwise(s[1..], c, d);
    }
  }

  /** Upper-casing changes nothing in a string without lower-case letters. */
  lemma UpperFixed(s: string)
    requires forall i :: 0 <= i < |s| ==> !('a' <= s[i] <= 'z')
    ensures ToUpper(s) == s
  {
  }

  /** Any spelling of an enum name that upper-cases to it is accepted. */
  lemma ParseLevelAnyCase(v: string, p: ProficiencyLevel)
    requires ToUpper(v) == LevelName(p)
    ensures ParseLevel(v) == Some(p)
  {
    var n := LevelName(p);
    assert !Contains(n, "-") by {
      forall i | 0 <= i <= |n| - 1 ensures !OccursAt(n, "-", i) {
        assert n[i..i + 1][0] == n[i];
        match p { case _ => }
      }
    }
    ReplaceAllAbsent(n, "-", "_");
    LevelNamesRoundTrip(p, n);
  }

  /** Every display name ("Upper-Intermediate" and the others) parses back to its level. */
  lemma ParseLevelDisplayName(p: ProficiencyLevel)
    ensures ParseLevel(LevelDisplayName(p)) == Some(p)
  {
    var v := LevelDisplayName(p);
    if p == UPPER_INTERMEDIATE {
      ParseUpperIntermediate(v);
    } else {
      UpperDisplayName(v, p);
      ParseLevelAnyCase(v, p);
    }
  }

  /** Apart from "Upper-Intermediate", a display name upper-cases to the enum name. */
  lemma UpperDisplayName(v: string, p: ProficiencyLevel)
    requires p != UPPER_INTERMEDIATE && v == LevelDisplayName(p)
    ensures ToUpper(v) == LevelName(p)
  {
    var n := LevelName(p);
    assert |v| == |n| && forall i :: 0 <= i < |v| ==> UpperChar(v[i]) == n[i] by {
      match p { case _ => }
    }
  }

  /** "Upper-Intermediate" upper-cases to "UPPER-INTERMEDIATE", whose "-" becomes "_". */
  lemma ParseUpperIntermediate(v: string)
    requires v == "Upper-Intermediate"
    ensures ParseLevel(v) == Some(UPPER_INTERMEDIATE)
  {
    var u := ToUpper(v);
    UpperIntermediateUpper(v, u);
    var w := ReplaceAll(u, "-", "_");
    UpperIntermediateDash(u, w);
  }

  lemma UpperIntermediateUpper(v: string, u: string)
    requires v == "Upper-Intermediate" && u == ToUpper(v)
    ensures u == "UPPER-INTERMEDIATE"
  {
    assert forall i :: 0 <= i < |v| ==> UpperChar(v[i]) == "UPPER-INTERMEDIATE"[i];
  }

  lemma UpperIntermediateDash(u: string, w: string)
    requires u == "UPPER-INTERMEDIATE" && w == ReplaceAll(u, "-", "_")
    ensures w == "UPPER_INTERMEDIATE"
  {
    ReplaceCharPointwise(u, '-', '_');
    assert forall i :: 0 <= i < |w| ==> w[i] == "UPPER_INTERMEDIATE"[i];
  }

  /** updateProfile on a plain field: a present key replaces the value (a
      JSON null included), a missing key keeps it. */
  function Replaced(current: Option<string>, updates: map<string, Option<string>>, key: string): Option<string> {
    if key in updates then updates[key] else current
  }

  /** updateProfile on the display name: only a present, non-blank value
      counts, and it is stored trimmed. */
  function UpdatedName(current: string, updates: map<string, Option<string>>): (r: string)
    ensures r == current || (r != [] && IsTrimmed(r))
  {
    if DISPLAY_NAME_KEY !in updates then current
    else match RequiredText(updates[DISPLAY_NAME_KEY])
      case None => current
      case Some(name) => name
  }

  /** updateProfile on the level: a name that parses replaces it, any other keeps it. */
  function UpdatedLevel(current: ProficiencyLevel, updates: map<string, Option<string>>): ProficiencyLevel {
    if PROFICIENCY_LEVEL_KEY in updates && updates[PROFICIENCY_LEVEL_KEY].Some?
       && ParseLevel(updates[PROFICIENCY_LEVEL_KEY].value).Some?
    then ParseLevel(updates[PROFICIENCY_LEVEL_KEY].value).value
    else current
  }

  // ---------------------------------------------------------------------------
  // The service

  /** The schema's constraints: email and user_tag are unique, and every
      session belongs to a stored user. */
  ghost predicate Consistent(us: seq<User>, ss: seq<UserSession>)
    reads us`email, us`userTag, ss`user
  {
    (forall i, j :: 0 <= i < j < |us| ==> us[i].email != us[j].email)
    && (forall i, j :: 0 <= i < j < |us| ==> us[i].userTag != us[j].userTag)
    && (forall k :: 0 <= k < |ss| ==> ss[k].user in us)
  }

  /** A new user with an unused email and an unused tag, and a session of
      that user, keep the constraints. */
  lemma RegisterKeepsConsistent(us: seq<User>, ss: seq<UserSession>, u: User, s: UserSession)
    requires Consistent(us, ss) && s.user == u
    requires !ExistsByEmail(us, u.email) && !ExistsByTag(us, u.userTag)
    ensures Consistent(us + [u], ss + [s])
  {
    ExistsByEmailFinds(us, u.email);
    ExistsByTagFinds(us, u.userTag);
    var us' := us + [u];
    forall i, j | 0 <= i < j < |us'| ensures us'[i].email != us'[j].email && us'[i].userTag != us'[j].userTag {
      if j == |us| {
        assert us'[i] == us[i];
      }
    }
  }

  /** A user as register stores it: the given identity, active, just logged
      in, at the first level with no XP. */
  predicate Registered(u: User, email: string, displayName: string, passwordHash: string, now: int)
    reads u
  {
    u.email == email && u.displayName == displayName && u.passwordHash == passwordHash
    && u.isActive && u.isOnline && u.lastLogin == Some(now) && u.lastActivityAt == Some(now)
    && u.createdAt == now && u.proficiencyLevel == BEGINNER && u.totalXp == 0 && u.level == 1
  }

  /** A registration or login outcome. */
  datatype AuthAnswer = Failure(error: string) | Success(user: User, sessionToken: string, expiresAt: int)

  /** A password-change outcome; RawPasswordNull stands for BCrypt's
      IllegalArgumentException on a missing current password, which rolls the
      transaction back. */
  datatype PasswordAnswer = Rejected(error: string) | Changed(message: string) | RawPasswordNull

  class AuthService {
    /** The user table and the session table. */
    var users: seq<User>
    var sessions: seq<UserSession>
    /** BCryptPasswordEncoder.matches(raw, hash) and encode(raw). */
    const matches: (string, string) -> bool
    const encode: string -> string

    constructor (matches: (string, string) -> bool, encode: string -> string)
      ensures users == [] && sessions == []
      ensures this.matches == matches && this.encode == encode
    {
      this.matches := matches;
      this.encode := encode;
      users := [];
      sessions := [];
    }

    /** The schema's constraints hold for the two tables. */
    ghost predicate Valid()
      reads this`users, this`sessions, users`email, users`userTag, sessions`user
    {
      Consistent(users, sessions)
    }

    /** Attempt `free` of the tag generator draws a tag nobody has yet. */
    ghost predicate FreeAttempt(draw: (nat, int) -> int, free: nat)
      reads this`users, users`userTag
    {
      RandomInts(draw) && free >= 1 && !ExistsByTag(users, TagOf(Candidate(draw, free)))
    }

    /** Some user already has the tag attempt `a` draws. */
    ghost predicate Taken(draw: (nat, int) -> int, a: nat)
      requires RandomInts(draw)
      reads this`users, users`userTag
    {
      ExistsByTag(users, TagOf(Candidate(draw, a)))
    }

    /** generateUniqueUserTag: the first attempt whose tag is unused. */
    method GenerateUniqueUserTag(draw: (nat, int) -> int, ghost free: nat)
      returns (tag: string, number: int, attempts: nat)
      requires FreeAttempt(draw, free)
      ensures 1 <= attempts <= free
      ensures number == Candidate(draw, attempts) && tag == TagOf(number)
      ensures attempts <= 100 ==> 10000 <= number <= 99999
      ensures attempts > 100 ==> 100000 <= number <= 999999
      ensures !ExistsByTag(users, tag)
      ensures forall a :: 1 <= a < attempts ==> Taken(draw, a)
    {
      attempts := 1;
      number, tag := DrawTag(draw, attempts);
      while ExistsByTag(users, tag)
        invariant 1 <= attempts <= free
        invariant number == Candidate(draw, attempts) && tag == TagOf(number)
        invariant forall a :: 1 <= a < attempts ==> Taken(draw, a)
        decreases free - attempts
      {
        attempts := attempts + 1;
        number, tag := DrawTag(draw, attempts);
      }
    }

    /** One pass of generateUniqueUserTag's loop body: a 5-digit number, and
        after the 100th attempt a 6-digit one drawn in its place. */
    static method DrawTag(draw: (nat, int) -> int, attempts: nat) returns (number: int, tag: string)
      requires RandomInts(draw)
      ensures number == Candidate(draw, attempts) && tag == TagOf(number)
    {
      number := 10000 + draw(attempts, 90000);
      tag := TagOf(number);
      if attempts > 100 {
        number := 100000 + draw(attempts, 900000);
        tag := TagOf(number);
      }
    }

    /** createSession: a new active session for the user, stored last. */
    method CreateSession(user: User, sessionToken: string, refreshToken: string, deviceInfo: Option<string>, now: int)
      returns (s: UserSession)
      modifies this`sessions
      ensures fresh(s) && sessions == old(sessions) + [s]
      ensures OpenedSession(s, user, sessionToken, refreshToken, deviceInfo, now)
    {
      s := new UserSession(user, sessionToken, now);
      s.refreshToken := Some(refreshToken);
      s.deviceType := Some(DeviceType(deviceInfo));
      s.deviceName := deviceInfo;
      sessions := sessions + [s];
    }

    /** register: a duplicate email is refused before a blank name; on
        success the user is stored with the trimmed name, the encoded password
        and a fresh tag, logged in, and given a session. */
    method Register(email: string, displayName: Option<string>, password: string, deviceInfo: Option<string>,
                    draw: (nat, int) -> int, ghost free: nat, sessionToken: string, refreshToken: string, now: int)
      returns (r: AuthAnswer)
      requires FreeAttempt(draw, free)
      modifies this`users, this`sessions
      ensures old(ExistsByEmail(users, email)) ==> r == Failure(EMAIL_TAKEN)
      ensures !old(ExistsByEmail(users, email)) && RequiredText(displayName).None? ==> r == Failure(NAME_REQUIRED)
      ensures r.Failure? ==> users == old(users) && sessions == old(sessions)
      ensures r.Success? ==>
        !old(ExistsByEmail(users, email)) && RequiredText(displayName).Some?
        && fresh(r.user) && users == old(users) + [r.user]
        && Registered(r.user, email, RequiredText(displayName).value, encode(password), now)
        && StartsWith(r.user.userTag, "#") && (var tag := r.user.userTag; !old(ExistsByTag(users, tag)))
        && |sessions| == |old(sessions)| + 1 && sessions == old(sessions) + [sessions[|old(sessions)|]]
        && OpenedSession(sessions[|old(sessions)|], r.user, sessionToken, refreshToken, deviceInfo, now)
        && r.sessionToken == sessionToken && r.expiresAt == now + SESSION_DAYS * MS_PER_DAY
      ensures old(Valid()) ==> Valid()
    {
      if ExistsByEmail(users, email) {
        return Failure(EMAIL_TAKEN);
      }
      var name := RequiredText(displayName);
      if name.None? {
        return Failure(NAME_REQUIRED);
      }
      var u := Enroll(email, name.value, encode(password), deviceInfo, draw, free, sessionToken, refreshToken, now);
      r := Success(u, sessionToken, now + SESSION_DAYS * MS_PER_DAY);
    }

    /** register's success path: the user is built with a fresh tag, logged
        in and stored, and given a session. */
    method Enroll(email: string, displayName: string, passwordHash: string, deviceInfo: Option<string>,
                  draw: (nat, int) -> int, ghost free: nat, sessionToken: string, refreshToken: string, now: int)
      returns (u: User)
      requires !ExistsByEmail(users, email) && FreeAttempt(draw, free)
      modifies this`users, this`sessions
      ensures fresh(u) && users == old(users) + [u]
      ensures Registered(u, email, displayName, passwordHash, now)
      ensures StartsWith(u.userTag, "#") && (var tag := u.userTag; !old(ExistsByTag(users, tag)))
      ensures |sessions| == |old(sessions)| + 1 && sessions == old(sessions) + [sessions[|old(sessions)|]]
      ensures OpenedSession(sessions[|old(sessions)|], u, sessionToken, refreshToken, deviceInfo, now)
      ensures old(Valid()) ==> Valid()
    {
      ghost var wasValid := Valid();
      var tag, _, _ := GenerateUniqueUserTag(draw, free);
      assert wasValid ==> Valid();
      u := AddUser(email, displayName, passwordHash, tag, deviceInfo, sessionToken, refreshToken, now);
    }

    /** The new user, logged in, is stored and given a session. */
    method AddUser(email: string, displayName: string, passwordHash: string, userTag: string,
                   deviceInfo: Option<string>, sessionToken: string, refreshToken: string, now: int)
      returns (u: User)
      requires !ExistsByEmail(users, email) && !ExistsByTag(users, userTag)
      modifies this`users, this`sessions
      ensures fresh(u) && users == old(users) + [u]
      ensures Registered(u, email, displayName, passwordHash, now) && u.userTag == userTag
      ensures |sessions| == |old(sessions)| + 1 && sessions == old(sessions) + [sessions[|old(sessions)|]]
      ensures OpenedSession(sessions[|old(sessions)|], u, sessionToken, refreshToken, deviceInfo, now)
      ensures old(Valid()) ==> Valid()
    {
      ghost var wasValid := Valid();
      ghost var us, ss := users, sessions;
      u := new User(email, displayName, passwordHash, userTag, now);
      u.RecordLogin(now);
      users := users + [u];
      var s := CreateSession(u, sessionToken, refreshToken, deviceInfo, now);
      if wasValid {
        assert Consistent(us, ss);
        RegisterKeepsConsistent(us, ss, u, s);
      }
    }

    /** login: fails, in this order, on an unknown key, a wrong password and a
        disabled account; only a successful login records the login and opens a session. */
    method Login(emailOrTag: string, password: string, deviceInfo: Option<string>,
                 sessionToken: string, refreshToken: string, now: int)
      returns (r: AuthAnswer)
      modifies this`sessions, users`lastLogin, users`isOnline, users`lastActivityAt
      ensures old(FindLoginKey(users, emailOrTag)).None? ==> r == Failure(USER_NOT_FOUND)
      ensures old(FindLoginKey(users, emailOrTag)).Some? ==>
        var u := users[old(FindLoginKey(users, emailOrTag)).value];
        if !matches(password, u.passwordHash) then r == Failure(WRONG_PASSWORD)
        else if !u.isActive then r == Failure(ACCOUNT_DISABLED)
        else r.Success? && r.user == u
      ensures r.Failure? ==> sessions == old(sessions) && forall k :: 0 <= k < |users| ==> unchanged(users[k])
      ensures r.Success? ==>
        r.user.lastLogin == Some(now) && r.user.isOnline && r.user.lastActivityAt == Some(now)
        && (forall k :: 0 <= k < |users| && users[k] != r.user ==> unchanged(users[k]))
        && |sessions| == |old(sessions)| + 1 && sessions == old(sessions) + [sessions[|old(sessions)|]]
        && OpenedSession(sessions[|old(sessions)|], r.user, sessionToken, refreshToken, deviceInfo, now)
        && r.sessionToken == sessionToken && r.expiresAt == now + SESSION_DAYS * MS_PER_DAY
      ensures old(Valid()) ==> Valid()
    {
      var i := FindLoginKey(users, emailOrTag);
      if i.None? {
        return Failure(USER_NOT_FOUND);
      }
      var u := users[i.value];
      if !matches(password, u.passwordHash) {
        return Failure(WRONG_PASSWORD);
      }
      if !u.isActive {
        return Failure(ACCOUNT_DISABLED);
      }
      u.RecordLogin(now);
      var s := CreateSession(u, sessionToken, refreshToken, deviceInfo, now);
      r := Success(u, sessionToken, s.expiresAt);
    }

    /** logout: the session with the token, if any, is invalidated and its
        user logged out; the answer is success either way. */
    method Logout(sessionToken: string, now: int)
      requires Valid()
      modifies sessions`isActive, sessions`logoutAt, users`lastLogout, users`isOnline
      ensures old(FindToken(sessions, sessionToken)).None? ==>
        (forall k :: 0 <= k < |sessions| ==> unchanged(sessions[k]))
        && (forall k :: 0 <= k < |users| ==> unchanged(users[k]))
      ensures old(FindToken(sessions, sessionToken)).Some? ==>
        var s := sessions[old(FindToken(sessions, sessionToken)).value];
        !s.isActive && s.logoutAt == Some(now) && s.user.lastLogout == Some(now) && !s.user.isOnline
        && (forall k :: 0 <= k < |sessions| && sessions[k] != s ==> unchanged(sessions[k]))
        && (forall k :: 0 <= k < |users| && users[k] != s.user ==> unchanged(users[k]))
      ensures Valid()
    {
      var i := FindToken(sessions, sessionToken);
      if i.Some? {
        var s := sessions[i.value];
        s.Invalidate(now);
        s.user.RecordLogout(now);
      }
    }

    /** The session validateToken accepts: the one with the token, when it is
        active and not expired. */
    function LiveSession(sessionToken: string, now: int): (r: Option<nat>)
      reads this`sessions, sessions`sessionToken, sessions`isActive, sessions`expiresAt
      ensures r.Some? ==> r.value < |sessions| && sessions[r.value].sessionToken == sessionToken
      ensures r.Some? <==>
        (FindToken(sessions, sessionToken).Some?
         && sessions[FindToken(sessions, sessionToken).value].isActive
         && !sessions[FindToken(sessions, sessionToken).value].IsExpired(now))
    {
      match FindToken(sessions, sessionToken)
      case None => None
      case Some(i) => if !sessions[i].isActive || sessions[i].IsExpired(now) then None else Some(i)
    }

    /** validateToken: the session's user when the session is live, and then
        both record activity; nothing changes otherwise. */
    method ValidateToken(sessionToken: string, now: int) returns (r: Option<User>)
      requires Valid()
      modifies sessions`lastActivityAt, users`lastActivityAt
      ensures old(LiveSession(sessionToken, now)).None? ==>
        r == None
        && (forall k :: 0 <= k < |sessions| ==> unchanged(sessions[k]))
        && (forall k :: 0 <= k < |users| ==> unchanged(users[k]))
      ensures old(LiveSession(sessionToken, now)).Some? ==>
        var s := sessions[old(LiveSession(sessionToken, now)).value];
        r == Some(s.user) && s.user in users && s.lastActivityAt == now && s.user.lastActivityAt == Some(now)
        && (forall k :: 0 <= k < |sessions| && sessions[k] != s ==> unchanged(sessions[k]))
        && (forall k :: 0 <= k < |users| && users[k] != s.user ==> unchanged(users[k]))
      ensures Valid()
    {
      var i := LiveSession(sessionToken, now);
      if i.None? {
        return None;
      }
      var s := sessions[i.value];
      s.RecordActivity(now);
      s.user.RecordActivity(now);
      r := Some(s.user);
    }

    /** findUserByTag: the user with the normalised tag. */
    function FindUserByTag(tag: string): (r: Option<User>)
      reads this`users, users`userTag
      ensures r.Some? ==> r.value in users && r.value.userTag == NormalizeTag(tag)
      ensures r.None? <==> forall k :: 0 <= k < |users| ==> users[k].userTag != NormalizeTag(tag)
    {
      match FindTag(users, NormalizeTag(tag))
      case None => None
      case Some(i) => Some(users[i])
    }

    /** updateProfile: a key that is present replaces its field, a missing key
        keeps it; the display name changes only to a non-blank value, trimmed;
        an unknown level name is ignored. A null proficiency level makes the
        upper-casing throw, which rolls the whole update back. */
    method UpdateProfile(user: User, updates: map<string, Option<string>>) returns (ok: bool)
      modifies user`displayName, user`bio, user`avatarUrl, user`country,
               user`nativeLanguage, user`targetLanguage, user`proficiencyLevel
      ensures ok <==> !(PROFICIENCY_LEVEL_KEY in updates && updates[PROFICIENCY_LEVEL_KEY].None?)
      ensures !ok ==> unchanged(user)
      ensures ok ==> user.displayName == UpdatedName(old(user.displayName), updates)
      ensures ok ==> user.bio == Replaced(old(user.bio), updates, BIO_KEY)
      ensures ok ==> user.avatarUrl == Replaced(old(user.avatarUrl), updates, AVATAR_URL_KEY)
      ensures ok ==> user.country == Replaced(old(user.country), updates, COUNTRY_KEY)
      ensures ok ==> user.nativeLanguage == Replaced(old(user.nativeLanguage), updates, NATIVE_LANGUAGE_KEY)
      ensures ok ==> user.targetLanguage == Replaced(old(user.targetLanguage), updates, TARGET_LANGUAGE_KEY)
      ensures ok ==> user.proficiencyLevel == UpdatedLevel(old(user.proficiencyLevel), updates)
      ensures old(Valid()) ==> Valid()
    {
      if PROFICIENCY_LEVEL_KEY in updates && updates[PROFICIENCY_LEVEL_KEY].None? {
        return false;
      }
      // Each key is applied on its own; a missing key leaves its field as it was.
      user.SetProfile(UpdatedName(user.displayName, updates), Replaced(user.bio, updates, BIO_KEY),
        Replaced(user.avatarUrl, updates, AVATAR_URL_KEY), Replaced(user.country, updates, COUNTRY_KEY),
        Replaced(user.nativeLanguage, updates, NATIVE_LANGUAGE_KEY),
        Replaced(user.targetLanguage, updates, TARGET_LANGUAGE_KEY),
        UpdatedLevel(user.proficiencyLevel, updates));
      ok := true;
    }

    /** changePassword: a wrong current password changes nothing; otherwise the
        new password is encoded and every active session of the user is
        closed at `now`, while every other session keeps its state. */
    method ChangePassword(user: User, currentPassword: Option<string>, newPassword: string, now: int)
      returns (r: PasswordAnswer)
      modifies user`passwordHash, sessions`isActive, sessions`logoutAt
      ensures currentPassword.None? ==> r == RawPasswordNull
      ensures currentPassword.Some? && !matches(currentPassword.value, old(user.passwordHash))
        ==> r == Rejected(WRONG_CURRENT_PASSWORD)
      ensures !r.Changed? ==> unchanged(user) && forall k :: 0 <= k < |sessions| ==> unchanged(sessions[k])
      ensures currentPassword.Some? && matches(currentPassword.value, old(user.passwordHash)) ==>
        r == Changed(PASSWORD_CHANGED) && user.passwordHash == encode(newPassword)
        && (forall k :: 0 <= k < |sessions| ==>
              sessions[k].isActive == (old(sessions[k].isActive) && sessions[k].user != user))
        && (forall k :: 0 <= k < |sessions| ==>
              sessions[k].logoutAt ==
                (if old(sessions[k].isActive) && sessions[k].user == user then Some(now) else old(sessions[k].logoutAt)))
      ensures r.Changed? ==> forall k :: 0 <= k < |sessions| && sessions[k].user == user ==> !sessions[k].isActive
      ensures old(Valid()) ==> Valid()
    {
      if currentPassword.None? {
        return RawPasswordNull;
      }
      if !matches(currentPassword.value, user.passwordHash) {
        return Rejected(WRONG_CURRENT_PASSWORD);
      }
      user.passwordHash := encode(newPassword);
      // invalidateAllUserSessions: one bulk update; a session object that
      // occurs twice is closed once and then left alone.
      for i := 0 to |sessions|
        invariant user.passwordHash == encode(newPassword)
        invariant forall k :: 0 <= k < |sessions| ==>
          (sessions[k].isActive == old(sessions[k].isActive) && sessions[k].logoutAt == old(sessions[k].logoutAt))
          || Closed(sessions[k], user, now, old(sessions[k].isActive), old(sessions[k].logoutAt))
        invariant forall k :: 0 <= k < i ==>
          Closed(sessions[k], user, now, old(sessions[k].isActive), old(sessions[k].logoutAt))
      {
        var s := sessions[i];
        if s.user == user && s.isActive {
          s.isActive := false;
          s.logoutAt := Some(now);
        }
      }
      r := Changed(PASSWORD_CHANGED);
    }
  }

  /** A session after invalidateAllUserSessions(user, now), given its state before. */
  predicate Closed(s: UserSession, user: User, now: int, wasActive: bool, loggedOut: Option<int>)
    reads s
  {
    s.isActive == (wasActive && s.user != user)
    && s.logoutAt == (if wasActive && s.user == user then Some(now) else loggedOut)
  }
}
