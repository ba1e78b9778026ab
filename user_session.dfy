/** A login session: valid for 30 days from creation, extendable, and
    invalidated on logout. Instants are milliseconds supplied by the caller. */
module Sessions {
  import opened JavaLang
  import opened Users

  const MS_PER_DAY: int := 86_400_000
  /** The validity of a new session. */
  const SESSION_DAYS: int := 30

  class UserSession {
    var user: User
    var sessionToken: string
    var refreshToken: Option<string>
    var deviceType: Option<string>
    var deviceName: Option<string>
    var loginAt: int
    var logoutAt: Option<int>
    var expiresAt: int
    var lastActivityAt: int
    var isActive: bool

    constructor (user: User, sessionToken: string, now: int)
      ensures this.user == user && this.sessionToken == sessionToken && refreshToken == None
      ensures loginAt == now && lastActivityAt == now
      ensures expiresAt == now + SESSION_DAYS * MS_PER_DAY
      ensures isActive && logoutAt == None
      ensures deviceType == None && deviceName == None
      ensures !IsExpired(now) && !IsExpired(expiresAt) && IsExpired(expiresAt + 1)
    {
      this.user := user;
      this.sessionToken := sessionToken;
      refreshToken := None;
      deviceType := None;
      deviceName := None;
      loginAt := now;
      lastActivityAt := now;
      expiresAt := now + SESSION_DAYS * MS_PER_DAY;
      isActive := true;
      logoutAt := None;
    }

    /** isExpired: strictly after the expiry instant; the expiry instant itself is still valid. */
    predicate IsExpired(now: int)
      reads this`expiresAt
    {
      now > expiresAt
    }

    method RecordActivity(now: int)
      modifies this`lastActivityAt
      ensures lastActivityAt == now
    {
      lastActivityAt := now;
    }

    method Invalidate(now: int)
      modifies this`isActive, this`logoutAt
      ensures !isActive && logoutAt == Some(now)
    {
      isActive := false;
      logoutAt := Some(now);
    }

    /** extendSession: the new expiry counts from now, whatever the old one was. */
    method ExtendSession(days: int, now: int)
      requires INT_MIN <= days <= INT_MAX
      modifies this`expiresAt
      ensures expiresAt == now + days * MS_PER_DAY
      ensures days >= 0 ==> !IsExpired(now)
      ensures days < 0 ==> IsExpired(now)
    {
      expiresAt := now + days * MS_PER_DAY;
    }
  }

  /** isExpired is a threshold in time: the expiry instant itself is still
      valid, the next millisecond is not, and once expired a session stays
      expired at every later instant. */
  lemma ExpiryThreshold(s: UserSession, t: int, later: int)
    requires t <= later
    ensures !s.IsExpired(s.expiresAt) && s.IsExpired(s.expiresAt + 1)
    ensures s.IsExpired(t) ==> s.IsExpired(later)
  {
  }
}
